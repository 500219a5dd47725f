/**
 * The ground: a cylindrical slab on a static physics body. Each frame it
 * copies the body's transform into its mesh and recomputes its top and
 * bottom around the mesh position.
 */
module GroundSlab {
  import opened Physics

  /** A colour, as an opaque stored value: the model never computes with it. */
  type Color = nat

  /** Radial segments of the ground's cylinder, mesh and collider alike. */
  const CylinderSegments: nat := 256

  class Ground {
    const radius: real
    const height: real
    const color: Color

    var bottom: real
    var top: real

    /** The mesh's transform. */
    var position: Vec3
    var quaternion: Quaternion

    const body: Body

    function Extent(): Span
      reads this
    {
      Span(bottom, top)
    }

    /** Top and bottom are the slab of the ground's height around the mesh position. */
    ghost predicate ExtentFits()
      reads this
    {
      Extent() == Centred(position.y, height)
    }

    constructor (radius: real, height: real, color: Color, position: Vec3 := Zero)
      ensures this.radius == radius && this.height == height && this.color == color
      ensures this.position == position && quaternion == Identity
      ensures ExtentFits()
      ensures fresh(body) && body.kind == Static && body.mass == 0.0
      ensures body.shape == CylinderShape(radius, radius, height, CylinderSegments)
      ensures body.position == position && body.quaternion == Identity
    {
      this.radius := radius;
      this.height := height;
      this.color := color;
      this.position := position;
      quaternion := Identity;
      bottom := position.y - height / 2.0;
      top := position.y + height / 2.0;
      body := new Body(Static, 0.0, CylinderShape(radius, radius, height, CylinderSegments), position);
    }

    /** One frame: copy the body's transform, then recompute the extent from it. */
    method Update()
      modifies this`position, this`quaternion, this`bottom, this`top
      ensures position == body.position && quaternion == body.quaternion
      ensures ExtentFits() && Extent() == Centred(body.position.y, height)
    {
      UpdateCollision();
      UpdateSides();
    }

    /** Recompute top and bottom around the current mesh position. */
    method UpdateSides()
      modifies this`bottom, this`top
      ensures ExtentFits()
      ensures top == position.y + height / 2.0 && bottom == position.y - height / 2.0
    {
      bottom := position.y - height / 2.0;
      top := position.y + height / 2.0;
    }

    /** Copy the body's position and orientation into the mesh. */
    method UpdateCollision()
      modifies this`position, this`quaternion
      ensures position == body.position && quaternion == body.quaternion
      ensures old(position) == body.position && old(quaternion) == body.quaternion ==> unchanged(this)
    {
      position := body.position;
      quaternion := body.quaternion;
    }
  }
}
