/**
 * Values and the rigid body shared by the arena's entities: vectors,
 * orientations, axis-aligned extents and the physics engine's body.
 * Positions are exact reals; orientations are only ever copied.
 */
module Physics {

  /** A point or displacement in world space. */
  datatype Vec3 = Vec3(x: real, y: real, z: real)

  const Zero: Vec3 := Vec3(0.0, 0.0, 0.0)

  /** Componentwise sum: the position `p` moved by `v`. */
  function Add(p: Vec3, v: Vec3): Vec3
  {
    Vec3(p.x + v.x, p.y + v.y, p.z + v.z)
  }

  /** An orientation. Nothing here computes with one; entities copy it from body to mesh. */
  datatype Quaternion = Quaternion(x: real, y: real, z: real, w: real)

  /** The orientation a fresh mesh or body starts with. */
  const Identity: Quaternion := Quaternion(0.0, 0.0, 0.0, 1.0)

  /** A closed interval along one axis, from its `low` side to its `high` side. */
  datatype Span = Span(low: real, high: real)

  /** The interval of length `size` centred on `centre`. */
  function Centred(centre: real, size: real): (r: Span)
    ensures r.high - r.low == size
    ensures r.low + r.high == 2.0 * centre
    ensures size >= 0.0 ==> r.low <= centre <= r.high
  {
    Span(centre - size / 2.0, centre + size / 2.0)
  }

  /** Whether a body is moved by the simulation or stays where it was built. */
  datatype BodyType = Dynamic | Static

  /** The collision shapes the entities in this model attach to their bodies. */
  datatype Shape =
    | BoxShape(halfExtents: Vec3)
    | CylinderShape(radiusTop: real, radiusBottom: real, height: real, segments: nat)

  /**
   * A rigid body of the physics engine. The engine's stepper also writes
   * `position`, `velocity` and `quaternion`; here only the entities do.
   */
  class Body {
    const kind: BodyType
    const mass: real
    const shape: Shape
    var position: Vec3
    var velocity: Vec3
    var quaternion: Quaternion

    constructor (kind: BodyType, mass: real, shape: Shape, position: Vec3)
      ensures this.kind == kind && this.mass == mass && this.shape == shape
      ensures this.position == position && velocity == Zero && quaternion == Identity
    {
      this.kind := kind;
      this.mass := mass;
      this.shape := shape;
      this.position := position;
      velocity := Zero;
      quaternion := Identity;
    }
  }
}
