/**
 * The player: a box-shaped mesh driven by a dynamic physics body, steered
 * by five keyboard flags. Each frame it copies the body's transform into
 * the mesh, recomputes the six sides of its bounding box around the mesh
 * position, and then sets the body's velocity from the pressed keys.
 */
module PlayerMovement {
  import opened Physics

  /** Horizontal speed set by a movement key. */
  const SpeedVelocity: real := 3.0

  /** Vertical speed set by the jump key. */
  const JumpVelocity: real := 10.0

  datatype Option<T> = None | Some(value: T)

  /** The five keyboard flags: one per movement action. */
  datatype Keys = Keys(a: bool, d: bool, s: bool, w: bool, space: bool)

  /** The flags a new player starts with: nothing pressed. */
  const Released: Keys := Keys(false, false, false, false, false)

  /** What a key does: A left, D right, W forward, S backward, Space jump. */
  datatype Action = Left | Right | Forward | Backward | Jump

  /** The action bound to a keyboard event code, if any. */
  function ActionOf(code: string): Option<Action>
  {
    match code
    case "KeyA" => Some(Left)
    case "KeyD" => Some(Right)
    case "KeyW" => Some(Forward)
    case "KeyS" => Some(Backward)
    case "Space" => Some(Jump)
    case _ => None
  }

  /** The flag that records whether the key of `action` is held. */
  function Pressed(keys: Keys, action: Action): bool
  {
    match action
    case Left => keys.a
    case Right => keys.d
    case Forward => keys.w
    case Backward => keys.s
    case Jump => keys.space
  }

  /** The keydown handler: a recognised code sets its flag; nothing else changes. */
  function KeyDown(keys: Keys, code: string): (r: Keys)
    ensures forall act :: Pressed(r, act) == (ActionOf(code) == Some(act) || Pressed(keys, act))
    ensures ActionOf(code) == None ==> r == keys
  {
    match code
    case "KeyA" => keys.(a := true)
    case "KeyD" => keys.(d := true)
    case "KeyW" => keys.(w := true)
    case "KeyS" => keys.(s := true)
    case "Space" => keys.(space := true)
    case _ => keys
  }

  /** The keyup handler: a recognised code clears its flag; nothing else changes. */
  function KeyUp(keys: Keys, code: string): (r: Keys)
    ensures forall act :: Pressed(r, act) == (ActionOf(code) != Some(act) && Pressed(keys, act))
    ensures ActionOf(code) == None ==> r == keys
  {
    match code
    case "KeyA" => keys.(a := false)
    case "KeyD" => keys.(d := false)
    case "KeyS" => keys.(s := false)
    case "KeyW" => keys.(w := false)
    case "Space" => keys.(space := false)
    case _ => keys
  }

  /** One horizontal axis: the negative key wins over the positive one; neither keeps `current`. */
  function AxisVelocity(negative: bool, positive: bool, current: real): real
  {
    if negative then -SpeedVelocity else if positive then SpeedVelocity else current
  }

  /**
   * The velocity rule: A beats D on the x axis, W beats S on the z axis,
   * Space sets the jump speed on the y axis.
   */
  function Steer(keys: Keys, v: Vec3): (r: Vec3)
    ensures keys.a ==> r.x == -SpeedVelocity
    ensures !keys.a && keys.d ==> r.x == SpeedVelocity
    ensures !keys.a && !keys.d ==> r.x == v.x
    ensures keys.w ==> r.z == -SpeedVelocity
    ensures !keys.w && keys.s ==> r.z == SpeedVelocity
    ensures !keys.w && !keys.s ==> r.z == v.z
    ensures keys.space ==> r.y == JumpVelocity
    ensures !keys.space ==> r.y == v.y
  {
    Vec3(AxisVelocity(keys.a, keys.d, v.x),
         if keys.space then JumpVelocity else v.y,
         AxisVelocity(keys.w, keys.s, v.z))
  }

  /** The six sides of a box, per axis: left/right on x, bottom/top on y, front/back on z. */
  datatype SideBox = SideBox(x: Span, y: Span, z: Span)

  /** The box of the given size centred on `centre`. */
  function BoxAround(centre: Vec3, width: real, height: real, depth: real): (b: SideBox)
    ensures b.x.high - b.x.low == width && b.x.low + b.x.high == 2.0 * centre.x
    ensures b.y.high - b.y.low == height && b.y.low + b.y.high == 2.0 * centre.y
    ensures b.z.high - b.z.low == depth && b.z.low + b.z.high == 2.0 * centre.z
  {
    SideBox(Centred(centre.x, width), Centred(centre.y, height), Centred(centre.z, depth))
  }

  class Player {
    const width: real
    const height: real
    const depth: real

    var bottom: real
    var top: real
    var left: real
    var right: real
    var front: real
    var back: real

    /** The mesh's transform. */
    var position: Vec3
    var quaternion: Quaternion

    const body: Body

    var keys: Keys

    /** A displacement added to the body's position on every velocity update. */
    const velocity: Vec3

    function Sides(): SideBox
      reads this
    {
      SideBox(Span(left, right), Span(bottom, top), Span(front, back))
    }

    /** The sides are the box of the player's size around the mesh position. */
    ghost predicate SidesFit()
      reads this
    {
      Sides() == BoxAround(position, width, height, depth)
    }

    constructor (width: real, height: real, depth: real, position: Vec3 := Zero, velocity: Vec3 := Zero)
      ensures this.width == width && this.height == height && this.depth == depth
      ensures this.position == position && quaternion == Identity
      ensures SidesFit()
      ensures fresh(body) && body.kind == Dynamic && body.mass == 1.0
      ensures body.shape == BoxShape(Vec3(width / 2.0, height / 2.0, depth / 2.0))
      ensures body.position == position && body.velocity == Zero && body.quaternion == Identity
      ensures keys == Released && this.velocity == velocity
    {
      this.width := width;
      this.height := height;
      this.depth := depth;
      this.position := position;
      quaternion := Identity;
      bottom := position.y - height / 2.0;
      top := position.y + height / 2.0;
      left := position.x - width / 2.0;
      right := position.x + width / 2.0;
      front := position.z - depth / 2.0;
      back := position.z + depth / 2.0;
      body := new Body(Dynamic, 1.0, BoxShape(Vec3(width / 2.0, height / 2.0, depth / 2.0)), position);
      this.velocity := velocity;
      keys := Released;
    }

    /** One frame: copy the body's transform, recompute the sides, then steer the body. */
    method Update()
      modifies this`position, this`quaternion, this`bottom, this`top, this`left, this`right, this`front, this`back
      modifies body`velocity, body`position
      ensures position == old(body.position) && quaternion == body.quaternion
      ensures SidesFit() && Sides() == BoxAround(old(body.position), width, height, depth)
      ensures body.velocity == Steer(keys, old(body.velocity))
      ensures body.position == Add(old(body.position), velocity)
      ensures velocity == Zero ==> body.position == position
    {
      UpdateCollision();
      UpdateSides();
      UpdateVelocity();
    }

    /** Recompute the six sides around the current mesh position. */
    method UpdateSides()
      modifies this`bottom, this`top, this`left, this`right, this`front, this`back
      ensures SidesFit()
    {
      bottom := position.y - height / 2.0;
      top := position.y + height / 2.0;
      left := position.x - width / 2.0;
      right := position.x + width / 2.0;
      front := position.z - depth / 2.0;
      back := position.z + depth / 2.0;
    }

    /** Copy the body's position and orientation into the mesh. */
    method UpdateCollision()
      modifies this`position, this`quaternion
      ensures position == body.position && quaternion == body.quaternion
      ensures old(position) == body.position && old(quaternion) == body.quaternion ==> unchanged(this)
    {
      position := body.position;
      quaternion := body.quaternion;
    }

    /** Set the body's velocity from the keys and move the body by `velocity`. */
    method UpdateVelocity()
      modifies body`velocity, body`position
      ensures body.velocity == Steer(keys, old(body.velocity))
      ensures body.position == Add(old(body.position), velocity)
    {
      if keys.a {
        body.velocity := body.velocity.(x := -SpeedVelocity);
      } else if keys.d {
        body.velocity := body.velocity.(x := SpeedVelocity);
      }

      if keys.w {
        body.velocity := body.velocity.(z := -SpeedVelocity);
      } else if keys.s {
        body.velocity := body.velocity.(z := SpeedVelocity);
      }

      if keys.space {
        body.velocity := body.velocity.(y := JumpVelocity);
      }

      body.position := body.position.(x := body.position.x + velocity.x);
      body.position := body.position.(y := body.position.y + velocity.y);
      body.position := body.position.(z := body.position.z + velocity.z);
    }

    /** The keydown listener. */
    method OnKeyDown(code: string)
      modifies this`keys
      ensures keys == KeyDown(old(keys), code)
    {
      keys := KeyDown(keys, code);
    }

    /** The keyup listener. */
    method OnKeyUp(code: string)
      modifies this`keys
      ensures keys == KeyUp(old(keys), code)
    {
      keys := KeyUp(keys, code);
    }
  }

  // ---------------------------------------------------------------------
  // Properties of the key and velocity rules

  /** Two flag records are equal when they agree on every action. */
  lemma SameFlags(k1: Keys, k2: Keys)
    requires forall act :: Pressed(k1, act) == Pressed(k2, act)
    ensures k1 == k2
  {
    assert Pressed(k1, Left) == Pressed(k2, Left) && Pressed(k1, Right) == Pressed(k2, Right);
    assert Pressed(k1, Forward) == Pressed(k2, Forward) && Pressed(k1, Backward) == Pressed(k2, Backward);
    assert Pressed(k1, Jump) == Pressed(k2, Jump);
  }

  /** Releasing a key after pressing it leaves the flags as releasing it alone would. */
  lemma ReleaseAfterPress(keys: Keys, code: string)
    ensures KeyUp(KeyDown(keys, code), code) == KeyUp(keys, code)
  {
    SameFlags(KeyUp(KeyDown(keys, code), code), KeyUp(keys, code));
  }

  /** Pressing a key twice is pressing it once; likewise releasing. */
  lemma KeyEventsIdempotent(keys: Keys, code: string)
    ensures KeyDown(KeyDown(keys, code), code) == KeyDown(keys, code)
    ensures KeyUp(KeyUp(keys, code), code) == KeyUp(keys, code)
  {
    SameFlags(KeyDown(KeyDown(keys, code), code), KeyDown(keys, code));
    SameFlags(KeyUp(KeyUp(keys, code), code), KeyUp(keys, code));
  }

  /**
   * Events for keys bound to different actions, or to none, do not
   * interfere: a keyup and a keydown commute, and so do two keydowns or
   * two keyups.
   */
  lemma KeyEventsCommute(keys: Keys, c1: string, c2: string)
    requires ActionOf(c1) != ActionOf(c2) || ActionOf(c1) == None
    ensures KeyDown(KeyUp(keys, c1), c2) == KeyUp(KeyDown(keys, c2), c1)
    ensures KeyDown(KeyDown(keys, c1), c2) == KeyDown(KeyDown(keys, c2), c1)
    ensures KeyUp(KeyUp(keys, c1), c2) == KeyUp(KeyUp(keys, c2), c1)
  {
    SameFlags(KeyDown(KeyUp(keys, c1), c2), KeyUp(KeyDown(keys, c2), c1));
    PressesCommute(keys, c1, c2);
  }

  /**
   * The converse of `KeyEventsCommute`: for two codes of the same action,
   * a keydown after a keyup leaves the flag set, while a keyup after a
   * keydown clears it, so the two orders differ.
   */
  lemma SameActionEventsClash(keys: Keys, c1: string, c2: string)
    requires ActionOf(c1) == ActionOf(c2) && ActionOf(c1) != None
    ensures KeyDown(KeyUp(keys, c1), c2) != KeyUp(KeyDown(keys, c2), c1)
  {
    var act := ActionOf(c1).value;
    assert Pressed(KeyDown(KeyUp(keys, c1), c2), act);
    assert !Pressed(KeyUp(KeyDown(keys, c2), c1), act);
  }

  /** Two keydowns commute, and so do two keyups, whatever the two codes are. */
  lemma PressesCommute(keys: Keys, c1: string, c2: string)
    ensures KeyDown(KeyDown(keys, c1), c2) == KeyDown(KeyDown(keys, c2), c1)
    ensures KeyUp(KeyUp(keys, c1), c2) == KeyUp(KeyUp(keys, c2), c1)
  {
    SameFlags(KeyDown(KeyDown(keys, c1), c2), KeyDown(KeyDown(keys, c2), c1));
    SameFlags(KeyUp(KeyUp(keys, c1), c2), KeyUp(KeyUp(keys, c2), c1));
  }

  /** With no key held, steering changes nothing. */
  lemma SteerReleased(v: Vec3)
    ensures Steer(Released, v) == v
  {
  }

  /** While A is held, D has no effect; while W is held, S has no effect. */
  lemma SteerPriorities(keys: Keys, v: Vec3)
    ensures keys.a ==> Steer(keys.(d := !keys.d), v).x == Steer(keys, v).x == -SpeedVelocity
    ensures keys.w ==> Steer(keys.(s := !keys.s), v).z == Steer(keys, v).z == -SpeedVelocity
  {
  }

  /** Steering twice with the same keys is steering once. */
  lemma SteerIdempotent(keys: Keys, v: Vec3)
    ensures Steer(keys, Steer(keys, v)) == Steer(keys, v)
  {
  }

  /** Pressing Space sets the jump speed, whatever the player was doing: there is no ground check. */
  lemma JumpAfterSpace(keys: Keys, v: Vec3)
    ensures Steer(KeyDown(keys, "Space"), v).y == JumpVelocity
  {
  }

  /** Releasing A while D is held reverses the x velocity to +speed. */
  lemma ReleaseLeftWhileRight(keys: Keys, v: Vec3)
    requires keys.d
    ensures Steer(KeyDown(keys, "KeyA"), v).x == -SpeedVelocity
    ensures Steer(KeyUp(KeyDown(keys, "KeyA"), "KeyA"), v).x == SpeedVelocity
  {
  }
}
