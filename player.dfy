/** The player: its collision box, the collision test against the block
    grid, survival movement resolved one axis at a time, spectator flight
    and the mode toggle. Positions and velocities are exact reals. */
module PlayerPhysics {
  import opened Blocks

  datatype Vec3 = Vec3(x: real, y: real, z: real)

  function Plus(a: Vec3, b: Vec3): Vec3 {
    Vec3(a.x + b.x, a.y + b.y, a.z + b.z)
  }

  function Minus(a: Vec3, b: Vec3): Vec3 {
    Vec3(a.x - b.x, a.y - b.y, a.z - b.z)
  }

  function Scale(a: Vec3, k: real): Vec3 {
    Vec3(a.x * k, a.y * k, a.z * k)
  }

  datatype GameMode = Spectator | Survival

  /** An axis-aligned box. */
  datatype Box = Box(lo: Vec3, hi: Vec3)

  const PLAYER_WIDTH: real := 0.6
  const PLAYER_HEIGHT: real := 1.8
  const GRAVITY: real := 28.0
  const WALK_SPEED: real := 6.0
  const JUMP_SPEED: real := 9.0
  const FLY_SPEED: real := 15.0
  const EYE_HEIGHT: real := 1.6

  /** The player's box at feet position pos: PLAYER_WIDTH wide on x and z,
      centred on pos, and PLAYER_HEIGHT tall from the feet up. */
  function GetAABB(pos: Vec3): (b: Box)
    ensures b.hi.x - b.lo.x == PLAYER_WIDTH && b.hi.z - b.lo.z == PLAYER_WIDTH
    ensures b.hi.y - b.lo.y == PLAYER_HEIGHT && b.lo.y == pos.y
    ensures (b.lo.x + b.hi.x) / 2.0 == pos.x && (b.lo.z + b.hi.z) / 2.0 == pos.z
  {
    Box(Minus(pos, Vec3(PLAYER_WIDTH / 2.0, 0.0, PLAYER_WIDTH / 2.0)),
        Plus(pos, Vec3(PLAYER_WIDTH / 2.0, PLAYER_HEIGHT, PLAYER_WIDTH / 2.0)))
  }

  /** Some cell of the inclusive integer range floor(lo)..floor(hi) of the
      box at pos, on every axis, holds a solid block. */
  ghost predicate Collides(world: BlockQuery, pos: Vec3) {
    var b := GetAABB(pos);
    exists x: int, y: int, z: int ::
      b.lo.x.Floor <= x <= b.hi.x.Floor && b.lo.y.Floor <= y <= b.hi.y.Floor &&
      b.lo.z.Floor <= z <= b.hi.z.Floor && IsSolid(world(x, y, z))
  }

  /** The collision test: scans the cells of the box's range in x, y, z
      order and stops at the first solid one. */
  method CheckCollision(world: BlockQuery, nextPos: Vec3) returns (r: bool)
    ensures r == Collides(world, nextPos)
  {
    var box := GetAABB(nextPos);
    var minX, maxX := box.lo.x.Floor, box.hi.x.Floor;
    var minY, maxY := box.lo.y.Floor, box.hi.y.Floor;
    var minZ, maxZ := box.lo.z.Floor, box.hi.z.Floor;
    var x := minX;
    while x <= maxX
      invariant minX <= x <= maxX + 1
      invariant forall x', y', z' :: minX <= x' < x && minY <= y' <= maxY && minZ <= z' <= maxZ ==>
        !IsSolid(world(x', y', z'))
    {
      var y := minY;
      while y <= maxY
        invariant minY <= y <= maxY + 1
        invariant forall x', y', z' :: minX <= x' < x && minY <= y' <= maxY && minZ <= z' <= maxZ ==>
          !IsSolid(world(x', y', z'))
        invariant forall y', z' :: minY <= y' < y && minZ <= z' <= maxZ ==> !IsSolid(world(x, y', z'))
      {
        var z := minZ;
        while z <= maxZ
          invariant minZ <= z <= maxZ + 1
          invariant forall x', y', z' :: minX <= x' < x && minY <= y' <= maxY && minZ <= z' <= maxZ ==>
            !IsSolid(world(x', y', z'))
          invariant forall y', z' :: minY <= y' < y && minZ <= z' <= maxZ ==> !IsSolid(world(x, y', z'))
          invariant forall z' :: minZ <= z' < z ==> !IsSolid(world(x, y, z'))
        {
          var b := world(x, y, z);
          if b != Air && b != Water {
            return true;
          }
          z := z + 1;
        }
        y := y + 1;
      }
      x := x + 1;
    }
    return false;
  }

  // ---------------------------------------------------------------------------
  // Survival movement as a function of the body state
  // ---------------------------------------------------------------------------

  /** The physical state survival movement updates. */
  datatype Body = Body(position: Vec3, velocity: Vec3, grounded: bool)

  /** Gravity, then the horizontal velocity set from the walking direction,
      then the jump: a jump needs the jump input and ground under the feet. */
  function Launch(b: Body, dt: real, jump: bool, moveDir: Vec3): (l: Body)
    ensures l.position == b.position
    ensures (jump && b.grounded) == (b.grounded && !l.grounded)
    ensures l.grounded ==> b.grounded
  {
    var vy := b.velocity.y - GRAVITY * dt;
    var v := Vec3(moveDir.x * WALK_SPEED, vy, moveDir.z * WALK_SPEED);
    if jump && b.grounded then Body(b.position, v.(y := JUMP_SPEED), false)
    else Body(b.position, v, b.grounded)
  }

  /** The box test the movement resolution consults: true where the
      player's box would overlap a solid cell. */
  type BlockedTest = Vec3 -> bool

  /** The collision test against a block grid as a blocked test. */
  ghost function CollisionTest(world: BlockQuery): BlockedTest {
    p => Collides(world, p)
  }

  /** A body part-way through a step, with the displacement still to commit. */
  datatype Stage = Stage(body: Body, move: Vec3)

  /** The vertical move: blocked, the body keeps its height, loses its
      vertical speed and lands if it was moving down; clear, it moves and is
      airborne. */
  function ResolveY(blocked: BlockedTest, s: Stage): (r: Stage)
    ensures r.body.position.x == s.body.position.x && r.body.position.z == s.body.position.z
    ensures r.body.velocity.x == s.body.velocity.x && r.body.velocity.z == s.body.velocity.z
    ensures r.move.x == s.move.x && r.move.z == s.move.z
    ensures (r.body.position.y == s.body.position.y + s.move.y && r.body.velocity.y == s.body.velocity.y
             && !r.body.grounded && !blocked(r.body.position))
         || (r.body.position.y == s.body.position.y && r.body.velocity.y == 0.0 && r.move.y == 0.0)
    ensures r.body.grounded ==> s.body.grounded || s.move.y < 0.0
  {
    var b, m := s.body, s.move;
    assert Plus(b.position, Vec3(0.0, m.y, 0.0)) == b.position.(y := b.position.y + m.y);
    if blocked(Plus(b.position, Vec3(0.0, m.y, 0.0))) then
      Stage(Body(b.position, b.velocity.(y := 0.0), if m.y < 0.0 then true else b.grounded), m.(y := 0.0))
    else
      Stage(Body(b.position.(y := b.position.y + m.y), b.velocity, false), m)
  }

  /** The move along x: blocked, the body keeps its x and loses its x speed. */
  function ResolveX(blocked: BlockedTest, s: Stage): (r: Stage)
    ensures r.body.position.y == s.body.position.y && r.body.position.z == s.body.position.z
    ensures r.body.velocity.y == s.body.velocity.y && r.body.velocity.z == s.body.velocity.z
    ensures r.body.grounded == s.body.grounded && r.move.y == s.move.y && r.move.z == s.move.z
    ensures (r.body.position.x == s.body.position.x + s.move.x && r.body.velocity.x == s.body.velocity.x
             && !blocked(r.body.position))
         || (r.body.position.x == s.body.position.x && r.body.velocity.x == 0.0 && r.move.x == 0.0)
  {
    var b, m := s.body, s.move;
    assert Plus(b.position, Vec3(m.x, 0.0, 0.0)) == b.position.(x := b.position.x + m.x);
    if blocked(Plus(b.position, Vec3(m.x, 0.0, 0.0))) then
      Stage(b.(velocity := b.velocity.(x := 0.0)), m.(x := 0.0))
    else
      Stage(b.(position := b.position.(x := b.position.x + m.x)), m)
  }

  /** The move along z: blocked, the body keeps its z and loses its z speed. */
  function ResolveZ(blocked: BlockedTest, s: Stage): (r: Stage)
    ensures r.body.position.x == s.body.position.x && r.body.position.y == s.body.position.y
    ensures r.body.velocity.x == s.body.velocity.x && r.body.velocity.y == s.body.velocity.y
    ensures r.body.grounded == s.body.grounded && r.move.x == s.move.x && r.move.y == s.move.y
    ensures (r.body.position.z == s.body.position.z + s.move.z && r.body.velocity.z == s.body.velocity.z
             && !blocked(r.body.position))
         || (r.body.position.z == s.body.position.z && r.body.velocity.z == 0.0 && r.move.z == 0.0)
  {
    var b, m := s.body, s.move;
    assert Plus(b.position, Vec3(0.0, 0.0, m.z)) == b.position.(z := b.position.z + m.z);
    if blocked(Plus(b.position, Vec3(0.0, 0.0, m.z))) then
      Stage(b.(velocity := b.velocity.(z := 0.0)), m.(z := 0.0))
    else
      Stage(b.(position := b.position.(z := b.position.z + m.z)), m)
  }

  /** One survival step: launch, take the displacement velocity * dt, then
      resolve y, x and z in that order, each axis tested from the position
      the previous ones committed. */
  function SurvivalStep(blocked: BlockedTest, b: Body, dt: real, jump: bool, moveDir: Vec3): (r: Body)
    ensures r.position == b.position || !blocked(r.position)
  {
    var l := Launch(b, dt, jump, moveDir);
    ResolveZ(blocked, ResolveX(blocked, ResolveY(blocked, Stage(l, Scale(l.velocity, dt))))).body
  }

  /** The jump rule: the vertical speed becomes JUMP_SPEED and the body
      leaves the ground exactly when the jump input is held on the ground;
      otherwise gravity lowers the vertical speed. */
  lemma LaunchJumpRule(b: Body, dt: real, jump: bool, moveDir: Vec3)
    ensures var l := Launch(b, dt, jump, moveDir);
      && (jump && b.grounded ==> l.velocity.y == JUMP_SPEED && !l.grounded)
      && (!(jump && b.grounded) ==> l.velocity.y == b.velocity.y - GRAVITY * dt && l.grounded == b.grounded)
      && l.position == b.position
  {
  }

  /** The horizontal velocity is overwritten, not accumulated: it depends
      only on the walking direction, whatever the body's previous velocity. */
  lemma LaunchOverwritesHorizontal(b1: Body, b2: Body, dt: real, jump: bool, moveDir: Vec3)
    ensures Launch(b1, dt, jump, moveDir).velocity.x == Launch(b2, dt, jump, moveDir).velocity.x == moveDir.x * WALK_SPEED
    ensures Launch(b1, dt, jump, moveDir).velocity.z == Launch(b2, dt, jump, moveDir).velocity.z == moveDir.z * WALK_SPEED
  {
  }

  /** Without horizontal input the step neither moves the body horizontally
      nor leaves it any horizontal speed. */
  lemma NoInputNoHorizontalMotion(blocked: BlockedTest, b: Body, dt: real, jump: bool)
    ensures var r := SurvivalStep(blocked, b, dt, jump, Vec3(0.0, 0.0, 0.0));
      r.velocity.x == 0.0 && r.velocity.z == 0.0 && r.position.x == b.position.x && r.position.z == b.position.z
  {
  }

  /** On each axis the step either commits the full displacement
      velocity * dt computed after launch, or, when the box at the moved
      position would collide, keeps the coordinate and zeroes the speed. */
  lemma StepAxisOutcomes(blocked: BlockedTest, b: Body, dt: real, jump: bool, moveDir: Vec3)
    ensures var l := Launch(b, dt, jump, moveDir);
      var ry := ResolveY(blocked, Stage(l, Scale(l.velocity, dt))).body;
      var rx := ResolveX(blocked, ResolveY(blocked, Stage(l, Scale(l.velocity, dt)))).body;
      var r := SurvivalStep(blocked, b, dt, jump, moveDir);
      && ((r.position.y == b.position.y && r.velocity.y == 0.0) ||
          (r.position.y == b.position.y + l.velocity.y * dt && r.velocity.y == l.velocity.y))
      && ((r.position.x == ry.position.x && r.velocity.x == 0.0) ||
          (r.position.x == ry.position.x + l.velocity.x * dt && r.velocity.x == l.velocity.x))
      && ((r.position.z == rx.position.z && r.velocity.z == 0.0) ||
          (r.position.z == rx.position.z + l.velocity.z * dt && r.velocity.z == l.velocity.z))
      && (blocked(Plus(l.position, Vec3(0.0, l.velocity.y * dt, 0.0))) ==>
            r.position.y == b.position.y && r.velocity.y == 0.0)
      && (blocked(Plus(ry.position, Vec3(l.velocity.x * dt, 0.0, 0.0))) ==>
            r.position.x == ry.position.x && r.velocity.x == 0.0)
      && (blocked(Plus(rx.position, Vec3(0.0, 0.0, l.velocity.z * dt))) ==>
            r.position.z == rx.position.z && r.velocity.z == 0.0)
  {
  }

  /** The grounded flag after a step: set when the vertical move is blocked
      while moving down, cleared when it is clear, and otherwise (blocked
      with a displacement of zero or more) as it was after the jump rule. */
  lemma StepGroundedRule(blocked: BlockedTest, b: Body, dt: real, jump: bool, moveDir: Vec3)
    ensures var l := Launch(b, dt, jump, moveDir);
      var m := Scale(l.velocity, dt);
      SurvivalStep(blocked, b, dt, jump, moveDir).grounded ==
      (blocked(Plus(l.position, Vec3(0.0, m.y, 0.0))) && (m.y < 0.0 || l.grounded))
  {
  }

  /** A body whose box is clear of solid blocks stays clear: every axis move
      either keeps the position or commits a position whose box was tested
      clear, so a step never moves the player into a block. */
  lemma StepKeepsBodyClear(blocked: BlockedTest, b: Body, dt: real, jump: bool, moveDir: Vec3)
    requires !blocked(b.position)
    ensures !blocked(SurvivalStep(blocked, b, dt, jump, moveDir).position)
  {
    var l := Launch(b, dt, jump, moveDir);
    var sy := ResolveY(blocked, Stage(l, Scale(l.velocity, dt)));
    assert !blocked(sy.body.position) by {
      var m := Scale(l.velocity, dt);
      assert Plus(l.position, Vec3(0.0, m.y, 0.0)) == l.position.(y := l.position.y + m.y);
    }
    var sx := ResolveX(blocked, sy);
    assert !blocked(sx.body.position) by {
      assert Plus(sy.body.position, Vec3(sy.move.x, 0.0, 0.0)) == sy.body.position.(x := sy.body.position.x + sy.move.x);
    }
    assert Plus(sx.body.position, Vec3(0.0, 0.0, sx.move.z)) == sx.body.position.(z := sx.body.position.z + sx.move.z);
  }

  /** The vertical move of a survival step, with its collision test. */
  method MoveY(world: BlockQuery, b: Body, m: Vec3) returns (b': Body, m': Vec3)
    ensures Stage(b', m') == ResolveY(CollisionTest(world), Stage(b, m))
  {
    b', m' := b, m;
    var blocked := CheckCollision(world, Plus(b.position, Vec3(0.0, m.y, 0.0)));
    if blocked {
      if m.y < 0.0 { b' := b'.(grounded := true); }
      b' := b'.(velocity := b'.velocity.(y := 0.0));
      m' := m'.(y := 0.0);
    } else {
      b' := b'.(grounded := false);
    }
    b' := b'.(position := b'.position.(y := b'.position.y + m'.y));
  }

  /** The move along x of a survival step, with its collision test. */
  method MoveX(world: BlockQuery, b: Body, m: Vec3) returns (b': Body, m': Vec3)
    ensures Stage(b', m') == ResolveX(CollisionTest(world), Stage(b, m))
  {
    b', m' := b, m;
    var blocked := CheckCollision(world, Plus(b.position, Vec3(m.x, 0.0, 0.0)));
    if blocked {
      b' := b'.(velocity := b'.velocity.(x := 0.0));
      m' := m'.(x := 0.0);
    }
    b' := b'.(position := b'.position.(x := b'.position.x + m'.x));
  }

  /** The move along z of a survival step, with its collision test. */
  method MoveZ(world: BlockQuery, b: Body, m: Vec3) returns (b': Body, m': Vec3)
    ensures Stage(b', m') == ResolveZ(CollisionTest(world), Stage(b, m))
  {
    b', m' := b, m;
    var blocked := CheckCollision(world, Plus(b.position, Vec3(0.0, 0.0, m.z)));
    if blocked {
      b' := b'.(velocity := b'.velocity.(z := 0.0));
      m' := m'.(z := 0.0);
    }
    b' := b'.(position := b'.position.(z := b'.position.z + m'.z));
  }

  // ---------------------------------------------------------------------------
  // The player object
  // ---------------------------------------------------------------------------

  /** The camera as the player moves it: its position and its orientation
      vectors (set elsewhere, from mouse input). */
  datatype Camera = Camera(pos: Vec3, front: Vec3, right: Vec3, worldUp: Vec3)

  class Player {
    var camera: Camera
    var mode: GameMode
    var velocity: Vec3
    var position: Vec3
    var isGrounded: bool

    /** A player standing at pos, in spectator mode, at rest. */
    constructor (pos: Vec3, front: Vec3, right: Vec3, worldUp: Vec3)
      ensures camera == Camera(pos, front, right, worldUp) && position == pos
      ensures mode == Spectator && velocity == Vec3(0.0, 0.0, 0.0) && !isGrounded
    {
      camera := Camera(pos, front, right, worldUp);
      position := pos;
      mode := Spectator;
      velocity := Vec3(0.0, 0.0, 0.0);
      isGrounded := false;
    }

    /** Switches between spectator and survival and stops the player. */
    method ToggleMode()
      modifies this
      ensures mode == (if old(mode) == Spectator then Survival else Spectator)
      ensures velocity == Vec3(0.0, 0.0, 0.0)
      ensures position == old(position) && camera == old(camera) && isGrounded == old(isGrounded)
    {
      mode := if mode == Spectator then Survival else Spectator;
      velocity := Vec3(0.0, 0.0, 0.0);
    }

    /** One survival step, as the engine performs it on the player's fields;
        moveDir is the normalised horizontal walking direction. */
    method HandleSurvivalMovement(dt: real, world: BlockQuery, jump: bool, moveDir: Vec3)
      modifies this
      ensures Body(position, velocity, isGrounded) ==
        SurvivalStep(CollisionTest(world), Body(old(position), old(velocity), old(isGrounded)), dt, jump, moveDir)
      ensures camera == old(camera) && mode == old(mode)
    {
      var vel, grounded := velocity, isGrounded;
      ghost var l := Launch(Body(position, vel, grounded), dt, jump, moveDir);
      vel := vel.(y := vel.y - GRAVITY * dt);
      vel := vel.(x := moveDir.x * WALK_SPEED, z := moveDir.z * WALK_SPEED);
      if jump && grounded {
        vel := vel.(y := JUMP_SPEED);
        grounded := false;
      }
      assert Body(position, vel, grounded) == l;
      var dMove := Scale(vel, dt);
      var b := Body(position, vel, grounded);
      b, dMove := MoveY(world, b, dMove);
      b, dMove := MoveX(world, b, dMove);
      b, dMove := MoveZ(world, b, dMove);
      position, velocity, isGrounded := b.position, b.velocity, b.grounded;
    }

    /** One frame. A spectator flies: each held input moves the camera by
        FLY_SPEED * dt along its front, right or up vector (forward, back,
        left, right, up, down), and the player's position follows the
        camera. A survival player walks and falls, and the camera follows
        the player at eye height. */
    method Update(dt: real, world: BlockQuery, inputs: seq<bool>, moveDir: Vec3)
      requires |inputs| == 6
      modifies this
      ensures mode == old(mode)
      ensures old(mode) == Spectator ==>
        && camera == old(camera).(pos := FlyTo(old(camera), inputs, FLY_SPEED * dt))
        && position == camera.pos && velocity == old(velocity) && isGrounded == old(isGrounded)
      ensures old(mode) == Survival ==>
        && Body(position, velocity, isGrounded) ==
           SurvivalStep(CollisionTest(world), Body(old(position), old(velocity), old(isGrounded)), dt, inputs[4], moveDir)
        && camera == old(camera).(pos := Plus(position, Vec3(0.0, EYE_HEIGHT, 0.0)))
    {
      if mode == Spectator {
        var speed := FLY_SPEED * dt;
        var p := camera.pos;
        if inputs[0] { p := Plus(p, Scale(camera.front, speed)); }
        if inputs[1] { p := Minus(p, Scale(camera.front, speed)); }
        if inputs[2] { p := Minus(p, Scale(camera.right, speed)); }
        if inputs[3] { p := Plus(p, Scale(camera.right, speed)); }
        if inputs[4] { p := Plus(p, Scale(camera.worldUp, speed)); }
        if inputs[5] { p := Minus(p, Scale(camera.worldUp, speed)); }
        camera := camera.(pos := p);
        position := camera.pos;
      } else {
        HandleSurvivalMovement(dt, world, inputs[4], moveDir);
        camera := camera.(pos := Plus(position, Vec3(0.0, EYE_HEIGHT, 0.0)));
      }
    }
  }

  /** The camera position after spectator flight with the given inputs. */
  function FlyTo(c: Camera, inputs: seq<bool>, speed: real): (p: Vec3)
    requires |inputs| == 6
    ensures !inputs[0] && !inputs[1] && !inputs[2] && !inputs[3] && !inputs[4] && !inputs[5] ==> p == c.pos
  {
    var p0 := c.pos;
    var p1 := if inputs[0] then Plus(p0, Scale(c.front, speed)) else p0;
    var p2 := if inputs[1] then Minus(p1, Scale(c.front, speed)) else p1;
    var p3 := if inputs[2] then Minus(p2, Scale(c.right, speed)) else p2;
    var p4 := if inputs[3] then Plus(p3, Scale(c.right, speed)) else p3;
    var p5 := if inputs[4] then Plus(p4, Scale(c.worldUp, speed)) else p4;
    if inputs[5] then Minus(p5, Scale(c.worldUp, speed)) else p5
  }

  /** Opposite inputs cancel: holding forward and back, left and right, up
      and down together leaves the camera where it was, and so does no input. */
  lemma FlyOppositeInputsCancel(c: Camera, speed: real, a: bool, b: bool, e: bool)
    ensures FlyTo(c, [a, a, b, b, e, e], speed) == c.pos
  {
  }
}
