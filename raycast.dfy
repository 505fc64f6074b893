/** The voxel ray caster: a digital differential analyser (DDA) that walks
    the cells a ray passes through, one face crossing at a time, and stops
    at the first solid block or once the ray parameter reaches maxDist.
    Coordinates are exact reals; every direction component is non-zero. */
module Raycasting {
  import opened Blocks

  datatype RVec = RVec(x: real, y: real, z: real)
  datatype IVec = IVec(x: int, y: int, z: int)

  const Zero: IVec := IVec(0, 0, 0)

  function Sub(a: IVec, b: IVec): IVec {
    IVec(a.x - b.x, a.y - b.y, a.z - b.z)
  }

  /** The result of a cast: whether a block was hit, which cell, the face
      normal through which the ray entered it, and the ray parameter. */
  datatype RayHit = RayHit(hit: bool, blockPos: IVec, faceNormal: IVec, distance: real)

  function Abs(r: real): real {
    if r < 0.0 then -r else r
  }

  /** The sign of a component, as an integer step. */
  function Sign(r: real): int {
    if r > 0.0 then 1 else if r < 0.0 then -1 else 0
  }

  /** A unit vector along one axis, of either orientation. */
  predicate IsUnitAxis(v: IVec) {
    v in {IVec(1, 0, 0), IVec(-1, 0, 0), IVec(0, 1, 0), IVec(0, -1, 0), IVec(0, 0, 1), IVec(0, 0, -1)}
  }

  /** The cell holding a point: the floor of each coordinate. */
  function CellOf(v: RVec): (c: IVec)
    ensures c.x as real <= v.x < c.x as real + 1.0
    ensures c.y as real <= v.y < c.y as real + 1.0
    ensures c.z as real <= v.z < c.z as real + 1.0
  {
    IVec(v.x.Floor, v.y.Floor, v.z.Floor)
  }

  /** Cell b is one step from cell a in the direction of travel: exactly one
      coordinate moves, by the sign of the direction on that axis. */
  predicate IsStep(a: IVec, b: IVec, dir: RVec) {
    || b == IVec(a.x + Sign(dir.x), a.y, a.z)
    || b == IVec(a.x, a.y + Sign(dir.y), a.z)
    || b == IVec(a.x, a.y, a.z + Sign(dir.z))
  }

  /** The ray start + t * dir lies in the closed cell c. */
  ghost predicate Touches(start: RVec, dir: RVec, c: IVec, t: real) {
    && c.x as real <= start.x + t * dir.x <= c.x as real + 1.0
    && c.y as real <= start.y + t * dir.y <= c.y as real + 1.0
    && c.z as real <= start.z + t * dir.z <= c.z as real + 1.0
  }

  // ---------------------------------------------------------------------------
  // Choosing the axis to step
  // ---------------------------------------------------------------------------

  /** The axis (0 = x, 1 = y, 2 = z) whose next face crossing is nearest.
      It carries the minimum of the three distances; x wins only when it is
      strictly smallest, y only when it is strictly below z, so ties go to
      z first and then to y. */
  function ChooseAxis(dist: RVec): (a: int)
    ensures 0 <= a < 3
    ensures a == 0 <==> dist.x < dist.y && dist.x < dist.z
    ensures a == 1 <==> dist.y <= dist.x && dist.y < dist.z
    ensures a == 2 <==> dist.z <= dist.x && dist.z <= dist.y
  {
    if dist.x < dist.y then
      if dist.x < dist.z then 0 else 2
    else
      if dist.y < dist.z then 1 else 2
  }

  // ---------------------------------------------------------------------------
  // One axis of the walk
  // ---------------------------------------------------------------------------

  /** The coordinate of the next cell face on one axis: the upper face of
      cell p when moving up, its lower face when moving down. */
  function NextFace(p: int, d: real): real {
    if d > 0.0 then p as real + 1.0 else p as real
  }

  /** The per-axis invariant of the walk: tDelta is the ray parameter needed
      to cross one cell, dist is the parameter at which the ray reaches the
      next face of cell p, and the current parameter t lies between the
      crossing into p and that next face. */
  ghost predicate AxisOk(s: real, d: real, p: int, dist: real, tDelta: real, t: real) {
    && d != 0.0 && tDelta > 0.0 && tDelta * Abs(d) == 1.0
    && s + dist * d == NextFace(p, d)
    && dist - tDelta <= t <= dist
  }

  /** The invariant on all three axes. */
  ghost predicate RayOk(start: RVec, dir: RVec, p: IVec, dist: RVec, tDelta: RVec, t: real) {
    && AxisOk(start.x, dir.x, p.x, dist.x, tDelta.x, t)
    && AxisOk(start.y, dir.y, p.y, dist.y, tDelta.y, t)
    && AxisOk(start.z, dir.z, p.z, dist.z, tDelta.z, t)
  }

  /** The initial distance on one axis: the distance from the start to the
      next face in the direction of travel, scaled by tDelta. */
  function InitialDist(s: real, d: real, p: int, tDelta: real): (r: real)
    ensures p as real <= s < p as real + 1.0 && tDelta >= 0.0 ==> 0.0 <= r <= tDelta
  {
    var a := if Sign(d) > 0 then p as real + 1.0 - s else s - p as real;
    if p as real <= s < p as real + 1.0 && tDelta >= 0.0 then
      MulNonNegative(a, tDelta);
      MulNonNegative(1.0 - a, tDelta);
      a * tDelta
    else a * tDelta
  }

  /** At the start cell the invariant holds at parameter 0, and the initial
      distance is never negative. */
  lemma AxisInit(s: real, d: real)
    requires d != 0.0
    ensures var p, td := s.Floor, 1.0 / Abs(d);
      AxisOk(s, d, p, InitialDist(s, d, p, td), td, 0.0) && InitialDist(s, d, p, td) >= 0.0
  {
    var p, td := s.Floor, 1.0 / Abs(d);
    var dist := InitialDist(s, d, p, td);
    assert td * Abs(d) == 1.0;
    if d > 0.0 {
      assert td * d == 1.0;
      assert dist * d == (p as real + 1.0 - s) * (td * d);
    } else {
      assert td * d == -1.0;
      assert dist * d == (s - p as real) * (td * d);
    }
  }

  /** Stepping on an axis moves p by the sign of the direction and advances
      dist by one cell; the new parameter is the old dist. */
  lemma AxisAdvance(s: real, d: real, p: int, dist: real, tDelta: real, t: real)
    requires AxisOk(s, d, p, dist, tDelta, t)
    ensures AxisOk(s, d, p + Sign(d), dist + tDelta, tDelta, dist)
  {
    if d > 0.0 {
      assert tDelta * d == 1.0;
    } else {
      assert tDelta * d == -1.0;
    }
    assert (dist + tDelta) * d == dist * d + tDelta * d;
  }

  /** The invariant places the ray point at parameter t inside the closed
      slab of cell p on that axis. */
  lemma AxisTouch(s: real, d: real, p: int, dist: real, tDelta: real, t: real)
    requires AxisOk(s, d, p, dist, tDelta, t)
    ensures p as real <= s + t * d <= p as real + 1.0
  {
    assert (dist - t) * d == dist * d - t * d;
    assert (t - (dist - tDelta)) * d == t * d - dist * d + tDelta * d;
    if d > 0.0 {
      assert tDelta * d == 1.0;
      assert (dist - t) * d >= 0.0;
      assert (t - (dist - tDelta)) * d >= 0.0;
    } else {
      assert tDelta * d == -1.0;
      assert (dist - t) * d <= 0.0;
      assert (t - (dist - tDelta)) * d <= 0.0;
    }
  }

  lemma RayTouch(start: RVec, dir: RVec, p: IVec, dist: RVec, tDelta: RVec, t: real)
    requires RayOk(start, dir, p, dist, tDelta, t)
    ensures Touches(start, dir, p, t)
  {
    AxisTouch(start.x, dir.x, p.x, dist.x, tDelta.x, t);
    AxisTouch(start.y, dir.y, p.y, dist.y, tDelta.y, t);
    AxisTouch(start.z, dir.z, p.z, dist.z, tDelta.z, t);
  }

  // ---------------------------------------------------------------------------
  // Termination
  // ---------------------------------------------------------------------------

  /** The number of face crossings left on one axis before its dist reaches
      maxDist. */
  function Gap(maxDist: real, dist: real, ad: real): nat {
    var q := (maxDist - dist) * ad;
    if q <= 0.0 then 0 else q.Floor + 1
  }

  /** Advancing dist by one cell lowers the gap, strictly while dist is
      below maxDist. */
  lemma GapStep(maxDist: real, dist: real, tDelta: real, ad: real)
    requires tDelta > 0.0 && ad > 0.0 && tDelta * ad == 1.0
    ensures Gap(maxDist, dist + tDelta, ad) <= Gap(maxDist, dist, ad)
    ensures dist < maxDist ==> Gap(maxDist, dist + tDelta, ad) < Gap(maxDist, dist, ad)
  {
    assert (maxDist - (dist + tDelta)) * ad == (maxDist - dist) * ad - tDelta * ad;
    if dist < maxDist {
      assert (maxDist - dist) * ad > 0.0;
    }
  }

  ghost function Measure(maxDist: real, dir: RVec, dist: RVec, travelled: real): nat {
    (if travelled < maxDist then 1 else 0)
      + Gap(maxDist, dist.x, Abs(dir.x)) + Gap(maxDist, dist.y, Abs(dir.y)) + Gap(maxDist, dist.z, Abs(dir.z))
  }

  // ---------------------------------------------------------------------------
  // The walk
  // ---------------------------------------------------------------------------

  /** A tested cell and the ray parameter at which it was tested. */
  datatype Probe = Probe(cell: IVec, t: real)

  /** The probes form a DDA walk: the first is the start cell at parameter
      0, each is touched by the ray at its parameter, which lies in
      [0, maxDist) and never decreases, and consecutive cells are one step
      apart in the direction of travel. */
  ghost predicate WalkOk(start: RVec, dir: RVec, maxDist: real, trace: seq<Probe>) {
    && (|trace| > 0 ==> trace[0] == Probe(CellOf(start), 0.0))
    && (forall i :: 0 <= i < |trace| ==>
          0.0 <= trace[i].t < maxDist && Touches(start, dir, trace[i].cell, trace[i].t))
    && (forall i :: 0 <= i < |trace| - 1 ==>
          IsStep(trace[i].cell, trace[i + 1].cell, dir) && trace[i].t <= trace[i + 1].t)
  }

  /** A walk extends by a probe touched by the ray at a parameter in
      [0, maxDist), one step from the last probe and no earlier than it. */
  lemma WalkExtend(start: RVec, dir: RVec, maxDist: real, trace: seq<Probe>, q: Probe)
    requires WalkOk(start, dir, maxDist, trace)
    requires 0.0 <= q.t < maxDist && Touches(start, dir, q.cell, q.t)
    requires |trace| == 0 ==> q == Probe(CellOf(start), 0.0)
    requires |trace| > 0 ==> IsStep(trace[|trace| - 1].cell, q.cell, dir) && trace[|trace| - 1].t <= q.t
    ensures WalkOk(start, dir, maxDist, trace + [q])
  {
    var t' := trace + [q];
    forall i | 0 <= i < |t'| - 1
      ensures IsStep(t'[i].cell, t'[i + 1].cell, dir) && t'[i].t <= t'[i + 1].t
    {
      if i + 1 < |trace| {
        assert t'[i] == trace[i] && t'[i + 1] == trace[i + 1];
      }
    }
  }

  /** The cell one step along axis a in the direction of travel. */
  function StepCell(p: IVec, dir: RVec, a: int): IVec {
    if a == 0 then p.(x := p.x + Sign(dir.x))
    else if a == 1 then p.(y := p.y + Sign(dir.y))
    else p.(z := p.z + Sign(dir.z))
  }

  /** The next crossing of axis a, taken as the new parameter. */
  function AxisDist(dist: RVec, a: int): real {
    if a == 0 then dist.x else if a == 1 then dist.y else dist.z
  }

  /** The crossings after a step along axis a: that axis's grows by one
      cell. */
  function StepDist(dist: RVec, tDelta: RVec, a: int): RVec {
    if a == 0 then dist.(x := dist.x + tDelta.x)
    else if a == 1 then dist.(y := dist.y + tDelta.y)
    else dist.(z := dist.z + tDelta.z)
  }

  /** A step along the axis ChooseAxis picks keeps the invariant, is one
      cell in the direction of travel, never moves the parameter back and
      lowers the termination measure. */
  lemma StepKeepsRay(start: RVec, dir: RVec, maxDist: real, p: IVec, dist: RVec, tDelta: RVec, t: real)
    requires RayOk(start, dir, p, dist, tDelta, t) && t < maxDist
    ensures var a := ChooseAxis(dist);
      && RayOk(start, dir, StepCell(p, dir, a), StepDist(dist, tDelta, a), tDelta, AxisDist(dist, a))
      && IsStep(p, StepCell(p, dir, a), dir) && t <= AxisDist(dist, a)
      && Measure(maxDist, dir, StepDist(dist, tDelta, a), AxisDist(dist, a)) < Measure(maxDist, dir, dist, t)
  {
    var a := ChooseAxis(dist);
    StepLowersMeasure(maxDist, dir, dist, tDelta, t);
    if a == 0 {
      AxisAdvance(start.x, dir.x, p.x, dist.x, tDelta.x, t);
      AxisLater(start.y, dir.y, p.y, dist.y, tDelta.y, t, dist.x);
      AxisLater(start.z, dir.z, p.z, dist.z, tDelta.z, t, dist.x);
    } else if a == 1 {
      AxisAdvance(start.y, dir.y, p.y, dist.y, tDelta.y, t);
      AxisLater(start.x, dir.x, p.x, dist.x, tDelta.x, t, dist.y);
      AxisLater(start.z, dir.z, p.z, dist.z, tDelta.z, t, dist.y);
    } else {
      AxisAdvance(start.z, dir.z, p.z, dist.z, tDelta.z, t);
      AxisLater(start.x, dir.x, p.x, dist.x, tDelta.x, t, dist.z);
      AxisLater(start.y, dir.y, p.y, dist.y, tDelta.y, t, dist.z);
    }
  }

  /** The chosen step lowers the termination measure: the stepped axis's
      gap does not grow and, while the parameter is below maxDist, either
      it shrinks or the parameter reaches maxDist. */
  lemma StepLowersMeasure(maxDist: real, dir: RVec, dist: RVec, tDelta: RVec, t: real)
    requires t < maxDist
    requires tDelta.x > 0.0 && tDelta.x * Abs(dir.x) == 1.0 && Abs(dir.x) > 0.0
    requires tDelta.y > 0.0 && tDelta.y * Abs(dir.y) == 1.0 && Abs(dir.y) > 0.0
    requires tDelta.z > 0.0 && tDelta.z * Abs(dir.z) == 1.0 && Abs(dir.z) > 0.0
    requires t <= AxisDist(dist, ChooseAxis(dist))
    ensures var a := ChooseAxis(dist);
      Measure(maxDist, dir, StepDist(dist, tDelta, a), AxisDist(dist, a)) < Measure(maxDist, dir, dist, t)
  {
    var a := ChooseAxis(dist);
    if a == 0 {
      GapStep(maxDist, dist.x, tDelta.x, Abs(dir.x));
    } else if a == 1 {
      GapStep(maxDist, dist.y, tDelta.y, Abs(dir.y));
    } else {
      GapStep(maxDist, dist.z, tDelta.z, Abs(dir.z));
    }
  }

  /** On an axis not stepped, the invariant carries over to any later
      parameter up to that axis's next crossing. */
  lemma AxisLater(s: real, d: real, p: int, dist: real, tDelta: real, t: real, t': real)
    requires AxisOk(s, d, p, dist, tDelta, t) && t <= t' <= dist
    ensures AxisOk(s, d, p, dist, tDelta, t')
  {
  }

  /** Until the nearest face crossing the ray stays in the cell the
      invariant is about. */
  lemma RayStays(start: RVec, dir: RVec, p: IVec, dist: RVec, tDelta: RVec, t: real, u: real)
    requires RayOk(start, dir, p, dist, tDelta, t)
    requires t <= u <= AxisDist(dist, ChooseAxis(dist))
    ensures Touches(start, dir, p, u)
  {
    RayTouch(start, dir, p, dist, tDelta, u);
  }

  /** Each probe's cell also holds the ray at the next probe's parameter,
      and the last one at tEnd; with the probe's own parameter and
      convexity, the cell holds the ray over the whole interval between. */
  ghost predicate Covers(start: RVec, dir: RVec, trace: seq<Probe>, tEnd: real)
    decreases |trace|
  {
    |trace| == 0 ||
      (&& Touches(start, dir, trace[|trace| - 1].cell, tEnd)
       && Covers(start, dir, trace[..|trace| - 1], trace[|trace| - 1].t))
  }

  /** A probe touched at the last probe's end parameter extends the cover. */
  lemma CoversSnoc(start: RVec, dir: RVec, trace: seq<Probe>, q: Probe)
    requires Covers(start, dir, trace, q.t) && Touches(start, dir, q.cell, q.t)
    ensures Covers(start, dir, trace + [q], q.t)
  {
    assert (trace + [q])[..|trace|] == trace;
  }

  /** The last probe, made at parameter t in cell p under the invariant,
      covers the ray up to the next face crossing. */
  lemma CoversStretch(start: RVec, dir: RVec, trace: seq<Probe>, p: IVec, dist: RVec, tDelta: RVec, t: real)
    requires |trace| > 0 && trace[|trace| - 1] == Probe(p, t) && Covers(start, dir, trace, t)
    requires RayOk(start, dir, p, dist, tDelta, t)
    ensures Covers(start, dir, trace, AxisDist(dist, ChooseAxis(dist)))
  {
    RayStays(start, dir, p, dist, tDelta, t, AxisDist(dist, ChooseAxis(dist)));
  }

  /** One coordinate of the ray moves monotonically, so a slab holding it at
      two parameters holds it at every parameter between. */
  lemma SlabConvex(s: real, d: real, lo: real, t1: real, t2: real, u: real)
    requires lo <= s + t1 * d <= lo + 1.0 && lo <= s + t2 * d <= lo + 1.0 && t1 <= u <= t2
    ensures lo <= s + u * d <= lo + 1.0
  {
    assert (u - t1) * d == u * d - t1 * d && (t2 - u) * d == t2 * d - u * d;
    if d >= 0.0 {
      MulNonNegative(u - t1, d);
      MulNonNegative(t2 - u, d);
    } else {
      MulNonNegative(u - t1, -d);
      MulNonNegative(t2 - u, -d);
      assert (u - t1) * -d == -((u - t1) * d) && (t2 - u) * -d == -((t2 - u) * d);
    }
  }

  lemma MulNonNegative(a: real, b: real)
    requires a >= 0.0 && b >= 0.0
    ensures a * b >= 0.0
  {
  }

  /** A cell holding the ray at two parameters holds it in between. */
  lemma TouchesBetween(start: RVec, dir: RVec, c: IVec, t1: real, t2: real, u: real)
    requires Touches(start, dir, c, t1) && Touches(start, dir, c, t2) && t1 <= u <= t2
    ensures Touches(start, dir, c, u)
  {
    SlabConvex(start.x, dir.x, c.x as real, t1, t2, u);
    SlabConvex(start.y, dir.y, c.y as real, t1, t2, u);
    SlabConvex(start.z, dir.z, c.z as real, t1, t2, u);
  }

  /** The ray at parameter u lies in a tested cell that holds no solid
      block. */
  ghost predicate ClearAt(world: BlockQuery, start: RVec, dir: RVec, trace: seq<Probe>, u: real) {
    exists i :: 0 <= i < |trace| && Touches(start, dir, trace[i].cell, u)
      && !IsSolid(world(trace[i].cell.x, trace[i].cell.y, trace[i].cell.z))
  }

  /** The ray lies in tested cells free of solid blocks for every parameter
      in [0, d). */
  ghost predicate ClearBefore(world: BlockQuery, start: RVec, dir: RVec, trace: seq<Probe>, d: real) {
    forall u :: 0.0 <= u < d ==> ClearAt(world, start, dir, trace, u)
  }

  /** A covering walk whose probes hold the ray at their own parameters
      places the ray at every parameter in [trace[0].t, tEnd] in a probed
      cell, the last one tested no later than that parameter. */
  lemma {:induction false} ProbeAt(start: RVec, dir: RVec, trace: seq<Probe>, tEnd: real, u: real) returns (i: int)
    requires |trace| > 0 && Covers(start, dir, trace, tEnd)
    requires forall k :: 0 <= k < |trace| ==> Touches(start, dir, trace[k].cell, trace[k].t)
    requires trace[0].t <= u <= tEnd
    ensures 0 <= i < |trace| && trace[i].t <= u && Touches(start, dir, trace[i].cell, u)
    decreases |trace|
  {
    var n := |trace| - 1;
    if trace[n].t <= u {
      i := n;
      TouchesBetween(start, dir, trace[n].cell, trace[n].t, tEnd, u);
    } else {
      var front := trace[..n];
      assert front[0] == trace[0];
      i := ProbeAt(start, dir, front, trace[n].t, u);
      assert front[i] == trace[i];
    }
  }

  /** One step of the walk: along the axis ChooseAxis picks, p moves by the
      step, travelled becomes that axis's dist, the dist grows by one cell
      and the face is minus the step. */
  method Advance(start: RVec, dir: RVec, maxDist: real, step: IVec, tDelta: RVec, p: IVec, dist: RVec, travelled: real)
    returns (p': IVec, dist': RVec, travelled': real, face: IVec)
    requires RayOk(start, dir, p, dist, tDelta, travelled) && travelled < maxDist
    requires step == IVec(Sign(dir.x), Sign(dir.y), Sign(dir.z))
    ensures RayOk(start, dir, p', dist', tDelta, travelled')
    ensures var a := ChooseAxis(dist);
      p' == StepCell(p, dir, a) && dist' == StepDist(dist, tDelta, a) && travelled' == AxisDist(dist, a)
    ensures IsStep(p, p', dir) && face == Sub(p, p') && IsUnitAxis(face)
    ensures travelled <= travelled'
    ensures Measure(maxDist, dir, dist', travelled') < Measure(maxDist, dir, dist, travelled)
  {
    var a := ChooseAxis(dist);
    StepKeepsRay(start, dir, maxDist, p, dist, tDelta, travelled);
    if a == 0 {
      p' := p.(x := p.x + step.x);
      travelled' := dist.x;
      dist' := dist.(x := dist.x + tDelta.x);
      face := IVec(-step.x, 0, 0);
    } else if a == 1 {
      p' := p.(y := p.y + step.y);
      travelled' := dist.y;
      dist' := dist.(y := dist.y + tDelta.y);
      face := IVec(0, -step.y, 0);
    } else {
      p' := p.(z := p.z + step.z);
      travelled' := dist.z;
      dist' := dist.(z := dist.z + tDelta.z);
      face := IVec(0, 0, -step.z);
    }
  }

  /** What the walk has established before testing cell p: the probes so
      far form a walk, none of them is solid, they cover the ray up to the
      current parameter, and p is the cell one step on, entered through
      face at that parameter (the start cell, with no face, before the
      first probe). */
  ghost predicate Walked(world: BlockQuery, start: RVec, dir: RVec, maxDist: real, trace: seq<Probe>,
                         p: IVec, face: IVec, travelled: real) {
    && WalkOk(start, dir, maxDist, trace)
    && (|trace| == 0 ==> p == CellOf(start) && face == Zero && travelled == 0.0)
    && (|trace| > 0 ==>
          && IsStep(trace[|trace| - 1].cell, p, dir)
          && face == Sub(trace[|trace| - 1].cell, p)
          && trace[|trace| - 1].t <= travelled
          && 0.0 < maxDist)
    && (forall i :: 0 <= i < |trace| ==> !IsSolid(world(trace[i].cell.x, trace[i].cell.y, trace[i].cell.z)))
    && Covers(start, dir, trace, travelled)
  }

  /** A clear cell p, probed at the current parameter, joins the walk, and
      the step ChooseAxis picks leads to the next cell to test. */
  lemma WalkedStep(world: BlockQuery, start: RVec, dir: RVec, maxDist: real, trace: seq<Probe>,
                   p: IVec, face: IVec, travelled: real, dist: RVec, tDelta: RVec,
                   p': IVec, face': IVec, travelled': real)
    requires Walked(world, start, dir, maxDist, trace, p, face, travelled)
    requires RayOk(start, dir, p, dist, tDelta, travelled) && 0.0 <= travelled < maxDist
    requires !IsSolid(world(p.x, p.y, p.z))
    requires travelled' == AxisDist(dist, ChooseAxis(dist)) && IsStep(p, p', dir) && face' == Sub(p, p')
    requires travelled <= travelled'
    ensures Walked(world, start, dir, maxDist, trace + [Probe(p, travelled)], p', face', travelled')
  {
    var q := Probe(p, travelled);
    var t' := trace + [q];
    RayTouch(start, dir, p, dist, tDelta, travelled);
    WalkExtend(start, dir, maxDist, trace, q);
    CoversSnoc(start, dir, trace, q);
    CoversStretch(start, dir, t', p, dist, tDelta, travelled);
    forall i | 0 <= i < |t'|
      ensures !IsSolid(world(t'[i].cell.x, t'[i].cell.y, t'[i].cell.z))
    {
      if i < |trace| {
        assert t'[i] == trace[i];
      }
    }
  }

  /** A solid cell p, probed at the current parameter, ends the walk with
      a hit: the probes before it are clear, it was entered through face,
      and the ray lies in clear tested cells before that parameter. */
  lemma WalkedHit(world: BlockQuery, start: RVec, dir: RVec, maxDist: real, trace: seq<Probe>,
                  p: IVec, face: IVec, travelled: real, dist: RVec, tDelta: RVec)
    requires Walked(world, start, dir, maxDist, trace, p, face, travelled)
    requires RayOk(start, dir, p, dist, tDelta, travelled) && 0.0 <= travelled < maxDist
    ensures var t' := trace + [Probe(p, travelled)];
      && WalkOk(start, dir, maxDist, t')
      && (forall i :: 0 <= i < |t'| - 1 ==> !IsSolid(world(t'[i].cell.x, t'[i].cell.y, t'[i].cell.z)))
      && (|t'| == 1 ==> face == Zero)
      && (|t'| > 1 ==> face == Sub(t'[|t'| - 2].cell, p) && IsUnitAxis(face))
      && ClearBefore(world, start, dir, t', travelled)
  {
    var q := Probe(p, travelled);
    var t' := trace + [q];
    RayTouch(start, dir, p, dist, tDelta, travelled);
    WalkExtend(start, dir, maxDist, trace, q);
    CoversSnoc(start, dir, trace, q);
    forall i | 0 <= i < |t'| - 1
      ensures !IsSolid(world(t'[i].cell.x, t'[i].cell.y, t'[i].cell.z))
    {
      assert t'[i] == trace[i];
    }
    if |t'| > 1 {
      assert t'[|t'| - 2] == trace[|trace| - 1];
      StepIsUnitAxis(trace[|trace| - 1].cell, p, dir);
    }
    ClearWalk(world, start, dir, maxDist, t', travelled, true, travelled);
  }

  /** The walk ran past maxDist without a solid cell: every probe is clear
      and the ray lies in clear tested cells before maxDist. */
  lemma WalkedMiss(world: BlockQuery, start: RVec, dir: RVec, maxDist: real, trace: seq<Probe>,
                   p: IVec, face: IVec, travelled: real)
    requires Walked(world, start, dir, maxDist, trace, p, face, travelled) && travelled >= maxDist
    ensures |trace| == 0 <==> maxDist <= 0.0
    ensures ClearBefore(world, start, dir, trace, maxDist)
  {
    if |trace| > 0 {
      ClearWalk(world, start, dir, maxDist, trace, travelled, false, maxDist);
    }
  }

  /** One step in the direction of travel differs in one coordinate by
      one, so the face between the cells is a unit axis vector. */
  lemma StepIsUnitAxis(a: IVec, b: IVec, dir: RVec)
    requires IsStep(a, b, dir) && dir.x != 0.0 && dir.y != 0.0 && dir.z != 0.0
    ensures IsUnitAxis(Sub(a, b))
  {
  }

  /** Casts a ray from start along dir for a ray parameter below maxDist.
      The walk tests the start cell first and then every cell it steps
      into; it reports the first cell holding a block that is neither air
      nor water, with the face it entered through (zero for the start cell)
      and the parameter at which it entered, and otherwise a miss with zero
      vectors and distance maxDist. trace is the sequence of tested cells;
      before the reported distance the ray passes only through tested cells
      that hold no solid block. Each step is Advance's, so on equal face
      distances the walk follows ChooseAxis's tie rule (z first, then y). */
  method Cast(world: BlockQuery, start: RVec, dir: RVec, maxDist: real) returns (r: RayHit, ghost trace: seq<Probe>)
    requires dir.x != 0.0 && dir.y != 0.0 && dir.z != 0.0
    ensures WalkOk(start, dir, maxDist, trace)
    ensures |trace| == 0 <==> maxDist <= 0.0
    ensures r.hit <==> |trace| > 0 && IsSolid(world(trace[|trace| - 1].cell.x, trace[|trace| - 1].cell.y, trace[|trace| - 1].cell.z))
    ensures forall i :: 0 <= i < |trace| - 1 ==> !IsSolid(world(trace[i].cell.x, trace[i].cell.y, trace[i].cell.z))
    ensures r.hit ==> r.blockPos == trace[|trace| - 1].cell && r.distance == trace[|trace| - 1].t
    ensures r.hit ==> (|trace| == 1 ==> r.faceNormal == Zero)
    ensures r.hit && |trace| > 1 ==>
      r.faceNormal == Sub(trace[|trace| - 2].cell, r.blockPos) && IsUnitAxis(r.faceNormal)
    ensures !r.hit ==> r == RayHit(false, Zero, Zero, maxDist)
    ensures ClearBefore(world, start, dir, trace, r.distance)
  {
    var p := CellOf(start);
    var step := IVec(Sign(dir.x), Sign(dir.y), Sign(dir.z));
    var tDelta := RVec(1.0 / Abs(dir.x), 1.0 / Abs(dir.y), 1.0 / Abs(dir.z));
    var dist := RVec(InitialDist(start.x, dir.x, p.x, tDelta.x),
                     InitialDist(start.y, dir.y, p.y, tDelta.y),
                     InitialDist(start.z, dir.z, p.z, tDelta.z));
    AxisInit(start.x, dir.x);
    AxisInit(start.y, dir.y);
    AxisInit(start.z, dir.z);
    var face := Zero;
    var travelled := 0.0;
    trace := [];
    while travelled < maxDist
      invariant RayOk(start, dir, p, dist, tDelta, travelled)
      invariant 0.0 <= travelled
      invariant step == IVec(Sign(dir.x), Sign(dir.y), Sign(dir.z))
      invariant Walked(world, start, dir, maxDist, trace, p, face, travelled)
      decreases Measure(maxDist, dir, dist, travelled)
    {
      var b := world(p.x, p.y, p.z);
      if b != Air && b != Water {
        WalkedHit(world, start, dir, maxDist, trace, p, face, travelled, dist, tDelta);
        trace := trace + [Probe(p, travelled)];
        return RayHit(true, p, face, travelled), trace;
      }
      var p', dist', travelled', face' := Advance(start, dir, maxDist, step, tDelta, p, dist, travelled);
      WalkedStep(world, start, dir, maxDist, trace, p, face, travelled, dist, tDelta, p', face', travelled');
      trace := trace + [Probe(p, travelled)];
      p, dist, travelled, face := p', dist', travelled', face';
    }
    WalkedMiss(world, start, dir, maxDist, trace, p, face, travelled);
    return RayHit(false, Zero, Zero, maxDist), trace;
  }

  /** Before the parameter of the last probe (of a hit) or before tEnd (of a
      miss, where no probe is solid) the ray lies in tested cells that hold
      no solid block. */
  lemma ClearWalk(world: BlockQuery, start: RVec, dir: RVec, maxDist: real, trace: seq<Probe>, tEnd: real, hit: bool, d: real)
    requires WalkOk(start, dir, maxDist, trace) && |trace| > 0 && Covers(start, dir, trace, tEnd)
    requires forall i :: 0 <= i < |trace| - 1 ==> !IsSolid(world(trace[i].cell.x, trace[i].cell.y, trace[i].cell.z))
    requires hit ==> tEnd == trace[|trace| - 1].t
    requires !hit ==> !IsSolid(world(trace[|trace| - 1].cell.x, trace[|trace| - 1].cell.y, trace[|trace| - 1].cell.z))
    requires d <= tEnd
    ensures ClearBefore(world, start, dir, trace, d)
  {
    forall u | 0.0 <= u < d
      ensures ClearAt(world, start, dir, trace, u)
    {
      var i := ProbeAt(start, dir, trace, tEnd, u);
    }
  }
}
