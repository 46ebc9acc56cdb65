// The ray caster: integer line stepping from an origin towards the end point a
// fixed-point direction gives, checked cell by cell against a collision predicate
// the caller supplies, and an adaptive quality level choosing the ray pattern.

module Raycaster {
  import opened CInt

  const FixedPointScale := 1000
  const RayAnglePrecision := 256
  const RayCacheSize := 64
  const RayMaxDistance := 48
  /** A ray stops early once a stepped cell is this far from the world origin. */
  const FarBound := 10000
  const PerformanceCheckMs := 1000
  const MaxQualityLevel := 3

  /** A direction scaled by 1000, with its index in the angle table. */
  datatype RayDirection = RayDirection(dx: int, dy: int, angleId: int)

  datatype RayResult = RayResult(hitX: int, hitY: int, distance: int, hitTerrain: bool, rayComplete: bool)

  /** The directions of a pattern, in casting order, and the radius its rays use. */
  datatype RayPattern = RayPattern(directions: seq<RayDirection>, maxRadius: int)

  /** The caller's collision callback, as the set of cells it reports as land;
      `None` is a null callback. */
  type Collision = Option<iset<(int, int)>>

  predicate IsDirection(d: RayDirection)
  {
    IsInt16(d.dx) && IsInt16(d.dy)
  }

  predicate PatternOk(p: RayPattern, count: int, radius: int)
  {
    |p.directions| == count && p.maxRadius == radius &&
    forall i :: 0 <= i < |p.directions| ==> IsDirection(p.directions[i])
  }

  // ---------------------------------------------------------------------------
  // The line stepper as written

  /** The Bresenham fields of the ray caster: position, the remaining moves on each
      axis (which the step also uses as error deltas), the error term and the
      step directions. */
  datatype LineState = LineState(x: int, y: int, dx: int, dy: int, err: int,
                                 stepX: int, stepY: int, steep: bool)

  predicate LineOk(s: LineState)
  {
    IsInt16(s.x) && IsInt16(s.y) && IsInt16(s.dx) && IsInt16(s.dy) && IsInt16(s.err) &&
    (s.stepX == 1 || s.stepX == -1) && (s.stepY == 1 || s.stepY == -1)
  }

  /** `raycaster_bresham_init`, with every field stored as an int16_t. */
  function LineInit(x0: int, y0: int, x1: int, y1: int): (s: LineState)
    requires IsInt16(x0) && IsInt16(y0)
    ensures LineOk(s) && s.x == x0 && s.y == y0
    ensures IsInt16(x1) && IsInt16(y1) && Abs(x1 - x0) <= 32767 && Abs(y1 - y0) <= 32767 ==>
              s.dx == Abs(x1 - x0) && s.dy == Abs(y1 - y0) && s.err == s.dx - s.dy
    ensures s.stepX == (if x0 < x1 then 1 else -1) && s.stepY == (if y0 < y1 then 1 else -1)
  {
    var dx := Wrap16(Abs(x1 - x0));
    var dy := Wrap16(Abs(y1 - y0));
    LineState(x0, y0, dx, dy, Wrap16(dx - dy), if x0 < x1 then 1 else -1, if y0 < y1 then 1 else -1, dy > dx)
  }

  /** `raycaster_bresham_step`: nothing moves once both counters are 0; otherwise
      the doubled error decides whether x moves, then, against the possibly just
      decremented x counter, whether y moves. */
  function LineStep(s: LineState): (r: (bool, LineState))
    requires LineOk(s)
    ensures LineOk(r.1)
    ensures !r.0 <==> s.dx == 0 && s.dy == 0
    ensures !r.0 ==> r.1 == s
    ensures r.1.stepX == s.stepX && r.1.stepY == s.stepY
  {
    if s.dx == 0 && s.dy == 0 then (false, s)
    else
      var e2 := Wrap16(2 * s.err);
      var s1 := if e2 > -s.dy then s.(err := Wrap16(s.err - s.dy), x := Wrap16(s.x + s.stepX), dx := Wrap16(s.dx - 1)) else s;
      var s2 := if e2 < s1.dx then s1.(err := Wrap16(s1.err + s1.dx), y := Wrap16(s1.y + s1.stepY), dy := Wrap16(s1.dy - 1)) else s1;
      (true, s2)
  }

  /** Each axis either stays put or moves one cell in its step direction while its
      counter drops by one, with int16_t wrap-around. */
  lemma LineStepShape(s: LineState)
    requires LineOk(s)
    ensures var r := LineStep(s).1;
            (r.x == s.x && r.dx == s.dx) || (r.x == Wrap16(s.x + s.stepX) && r.dx == Wrap16(s.dx - 1))
    ensures var r := LineStep(s).1;
            (r.y == s.y && r.dy == s.dy) || (r.y == Wrap16(s.y + s.stepY) && r.dy == Wrap16(s.dy - 1))
  {
  }

  /** While both counters are non-negative and not both zero, a step lowers their sum:
      the measure the stepper relies on to end. */
  lemma StepLowersCounters(s: LineState)
    requires LineOk(s) && s.dx >= 0 && s.dy >= 0 && !(s.dx == 0 && s.dy == 0)
    ensures LineStep(s).0 && LineStep(s).1.dx + LineStep(s).1.dy < s.dx + s.dy
  {
  }

  /** The stepper iterated `n` times. */
  function Steps(s: LineState, n: nat): (r: LineState)
    requires LineOk(s)
    ensures LineOk(r)
    decreases n
  {
    if n == 0 then s else Steps(LineStep(s).1, n - 1)
  }

  /** The counters are not a termination measure: a line from (0, 0) to (2, 3)
      drives the y counter below zero and after five steps sits at (1, 5) for
      ever, still reporting that it moves, never having reached x = 2. */
  lemma StepperStallsOffTarget()
    ensures var s := Steps(LineInit(0, 0, 2, 3), 5);
            s.x == 1 && s.y == 5 && s.dx == 1 && s.dy == -2 && LineStep(s) == (true, s)
  {
    var s0 := LineInit(0, 0, 2, 3);
    assert s0 == LineState(0, 0, 2, 3, -1, 1, 1, true);
    var s1 := LineStep(s0).1;
    assert s1 == LineState(1, 1, 1, 2, -3, 1, 1, true);
    var s2 := LineStep(s1).1;
    assert s2 == LineState(1, 2, 1, 1, -2, 1, 1, true);
    var s3 := LineStep(s2).1;
    assert s3 == LineState(1, 3, 1, 0, -1, 1, 1, true);
    var s4 := LineStep(s3).1;
    assert s4 == LineState(1, 4, 1, -1, 0, 1, 1, true);
    var s5 := LineStep(s4).1;
    assert s5 == LineState(1, 5, 1, -2, 1, 1, 1, true);
    assert Steps(s0, 5) == s5 by {
      assert Steps(s4, 1) == s5;
      assert Steps(s3, 2) == s5;
      assert Steps(s2, 3) == s5;
      assert Steps(s1, 4) == s5;
    }
  }

  // ---------------------------------------------------------------------------
  // The line stepper as intended: fixed deltas, stop at the target

  datatype FixedLine = FixedLine(x: int, y: int, x1: int, y1: int, dX: int, dY: int,
                                 err: int, stepX: int, stepY: int)

  function FixedInit(x0: int, y0: int, x1: int, y1: int): (s: FixedLine)
    ensures s.x == x0 && s.y == y0 && s.x1 == x1 && s.y1 == y1
  {
    FixedLine(x0, y0, x1, y1, Abs(x1 - x0), Abs(y1 - y0), Abs(x1 - x0) - Abs(y1 - y0),
              if x0 < x1 then 1 else -1, if y0 < y1 then 1 else -1)
  }

  predicate FixedDone(s: FixedLine)
  {
    s.x == s.x1 && s.y == s.y1
  }

  /** One classic Bresenham step: both tests read the error before either update,
      and the deltas never change. */
  function FixedStep(s: FixedLine): (r: FixedLine)
    ensures r.x1 == s.x1 && r.y1 == s.y1 && r.dX == s.dX && r.dY == s.dY
    ensures r.stepX == s.stepX && r.stepY == s.stepY
    ensures r.x == s.x || r.x == s.x + s.stepX
    ensures r.y == s.y || r.y == s.y + s.stepY
  {
    var e2 := 2 * s.err;
    var s1 := if e2 > -s.dY then s.(err := s.err - s.dY, x := s.x + s.stepX) else s;
    if e2 < s.dX then s1.(err := s1.err + s.dX, y := s1.y + s.stepY) else s1
  }

  /** Moves made so far on each axis. */
  function MovedX(s: FixedLine): int { s.dX - s.stepX * (s.x1 - s.x) }
  function MovedY(s: FixedLine): int { s.dY - s.stepY * (s.y1 - s.y) }

  /** Moves still to make. */
  function Remaining(s: FixedLine): int { s.stepX * (s.x1 - s.x) + s.stepY * (s.y1 - s.y) }

  /** The invariant of the intended stepper: no axis has overshot, and the error
      term is the one the moves made so far determine. */
  ghost predicate OnTrack(s: FixedLine)
  {
    (s.stepX == 1 || s.stepX == -1) && (s.stepY == 1 || s.stepY == -1) &&
    0 <= MovedX(s) <= s.dX && 0 <= MovedY(s) <= s.dY &&
    s.err == s.dX - s.dY - MovedX(s) * s.dY + MovedY(s) * s.dX
  }

  lemma FixedStarts(x0: int, y0: int, x1: int, y1: int)
    ensures OnTrack(FixedInit(x0, y0, x1, y1))
    ensures Remaining(FixedInit(x0, y0, x1, y1)) == Abs(x1 - x0) + Abs(y1 - y0)
  {
  }

  lemma MulNonPositive(a: int, b: int)
    requires a >= 0 && b <= 0
    ensures a * b <= 0
  {
  }

  /** Multiplying by a unit step. */
  lemma UnitStep(step: int, d: int)
    requires step == 1 || step == -1
    ensures step * d == 0 <==> d == 0
    ensures step * (d - step) == step * d - 1
  {
  }

  lemma MulSucc(a: int, c: int)
    ensures (a + 1) * c == a * c + c
  {
  }

  /** Once x has arrived, the error term no longer lets x move. */
  lemma NoOvershootX(s: FixedLine)
    requires OnTrack(s) && !FixedDone(s) && MovedX(s) == s.dX
    ensures !(2 * s.err > -s.dY)
  {
    UnitStep(s.stepX, s.x1 - s.x);
    UnitStep(s.stepY, s.y1 - s.y);
    var b := MovedY(s);
    assert s.err == s.dX * (1 + b - s.dY) - s.dY by {
      assert s.dX * (1 + b - s.dY) == s.dX + b * s.dX - s.dX * s.dY;
    }
    MulNonPositive(s.dX, 1 + b - s.dY);
  }

  /** Once y has arrived, the error term no longer lets y move. */
  lemma NoOvershootY(s: FixedLine)
    requires OnTrack(s) && !FixedDone(s) && MovedY(s) == s.dY
    ensures !(2 * s.err < s.dX)
  {
    UnitStep(s.stepX, s.x1 - s.x);
    UnitStep(s.stepY, s.y1 - s.y);
    var a := MovedX(s);
    assert s.err == s.dX - s.dY * (1 + a - s.dX) by {
      assert s.dY * (1 + a - s.dX) == s.dY + a * s.dY - s.dX * s.dY;
    }
    MulNonPositive(s.dY, 1 + a - s.dX);
  }

  /** Off the target, at least one axis moves. */
  lemma SomeAxisMoves(s: FixedLine)
    requires OnTrack(s) && !FixedDone(s)
    ensures 2 * s.err > -s.dY || 2 * s.err < s.dX
  {
    UnitStep(s.stepX, s.x1 - s.x);
    UnitStep(s.stepY, s.y1 - s.y);
  }

  /** The moves made after a step: one more on each axis that moved. */
  lemma MovedAfterStep(s: FixedLine)
    requires OnTrack(s)
    ensures MovedX(FixedStep(s)) == MovedX(s) + (if 2 * s.err > -s.dY then 1 else 0)
    ensures MovedY(FixedStep(s)) == MovedY(s) + (if 2 * s.err < s.dX then 1 else 0)
  {
    UnitStep(s.stepX, s.x1 - s.x);
    UnitStep(s.stepY, s.y1 - s.y);
  }

  /** A step off the target keeps the invariant and makes progress. */
  lemma FixedStepAdvances(s: FixedLine)
    requires OnTrack(s) && !FixedDone(s)
    ensures OnTrack(FixedStep(s))
    ensures Remaining(FixedStep(s)) < Remaining(s)
  {
    var a, b := MovedX(s), MovedY(s);
    var tookX, tookY := 2 * s.err > -s.dY, 2 * s.err < s.dX;
    if a == s.dX {
      NoOvershootX(s);
    }
    if b == s.dY {
      NoOvershootY(s);
    }
    SomeAxisMoves(s);
    MovedAfterStep(s);
    var r := FixedStep(s);
    var a', b' := MovedX(r), MovedY(r);
    assert r.err == s.err - (if tookX then s.dY else 0) + (if tookY then s.dX else 0);
    MulSucc(a, s.dY);
    MulSucc(b, s.dX);
    assert a' * s.dY == a * s.dY + (if tookX then s.dY else 0);
    assert b' * s.dX == b * s.dX + (if tookY then s.dX else 0);
  }

  /** The intended stepper run to its end. */
  function FixedRun(s: FixedLine): (r: FixedLine)
    requires OnTrack(s)
    ensures FixedDone(r) && r.x1 == s.x1 && r.y1 == s.y1
    decreases Remaining(s)
  {
    if FixedDone(s) then s
    else
      FixedStepAdvances(s);
      FixedRun(FixedStep(s))
  }

  /** The intended stepper from (x0, y0) always ends on the target cell (x1, y1). */
  function LineTo(x0: int, y0: int, x1: int, y1: int): (r: FixedLine)
    ensures r.x == x1 && r.y == y1
  {
    FixedStarts(x0, y0, x1, y1);
    FixedRun(FixedInit(x0, y0, x1, y1))
  }

  // ---------------------------------------------------------------------------
  // Casting one ray

  /** Clamping a coordinate to int16_t. */
  function ClampI16(v: int): (r: int)
    ensures IsInt16(r)
    ensures IsInt16(v) ==> r == v
    ensures v < -32768 ==> r == -32768
    ensures v > 32767 ==> r == 32767
  {
    if v < -32768 then -32768 else if v > 32767 then 32767 else v
  }

  /** The end point: `max` scaled steps along the direction, truncated toward zero,
      then clamped to int16_t. */
  function EndPoint(start: int, d: int, max: int): (e: int)
    ensures IsInt16(e)
  {
    ClampI16(start + CDiv(d * max, FixedPointScale))
  }

  /** The cells the stepping loop checks from state `s` after `count` checked
      cells when none of them is land: the stepper's cells in order, until the
      stepper is done, `max` cells are checked, or a cell lies beyond the far
      bound (that cell is still checked). */
  function Checked(s: LineState, count: nat, max: nat): (cells: seq<(int, int)>)
    requires LineOk(s) && count <= max
    ensures |cells| <= max - count
    ensures |cells| > 0 ==> cells[0] == (s.x, s.y)
    decreases max - count
  {
    var (more, s') := LineStep(s);
    if !more || count >= max then []
    else if Abs(s.x) > FarBound || Abs(s.y) > FarBound then [(s.x, s.y)]
    else [(s.x, s.y)] + Checked(s', count + 1, max)
  }

  /** `r` stops at land, at the first land cell of `cells`, the list of cells
      checked after the first `before`; its distance counts all of them. */
  ghost predicate FirstLand(cells: seq<(int, int)>, r: RayResult, collision: Collision, before: int)
  {
    var n := r.distance - before;
    collision.Some? && 1 <= n <= |cells| && cells[n - 1] == (r.hitX, r.hitY)
    && cells[n - 1] in collision.value
    && forall k :: 0 <= k < n - 1 ==> cells[k] !in collision.value
  }

  /** Every cell of `cells`, checked after the first `before`, was counted, and
      none of them is land. */
  ghost predicate NoLand(cells: seq<(int, int)>, r: RayResult, collision: Collision, before: int)
  {
    r.distance - before == |cells|
    && (collision.Some? ==> forall k :: 0 <= k < |cells| ==> cells[k] !in collision.value)
  }

  /** The stepping loop of `raycaster_cast_ray` from state `s` after `count` checked
      cells: each call of the stepper outputs the cell it stands on, the loop stops
      when the stepper is done or `max` cells were checked, and otherwise that cell
      is counted and checked. */
  function Walk(s: LineState, count: nat, max: nat, collision: Collision): (r: RayResult)
    requires LineOk(s) && count <= max
    ensures r.rayComplete && count <= r.distance <= max
    ensures IsInt16(r.hitX) && IsInt16(r.hitY)
    ensures r.hitTerrain ==> collision.Some? && (r.hitX, r.hitY) in collision.value && r.distance >= count + 1
    ensures collision.None? ==> !r.hitTerrain
    decreases max - count
  {
    var (more, s') := LineStep(s);
    if !more || count >= max then RayResult(s.x, s.y, count, false, true)
    else if collision.Some? && (s.x, s.y) in collision.value then RayResult(s.x, s.y, count + 1, true, true)
    else if Abs(s.x) > FarBound || Abs(s.y) > FarBound then RayResult(s.x, s.y, count + 1, false, true)
    else Walk(s', count + 1, max, collision)
  }

  /** The loop stops at the first land cell it checks: a hit is the first land
      cell of `Checked`. */
  lemma {:induction false} WalkHitIsFirstLand(s: LineState, count: nat, max: nat, collision: Collision)
    requires LineOk(s) && count <= max && Walk(s, count, max, collision).hitTerrain
    ensures FirstLand(Checked(s, count, max), Walk(s, count, max, collision), collision, count)
    decreases max - count
  {
    var goesOn, s' := WalkStep(s, count, max, collision);
    if goesOn {
      WalkHitIsFirstLand(s', count + 1, max, collision);
      FirstLandAfter((s.x, s.y), Checked(s', count + 1, max), Walk(s', count + 1, max, collision), collision, count);
    }
  }

  /** A miss checked every cell of `Checked` and found no land. */
  lemma {:induction false} WalkMissFindsNoLand(s: LineState, count: nat, max: nat, collision: Collision)
    requires LineOk(s) && count <= max && !Walk(s, count, max, collision).hitTerrain
    ensures NoLand(Checked(s, count, max), Walk(s, count, max, collision), collision, count)
    decreases max - count
  {
    var goesOn, s' := WalkStep(s, count, max, collision);
    if goesOn {
      WalkMissFindsNoLand(s', count + 1, max, collision);
      NoLandAfter((s.x, s.y), Checked(s', count + 1, max), Walk(s', count + 1, max, collision), collision, count);
    }
  }

  /** One round of the stepping loop: either it stops here, with the first-land
      properties holding outright, or the checked cell is not land and both the
      result and the checked cells continue from the next stepper state `s'`. */
  lemma WalkStep(s: LineState, count: nat, max: nat, collision: Collision) returns (goesOn: bool, s': LineState)
    requires LineOk(s) && count <= max
    ensures !goesOn ==>
              var r := Walk(s, count, max, collision);
              (r.hitTerrain ==> FirstLand(Checked(s, count, max), r, collision, count)) &&
              (!r.hitTerrain ==> NoLand(Checked(s, count, max), r, collision, count))
    ensures goesOn ==>
              LineOk(s') && count < max && (collision.Some? ==> (s.x, s.y) !in collision.value) &&
              Walk(s, count, max, collision) == Walk(s', count + 1, max, collision) &&
              Checked(s, count, max) == [(s.x, s.y)] + Checked(s', count + 1, max)
  {
    var more;
    more, s' := LineStep(s).0, LineStep(s).1;
    goesOn := more && count < max && !(collision.Some? && (s.x, s.y) in collision.value)
              && !(Abs(s.x) > FarBound || Abs(s.y) > FarBound);
  }

  /** A cell that is not land, checked just before a list whose first land
      cell `r` stops at, leaves `r` stopping at that same cell. */
  lemma FirstLandAfter(c: (int, int), rest: seq<(int, int)>, r: RayResult, collision: Collision, before: int)
    requires FirstLand(rest, r, collision, before + 1) && c !in collision.value
    ensures FirstLand([c] + rest, r, collision, before)
  {
    var cells := [c] + rest;
    forall k | 0 <= k < r.distance - before - 1
      ensures cells[k] !in collision.value
    {
      if k > 0 {
        assert cells[k] == rest[k - 1];
      }
    }
  }

  /** A cell that is not land, checked just before a list with no land, leaves
      no land. */
  lemma NoLandAfter(c: (int, int), rest: seq<(int, int)>, r: RayResult, collision: Collision, before: int)
    requires NoLand(rest, r, collision, before + 1) && (collision.Some? ==> c !in collision.value)
    ensures NoLand([c] + rest, r, collision, before)
  {
    var cells := [c] + rest;
    if collision.Some? {
      forall k | 0 <= k < |cells|
        ensures cells[k] !in collision.value
      {
        if k > 0 {
          assert cells[k] == rest[k - 1];
        }
      }
    }
  }

  /** The cells a ray from (sx, sy) checks when none of them is land, the
      origin first. */
  function CastCells(sx: int, sy: int, d: RayDirection, max: nat): (cells: seq<(int, int)>)
    requires IsInt16(sx) && IsInt16(sy)
    ensures |cells| <= max
    ensures |cells| > 0 ==> cells[0] == (sx, sy)
  {
    Checked(LineInit(sx, sy, EndPoint(sx, d.dx, max), EndPoint(sy, d.dy, max)), 0, max)
  }

  /** What `raycaster_cast_ray` reports for a ray from (sx, sy). */
  function Cast(sx: int, sy: int, d: RayDirection, max: nat, collision: Collision): (r: RayResult)
    requires IsInt16(sx) && IsInt16(sy)
    ensures r.rayComplete && r.distance <= max
    ensures r.hitTerrain ==> collision.Some? && (r.hitX, r.hitY) in collision.value && r.distance >= 1
    ensures collision.None? ==> !r.hitTerrain
  {
    Walk(LineInit(sx, sy, EndPoint(sx, d.dx, max), EndPoint(sy, d.dy, max)), 0, max, collision)
  }

  /** A ray stops at the first land cell along it: a hit is the first land cell
      of `CastCells`, at the distance of its position, and a miss found no land
      in any of them. */
  lemma CastFindsFirstLand(sx: int, sy: int, d: RayDirection, max: nat, collision: Collision)
    requires IsInt16(sx) && IsInt16(sy)
    ensures var r := Cast(sx, sy, d, max, collision);
            r.hitTerrain ==> FirstLand(CastCells(sx, sy, d, max), r, collision, 0)
    ensures var r := Cast(sx, sy, d, max, collision);
            !r.hitTerrain ==> NoLand(CastCells(sx, sy, d, max), r, collision, 0)
  {
    var s := LineInit(sx, sy, EndPoint(sx, d.dx, max), EndPoint(sy, d.dy, max));
    if Walk(s, 0, max, collision).hitTerrain {
      WalkHitIsFirstLand(s, 0, max, collision);
    } else {
      WalkMissFindsNoLand(s, 0, max, collision);
    }
  }

  /** The origin is the first cell checked and counts as step 1: a ray cast right
      from (64, 32) over at most 4 cells, against land filling x in 65..67 and y in
      32..34, hits (65, 32) at distance 2. */
  lemma OriginIsStepOne()
    ensures Cast(64, 32, RayDirection(1000, 0, 0), 4,
                 Some(iset x, y | 65 <= x <= 67 && 32 <= y <= 34 :: (x, y))) == RayResult(65, 32, 2, true, true)
  {
    var land: Collision := Some(iset x, y | 65 <= x <= 67 && 32 <= y <= 34 :: (x, y));
    var s0 := LineInit(64, 32, 68, 32);
    assert s0 == LineState(64, 32, 4, 0, 4, 1, -1, false);
    var s1 := LineStep(s0).1;
    assert s1 == LineState(65, 32, 3, 0, 4, 1, -1, false);
    assert Walk(s1, 1, 4, land) == RayResult(65, 32, 2, true, true);
  }

  /** A zero direction or a zero budget completes at once, without a hit, at the
      origin and at distance 0. */
  lemma ZeroLengthRay(sx: int, sy: int, d: RayDirection, max: nat, collision: Collision)
    requires IsInt16(sx) && IsInt16(sy)
    requires (d.dx == 0 && d.dy == 0) || max == 0
    ensures Cast(sx, sy, d, max, collision) == RayResult(sx, sy, 0, false, true)
  {
    assert d.dx * max == 0 && d.dy * max == 0;
    var s := LineInit(sx, sy, sx, sy);
    assert s.dx == 0 && s.dy == 0;
    assert EndPoint(sx, d.dx, max) == sx && EndPoint(sy, d.dy, max) == sy;
    assert Walk(s, 0, max, collision) == RayResult(sx, sy, 0, false, true);
  }

  /** The stalled stepper in a cast: a ray along direction (555, 832) over 4 cells
      aims at (2, 3) but checks (0, 0), (1, 1), (1, 2), (1, 3) and ends at (1, 4). */
  lemma CastMissesTarget()
    ensures EndPoint(0, 555, 4) == 2 && EndPoint(0, 832, 4) == 3
    ensures Cast(0, 0, RayDirection(555, 832, 0), 4, None) == RayResult(1, 4, 4, false, true)
  {
    var s0 := LineInit(0, 0, 2, 3);
    assert s0 == LineState(0, 0, 2, 3, -1, 1, 1, true);
    assert LineStep(s0).1 == LineState(1, 1, 1, 2, -3, 1, 1, true);
    assert LineStep(LineState(1, 1, 1, 2, -3, 1, 1, true)).1 == LineState(1, 2, 1, 1, -2, 1, 1, true);
    assert LineStep(LineState(1, 2, 1, 1, -2, 1, 1, true)).1 == LineState(1, 3, 1, 0, -1, 1, 1, true);
    assert LineStep(LineState(1, 3, 1, 0, -1, 1, 1, true)).1 == LineState(1, 4, 1, -1, 0, 1, 1, true);
    assert Walk(LineState(1, 4, 1, -1, 0, 1, 1, true), 4, 4, None) == RayResult(1, 4, 4, false, true);
  }

  // ---------------------------------------------------------------------------
  // Quality levels

  /** The frame budget `5 >> level`, but at least 1 ms, for levels 0..3. */
  function BudgetFor(level: int): (ms: int)
    requires 0 <= level <= MaxQualityLevel
    ensures 1 <= ms <= 5
  {
    [5, 2, 1, 1][level]
  }

  /** A lower quality level never has a larger budget. */
  lemma BudgetShrinks(a: int, b: int)
    requires 0 <= a <= b <= MaxQualityLevel
    ensures BudgetFor(b) <= BudgetFor(a)
  {
  }

  function ShiftRight(v: nat, n: nat): nat
  {
    if n == 0 then v else ShiftRight(v / 2, n - 1)
  }

  /** The table is the shift of `raycaster_set_quality_level`, floored at 1. */
  lemma BudgetIsShift(level: int)
    requires 0 <= level <= MaxQualityLevel
    ensures BudgetFor(level) == if ShiftRight(5, level) < 1 then 1 else ShiftRight(5, level)
  {
  }

  // ---------------------------------------------------------------------------
  // The ray caster

  class RayCaster {
    /** The direction table and the patterns are filled once, by the allocator. */
    const angleCache: seq<RayDirection>
    const patternFull: RayPattern
    const patternForward: RayPattern
    const patternSparse: RayPattern

    var qualityLevel: int
    var lastPerformanceCheck: int
    var frameTimeBudgetMs: int

    /** The tables hold 256 cached directions indexed by their own angle id, and
        patterns of 32 and 16 rays over radius 48 and 8 rays over radius 24. */
    ghost predicate Tables()
    {
      |angleCache| == RayAnglePrecision &&
      (forall i :: 0 <= i < RayAnglePrecision ==> angleCache[i].angleId == i && IsDirection(angleCache[i])) &&
      PatternOk(patternFull, 32, RayMaxDistance) && PatternOk(patternForward, 16, RayMaxDistance) &&
      PatternOk(patternSparse, 8, RayMaxDistance / 2)
    }

    /** The quality level is 0..3 and the frame budget 1..5 ms. */
    ghost predicate Valid()
      reads this
    {
      0 <= qualityLevel <= MaxQualityLevel && IsU32(lastPerformanceCheck) && 1 <= frameTimeBudgetMs <= 5
    }

    /** `raycaster_alloc`: the direction tables are given (they are computed in
        floating point); the angle ids are the table indices; medium quality. */
    constructor (directions: seq<RayDirection>, full: seq<RayDirection>, forward: seq<RayDirection>,
                 sparse: seq<RayDirection>)
      requires |directions| == RayAnglePrecision && |full| == 32 && |forward| == 16 && |sparse| == 8
      requires forall i :: 0 <= i < |directions| ==> IsDirection(directions[i])
      requires forall i :: 0 <= i < |full| ==> IsDirection(full[i])
      requires forall i :: 0 <= i < |forward| ==> IsDirection(forward[i])
      requires forall i :: 0 <= i < |sparse| ==> IsDirection(sparse[i])
      ensures Valid() && Tables() && qualityLevel == 1 && frameTimeBudgetMs == 3 && lastPerformanceCheck == 0
      ensures patternFull.directions == full && patternForward.directions == forward
      ensures patternSparse.directions == sparse
      ensures forall i :: 0 <= i < RayAnglePrecision ==>
                angleCache[i].dx == directions[i].dx && angleCache[i].dy == directions[i].dy
    {
      angleCache := seq(RayAnglePrecision, i requires 0 <= i < RayAnglePrecision => directions[i].(angleId := i));
      patternFull := RayPattern(full, RayMaxDistance);
      patternForward := RayPattern(forward, RayMaxDistance);
      patternSparse := RayPattern(sparse, RayMaxDistance / 2);
      qualityLevel := 1;
      frameTimeBudgetMs := 3;
      lastPerformanceCheck := 0;
    }

    /** `raycaster_get_cached_direction`: ids wrap around the 256-entry table. */
    function CachedDirection(angleId: int): (d: RayDirection)
      requires Tables() && 0 <= angleId < 65536
      reads this
      ensures d.angleId == angleId % RayAnglePrecision
      ensures d == angleCache[angleId % RayAnglePrecision]
    {
      var id := if angleId >= RayAnglePrecision then angleId % RayAnglePrecision else angleId;
      angleCache[id]
    }

    /** `raycaster_cast_ray`: returns whether the ray hit land, and the result. */
    method CastRay(sx: int, sy: int, d: RayDirection, max: nat, collision: Collision)
      returns (hit: bool, result: RayResult)
      requires IsInt16(sx) && IsInt16(sy)
      ensures result == Cast(sx, sy, d, max, collision) && hit == result.hitTerrain
    {
      var endX := sx + CDiv(d.dx * max, FixedPointScale);
      var endY := sy + CDiv(d.dy * max, FixedPointScale);
      if endX < -32768 { endX := -32768; }
      if endX > 32767 { endX := 32767; }
      if endY < -32768 { endY := -32768; }
      if endY > 32767 { endY := 32767; }
      assert endX == EndPoint(sx, d.dx, max) && endY == EndPoint(sy, d.dy, max);
      var line := LineInit(sx, sy, endX, endY);
      var count := 0;
      while true
        invariant LineOk(line) && 0 <= count <= max
        invariant Walk(line, count, max, collision) == Cast(sx, sy, d, max, collision)
        decreases max - count
      {
        // the stepper reports the cell it stands on, then moves
        var cx, cy := line.x, line.y;
        var (more, next) := LineStep(line);
        line := next;
        if !more || count >= max {
          return false, RayResult(cx, cy, count, false, true);
        }
        count := count + 1;
        if collision.Some? && (cx, cy) in collision.value {
          return true, RayResult(cx, cy, count, true, true);
        }
        if Abs(cx) > FarBound || Abs(cy) > FarBound {
          return false, RayResult(cx, cy, count, false, true);
        }
      }
    }

    /** `raycaster_cast_pattern`: one ray per direction, in order, results written
        to the front of `results`; the quality test in the loop skips nothing. */
    method CastPattern(pattern: RayPattern, sx: int, sy: int, results: array<RayResult>, collision: Collision)
      returns (hits: nat)
      requires IsInt16(sx) && IsInt16(sy) && pattern.maxRadius >= 0
      requires |pattern.directions| <= results.Length
      modifies results
      ensures Filled(results[..], sx, sy, pattern, collision, |pattern.directions|)
      ensures forall k :: |pattern.directions| <= k < results.Length ==> results[k] == old(results[k])
      ensures hits == Hits(results[..], |pattern.directions|)
    {
      hits := 0;
      var i := 0;
      while i < |pattern.directions|
        invariant 0 <= i <= |pattern.directions|
        invariant Filled(results[..], sx, sy, pattern, collision, i)
        invariant forall k :: i <= k < results.Length ==> results[k] == old(results[k])
        invariant hits == Hits(results[..], i)
      {
        hits := CastInto(pattern, sx, sy, results, collision, i, hits);
        // The source's quality test ends in a `continue` that is already the last
        // statement of the loop body, so every direction is cast.
        i := i + 1;
      }
    }

    /** One iteration of `raycaster_cast_pattern`: the i-th ray, stored at index i
        and added to the hit count. */
    method CastInto(pattern: RayPattern, sx: int, sy: int, results: array<RayResult>, collision: Collision,
                    i: nat, hits: nat)
      returns (hits': nat)
      requires IsInt16(sx) && IsInt16(sy) && pattern.maxRadius >= 0
      requires i < |pattern.directions| <= results.Length
      requires Filled(results[..], sx, sy, pattern, collision, i) && hits == Hits(results[..], i)
      modifies results
      ensures Filled(results[..], sx, sy, pattern, collision, i + 1) && hits' == Hits(results[..], i + 1)
      ensures forall k :: 0 <= k < results.Length && k != i ==> results[k] == old(results[k])
    {
      var hit, r := CastRay(sx, sy, pattern.directions[i], pattern.maxRadius, collision);
      ghost var before := results[..];
      results[i] := r;
      HitsAgree(before, results[..], i);
      hits' := if hit then hits + 1 else hits;
    }

    /** `raycaster_set_quality_level`: the level is capped at 3 and the budget follows it. */
    method SetQualityLevel(level: int)
      requires Valid() && 0 <= level < 256
      modifies this
      ensures Valid() && qualityLevel == (if level > MaxQualityLevel then MaxQualityLevel else level)
      ensures frameTimeBudgetMs == BudgetFor(qualityLevel)
      ensures lastPerformanceCheck == old(lastPerformanceCheck)
    {
      var l := level;
      if l > 3 {
        l := 3;
      }
      qualityLevel := l;
      var budget := ShiftRight(5, l);
      BudgetIsShift(l);
      frameTimeBudgetMs := budget;
      if frameTimeBudgetMs < 1 {
        frameTimeBudgetMs := 1;
      }
    }

    /** `raycaster_get_adaptive_pattern`. */
    function AdaptivePattern(preferPerformance: bool): (p: RayPattern)
      requires Valid() && Tables()
      reads this
      ensures |p.directions| == RaysAt(qualityLevel, preferPerformance)
      ensures p.maxRadius == if qualityLevel >= 2 then RayMaxDistance / 2 else RayMaxDistance
    {
      if qualityLevel == 0 then (if preferPerformance then patternForward else patternFull)
      else if qualityLevel == 1 then patternForward
      else patternSparse
    }

    /** `raycaster_update_performance_stats` at time `now` (the tick the source reads):
        at most once per 1000 ms, a frame over twice the budget lowers the quality by
        one level and one under half the budget raises it by one. */
    method UpdatePerformanceStats(frameStart: int, now: int)
      requires Valid() && IsU32(frameStart) && IsU32(now)
      modifies this
      ensures Valid()
      ensures -1 <= qualityLevel - old(qualityLevel) <= 1
      ensures ToU32(now - old(lastPerformanceCheck)) <= PerformanceCheckMs ==>
                qualityLevel == old(qualityLevel) && lastPerformanceCheck == old(lastPerformanceCheck)
      ensures ToU32(now - old(lastPerformanceCheck)) > PerformanceCheckMs ==>
                lastPerformanceCheck == now &&
                (qualityLevel == old(qualityLevel) + 1 <==>
                   ToU32(now - frameStart) > frameTimeBudgetMs * 2 && old(qualityLevel) < MaxQualityLevel) &&
                (qualityLevel == old(qualityLevel) - 1 <==>
                   !(ToU32(now - frameStart) > frameTimeBudgetMs * 2 && old(qualityLevel) < MaxQualityLevel) &&
                   ToU32(now - frameStart) < frameTimeBudgetMs / 2 && old(qualityLevel) > 0)
      ensures frameTimeBudgetMs == old(frameTimeBudgetMs)
    {
      var frameTime := ToU32(now - frameStart);
      if ToU32(now - lastPerformanceCheck) > PerformanceCheckMs {
        if frameTime > ToU32(frameTimeBudgetMs * 2) && qualityLevel < 3 {
          qualityLevel := qualityLevel + 1;
        } else if frameTime < frameTimeBudgetMs / 2 && qualityLevel > 0 {
          qualityLevel := qualityLevel - 1;
        }
        lastPerformanceCheck := now;
      }
    }
  }

  /** The rays of a pattern cast from (sx, sy), in direction order. */
  function PatternCasts(sx: int, sy: int, pattern: RayPattern, collision: Collision): (rs: seq<RayResult>)
    requires IsInt16(sx) && IsInt16(sy) && pattern.maxRadius >= 0
    ensures |rs| == |pattern.directions|
  {
    seq(|pattern.directions|, k requires 0 <= k < |pattern.directions| =>
      Cast(sx, sy, pattern.directions[k], pattern.maxRadius, collision))
  }

  /** The first n results are the rays cast along the first n directions of the pattern. */
  ghost predicate Filled(rs: seq<RayResult>, sx: int, sy: int, pattern: RayPattern, collision: Collision, n: nat)
    requires IsInt16(sx) && IsInt16(sy) && pattern.maxRadius >= 0
  {
    n <= |pattern.directions| && n <= |rs| && rs[..n] == PatternCasts(sx, sy, pattern, collision)[..n]
  }

  /** The number of the first n results that hit land. */
  function Hits(rs: seq<RayResult>, n: nat): (h: nat)
    requires n <= |rs|
    ensures h <= n
  {
    if n == 0 then 0 else Hits(rs, n - 1) + (if rs[n - 1].hitTerrain then 1 else 0)
  }

  /** The count only looks at the first n results. */
  lemma {:induction false} HitsAgree(a: seq<RayResult>, b: seq<RayResult>, n: nat)
    requires n <= |a| && n <= |b| && a[..n] == b[..n]
    ensures Hits(a, n) == Hits(b, n)
  {
    if n > 0 {
      assert a[n - 1] == a[..n][n - 1] && b[n - 1] == b[..n][n - 1];
      assert a[..n - 1] == a[..n][..n - 1] && b[..n - 1] == b[..n][..n - 1];
      HitsAgree(a, b, n - 1);
    }
  }

  /** The number of rays the adaptive pattern casts at a quality level. */
  function RaysAt(level: int, preferPerformance: bool): nat
  {
    if level == 0 && !preferPerformance then 32 else if level <= 1 then 16 else 8
  }

  /** A lower quality (a higher level) never casts more rays. */
  lemma RaysShrink(a: int, b: int, preferPerformance: bool)
    requires 0 <= a <= b <= MaxQualityLevel
    ensures RaysAt(b, preferPerformance) <= RaysAt(a, preferPerformance)
    ensures b > 1 ==> RaysAt(b, preferPerformance) < RaysAt(a, preferPerformance) || a > 1
  {
  }
}
