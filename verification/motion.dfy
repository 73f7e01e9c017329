/** The pointer layer (`MouseMotion`): the pointer position and recorded trace,
    the path synthesiser's structure, and the stream of low-level pointer
    calls each operation issues. The random draws and the Bézier numerics are
    inputs (`Page.initFraction`, `Page.curve`); only the shape of what is
    built from them is modelled. */
module Motion {
  import opened Values
  import opened Geometry

  /** A low-level pointer call (`mouse.move` with its step count, `mouse.down`,
      `mouse.up`) or a real-time pause in seconds. */
  datatype Event = Move(to: Point, steps: int) | Down | Up | Sleep(seconds: real)

  /** The state of a `MouseMotion`: the position (none until first set or
      moved) and the trace recorded by the last `move_to`. */
  datatype Mouse = Mouse(position: Option<Point>, trace: Option<seq<Point>>)

  /** What the pointer layer reads from the page, and its random draws:
      `initFraction` holds the two `random.uniform` draws of `_init_position`
      as fractions of their ranges, and `curve(start, end, t)` is the jittered
      Bézier sample `_build_path` takes at parameter `t`. */
  datatype Page = Page(viewport: Option<Size>, initFraction: Point, curve: (Point, Point, real) -> Point)

  /** The state after an operation and the calls it issued, in order. */
  datatype Step = Step(mouse: Mouse, events: seq<Event>)

  /** A freshly constructed `MouseMotion`. */
  const Unmoved: Mouse := Mouse(None, None)

  /** Events that move the pointer or wait, but never press or release. */
  predicate OnlyMoves(events: seq<Event>) {
    forall i :: 0 <= i < |events| ==> events[i].Move? || events[i].Sleep?
  }

  function Count(events: seq<Event>, e: Event): nat
    decreases |events|
  {
    if |events| == 0 then 0 else (if events[0] == e then 1 else 0) + Count(events[1..], e)
  }

  /** The targets of the move calls, in order. */
  function MoveTargets(events: seq<Event>): seq<Point>
    decreases |events|
  {
    if |events| == 0 then []
    else (if events[0].Move? then [events[0].to] else []) + MoveTargets(events[1..])
  }

  /** Total real time spent pausing. */
  function TotalPause(events: seq<Event>): real
    decreases |events|
  {
    if |events| == 0 then 0.0
    else (if events[0].Sleep? then events[0].seconds else 0.0) + TotalPause(events[1..])
  }

  lemma {:induction false} CountConcat(a: seq<Event>, b: seq<Event>, e: Event)
    ensures Count(a + b, e) == Count(a, e) + Count(b, e)
    decreases |a|
  {
    if |a| == 0 {
      assert a + b == b;
    } else {
      assert (a + b)[1..] == a[1..] + b;
      CountConcat(a[1..], b, e);
    }
  }

  lemma {:induction false} MoveTargetsConcat(a: seq<Event>, b: seq<Event>)
    ensures MoveTargets(a + b) == MoveTargets(a) + MoveTargets(b)
    decreases |a|
  {
    if |a| == 0 {
      assert a + b == b;
    } else {
      assert (a + b)[1..] == a[1..] + b;
      assert (a + b)[0] == a[0];
      MoveTargetsConcat(a[1..], b);
      var head := if a[0].Move? then [a[0].to] else [];
      var x, y := MoveTargets(a[1..]), MoveTargets(b);
      assert MoveTargets(a + b) == head + (x + y);
      assert head + (x + y) == (head + x) + y;
    }
  }

  lemma {:induction false} TotalPauseConcat(a: seq<Event>, b: seq<Event>)
    ensures TotalPause(a + b) == TotalPause(a) + TotalPause(b)
    decreases |a|
  {
    if |a| == 0 {
      assert a + b == b;
    } else {
      assert (a + b)[1..] == a[1..] + b;
      TotalPauseConcat(a[1..], b);
    }
  }

  /** Moving and pausing never press or release the button. */
  lemma {:induction false} MovesHaveNoClicks(events: seq<Event>)
    requires OnlyMoves(events)
    ensures Count(events, Down) == 0 && Count(events, Up) == 0
    decreases |events|
  {
    if |events| > 0 {
      MovesHaveNoClicks(events[1..]);
    }
  }

  /** `set_position`: the position is forced and nothing else changes. */
  function SetPosition(m: Mouse, p: Point): (r: Mouse)
    ensures r.position == Some(p) && r.trace == m.trace
  {
    m.(position := Some(p))
  }

  /** `random.uniform(lo, hi)` for the draw fraction `f`. */
  function Uniform(lo: real, hi: real, f: real): real {
    lo + f * (hi - lo)
  }

  /** `_init_position`: uniform in the middle 60% of the viewport, or in a fixed
      fallback rectangle when the viewport size is unknown. */
  function InitialPosition(page: Page): Point {
    var f := page.initFraction;
    match page.viewport
    case Some(v) =>
      Point(Uniform(v.width * 0.2, v.width * 0.8, f.x), Uniform(v.height * 0.2, v.height * 0.8, f.y))
    case None =>
      Point(Uniform(200.0, 600.0, f.x), Uniform(200.0, 500.0, f.y))
  }

  predicate FractionsValid(page: Page) {
    0.0 <= page.initFraction.x <= 1.0 && 0.0 <= page.initFraction.y <= 1.0
  }

  /** A draw with a fraction in [0, 1] stays within its bounds. */
  lemma UniformBetween(lo: real, hi: real, f: real)
    requires lo <= hi && 0.0 <= f <= 1.0
    ensures lo <= Uniform(lo, hi, f) <= hi
  {
    var d := hi - lo;
    MulNonnegative(f, d);
    MulNonnegative(1.0 - f, d);
    assert (1.0 - f) * d == d - f * d;
  }

  /** The lazily initialised position lies in [0.2 w, 0.8 w] x [0.2 h, 0.8 h]
      of a known viewport, and in [200, 600] x [200, 500] otherwise. */
  lemma InitialPositionInRange(page: Page)
    requires FractionsValid(page)
    ensures page.viewport.Some? && page.viewport.value.width >= 0.0 && page.viewport.value.height >= 0.0 ==>
              var v := page.viewport.value;
              var p := InitialPosition(page);
              v.width * 0.2 <= p.x <= v.width * 0.8 && v.height * 0.2 <= p.y <= v.height * 0.8
    ensures page.viewport.None? ==>
              var p := InitialPosition(page);
              200.0 <= p.x <= 600.0 && 200.0 <= p.y <= 500.0
  {
    var f := page.initFraction;
    if page.viewport.Some? && page.viewport.value.width >= 0.0 && page.viewport.value.height >= 0.0 {
      var v := page.viewport.value;
      UniformBetween(v.width * 0.2, v.width * 0.8, f.x);
      UniformBetween(v.height * 0.2, v.height * 0.8, f.y);
    } else if page.viewport.None? {
      UniformBetween(200.0, 600.0, f.x);
      UniformBetween(200.0, 500.0, f.y);
    }
  }

  /** Where a move starts: the current position, or the lazily initialised one. */
  function StartOf(m: Mouse, page: Page): Point {
    if m.position.Some? then m.position.value else InitialPosition(page)
  }

  /** `self._position or await self._init_position()`: an unset position is
      initialised, announced with one move call, and kept. */
  function Initialize(m: Mouse, page: Page): (r: Step)
    ensures r.mouse.position == Some(StartOf(m, page)) && r.mouse.trace == m.trace
    ensures m.position.Some? ==> r.events == []
    ensures m.position.None? ==> r.events == [Move(InitialPosition(page), 1)]
  {
    if m.position.Some? then Step(m, [])
    else Step(m.(position := Some(InitialPosition(page))), [Move(InitialPosition(page), 1)])
  }

  // ---------------------------------------------------------------------
  // Path synthesis (`_build_path`)

  function Clamp(n: int, lo: int, hi: int): int
    requires lo <= hi
  {
    if n < lo then lo else if n > hi then hi else n
  }

  function SquaredDistance(a: Point, b: Point): real {
    (b.x - a.x) * (b.x - a.x) + (b.y - a.y) * (b.y - a.y)
  }

  /** The largest k in [from, 45] whose 12 k does not exceed the distance, with
      the comparison made on squares, so that no square root is needed. */
  function ClimbSteps(sq: real, from: int): (n: int)
    requires 12 <= from <= 45
    ensures from <= n <= 45
    decreases 45 - from
  {
    if from < 45 && 144.0 * ((from + 1) as real) * ((from + 1) as real) <= sq then ClimbSteps(sq, from + 1)
    else from
  }

  /** The step count used when no explicit count is given. */
  function DefaultStepCount(start: Point, end: Point): (n: int)
    ensures 12 <= n <= 45
  {
    ClimbSteps(SquaredDistance(start, end), 12)
  }

  lemma SquareMonotone(a: real, b: real)
    requires a >= 0.0 && b >= 0.0
    ensures a * a <= b * b <==> a <= b
  {
    if a <= b {
      MulNonnegative(b - a, a);
      MulNonnegative(b - a, b);
      assert a * a <= a * b <= b * b;
    } else {
      MulPositive(a - b, a + b);
      assert a * a - b * b == (a - b) * (a + b);
    }
  }

  lemma {:induction false} ClimbStepsReaches(sq: real, d: real, from: int)
    requires d >= 0.0 && d * d == sq
    requires 12 <= from <= 45
    requires from <= 12 || from <= (d / 12.0).Floor
    ensures ClimbSteps(sq, from) == Clamp((d / 12.0).Floor, 12, 45)
    decreases 45 - from
  {
    if from < 45 {
      ClimbComparison(sq, d, from + 1);
      if 144.0 * ((from + 1) as real) * ((from + 1) as real) <= sq {
        ClimbStepsReaches(sq, d, from + 1);
      }
    }
  }

  /** With sq the square of d, the comparison on squares is the comparison
      of k with the whole part of d / 12. */
  lemma ClimbComparison(sq: real, d: real, k: int)
    requires d >= 0.0 && d * d == sq && k >= 0
    ensures 144.0 * (k as real) * (k as real) <= sq <==> k <= (d / 12.0).Floor
  {
    var r := k as real;
    SquareMonotone(12.0 * r, d);
    assert 144.0 * r * r == (12.0 * r) * (12.0 * r);
    assert 12.0 * r <= d <==> r <= d / 12.0;
  }

  /** With d the Euclidean distance, the default step count is
      `max(12, min(45, int(d / 12)))`. */
  lemma DefaultStepCountIsClampedQuotient(start: Point, end: Point, d: real)
    requires d >= 0.0 && d * d == SquaredDistance(start, end)
    ensures DefaultStepCount(start, end) == Clamp((d / 12.0).Floor, 12, 45)
  {
    ClimbStepsReaches(SquaredDistance(start, end), d, 12);
  }

  /** `steps or <default>`: an absent or zero count falls back to the default. */
  function StepCount(start: Point, end: Point, steps: Option<int>): (n: int)
    ensures steps.Some? && steps.value != 0 ==> n == steps.value
    ensures steps.None? || steps.value == 0 ==> n == DefaultStepCount(start, end) && 12 <= n <= 45
  {
    if steps.None? || steps.value == 0 then DefaultStepCount(start, end) else steps.value
  }

  /** The curve parameter of the i-th of n samples: t = (i + 1) / n. */
  function Parameter(i: nat, n: nat): real
    requires i < n
  {
    (i + 1) as real / n as real
  }

  /** The samples sweep the curve parameter upwards through (0, 1], ending at 1. */
  lemma ParametersSweepUnitInterval(n: nat, i: nat, j: nat)
    requires i < j < n
    ensures 0.0 < Parameter(i, n) < Parameter(j, n) <= 1.0
    ensures Parameter(n - 1, n) == 1.0
  {
    assert (i + 1) as real < (j + 1) as real <= n as real;
  }

  /** The curve samples of the loop of `_build_path`, from the `from`-th to
      the last of `count`. */
  function Samples(start: Point, end: Point, curve: (Point, Point, real) -> Point, from: nat, count: nat): (s: seq<Point>)
    requires from <= count
    ensures |s| == count - from
    decreases count - from
  {
    if from == count then [] else [curve(start, end, Parameter(from, count))] + Samples(start, end, curve, from + 1, count)
  }

  lemma {:induction false} SamplesAt(start: Point, end: Point, curve: (Point, Point, real) -> Point, from: nat, count: nat, i: nat)
    requires from <= count && i < count - from
    ensures Samples(start, end, curve, from, count)[i] == curve(start, end, Parameter(from + i, count))
    decreases i
  {
    if i > 0 {
      SamplesAt(start, end, curve, from + 1, count, i - 1);
    }
  }

  /** `_build_path`: one curve sample per step, then the exact end point. */
  function BuildPath(start: Point, end: Point, steps: Option<int>, curve: (Point, Point, real) -> Point): (path: seq<Point>)
    ensures var n := StepCount(start, end, steps);
            |path| == (if n > 0 then n else 0) + 1
    ensures path[|path| - 1] == end
  {
    var n := StepCount(start, end, steps);
    var count: nat := if n > 0 then n else 0;
    Samples(start, end, curve, 0, count) + [end]
  }

  /** Every point before the last is the curve sample at its parameter. */
  lemma BuildPathSamplesCurve(start: Point, end: Point, steps: Option<int>, curve: (Point, Point, real) -> Point, i: nat)
    requires i < |BuildPath(start, end, steps, curve)| - 1
    ensures var path := BuildPath(start, end, steps, curve);
            path[i] == curve(start, end, Parameter(i, |path| - 1))
  {
    SamplesAt(start, end, curve, 0, |BuildPath(start, end, steps, curve)| - 1, i);
  }

  /** The jitter bound of each sample: `min(6, max(1.2, distance / 60))`. */
  function JitterMagnitude(distance: real): (j: real)
    ensures 1.2 <= j <= 6.0
    ensures 72.0 <= distance <= 360.0 ==> j == distance / 60.0
  {
    Min(6.0, Max(1.2, distance / 60.0))
  }

  /** One single-step move call per path point. */
  function MovesAlong(path: seq<Point>): (r: seq<Event>)
    ensures |r| == |path| && OnlyMoves(r)
  {
    seq(|path|, i requires 0 <= i < |path| => Move(path[i], 1))
  }

  // ---------------------------------------------------------------------
  // Pointer operations

  /** `move_to`: follows a synthesised path and ends exactly on the target. */
  function MoveTo(m: Mouse, target: Point, recordTrace: bool, page: Page): (r: Step)
    ensures r.mouse.position == Some(target)
    ensures OnlyMoves(r.events) && |r.events| > 0 && r.events[|r.events| - 1] == Move(target, 1)
    ensures m.position.Some? ==> |r.events| == DefaultStepCount(StartOf(m, page), target) + 1
    ensures r.mouse.trace.Some? <==> recordTrace
    ensures recordTrace ==>
              var t := r.mouse.trace.value;
              |t| == DefaultStepCount(StartOf(m, page), target) + 2 &&
              t[0] == StartOf(m, page) && t[|t| - 1] == target
  {
    var init := Initialize(m, page);
    var start := StartOf(m, page);
    var path := BuildPath(start, target, None, page.curve);
    Step(Mouse(Some(target), if recordTrace then Some([start] + path) else None), init.events + MovesAlong(path))
  }

  /** Following a path moves through exactly its points. */
  lemma {:induction false} MovesAlongTargets(path: seq<Point>)
    ensures MoveTargets(MovesAlong(path)) == path
    decreases |path|
  {
    if |path| > 0 {
      assert MovesAlong(path)[1..] == MovesAlong(path[1..]);
      MovesAlongTargets(path[1..]);
    }
  }

  /** The trace `move_to` records is the start followed by exactly the points
      its move calls visit after the lazy initialisation. */
  lemma MoveToRecordsItsPath(m: Mouse, target: Point, page: Page)
    ensures var r := MoveTo(m, target, true, page);
            var t := r.mouse.trace.value;
            |t| > 0 && t[0] == StartOf(m, page) && MoveTargets(r.events) == InitTargets(m, page) + t[1..]
  {
    var init := Initialize(m, page);
    var start := StartOf(m, page);
    var path := BuildPath(start, target, None, page.curve);
    MoveTargetsConcat(init.events, MovesAlong(path));
    MovesAlongTargets(path);
    assert MoveTargets(init.events) == InitTargets(m, page) by {
      if m.position.None? {
        assert init.events == [Move(InitialPosition(page), 1)];
        assert init.events[1..] == [];
      }
    }
    assert ([start] + path)[1..] == path;
  }

  /** `steps or 1`. */
  function StepsOrOne(steps: Option<int>): int {
    if steps.None? || steps.value == 0 then 1 else steps.value
  }

  function SleepIfPositive(seconds: real): seq<Event> {
    if seconds > 0.0 then [Sleep(seconds)] else []
  }

  /** `move_direct`: an optional pause, then one move call with `steps or 1`
      steps straight to the target. */
  function MoveDirect(m: Mouse, target: Point, delay: Option<real>, steps: Option<int>, page: Page): (r: Step)
    ensures r.mouse.position == Some(target) && r.mouse.trace == m.trace
    ensures OnlyMoves(r.events) && |r.events| > 0
    ensures r.events[|r.events| - 1] == Move(target, StepsOrOne(steps))
  {
    var init := Initialize(m, page);
    var pause := Max(0.0, delay.GetOr(0.0));
    Step(init.mouse.(position := Some(target)), init.events + SleepIfPositive(pause) + [Move(target, StepsOrOne(steps))])
  }

  /** The target of the initialising move call, if one is issued. */
  function InitTargets(m: Mouse, page: Page): seq<Point> {
    if m.position.None? then [InitialPosition(page)] else []
  }

  /** `move_direct` pauses for `max(0, delay or 0)` seconds in all, never a
      negative time, and issues no move besides the lazy initialisation and
      the one to the target. */
  lemma MoveDirectPausesAndTargets(m: Mouse, target: Point, delay: Option<real>, steps: Option<int>, page: Page)
    ensures var r := MoveDirect(m, target, delay, steps, page);
            TotalPause(r.events) == Max(0.0, delay.GetOr(0.0)) >= 0.0 &&
            MoveTargets(r.events) == InitTargets(m, page) + [target]
  {
    var init := Initialize(m, page);
    var pause := SleepIfPositive(Max(0.0, delay.GetOr(0.0)));
    var last := [Move(target, StepsOrOne(steps))];
    assert MoveDirect(m, target, delay, steps, page).events == init.events + pause + last;
    TotalPauseConcat(init.events + pause, last);
    TotalPauseConcat(init.events, pause);
    MoveTargetsConcat(init.events + pause, last);
    MoveTargetsConcat(init.events, pause);
  }

  /** `move_points`: `move_direct` once per waypoint, in order. */
  function MovePoints(m: Mouse, points: seq<Waypoint>, page: Page): (r: Step)
    ensures |points| == 0 ==> r == Step(m, [])
    ensures |points| > 0 ==> r.mouse.position == Some(points[|points| - 1].at)
    ensures r.mouse.trace == m.trace
    ensures OnlyMoves(r.events)
    decreases |points|
  {
    if |points| == 0 then Step(m, [])
    else
      var first := MoveDirect(m, points[0].at, points[0].delay, None, page);
      var rest := MovePoints(first.mouse, points[1..], page);
      Step(rest.mouse, first.events + rest.events)
  }

  function Ats(points: seq<Waypoint>): (r: seq<Point>)
    ensures |r| == |points| && forall i :: 0 <= i < |r| ==> r[i] == points[i].at
  {
    seq(|points|, i requires 0 <= i < |points| => points[i].at)
  }

  lemma AtsCons(points: seq<Waypoint>)
    requires |points| > 0
    ensures Ats(points) == [points[0].at] + Ats(points[1..])
  {
  }

  /** The move targets of one `move_points` step: the first waypoint's
      `move_direct`, then the rest of the waypoints. */
  lemma MovePointsTargetsStep(m: Mouse, points: seq<Waypoint>, page: Page)
    requires |points| > 0
    ensures var first := MoveDirect(m, points[0].at, points[0].delay, None, page);
            first.mouse.position.Some? &&
            MoveTargets(MovePoints(m, points, page).events) ==
              InitTargets(m, page) + [points[0].at] + MoveTargets(MovePoints(first.mouse, points[1..], page).events)
  {
    var first := MoveDirect(m, points[0].at, points[0].delay, None, page);
    var rest := MovePoints(first.mouse, points[1..], page);
    assert MovePoints(m, points, page).events == first.events + rest.events;
    MoveTargetsConcat(first.events, rest.events);
    MoveDirectPausesAndTargets(m, points[0].at, points[0].delay, None, page);
  }

  /** The move calls of `move_points` visit exactly the waypoints in order,
      preceded by the lazy initialisation when no position was set. */
  lemma {:induction false} MovePointsVisitsInOrder(m: Mouse, points: seq<Waypoint>, page: Page)
    requires |points| > 0
    ensures MoveTargets(MovePoints(m, points, page).events) == InitTargets(m, page) + Ats(points)
    decreases |points|
  {
    var first := MoveDirect(m, points[0].at, points[0].delay, None, page);
    var rest := MovePoints(first.mouse, points[1..], page);
    MovePointsTargetsStep(m, points, page);
    if |points| > 1 {
      MovePointsVisitsInOrder(first.mouse, points[1..], page);
    }
    assert MoveTargets(rest.events) == Ats(points[1..]);
    AtsCons(points);
    ConcatAssociates(InitTargets(m, page), [points[0].at], Ats(points[1..]));
  }

  lemma ConcatAssociates<T>(a: seq<T>, b: seq<T>, c: seq<T>)
    ensures a + b + c == a + (b + c)
  {
  }

  /** Moves, one press immediately followed by one release, then moves:
      the shape of every click. */
  predicate PressAt(events: seq<Event>, k: int) {
    0 <= k && k + 1 < |events| && events[k] == Down && events[k + 1] == Up &&
    forall i :: 0 <= i < |events| && i != k && i != k + 1 ==> events[i].Move? || events[i].Sleep?
  }

  lemma OnlyMovesConcat(a: seq<Event>, b: seq<Event>)
    requires OnlyMoves(a) && OnlyMoves(b)
    ensures OnlyMoves(a + b)
  {
    assert forall i :: |a| <= i < |a + b| ==> (a + b)[i] == b[i - |a|];
  }

  lemma JoinPress(events: seq<Event>, a: seq<Event>, b: seq<Event>, k: int)
    requires OnlyMoves(a) && OnlyMoves(b)
    requires events == a + [Down, Up] + b && k == |a|
    ensures PressAt(events, k)
  {
    assert forall i :: k + 1 < i < |events| ==> events[i] == b[i - k - 2];
  }

  /** A click shape presses and releases exactly once. */
  lemma PressAtCountsOnce(events: seq<Event>, k: int)
    requires PressAt(events, k)
    ensures Count(events, Down) == 1 && Count(events, Up) == 1
  {
    var a, b := events[..k], events[k + 2..];
    assert OnlyMoves(a) by {
      forall i | 0 <= i < |a| ensures a[i].Move? || a[i].Sleep? {
        assert a[i] == events[i];
      }
    }
    assert OnlyMoves(b) by {
      forall i | 0 <= i < |b| ensures b[i].Move? || b[i].Sleep? {
        assert b[i] == events[k + 2 + i];
      }
    }
    assert events == a + [Down, Up] + b;
    PressShapeCounts(a, b);
  }

  lemma PressShapeCounts(a: seq<Event>, b: seq<Event>)
    requires OnlyMoves(a) && OnlyMoves(b)
    ensures Count(a + [Down, Up] + b, Down) == 1 && Count(a + [Down, Up] + b, Up) == 1
  {
    MovesHaveNoClicks(a);
    MovesHaveNoClicks(b);
    CountConcat(a + [Down, Up], b, Down);
    CountConcat(a, [Down, Up], Down);
    CountConcat(a + [Down, Up], b, Up);
    CountConcat(a, [Down, Up], Up);
  }

  /** `click_here`: press and release where the pointer is. */
  function ClickHere(m: Mouse, delayBefore: real, delayAfter: real): (r: Step)
    ensures r.mouse == m
    ensures PressAt(r.events, |SleepIfPositive(delayBefore)|)
  {
    var before := SleepIfPositive(delayBefore);
    var events := before + [Down, Up] + SleepIfPositive(delayAfter);
    JoinPress(events, before, SleepIfPositive(delayAfter), |before|);
    Step(m, events)
  }

  /** `click`: `move_to` the target, then press and release there. */
  function Click(m: Mouse, target: Point, delayBefore: real, delayAfter: real, recordTrace: bool, page: Page): (r: Step)
    ensures r.mouse.position == Some(target) && (r.mouse.trace.Some? <==> recordTrace)
    ensures var k := |r.events| - |SleepIfPositive(delayAfter)| - 2;
            PressAt(r.events, k) && 0 < k &&
            (delayBefore <= 0.0 ==> r.events[k - 1] == Move(target, 1))
  {
    var reach := MoveTo(m, target, recordTrace, page);
    var before := SleepIfPositive(delayBefore);
    var after := SleepIfPositive(delayAfter);
    var events := reach.events + before + [Down, Up] + after;
    OnlyMovesConcat(reach.events, before);
    JoinPress(events, reach.events + before, after, |events| - |after| - 2);
    Step(reach.mouse, events)
  }

  /** Without pauses, a click ends with the move onto the target, the press
      and the release. */
  lemma ClickWithoutPauses(m: Mouse, target: Point, recordTrace: bool, page: Page)
    ensures var r := Click(m, target, 0.0, 0.0, recordTrace, page);
            |r.events| >= 3 && PressAt(r.events, |r.events| - 2) && r.events[|r.events| - 3] == Move(target, 1) &&
            Count(r.events, Down) == 1 && Count(r.events, Up) == 1
  {
    var r := Click(m, target, 0.0, 0.0, recordTrace, page);
    assert SleepIfPositive(0.0) == [];
    PressAtCountsOnce(r.events, |r.events| - 2);
  }

  /** `max(10, int(steps * 1.2))`. */
  function DragStepCount(steps: int): (n: int)
    ensures n >= 10
    ensures steps >= 0 ==> n >= steps
  {
    var scaled := Trunc(steps as real * 1.2);
    if scaled > 10 then scaled else 10
  }

  /** Moves, one press, moves, one release: the shape of a drag. */
  predicate DragAt(events: seq<Event>, k: int, start: Point, end: Point) {
    0 < k < |events| - 2 && events[k] == Down && events[|events| - 1] == Up &&
    events[k - 1] == Move(start, 1) && events[|events| - 2] == Move(end, 1) &&
    forall i :: 0 <= i < |events| - 1 && i != k ==> events[i].Move? || events[i].Sleep?
  }

  /** A drag shape presses exactly once, before its path, and releases exactly once, after it. */
  lemma DragAtCountsOnce(events: seq<Event>, k: int, start: Point, end: Point)
    requires DragAt(events, k, start, end)
    ensures Count(events, Down) == 1 && Count(events, Up) == 1
  {
    var a, b := events[..k], events[k + 1..|events| - 1];
    assert OnlyMoves(a) by {
      forall i | 0 <= i < |a| ensures a[i].Move? || a[i].Sleep? {
        assert a[i] == events[i];
      }
    }
    assert OnlyMoves(b) by {
      forall i | 0 <= i < |b| ensures b[i].Move? || b[i].Sleep? {
        assert b[i] == events[k + 1 + i];
      }
    }
    assert events == a + [Down] + b + [Up];
    DragShapeCounts(a, b);
  }

  lemma DragShapeCounts(a: seq<Event>, b: seq<Event>)
    requires OnlyMoves(a) && OnlyMoves(b)
    ensures Count(a + [Down] + b + [Up], Down) == 1 && Count(a + [Down] + b + [Up], Up) == 1
  {
    MovesHaveNoClicks(a);
    MovesHaveNoClicks(b);
    CountConcat(a + [Down] + b, [Up], Down);
    CountConcat(a + [Down], b, Down);
    CountConcat(a, [Down], Down);
    CountConcat(a + [Down] + b, [Up], Up);
    CountConcat(a + [Down], b, Up);
    CountConcat(a, [Down], Up);
  }

  lemma JoinDrag(events: seq<Event>, reach: seq<Event>, moves: seq<Event>, start: Point, end: Point, k: int)
    requires OnlyMoves(reach) && |reach| > 0 && reach[|reach| - 1] == Move(start, 1)
    requires OnlyMoves(moves) && |moves| > 0 && moves[|moves| - 1] == Move(end, 1)
    requires events == reach + [Down] + moves + [Up] && k == |reach|
    ensures DragAt(events, k, start, end)
  {
    assert forall i :: |reach| < i < |events| - 1 ==> events[i] == moves[i - |reach| - 1];
  }

  /** `drag_and_drop`: move to the start, press, follow a path with the raised
      step count to the end, release. */
  function DragAndDrop(m: Mouse, start: Point, end: Point, steps: int, page: Page): (r: Step)
    ensures r.mouse == Mouse(Some(end), None)
    ensures DragAt(r.events, |r.events| - DragStepCount(steps) - 3, start, end)
  {
    var reach := MoveTo(m, start, false, page);
    var path := BuildPath(start, end, Some(DragStepCount(steps)), page.curve);
    var moves := MovesAlong(path);
    var events := reach.events + [Down] + moves + [Up];
    assert moves[|moves| - 1] == Move(end, 1);
    JoinDrag(events, reach.events, moves, start, end, |events| - DragStepCount(steps) - 3);
    Step(Mouse(Some(end), None), events)
  }
}
