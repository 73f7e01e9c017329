/** The solver's pure reading of a service answer (`HCaptchaSolver` in
    `core/solver.py`): how an untyped payload is routed, whether an action
    batch is relative to the root element, how a point is mapped to page
    coordinates, how action paths and drag pairs are normalised, and which
    tile or canvas an answer refers to. The pointer effects that follow from
    these decisions are in the `Actions` module. */
module Answers {
  import opened Values
  import opened Geometry

  /** The challenge's `request_type`; any other string is `Other`. */
  datatype Kind = Grid | Canvas | Drag | Other

  function KindOf(requestType: string): (k: Kind)
    ensures k == Grid <==> requestType == "Grid"
    ensures k == Other <==> requestType != "Grid" && requestType != "Canvas" && requestType != "Drag"
  {
    if requestType == "Grid" then Grid
    else if requestType == "Canvas" then Canvas
    else if requestType == "Drag" then Drag
    else Other
  }

  /** `isinstance(v, (list, tuple)) and len(v) >= 2`; a decoded JSON value
      is never a tuple. */
  predicate IsPairLike(v: Value) {
    v.Arr? && |v.items| >= 2
  }

  /** A list whose first two elements are numbers. */
  predicate NumericPair(v: Value) {
    IsPairLike(v) && v.items[0].Num? && v.items[1].Num?
  }

  // ---------------------------------------------------------------------
  // `_is_canvas_path_relative`

  /** What the scan meets, in order: a point it compares, or an operation
      that raises (`.get` on a non-dict action, iterating a number). */
  datatype Probe = Coordinate(at: Point) | Fault

  /** A well-formed entry whose two coordinates convert, as a point. */
  function PairPoint(entry: Value): (r: Option<Point>)
    ensures r.Some? ==> IsPairLike(entry)
    ensures IsPairLike(entry) && entry.items[0].Num? && entry.items[1].Num? ==>
              r == Some(Point(entry.items[0].n, entry.items[1].n))
    ensures IsPairLike(entry) && (ToFloat(entry.items[0]).None? || ToFloat(entry.items[1]).None?) ==> r == None
  {
    if !IsPairLike(entry) then None
    else
      match (ToFloat(entry.items[0]), ToFloat(entry.items[1]))
      case (Some(x), Some(y)) => Some(Point(x, y))
      case _ => None
  }

  /** The points of a list of candidate entries; the others are skipped. */
  function EntryProbes(entries: seq<Value>): seq<Probe>
    decreases |entries|
  {
    if |entries| == 0 then []
    else
      (match PairPoint(entries[0]) case Some(p) => [Coordinate(p)] case None => []) +
      EntryProbes(entries[1..])
  }

  /** The probes of one `path`, `start` or `end` value: None is skipped, a
      non-empty list whose first element is not a list is one candidate
      itself, a falsy value has no candidates, and otherwise its elements are
      the candidates. The elements of a string or the keys of a dict are
      strings, which the entry test skips, and iterating a number raises. */
  function CandidateProbes(points: Value): seq<Probe> {
    if points.Null? then []
    else if points.Arr? && |points.items| > 0 && !points.items[0].Arr? then
      (match PairPoint(points) case Some(p) => [Coordinate(p)] case None => [])
    else if !Truthy(points) then []
    else
      match points
      case Arr(items) => EntryProbes(items)
      case Num(_) => [Fault]
      case Bool(_) => [Fault]
      case _ => []
  }

  /** The probes of one action, key by key; an action that is not a dict
      raises at its first `.get`. */
  function ActionProbes(action: Value): seq<Probe> {
    if !action.Obj? then [Fault]
    else
      CandidateProbes(Get(action.fields, "path")) +
      CandidateProbes(Get(action.fields, "start")) +
      CandidateProbes(Get(action.fields, "end"))
  }

  function BatchProbes(actions: seq<Value>): seq<Probe>
    decreases |actions|
  {
    if |actions| == 0 then [] else ActionProbes(actions[0]) + BatchProbes(actions[1..])
  }

  /** The tolerance band: 80 units beyond each edge of a width x height box. */
  predicate InBand(p: Point, width: real, height: real) {
    -80.0 <= p.x <= width + 80.0 && -80.0 <= p.y <= height + 80.0
  }

  /** The scan loop: the first out-of-band point answers false, the first
      fault raises, and a clean scan answers true. */
  function Scan(probes: seq<Probe>, width: real, height: real): Outcome<bool>
    decreases |probes|
  {
    if |probes| == 0 then Return(true)
    else if probes[0].Fault? then Raise
    else if !InBand(probes[0].at, width, height) then Return(false)
    else Scan(probes[1..], width, height)
  }

  /** The first k probes are points inside the band. */
  predicate ClearUpTo(probes: seq<Probe>, k: int, width: real, height: real)
    requires 0 <= k <= |probes|
  {
    forall j :: 0 <= j < k ==> probes[j].Coordinate? && InBand(probes[j].at, width, height)
  }

  /** The scan answers true exactly when every probe is an in-band point, and
      raises exactly when a fault comes before any out-of-band point. */
  lemma {:induction false} ScanMeaning(probes: seq<Probe>, width: real, height: real)
    ensures Scan(probes, width, height) == Return(true) <==> ClearUpTo(probes, |probes|, width, height)
    ensures Scan(probes, width, height).Raise? <==>
              exists k :: 0 <= k < |probes| && probes[k].Fault? && ClearUpTo(probes, k, width, height)
    decreases |probes|
  {
    if |probes| > 0 {
      ScanMeaning(probes[1..], width, height);
      var tail := probes[1..];
      assert forall k :: 0 <= k < |tail| ==> tail[k] == probes[k + 1];
      if Scan(probes, width, height).Raise? && !probes[0].Fault? {
        var k :| 0 <= k < |tail| && tail[k].Fault? && ClearUpTo(tail, k, width, height);
        assert probes[k + 1].Fault? && ClearUpTo(probes, k + 1, width, height);
      }
      if exists k :: 0 <= k < |probes| && probes[k].Fault? && ClearUpTo(probes, k, width, height) {
        var k :| 0 <= k < |probes| && probes[k].Fault? && ClearUpTo(probes, k, width, height);
        if k > 0 {
          assert tail[k - 1].Fault? && ClearUpTo(tail, k - 1, width, height);
        }
      }
    }
  }

  /** `_is_canvas_path_relative`. */
  function IsCanvasPathRelative(actions: seq<Value>, root: Box): (r: Outcome<bool>)
    ensures root.width <= 0.0 || root.height <= 0.0 ==> r == Return(false)
  {
    if root.width <= 0.0 || root.height <= 0.0 then Return(false)
    else Scan(BatchProbes(actions), root.width, root.height)
  }

  /** A batch is relative exactly when the root has positive size and every
      numeric point of every action's `path`, `start` and `end` lies within 80
      units of the root box; it raises only when a malformed action or value
      is reached before any point outside that band. */
  lemma CanvasPathRelativeMeaning(actions: seq<Value>, root: Box)
    ensures var probes := BatchProbes(actions);
            IsCanvasPathRelative(actions, root) == Return(true) <==>
              root.width > 0.0 && root.height > 0.0 && ClearUpTo(probes, |probes|, root.width, root.height)
    ensures var probes := BatchProbes(actions);
            IsCanvasPathRelative(actions, root).Raise? <==>
              root.width > 0.0 && root.height > 0.0 &&
              exists k :: 0 <= k < |probes| && probes[k].Fault? && ClearUpTo(probes, k, root.width, root.height)
  {
    ScanMeaning(BatchProbes(actions), root.width, root.height);
  }

  /** A flat `[x, y]` counts as one point, a list of such pairs as one point
      each, and a malformed entry of such a list as none. */
  lemma CandidateShapes(x: real, y: real, bad: Value)
    requires !IsPairLike(bad)
    ensures CandidateProbes(Arr([Num(x), Num(y)])) == [Coordinate(Point(x, y))]
    ensures CandidateProbes(Arr([Arr([Num(x), Num(y)]), bad])) == [Coordinate(Point(x, y))]
    ensures CandidateProbes(Arr([Arr([Num(x), Num(y)]), Arr([Num(x), Num(y)])])) ==
              [Coordinate(Point(x, y)), Coordinate(Point(x, y))]
  {
    var pair := Arr([Num(x), Num(y)]);
    assert PairPoint(pair) == Some(Point(x, y));
    assert EntryProbes([pair, bad]) == [Coordinate(Point(x, y))] + EntryProbes([bad]);
    assert EntryProbes([bad]) == [] + EntryProbes([]);
    assert EntryProbes([pair, pair]) == [Coordinate(Point(x, y))] + EntryProbes([pair]);
    assert EntryProbes([pair]) == [Coordinate(Point(x, y))] + EntryProbes([]);
  }

  // ---------------------------------------------------------------------
  // `point_converter`

  /** What `point_converter` closes over: the request type, the root box,
      the frame's offset in the page and the batch-wide relative flag. */
  datatype Mapping = Mapping(kind: Kind, root: Box, frameOffset: Point, relative: bool)

  function Origin(b: Box): Point {
    Point(b.x, b.y)
  }

  /** The grid margin for one dimension of the root box. */
  function GridMargin(extent: real): real {
    extent * 0.25 + 40.0
  }

  /** A point near the grid: inside the root box grown by its margin on every side. */
  predicate NearGrid(root: Box, p: Point) {
    -GridMargin(root.width) <= p.x <= root.width + GridMargin(root.width) &&
    -GridMargin(root.height) <= p.y <= root.height + GridMargin(root.height)
  }

  /** Whether a point is taken relative to the root box; otherwise it is
      relative to the frame. */
  predicate RootRelative(m: Mapping, p: Point) {
    match m.kind
    case Grid => NearGrid(m.root, p)
    case Canvas => m.relative
    case Drag => m.relative
    case Other => false
  }

  /** `_map_point`: a point in page coordinates. */
  function MapPoint(m: Mapping, p: Point): Point
  {
    if RootRelative(m, p) then Translate(p, Origin(m.root)) else Translate(p, m.frameOffset)
  }

  /** `point_converter(px, py)`: both coordinates go through `float()`, which
      raises on anything it cannot convert. */
  function ConvertPoint(m: Mapping, px: Value, py: Value): (r: Outcome<Point>)
    ensures r.Raise? <==> ToFloat(px).None? || ToFloat(py).None?
    ensures r.Return? ==> r.value == MapPoint(m, Point(ToFloat(px).value, ToFloat(py).value))
  {
    match (ToFloat(px), ToFloat(py))
    case (Some(x), Some(y)) => Return(MapPoint(m, Point(x, y)))
    case _ => Raise
  }

  /** For a grid, a point within `w / 4 + 40` of the root box horizontally
      and `h / 4 + 40` vertically, on every side, is relative to the root;
      anything farther out is relative to the frame. In particular the root
      box itself is always relative to the root. */
  lemma GridMarginRule(m: Mapping, p: Point)
    requires m.kind == Grid
    ensures var w := m.root.width;
            var h := m.root.height;
            MapPoint(m, p) ==
              Translate(p, if -(w * 0.25 + 40.0) <= p.x <= w * 1.25 + 40.0 &&
                              -(h * 0.25 + 40.0) <= p.y <= h * 1.25 + 40.0
                           then Origin(m.root) else m.frameOffset)
    ensures m.root.width >= 0.0 && m.root.height >= 0.0 &&
            0.0 <= p.x <= m.root.width && 0.0 <= p.y <= m.root.height ==>
              MapPoint(m, p) == Translate(p, Origin(m.root))
  {
  }

  /** The grid rule on a concrete 100 x 100 box: the margin is 65 units, so
      (160, 50) and (-65, -65) still count as relative to the root, while
      (166, 50) and (50, -66) are relative to the frame. */
  lemma GridMarginExamples(root: Box, frameOffset: Point)
    requires root.width == 100.0 && root.height == 100.0
    ensures var m := Mapping(Grid, root, frameOffset, false);
            MapPoint(m, Point(160.0, 50.0)) == Translate(Point(160.0, 50.0), Origin(root)) &&
            MapPoint(m, Point(-65.0, -65.0)) == Translate(Point(-65.0, -65.0), Origin(root)) &&
            MapPoint(m, Point(166.0, 50.0)) == Translate(Point(166.0, 50.0), frameOffset) &&
            MapPoint(m, Point(50.0, -66.0)) == Translate(Point(50.0, -66.0), frameOffset)
  {
    var m := Mapping(Grid, root, frameOffset, false);
    GridMarginRule(m, Point(160.0, 50.0));
    GridMarginRule(m, Point(-65.0, -65.0));
    GridMarginRule(m, Point(166.0, 50.0));
    GridMarginRule(m, Point(50.0, -66.0));
  }

  /** Canvas and drag batches translate every point by one and the same
      origin, the root's when the batch is relative and the frame's when not. */
  lemma CanvasMappingIsUniform(m: Mapping, p: Point, q: Point)
    requires m.kind == Canvas || m.kind == Drag || m.kind == Other
    ensures MapPoint(m, p).x - p.x == MapPoint(m, q).x - q.x
    ensures MapPoint(m, p).y - p.y == MapPoint(m, q).y - q.y
    ensures MapPoint(m, p) == Translate(p, if m.kind != Other && m.relative then Origin(m.root) else m.frameOffset)
  {
  }

  // ---------------------------------------------------------------------
  // `_convert_action_path`

  /** The optional third element as a delay in seconds: `max(0, v / 1000)`,
      or none when it is absent or does not convert. */
  function EntryDelay(entry: Value): (d: Option<real>)
    requires IsPairLike(entry)
    ensures d.Some? ==> d.value >= 0.0
    ensures |entry.items| >= 3 && entry.items[2].Num? ==> d == Some(Max(0.0, entry.items[2].n / 1000.0))
    ensures |entry.items| >= 3 && ToFloat(entry.items[2]).Some? ==>
              d == Some(Max(0.0, ToFloat(entry.items[2]).value / 1000.0))
    ensures |entry.items| >= 3 && ToFloat(entry.items[2]).None? ==> d == None
    ensures |entry.items| == 2 ==> d == None
  {
    if |entry.items| >= 3 then
      match ToFloat(entry.items[2])
      case Some(v) => Some(Max(0.0, v / 1000.0))
      case None => None
    else None
  }

  /** One path entry: kept when it is a list of at least two elements whose
      coordinates convert, skipped otherwise (the converter's exception is
      caught). */
  function ConvertEntry(m: Mapping, entry: Value): (r: Option<Waypoint>)
    ensures r.Some? <==> IsPairLike(entry) && ConvertPoint(m, entry.items[0], entry.items[1]).Return?
    ensures r.Some? ==> r.value.at == ConvertPoint(m, entry.items[0], entry.items[1]).value
    ensures r.Some? && r.value.delay.Some? ==> r.value.delay.value >= 0.0
  {
    if !IsPairLike(entry) then None
    else
      match ConvertPoint(m, entry.items[0], entry.items[1])
      case Return(at) => Some(Waypoint(at, EntryDelay(entry)))
      case Raise => None
  }

  function ConvertActionPath(m: Mapping, entries: seq<Value>): (r: seq<Waypoint>)
    decreases |entries|
  {
    if |entries| == 0 then []
    else
      (match ConvertEntry(m, entries[0]) case Some(w) => [w] case None => []) +
      ConvertActionPath(m, entries[1..])
  }

  /** The conversion works entry by entry: converting a concatenation
      converts the parts and concatenates them, and a single entry yields its
      own conversion or nothing. With these two facts the conversion keeps
      exactly the convertible entries, in input order. */
  lemma {:induction false} ConvertActionPathSplits(m: Mapping, a: seq<Value>, b: seq<Value>)
    ensures ConvertActionPath(m, a + b) == ConvertActionPath(m, a) + ConvertActionPath(m, b)
    ensures |ConvertActionPath(m, a)| <= |a|
    ensures ConvertActionPath(m, [Null] + a) == ConvertActionPath(m, a)
    decreases |a|
  {
    assert ([Null] + a)[1..] == a;
    if |a| == 0 {
      assert a + b == b;
    } else {
      assert (a + b)[1..] == a[1..] + b;
      assert (a + b)[0] == a[0];
      ConvertActionPathSplits(m, a[1..], b);
      var head := match ConvertEntry(m, a[0]) case Some(w) => [w] case None => [];
      var x, y := ConvertActionPath(m, a[1..]), ConvertActionPath(m, b);
      assert ConvertActionPath(m, a + b) == head + (x + y);
      assert head + (x + y) == (head + x) + y;
    }
  }

  /** Every delay the conversion produces is a non-negative number of seconds. */
  lemma {:induction false} ConvertedDelaysNonnegative(m: Mapping, entries: seq<Value>)
    ensures forall i :: 0 <= i < |ConvertActionPath(m, entries)| ==>
              (ConvertActionPath(m, entries)[i].delay.Some? ==> ConvertActionPath(m, entries)[i].delay.value >= 0.0)
    decreases |entries|
  {
    if |entries| > 0 {
      ConvertedDelaysNonnegative(m, entries[1..]);
    }
  }

  // ---------------------------------------------------------------------
  // One action of `_execute_actions`, up to its pointer effects

  /** What an action asks of the pointer: a drag along a path, a walk along a
      path ending in a click, a single click, or nothing. */
  datatype Plan = DragAlong(path: seq<Waypoint>) | Trail(path: seq<Waypoint>) | Tap(target: Point) | Idle

  /** The actions that set `did_anything`. */
  predicate Productive(p: Plan) {
    match p
    case DragAlong(path) => |path| > 0
    case Trail(path) => |path| > 0
    case Tap(_) => true
    case Idle => false
  }

  /** `str(action.get("type", "")).lower() == "drag"`; the string form of a
      non-string value never equals "drag". */
  predicate IsDragType(action: map<string, Value>) {
    var t := Get(action, "type");
    t.Str? && Lower(t.s) == "drag"
  }

  /** The two-point path a drag without a path gets from its `start` and
      `end`, with a 20 ms delay on each point. The `float()` calls here are
      not guarded. */
  function SynthesisedDragPath(start: Value, end: Value): (r: Outcome<Value>)
    requires IsPairLike(start) && IsPairLike(end)
    ensures r.Raise? <==>
              ToFloat(start.items[0]).None? || ToFloat(start.items[1]).None? ||
              ToFloat(end.items[0]).None? || ToFloat(end.items[1]).None?
  {
    match (ToFloat(start.items[0]), ToFloat(start.items[1]), ToFloat(end.items[0]), ToFloat(end.items[1]))
    case (Some(sx), Some(sy), Some(ex), Some(ey)) =>
      Return(Arr([Arr([Num(sx), Num(sy), Num(20.0)]), Arr([Num(ex), Num(ey), Num(20.0)])]))
    case _ => Raise
  }

  /** `for entry in path`: the elements of a list; the characters of a
      string and the keys of a dict, which are all strings and so all
      skipped; iterating None, a number or a boolean raises. */
  function EntriesOf(raw: Value): (r: Outcome<seq<Value>>)
    ensures raw.Arr? ==> r == Return(raw.items)
    ensures r.Raise? <==> raw.Null? || raw.Num? || raw.Bool?
  {
    match raw
    case Arr(items) => Return(items)
    case Str(s) => Return(ListOf(raw))
    case Obj(_) => Return([])
    case _ => Raise
  }

  /** The fallback when nothing of the path converts: the action's `start`,
      then its `end`, each with a 20 ms delay. The conversions here are not
      guarded. */
  function FallbackPath(m: Mapping, action: map<string, Value>): (r: Outcome<seq<Waypoint>>)
    ensures r.Return? ==> |r.value| <= 2
    ensures r.Return? && |r.value| > 0 ==> IsPairLike(Get(action, "start"))
  {
    var start := Get(action, "start");
    var end := Get(action, "end");
    if !IsPairLike(start) then Return([])
    else
      match ConvertPoint(m, start.items[0], start.items[1])
      case Raise => Raise
      case Return(s) =>
        if !IsPairLike(end) then Return([Waypoint(s, Some(0.02))])
        else
          match ConvertPoint(m, end.items[0], end.items[1])
          case Raise => Raise
          case Return(e) => Return([Waypoint(s, Some(0.02)), Waypoint(e, Some(0.02))])
  }

  /** The raw path of an action: `action.get("path") or []`, replaced for a
      drag without a path by the two-point path built from `start` and `end`. */
  function RawPath(action: map<string, Value>): Outcome<Value> {
    var path := Get(action, "path");
    if Truthy(path) then Return(path)
    else if IsDragType(action) && IsPairLike(Get(action, "start")) && IsPairLike(Get(action, "end")) then
      SynthesisedDragPath(Get(action, "start"), Get(action, "end"))
    else Return(Arr([]))
  }

  /** The converted path of an action, with the start/end fallback. */
  function ActionPath(m: Mapping, action: map<string, Value>): (r: Outcome<seq<Waypoint>>)
    ensures r.Return? && |r.value| == 0 ==> !IsPairLike(Get(action, "start"))
  {
    match RawPath(action)
    case Raise => Raise
    case Return(raw) =>
      match EntriesOf(raw)
      case Raise => Raise
      case Return(entries) =>
        var converted := ConvertActionPath(m, entries);
        if |converted| > 0 then Return(converted) else FallbackPath(m, action)
  }

  /** The decisions `_execute_actions` makes for one action before touching
      the pointer. Every exception the loop body can raise is raised here,
      before any pointer call of that action. */
  function PlanAction(m: Mapping, action: Value): (r: Outcome<Plan>)
    ensures !action.Obj? ==> r.Raise?
    ensures r.Return? && r.value.Trail? ==> |r.value.path| > 0
    ensures r.Return? && r.value.DragAlong? ==> IsDragType(action.fields)
  {
    if !action.Obj? then Raise
    else
      var fields := action.fields;
      match ActionPath(m, fields)
      case Raise => Raise
      case Return(path) =>
        if IsDragType(fields) then Return(DragAlong(path))
        else if |path| > 0 then Return(Trail(path))
        else
          var target := Get(fields, "target");
          if !IsPairLike(target) then Return(Idle)
          else
            match ConvertPoint(m, target.items[0], target.items[1])
            case Raise => Raise
            case Return(t) => Return(Tap(t))
  }

  /** A drag action without a path but with numeric `start` and `end` pairs
      becomes a drag along exactly those two mapped points, each with a 20 ms
      delay, that is 0.02 seconds. */
  lemma SynthesisedDragPlan(m: Mapping, action: map<string, Value>, sx: real, sy: real, ex: real, ey: real)
    requires IsDragType(action) && !Truthy(Get(action, "path"))
    requires Get(action, "start") == Arr([Num(sx), Num(sy)]) && Get(action, "end") == Arr([Num(ex), Num(ey)])
    ensures PlanAction(m, Obj(action)) ==
              Return(DragAlong([Waypoint(MapPoint(m, Point(sx, sy)), Some(0.02)),
                                Waypoint(MapPoint(m, Point(ex, ey)), Some(0.02))]))
  {
    var raw := Arr([Arr([Num(sx), Num(sy), Num(20.0)]), Arr([Num(ex), Num(ey), Num(20.0)])]);
    assert RawPath(action) == Return(raw);
    var entries := raw.items;
    assert 20.0 / 1000.0 == 0.02;
    var w0 := Waypoint(MapPoint(m, Point(sx, sy)), Some(0.02));
    var w1 := Waypoint(MapPoint(m, Point(ex, ey)), Some(0.02));
    assert ConvertEntry(m, entries[0]) == Some(w0);
    assert ConvertEntry(m, entries[1]) == Some(w1);
    assert entries[1..][1..] == [];
    assert ConvertActionPath(m, entries[1..]) == [w1] + ConvertActionPath(m, []);
    assert ConvertActionPath(m, entries) == [w0] + ConvertActionPath(m, entries[1..]);
    assert ConvertActionPath(m, entries) == [w0, w1];
    assert ActionPath(m, action) == Return([w0, w1]);
  }

  /** The end point of a productive plan: where `last_position` is left. */
  function PlanEnd(p: Plan): Point
    requires Productive(p)
  {
    match p
    case DragAlong(path) => path[|path| - 1].at
    case Trail(path) => path[|path| - 1].at
    case Tap(t) => t
  }

  /** The plans of a whole batch, or Raise at the first action that raises. */
  function Plans(m: Mapping, actions: seq<Value>): (r: Outcome<seq<Plan>>)
    ensures r.Return? ==> |r.value| == |actions|
    decreases |actions|
  {
    if |actions| == 0 then Return([])
    else
      match PlanAction(m, actions[0])
      case Raise => Raise
      case Return(p) =>
        match Plans(m, actions[1..])
        case Raise => Raise
        case Return(ps) => Return([p] + ps)
  }

  // ---------------------------------------------------------------------
  // `_apply_answers` routing

  /** Where `_apply_answers` sends an answer. */
  datatype Route =
    | RunActions(actions: seq<Value>)
    | ClickTiles(indices: seq<int>)
    | ClickPoints(points: seq<Value>)
    | DragPairs(coordinates: seq<Value>)
    | Decline

  /** `[int(index) for index in answers]`, raising at the first index that
      does not convert. */
  function GridIndices(items: seq<Value>): (r: Outcome<seq<int>>)
    ensures r.Return? ==> |r.value| == |items| && forall i :: 0 <= i < |items| ==> ToInt(items[i]) == Some(r.value[i])
    ensures r.Raise? <==> exists i :: 0 <= i < |items| && ToInt(items[i]).None?
    decreases |items|
  {
    if |items| == 0 then Return([])
    else
      var rest := GridIndices(items[1..]);
      if ToInt(items[0]).None? then Raise
      else if rest.Raise? then
        var i :| 0 <= i < |items[1..]| && ToInt(items[1..][i]).None?;
        assert ToInt(items[i + 1]).None?;
        Raise
      else
        assert forall i :: 1 <= i < |items| ==> items[i] == items[1..][i - 1];
        Return([ToInt(items[0]).value] + rest.value)
  }

  /** The list part of the routing, once the answer is a list. */
  function RouteList(kind: Kind, items: seq<Value>): Outcome<Route> {
    if |items| > 0 && items[0].Obj? then Return(RunActions(items))
    else
      match kind
      case Grid => (match GridIndices(items) case Raise => Raise case Return(ks) => Return(ClickTiles(ks)))
      case Canvas => Return(ClickPoints(items))
      case Drag => Return(DragPairs(items))
      case Other => Return(Decline)
  }

  /** `actions or steps` of a dict answer. */
  function ActionsField(fields: map<string, Value>): Value {
    var actions := Get(fields, "actions");
    if Truthy(actions) then actions else Get(fields, "steps")
  }

  function Classify(kind: Kind, answers: Value): Outcome<Route> {
    if answers.Obj? then
      var actions := ActionsField(answers.fields);
      if IsSequence(actions) then Return(RunActions(ListOf(actions)))
      else
        var list := Get(answers.fields, "answers");
        if IsSequence(list) then RouteList(kind, ListOf(list)) else Return(Decline)
    else if !IsSequence(answers) then Return(Decline)
    else RouteList(kind, ListOf(answers))
  }

  /** The routing precedence of `_apply_answers`: a dict's `actions` (or,
      when those are falsy, `steps`) list runs as actions; otherwise its
      `answers` list is routed as a list, and a dict with neither is
      declined; a list starting with a dict runs as actions; any other list
      goes by request type, a grid needing every element to be an integer;
      an unknown request type or a scalar answer is declined. */
  lemma ClassifyPrecedence(kind: Kind, answers: Value)
    ensures answers.Obj? && IsSequence(ActionsField(answers.fields)) ==>
              Classify(kind, answers) == Return(RunActions(ListOf(ActionsField(answers.fields))))
    ensures answers.Obj? && !IsSequence(ActionsField(answers.fields)) ==>
              Classify(kind, answers) ==
                (if IsSequence(Get(answers.fields, "answers")) then RouteList(kind, ListOf(Get(answers.fields, "answers")))
                 else Return(Decline))
    ensures answers.Arr? && |answers.items| > 0 && answers.items[0].Obj? ==>
              Classify(kind, answers) == Return(RunActions(answers.items))
    ensures answers.Arr? && (|answers.items| == 0 || !answers.items[0].Obj?) ==>
              Classify(kind, answers) ==
                match kind
                case Grid => if GridIndices(answers.items).Raise? then Raise else Return(ClickTiles(GridIndices(answers.items).value))
                case Canvas => Return(ClickPoints(answers.items))
                case Drag => Return(DragPairs(answers.items))
                case Other => Return(Decline)
    ensures answers.Null? || answers.Bool? || answers.Num? ==> Classify(kind, answers) == Return(Decline)
  {
  }

  // ---------------------------------------------------------------------
  // Tiles, canvases and drag pairs

  /** A tile holds a point when it has a bounding box that contains it. */
  predicate TileHolds(tile: Option<Box>, p: Point) {
    tile.Some? && PointInsideBox(tile.value, p)
  }

  /** `_find_grid_tile`: the first tile, in document order, whose box contains the point. */
  function FindGridTile(tiles: seq<Option<Box>>, p: Point): (r: Option<nat>)
    ensures r.Some? ==> r.value < |tiles| && TileHolds(tiles[r.value], p) &&
                        forall j :: 0 <= j < r.value ==> !TileHolds(tiles[j], p)
    ensures r.None? ==> forall j :: 0 <= j < |tiles| ==> !TileHolds(tiles[j], p)
    decreases |tiles|
  {
    if |tiles| == 0 then None
    else if TileHolds(tiles[0], p) then Some(0)
    else
      match FindGridTile(tiles[1..], p)
      case Some(i) => Some(i + 1)
      case None => None
  }

  /** A canvas large enough to be the challenge: both sides at least 100. */
  predicate IsPrimary(canvas: Option<Box>) {
    canvas.Some? && canvas.value.width >= 100.0 && canvas.value.height >= 100.0
  }

  /** `_find_primary_canvas`: the first canvas with a box of at least 100 x 100. */
  function PrimaryCanvas(canvases: seq<Option<Box>>): (r: Option<Box>)
    ensures r.Some? ==> exists i :: 0 <= i < |canvases| && canvases[i] == r && IsPrimary(canvases[i]) &&
                          forall j :: 0 <= j < i ==> !IsPrimary(canvases[j])
    ensures r.None? ==> forall j :: 0 <= j < |canvases| ==> !IsPrimary(canvases[j])
    decreases |canvases|
  {
    if |canvases| == 0 then None
    else if IsPrimary(canvases[0]) then
      assert canvases[0] == canvases[0];
      canvases[0]
    else
      var r := PrimaryCanvas(canvases[1..]);
      if r.Some? then
        var i :| 0 <= i < |canvases[1..]| && canvases[1..][i] == r && IsPrimary(canvases[1..][i]) &&
                 forall j :: 0 <= j < i ==> !IsPrimary(canvases[1..][j]);
        assert canvases[i + 1] == r && IsPrimary(canvases[i + 1]);
        assert forall j :: 0 <= j < i + 1 ==> !IsPrimary(canvases[j]) by {
          forall j | 0 <= j < i + 1 ensures !IsPrimary(canvases[j]) {
            if j > 0 {
              assert canvases[j] == canvases[1..][j - 1];
            }
          }
        }
        r
      else
        assert forall j :: 1 <= j < |canvases| ==> canvases[j] == canvases[1..][j - 1];
        r
  }

  /** `tiles[index]` after the `index >= len(tiles)` guard: a negative index
      counts from the end as in Python, and one below `-len(tiles)` raises.
      None means the index is skipped. */
  function TileSlot(index: int, count: nat): (r: Outcome<Option<nat>>)
    ensures r.Return? && r.value.Some? ==> r.value.value < count
    ensures r.Raise? <==> index < -(count as int)
    ensures r == Return(None) <==> index >= count
    ensures 0 <= index < count ==> r == Return(Some(index))
  {
    if index >= count then Return(None)
    else if index >= 0 then Return(Some(index))
    else if index >= -(count as int) then Return(Some(index + count))
    else Raise
  }

  /** `_drag_canvas_pairs` reads its coordinates two at a time: consecutive
      pairs from the start, a trailing odd element dropped. */
  function PairUp(coordinates: seq<Value>): (r: seq<(Value, Value)>)
    decreases |coordinates|
  {
    if |coordinates| < 2 then []
    else [(coordinates[0], coordinates[1])] + PairUp(coordinates[2..])
  }

  /** The i-th pair is elements 2i and 2i+1, whatever those look like, so a
      malformed pair never shifts the pairing of the elements after it, and
      an odd trailing element is never paired. */
  lemma {:induction false} PairUpIsConsecutive(coordinates: seq<Value>)
    ensures |PairUp(coordinates)| == |coordinates| / 2
    ensures forall i :: 0 <= i < |PairUp(coordinates)| ==>
              PairUp(coordinates)[i] == (coordinates[2 * i], coordinates[2 * i + 1])
    decreases |coordinates|
  {
    if |coordinates| >= 2 {
      var rest := coordinates[2..];
      PairUpIsConsecutive(rest);
      var r := PairUp(coordinates);
      assert r == [(coordinates[0], coordinates[1])] + PairUp(rest);
      forall i | 0 <= i < |r| ensures r[i] == (coordinates[2 * i], coordinates[2 * i + 1]) {
        if i > 0 {
          assert r[i] == PairUp(rest)[i - 1];
          assert rest[2 * (i - 1)] == coordinates[2 * i];
          assert rest[2 * (i - 1) + 1] == coordinates[2 * i + 1];
        }
      }
    }
  }

  /** One pair of `_drag_canvas_pairs`: skipped unless both are lists of at
      least two elements; their unguarded `float()` calls may raise. */
  function DragPair(canvas: Box, pair: (Value, Value)): (r: Outcome<Option<(Point, Point)>>)
    ensures r == Return(None) <==> !IsPairLike(pair.0) || !IsPairLike(pair.1)
    ensures NumericPair(pair.0) && NumericPair(pair.1) ==>
              r == Return(Some((Point(canvas.x + pair.0.items[0].n, canvas.y + pair.0.items[1].n),
                                Point(canvas.x + pair.1.items[0].n, canvas.y + pair.1.items[1].n))))
  {
    var (a, b) := pair;
    if !IsPairLike(a) || !IsPairLike(b) then Return(None)
    else
      match (ToFloat(a.items[0]), ToFloat(a.items[1]), ToFloat(b.items[0]), ToFloat(b.items[1]))
      case (Some(x0), Some(y0), Some(x1), Some(y1)) =>
        Return(Some((Translate(Point(x0, y0), Origin(canvas)), Translate(Point(x1, y1), Origin(canvas)))))
      case _ => Raise
  }

  /** `len(point)` and `point[0]`, `point[1]` for one answer of
      `_click_canvas_points`: lists and strings index by position; a dict has
      a length but no integer keys; other values have no length. */
  function CanvasPoint(canvas: Box, point: Value): (r: Outcome<Option<Point>>)
    ensures point.Arr? && |point.items| < 2 ==> r == Return(None)
    ensures point.Null? || point.Num? || point.Bool? ==> r.Raise?
    ensures IsPairLike(point) && point.items[0].Num? && point.items[1].Num? ==>
              r == Return(Some(Point(canvas.x + point.items[0].n, canvas.y + point.items[1].n)))
  {
    match point
    case Arr(items) =>
      if |items| < 2 then Return(None) else CanvasCoordinates(canvas, items[0], items[1])
    case Str(s) =>
      if |s| < 2 then Return(None) else CanvasCoordinates(canvas, Str([s[0]]), Str([s[1]]))
    case Obj(fields) =>
      if |fields| < 2 then Return(None) else Raise
    case _ => Raise
  }

  function CanvasCoordinates(canvas: Box, px: Value, py: Value): Outcome<Option<Point>> {
    match (ToFloat(px), ToFloat(py))
    case (Some(x), Some(y)) => Return(Some(Point(canvas.x + x, canvas.y + y)))
    case _ => Raise
  }

  // ---------------------------------------------------------------------
  // `_build_human_move_payload`

  /** `max(0.0, round(value - offset, 2))`. */
  function ClampedOffset(value: real, offset: real): (r: real)
    ensures r >= 0.0
    ensures value - offset <= 0.0 ==> r == 0.0
    ensures -0.005 <= r - (value - offset) <= 0.005 || (r == 0.0 && value - offset <= 0.005)
  {
    Max(0.0, Round2(value - offset))
  }

  /** Every clamped coordinate is non-negative and within 0.005 of the
      frame-relative coordinate it rounds, and is exactly 0 for a point left
      of or above the frame. */
  lemma ClampedOffsetBounds(value: real, offset: real)
    ensures 0.0 <= ClampedOffset(value, offset)
    ensures value - offset >= 0.0 ==> -0.005 <= ClampedOffset(value, offset) - (value - offset) <= 0.005
    ensures value - offset <= 0.0 ==> ClampedOffset(value, offset) == 0.0
  {
  }

  /** `_build_human_move_payload` from its inputs: the frame offset, the
      pointer's current position (falling back to the remembered one) and the
      submit button's box, if any. The result is the start and end of the
      route, relative to the frame and clamped at 0. */
  function HumanMovePayload(frameOffset: Point, current: Option<Point>, remembered: Point, submit: Option<Box>): (r: Option<(Point, Point)>)
    ensures r.Some? <==> submit.Some?
    ensures r.Some? ==> r.value.0.x >= 0.0 && r.value.0.y >= 0.0 && r.value.1.x >= 0.0 && r.value.1.y >= 0.0
    ensures r.Some? ==>
              var s := current.GetOr(remembered);
              var c := Center(submit.value);
              r.value.0 == Point(ClampedOffset(s.x, frameOffset.x), ClampedOffset(s.y, frameOffset.y)) &&
              r.value.1 == Point(ClampedOffset(c.x, frameOffset.x), ClampedOffset(c.y, frameOffset.y))
  {
    match submit
    case None => None
    case Some(box) =>
      var start := current.GetOr(remembered);
      var end := Center(box);
      Some((Point(ClampedOffset(start.x, frameOffset.x), ClampedOffset(start.y, frameOffset.y)),
            Point(ClampedOffset(end.x, frameOffset.x), ClampedOffset(end.y, frameOffset.y))))
  }
}
