/** The pointer effects of an answer (`_apply_answers`, `_execute_actions`,
    `_click_grid_tiles`, `_click_canvas_points`, `_drag_canvas_pairs` and
    their helpers in `core/solver.py`). The frame's elements are inputs read
    once: their bounding boxes, the tiles of the grid and the canvases, in
    document order. Every operation returns the pointer state and the pointer
    calls it issued; an exception raised part-way keeps the calls before it. */
module Actions {
  import opened Values
  import opened Geometry
  import opened Motion
  import opened Presses
  import opened Answers

  /** The `.task-grid` element: its bounding box and its tiles' boxes. */
  datatype TaskGrid = TaskGrid(box: Option<Box>, tiles: seq<Option<Box>>)

  /** What the solver reads from the challenge frame. For the two submit
      selectors, None means no such element and Some(None) an element
      without a bounding box. `offset` is the frame's position in the page,
      (0, 0) when it cannot be read. */
  datatype Frame = Frame(
    grid: Option<TaskGrid>,
    canvases: seq<Option<Box>>,
    submit: Option<Option<Box>>,
    submitFallback: Option<Option<Box>>,
    offset: Point)

  /** The pointer and the solver's remembered `last_mouse_position`. */
  datatype Pointer = Pointer(mouse: Mouse, last: Point)

  /** A pointer state and the calls that led to it. */
  datatype Acted = Acted(ptr: Pointer, events: seq<Event>)

  /** An effectful loop that may stop on an exception part-way. */
  datatype Walk = Walk(ptr: Pointer, events: seq<Event>, raised: bool)

  /** The outcome of `_execute_actions` or `_apply_answers`. */
  datatype Run = Run(ptr: Pointer, events: seq<Event>, result: Outcome<bool>)

  // ---------------------------------------------------------------------
  // Pointer gestures

  /** `move_direct(x, y)` then `click_here()`. */
  function ClickAt(ptr: Pointer, target: Point, page: Page): (r: Acted)
    ensures r.ptr == Pointer(Mouse(Some(target), ptr.mouse.trace), ptr.last)
    ensures PressAt(r.events, |r.events| - 2) && |r.events| >= 3 && r.events[|r.events| - 3] == Move(target, 1)
    ensures Count(r.events, Down) == 1 && Count(r.events, Up) == 1
    ensures MoveTargets(r.events) == InitTargets(ptr.mouse, page) + [target]
  {
    var reach := MoveDirect(ptr.mouse, target, None, None, page);
    var press := ClickHere(reach.mouse, 0.0, 0.0);
    JoinPress(reach.events + press.events, reach.events, [], |reach.events|);
    PressAtCountsOnce(reach.events + press.events, |reach.events|);
    MoveDirectPausesAndTargets(ptr.mouse, target, None, None, page);
    assert press.events == [Down, Up];
    assert MoveTargets([Down, Up]) == [] by {
      assert [Down, Up][1..] == [Up];
      assert [Up][1..] == [];
    }
    MoveTargetsConcat(reach.events, press.events);
    Acted(Pointer(press.mouse, ptr.last), reach.events + press.events)
  }

  /** `move_to(x, y)` then press and release: `MouseMotion.click`. */
  function GlideClick(ptr: Pointer, target: Point, page: Page): (r: Acted)
    ensures r.ptr == Pointer(Mouse(Some(target), None), ptr.last)
    ensures PressAt(r.events, |r.events| - 2) && |r.events| >= 3 && r.events[|r.events| - 3] == Move(target, 1)
    ensures Count(r.events, Down) == 1 && Count(r.events, Up) == 1
  {
    var c := Click(ptr.mouse, target, 0.0, 0.0, false, page);
    ClickWithoutPauses(ptr.mouse, target, false, page);
    Acted(Pointer(c.mouse, ptr.last), c.events)
  }

  /** `_perform_drag_action` on a non-empty path: `move_direct` to the first
      point with its delay (0 when none), press, `move_direct` through the
      rest with their delays, release, and remember the last point. */
  function PerformDrag(ptr: Pointer, path: seq<Waypoint>, page: Page): (r: Acted)
    requires |path| > 0
    ensures r.ptr.mouse.position == Some(path[|path| - 1].at) && r.ptr.last == path[|path| - 1].at
    ensures Count(r.events, Down) == 1 && Count(r.events, Up) == 1
  {
    var first := MoveDirect(ptr.mouse, path[0].at, Some(path[0].delay.GetOr(0.0)), None, page);
    var rest := MovePoints(first.mouse, path[1..], page);
    DragShapeCounts(first.events, rest.events);
    Acted(Pointer(rest.mouse, path[|path| - 1].at), first.events + [Down] + rest.events + [Up])
  }

  /** `_click_grid_coordinate`: click the centre of the first tile that
      contains the point, or the point itself, and remember where. */
  function ClickGridCoordinate(ptr: Pointer, tiles: seq<Option<Box>>, p: Point, page: Page): (r: Acted)
    ensures var target := match FindGridTile(tiles, p) case Some(i) => Center(tiles[i].value) case None => p;
            r.ptr.mouse.position == Some(target) && r.ptr.last == target
    ensures PressAt(r.events, |r.events| - 2)
  {
    var target := match FindGridTile(tiles, p) case Some(i) => Center(tiles[i].value) case None => p;
    var a := ClickAt(ptr, target, page);
    Acted(a.ptr.(last := target), a.events)
  }

  /** Moves followed by a single click press the button once. */
  lemma MovesThenPress(a: seq<Event>, b: seq<Event>)
    requires OnlyMoves(a) && PressAt(b, |b| - 2)
    ensures Count(a + b, Down) == 1 && Count(a + b, Up) == 1
  {
    MovesHaveNoClicks(a);
    PressAtCountsOnce(b, |b| - 2);
    CountConcat(a, b, Down);
    CountConcat(a, b, Up);
  }

  // ---------------------------------------------------------------------
  // `_execute_actions`

  /** A walk through a non-empty path, then a click on its last point:
      through the submit button when it lies inside the submit box, on the
      tile under it for a grid, and in place otherwise; only the first and
      the second remember the clicked point. */
  function PerformTrail(ptr: Pointer, path: seq<Waypoint>, kind: Kind, tiles: seq<Option<Box>>, submit: Box, page: Page): (r: Acted)
    requires |path| > 0
    ensures r.ptr.mouse.position.Some?
    ensures PointInsideBox(submit, path[|path| - 1].at) ==> r.ptr.last == path[|path| - 1].at
    ensures !PointInsideBox(submit, path[|path| - 1].at) && kind != Grid ==> r.ptr.last == ptr.last
    ensures Count(r.events, Down) == 1 && Count(r.events, Up) == 1
  {
    var walk := MovePoints(ptr.mouse, path, page);
    var end := path[|path| - 1].at;
    var p := Pointer(walk.mouse, ptr.last);
    var a := if PointInsideBox(submit, end) then ClickAt(p, end, page)
             else if kind == Grid then ClickGridCoordinate(p, tiles, end, page)
             else ClickAt(p, end, page);
    MovesThenPress(walk.events, a.events);
    Acted(if PointInsideBox(submit, end) then a.ptr.(last := end) else a.ptr, walk.events + a.events)
  }

  /** The pointer calls of one planned action: every productive action
      presses and releases the button exactly once, any other issues no
      pointer call. */
  function PerformPlan(ptr: Pointer, plan: Plan, kind: Kind, tiles: seq<Option<Box>>, submit: Box, page: Page): (r: Acted)
    ensures !Productive(plan) ==> r == Acted(ptr, [])
    ensures Productive(plan) ==> r.ptr.mouse.position.Some?
    ensures Count(r.events, Down) == (if Productive(plan) then 1 else 0)
    ensures Count(r.events, Up) == (if Productive(plan) then 1 else 0)
  {
    match plan
    case Idle => Acted(ptr, [])
    case Tap(t) =>
      var a := ClickAt(ptr, t, page);
      PressAtCountsOnce(a.events, |a.events| - 2);
      a
    case DragAlong(path) => if |path| == 0 then Acted(ptr, []) else PerformDrag(ptr, path, page)
    case Trail(path) => if |path| == 0 then Acted(ptr, []) else PerformTrail(ptr, path, kind, tiles, submit, page)
  }

  /** The loop of `_execute_actions` over the remaining actions, with the
      `did_anything` and `last_position` accumulated so far. An action that
      raises ends the loop with the exception; the end of the loop remembers
      `last_position` when there is one. */
  function RunLoop(page: Page, m: Mapping, tiles: seq<Option<Box>>, submit: Box, ptr: Pointer,
                   actions: seq<Value>, did: bool, lastPosition: Option<Point>): (r: Run)
    decreases |actions|
  {
    if |actions| == 0 then
      Run(if lastPosition.Some? then ptr.(last := lastPosition.value) else ptr, [], Return(did))
    else
      match PlanAction(m, actions[0])
      case Raise => Run(ptr, [], Raise)
      case Return(plan) =>
        var a := PerformPlan(ptr, plan, m.kind, tiles, submit, page);
        var next := if Productive(plan) then Some(PlanEnd(plan)) else lastPosition;
        var rest := RunLoop(page, m, tiles, submit, a.ptr, actions[1..], did || Productive(plan), next);
        Run(rest.ptr, a.events + rest.events, rest.result)
  }

  /** What `_execute_actions` needs before its loop: the root element's box
      (the task grid, or the primary canvas otherwise), the grid's tiles and
      the submit box. None when one is missing. */
  datatype Setup = Setup(root: Box, tiles: seq<Option<Box>>, submit: Box)

  function SetupOf(frame: Frame, kind: Kind): (r: Option<Setup>)
    ensures r.Some? && kind == Grid ==> frame.grid.Some? && frame.grid.value.box == Some(r.value.root)
    ensures r.Some? && kind != Grid ==> PrimaryCanvas(frame.canvases) == Some(r.value.root)
    ensures r.Some? ==> frame.submit == Some(Some(r.value.submit))
  {
    var root: Option<(Box, seq<Option<Box>>)> :=
      if kind == Grid then
        (if frame.grid.Some? && frame.grid.value.box.Some? then Some((frame.grid.value.box.value, frame.grid.value.tiles)) else None)
      else
        (match PrimaryCanvas(frame.canvases) case Some(b) => Some((b, [])) case None => None);
    if root.None? || frame.submit.None? || frame.submit.value.None? then None
    else Some(Setup(root.value.0, root.value.1, frame.submit.value.value))
  }

  /** The batch-wide relative flag: only canvas and drag batches are scanned. */
  function RelativeFlag(kind: Kind, actions: seq<Value>, root: Box): Outcome<bool> {
    if kind == Canvas || kind == Drag then IsCanvasPathRelative(actions, root) else Return(false)
  }

  function ExecuteActions(page: Page, frame: Frame, kind: Kind, actions: seq<Value>, ptr: Pointer): (r: Run)
    ensures |actions| == 0 ==> r == Run(ptr, [], Return(false))
    ensures SetupOf(frame, kind).None? ==> r == Run(ptr, [], Return(false))
    ensures (|actions| > 0 && SetupOf(frame, kind).Some? &&
             RelativeFlag(kind, actions, SetupOf(frame, kind).value.root).Raise?) ==> r == Run(ptr, [], Raise)
  {
    if |actions| == 0 then Run(ptr, [], Return(false))
    else
      match SetupOf(frame, kind)
      case None => Run(ptr, [], Return(false))
      case Some(s) =>
        match RelativeFlag(kind, actions, s.root)
        case Raise => Run(ptr, [], Raise)
        case Return(relative) =>
          RunLoop(page, Mapping(kind, s.root, frame.offset, relative), s.tiles, s.submit, ptr, actions, false, None)
  }

  /** The number of productive plans. */
  function ProductiveCount(plans: seq<Plan>): nat
    decreases |plans|
  {
    if |plans| == 0 then 0 else (if Productive(plans[0]) then 1 else 0) + ProductiveCount(plans[1..])
  }

  /** Where the last productive plan ends, if any plan is productive; read
      from the back of the batch. */
  function LastEnd(plans: seq<Plan>): Option<Point>
    decreases |plans|
  {
    if |plans| == 0 then None
    else if Productive(plans[|plans| - 1]) then Some(PlanEnd(plans[|plans| - 1]))
    else LastEnd(plans[..|plans| - 1])
  }

  /** Read from the front: a later productive plan overrides an earlier one. */
  lemma {:induction false} LastEndCons(p: Plan, ps: seq<Plan>)
    ensures LastEnd([p] + ps) ==
            if LastEnd(ps).Some? then LastEnd(ps) else if Productive(p) then Some(PlanEnd(p)) else None
    decreases |ps|
  {
    var all := [p] + ps;
    if |ps| == 0 {
      assert all[..0] == [];
    } else {
      assert all[|all| - 1] == ps[|ps| - 1];
      assert all[..|all| - 1] == [p] + ps[..|ps| - 1];
      LastEndCons(p, ps[..|ps| - 1]);
    }
  }

  /** There is a last productive plan exactly when some plan is productive. */
  lemma {:induction false} LastEndExists(plans: seq<Plan>)
    ensures LastEnd(plans).Some? <==> ProductiveCount(plans) > 0
    decreases |plans|
  {
    if |plans| > 0 {
      LastEndCons(plans[0], plans[1..]);
      assert [plans[0]] + plans[1..] == plans;
      LastEndExists(plans[1..]);
    }
  }

  lemma {:induction false} ProductiveCountPositive(plans: seq<Plan>)
    ensures ProductiveCount(plans) > 0 <==> exists i :: 0 <= i < |plans| && Productive(plans[i])
    decreases |plans|
  {
    if |plans| > 0 {
      ProductiveCountPositive(plans[1..]);
      if exists i :: 0 <= i < |plans| && Productive(plans[i]) {
        var i :| 0 <= i < |plans| && Productive(plans[i]);
        if i > 0 {
          assert plans[1..][i - 1] == plans[i];
        }
      }
      if exists i :: 0 <= i < |plans[1..]| && Productive(plans[1..][i]) {
        var i :| 0 <= i < |plans[1..]| && Productive(plans[1..][i]);
        assert Productive(plans[i + 1]);
      }
    }
  }

  /** Presses and releases add up over consecutive calls. */
  lemma PressesAdd(e: seq<Event>, a: seq<Event>, b: seq<Event>, na: nat, nb: nat)
    requires e == a + b
    requires Count(a, Down) == na && Count(a, Up) == na && Count(b, Down) == nb && Count(b, Up) == nb
    ensures Count(e, Down) == na + nb && Count(e, Up) == na + nb
  {
    CountConcat(a, b, Down);
    CountConcat(a, b, Up);
  }

  /** The plans of a batch whose first action plans are that plan followed
      by the plans of the rest. */
  lemma PlansStep(m: Mapping, actions: seq<Value>)
    requires |actions| > 0 && PlanAction(m, actions[0]).Return?
    ensures Plans(m, actions).Raise? <==> Plans(m, actions[1..]).Raise?
    ensures Plans(m, actions).Return? ==>
              ProductiveCount(Plans(m, actions).value) ==
                (if Productive(PlanAction(m, actions[0]).value) then 1 else 0) + ProductiveCount(Plans(m, actions[1..]).value)
  {
    if Plans(m, actions).Return? {
      var ps := Plans(m, actions).value;
      assert ps[1..] == Plans(m, actions[1..]).value;
    }
  }

  /** The loop answers `did_anything`: true exactly when an action so far was
      productive; an action that raises makes the loop raise; and when no
      action raises, the loop presses the button once per productive action. */
  lemma {:induction false} RunLoopMeaning(page: Page, m: Mapping, tiles: seq<Option<Box>>, submit: Box, ptr: Pointer,
                                          actions: seq<Value>, did: bool, lastPosition: Option<Point>)
    ensures Plans(m, actions).Raise? ==> RunLoop(page, m, tiles, submit, ptr, actions, did, lastPosition).result.Raise?
    ensures Plans(m, actions).Return? ==>
              var r := RunLoop(page, m, tiles, submit, ptr, actions, did, lastPosition);
              var n := ProductiveCount(Plans(m, actions).value);
              r.result == Return(did || n > 0) && Count(r.events, Down) == n && Count(r.events, Up) == n
    decreases |actions|
  {
    var r := RunLoop(page, m, tiles, submit, ptr, actions, did, lastPosition);
    if |actions| > 0 && PlanAction(m, actions[0]).Return? {
      var plan := PlanAction(m, actions[0]).value;
      var a := PerformPlan(ptr, plan, m.kind, tiles, submit, page);
      var next := if Productive(plan) then Some(PlanEnd(plan)) else lastPosition;
      var rest := RunLoop(page, m, tiles, submit, a.ptr, actions[1..], did || Productive(plan), next);
      RunLoopMeaning(page, m, tiles, submit, a.ptr, actions[1..], did || Productive(plan), next);
      PlansStep(m, actions);
      if Plans(m, actions).Return? {
        PressesAdd(r.events, a.events, rest.events, if Productive(plan) then 1 else 0, ProductiveCount(Plans(m, actions[1..]).value));
      }
    }
  }

  /** The loop ends by remembering the end of the last productive action;
      when none was productive, the position it was given, if any; and
      otherwise the pointer keeps what it remembered. */
  lemma {:induction false} RunLoopRemembers(page: Page, m: Mapping, tiles: seq<Option<Box>>, submit: Box, ptr: Pointer,
                                            actions: seq<Value>, did: bool, lastPosition: Option<Point>)
    ensures Plans(m, actions).Return? ==>
              RunLoop(page, m, tiles, submit, ptr, actions, did, lastPosition).ptr.last ==
              LastEnd(Plans(m, actions).value).GetOr(lastPosition.GetOr(ptr.last))
    decreases |actions|
  {
    if |actions| > 0 && PlanAction(m, actions[0]).Return? && Plans(m, actions).Return? {
      var plan := PlanAction(m, actions[0]).value;
      var a := PerformPlan(ptr, plan, m.kind, tiles, submit, page);
      var next := if Productive(plan) then Some(PlanEnd(plan)) else lastPosition;
      RunLoopRemembers(page, m, tiles, submit, a.ptr, actions[1..], did || Productive(plan), next);
      assert Plans(m, actions).value == [plan] + Plans(m, actions[1..]).value;
      LastEndCons(plan, Plans(m, actions[1..]).value);
    }
  }

  /** `_execute_actions` answers false for an empty batch or a frame without
      its root or submit box; otherwise, when no action raises, it answers
      whether at least one action was productive (a converted path point or a
      valid target), pressing the button once for each such action; an
      action that raises makes it raise. */
  lemma ExecuteActionsMeaning(page: Page, frame: Frame, kind: Kind, actions: seq<Value>, ptr: Pointer)
    requires |actions| > 0 && SetupOf(frame, kind).Some?
    ensures RelativeFlag(kind, actions, SetupOf(frame, kind).value.root).Raise? ==>
              ExecuteActions(page, frame, kind, actions, ptr) == Run(ptr, [], Raise)
    ensures var s := SetupOf(frame, kind).value;
            RelativeFlag(kind, actions, s.root).Return? ==>
            var m := Mapping(kind, s.root, frame.offset, RelativeFlag(kind, actions, s.root).value);
            var r := ExecuteActions(page, frame, kind, actions, ptr);
            (Plans(m, actions).Raise? ==> r.result.Raise?) &&
            (Plans(m, actions).Return? ==>
               var ps := Plans(m, actions).value;
               r.result == Return(exists i :: 0 <= i < |ps| && Productive(ps[i])) &&
               Count(r.events, Down) == ProductiveCount(ps) && Count(r.events, Up) == ProductiveCount(ps) &&
               r.ptr.last == LastEnd(ps).GetOr(ptr.last))
  {
    var s := SetupOf(frame, kind).value;
    if RelativeFlag(kind, actions, s.root).Return? {
      var m := Mapping(kind, s.root, frame.offset, RelativeFlag(kind, actions, s.root).value);
      RunLoopMeaning(page, m, s.tiles, s.submit, ptr, actions, false, None);
      RunLoopRemembers(page, m, s.tiles, s.submit, ptr, actions, false, None);
      if Plans(m, actions).Return? {
        ProductiveCountPositive(Plans(m, actions).value);
      }
    }
  }

  // ---------------------------------------------------------------------
  // `_click_grid_tiles`, `_click_canvas_points`, `_drag_canvas_pairs`

  /** One click of a series: `ClickAt` for grid tiles, `GlideClick` for
      canvas points. Either way it presses and releases once, right after
      the move onto the target. */
  function ClickOnce(ptr: Pointer, target: Point, glide: bool, page: Page): (r: Acted)
    ensures r.ptr == Clicked(ptr, target, glide).(last := ptr.last)
    ensures PressAt(r.events, |r.events| - 2) && |r.events| >= 3 && r.events[|r.events| - 3] == Move(target, 1)
    ensures Count(r.events, Down) == 1 && Count(r.events, Up) == 1
    ensures !glide ==> MoveTargets(r.events) == InitTargets(ptr.mouse, page) + [target]
  {
    if glide then GlideClick(ptr, target, page) else ClickAt(ptr, target, page)
  }

  /** Click each target in turn, remembering each one: with `move_direct`
      and `click_here` (grid tiles), or with `click` (canvas points). */
  function ClickSeries(ptr: Pointer, targets: seq<Point>, glide: bool, page: Page): (r: Acted)
    ensures |targets| == 0 ==> r == Acted(ptr, [])
    ensures |targets| > 0 ==> r.ptr.mouse.position == Some(targets[|targets| - 1]) && r.ptr.last == targets[|targets| - 1]
    decreases |targets|
  {
    if |targets| == 0 then Acted(ptr, [])
    else
      var a := ClickOnce(ptr, targets[0], glide, page);
      var rest := ClickSeries(a.ptr.(last := targets[0]), targets[1..], glide, page);
      assert |targets| > 1 ==> targets[1..][|targets| - 2] == targets[|targets| - 1];
      Acted(rest.ptr, a.events + rest.events)
  }

  lemma {:induction false} ClickSeriesPresses(ptr: Pointer, targets: seq<Point>, glide: bool, page: Page)
    ensures Count(ClickSeries(ptr, targets, glide, page).events, Down) == |targets|
    ensures Count(ClickSeries(ptr, targets, glide, page).events, Up) == |targets|
    decreases |targets|
  {
    if |targets| > 0 {
      var a := ClickOnce(ptr, targets[0], glide, page);
      var next := a.ptr.(last := targets[0]);
      ClickSeriesPresses(next, targets[1..], glide, page);
      PressesAdd(ClickSeries(ptr, targets, glide, page).events, a.events, ClickSeries(next, targets[1..], glide, page).events, 1, |targets| - 1);
    }
  }

  /** Where one click of a series leaves the pointer: on the target, which
      it remembers; a gliding click also clears the recorded trace. */
  function Clicked(ptr: Pointer, target: Point, glide: bool): Pointer {
    Pointer(Mouse(Some(target), if glide then None else ptr.mouse.trace), target)
  }

  /** Each press and each release of a click series happens on its target,
      in order, wherever the pointer started. */
  lemma {:induction false} ClickSeriesLandsOn(ptr: Pointer, targets: seq<Point>, glide: bool, page: Page, at: Point)
    ensures ButtonPoints(ClickSeries(ptr, targets, glide, page).events, Down, at) == targets
    ensures ButtonPoints(ClickSeries(ptr, targets, glide, page).events, Up, at) == targets
    decreases |targets|
  {
    if |targets| > 0 {
      ClickSeriesHead(ptr, targets, glide, page, at);
      ClickSeriesLandsOn(Clicked(ptr, targets[0], glide), targets[1..], glide, page, targets[0]);
      HeadThenTail(targets);
    }
  }

  /** The first click of a series presses and releases first, on the first
      target; the rest of the series goes on from there. The pointer the
      rest starts from is written out, so the recursions over a series never
      look inside a click. */
  lemma ClickSeriesHead(ptr: Pointer, targets: seq<Point>, glide: bool, page: Page, at: Point)
    requires |targets| > 0
    ensures var e := ClickSeries(ptr, targets, glide, page).events;
            var rest := ClickSeries(Clicked(ptr, targets[0], glide), targets[1..], glide, page).events;
            ButtonPoints(e, Down, at) == [targets[0]] + ButtonPoints(rest, Down, targets[0]) &&
            ButtonPoints(e, Up, at) == [targets[0]] + ButtonPoints(rest, Up, targets[0])
  {
    var a := ClickOnce(ptr, targets[0], glide, page);
    ClickThenMore(ClickSeries(ptr, targets, glide, page).events, a.events,
                  ClickSeries(a.ptr.(last := targets[0]), targets[1..], glide, page).events, targets[0], at);
  }

  /** With `move_direct`, the pointer is moved straight from target to
      target: the only other move is the lazy initialisation. */
  lemma ClickSeriesMoveTargets(ptr: Pointer, targets: seq<Point>, page: Page)
    ensures MoveTargets(ClickSeries(ptr, targets, false, page).events) ==
            (if |targets| == 0 then [] else InitTargets(ptr.mouse, page)) + targets
  {
    if |targets| > 0 {
      TapSeriesHead(ptr, targets, page);
      PlacedSeriesMoveTargets(Clicked(ptr, targets[0], false), targets[1..], page);
      HeadThenTail(targets);
    }
  }

  /** Once the pointer has a position, a direct click series moves exactly
      through its targets. */
  lemma {:induction false} PlacedSeriesMoveTargets(ptr: Pointer, targets: seq<Point>, page: Page)
    requires ptr.mouse.position.Some?
    ensures MoveTargets(ClickSeries(ptr, targets, false, page).events) == targets
    decreases |targets|
  {
    if |targets| > 0 {
      TapSeriesHead(ptr, targets, page);
      PlacedSeriesMoveTargets(Clicked(ptr, targets[0], false), targets[1..], page);
      HeadThenTail(targets);
    }
  }

  /** The first direct click of a series moves once onto its target, after
      the lazy initialisation; the rest of the series goes on from there. */
  lemma TapSeriesHead(ptr: Pointer, targets: seq<Point>, page: Page)
    requires |targets| > 0
    ensures var e := ClickSeries(ptr, targets, false, page).events;
            var rest := ClickSeries(Clicked(ptr, targets[0], false), targets[1..], false, page).events;
            MoveTargets(e) == InitTargets(ptr.mouse, page) + ([targets[0]] + MoveTargets(rest))
  {
    var a := ClickOnce(ptr, targets[0], false, page);
    var rest := ClickSeries(a.ptr.(last := targets[0]), targets[1..], false, page).events;
    MovesThenMore(ClickSeries(ptr, targets, false, page).events, a.events, rest,
                  InitTargets(ptr.mouse, page), targets[0], MoveTargets(rest));
  }

  /** The points `_click_grid_tiles` clicks, in order, and whether it stopped
      on an index below `-len(tiles)`. An index at or past the end and a tile
      without a box are skipped; a clicked tile is hit at its centre moved by
      the i-th random offset. */
  function TileTargets(tiles: seq<Option<Box>>, indices: seq<int>, jitter: nat -> Point, from: nat): (r: (seq<Point>, bool))
    ensures |r.0| <= |indices|
    ensures r.1 <==> exists i :: 0 <= i < |indices| && indices[i] < -|tiles|
    decreases |indices|
  {
    if |indices| == 0 then ([], false)
    else
      match TileSlot(indices[0], |tiles|)
      case Raise => ([], true)
      case Return(slot) =>
        var rest := TileTargets(tiles, indices[1..], jitter, from + 1);
        assert rest.1 <==> exists i :: 1 <= i < |indices| && indices[i] < -|tiles| by {
          if rest.1 {
            var i :| 0 <= i < |indices[1..]| && indices[1..][i] < -|tiles|;
            assert indices[i + 1] < -|tiles|;
          }
        }
        if slot.None? || tiles[slot.value].None? then rest
        else ([Translate(jitter(from), Center(tiles[slot.value].value))] + rest.0, rest.1)
  }

  /** A point within 10 of the centre of some tile that has a box. */
  predicate NearSomeCentre(tiles: seq<Option<Box>>, p: Point) {
    exists s :: 0 <= s < |tiles| && tiles[s].Some? &&
      -10.0 <= p.x - Center(tiles[s].value).x <= 10.0 &&
      -10.0 <= p.y - Center(tiles[s].value).y <= 10.0
  }

  /** With offsets of at most 10 in each direction, every clicked point lies
      within 10 of the centre of a tile that has a box. */
  lemma {:induction false} TileTargetsNearCentres(tiles: seq<Option<Box>>, indices: seq<int>, jitter: nat -> Point, from: nat)
    requires forall k: nat :: -10.0 <= jitter(k).x <= 10.0 && -10.0 <= jitter(k).y <= 10.0
    ensures forall p :: p in TileTargets(tiles, indices, jitter, from).0 ==> NearSomeCentre(tiles, p)
    decreases |indices|
  {
    if |indices| > 0 && TileSlot(indices[0], |tiles|).Return? {
      TileTargetsNearCentres(tiles, indices[1..], jitter, from + 1);
      var slot := TileSlot(indices[0], |tiles|).value;
      var targets := TileTargets(tiles, indices, jitter, from).0;
      var rest := TileTargets(tiles, indices[1..], jitter, from + 1).0;
      if slot.Some? && tiles[slot.value].Some? {
        var s := slot.value;
        var c := Center(tiles[s].value);
        assert targets == [Translate(jitter(from), c)] + rest;
        assert -10.0 <= jitter(from).x <= 10.0 && -10.0 <= jitter(from).y <= 10.0;
        assert NearSomeCentre(tiles, Translate(jitter(from), c));
      } else {
        assert targets == rest;
      }
    }
  }

  /** `_click_grid_tiles`: nothing without a task grid. */
  function ClickGridTiles(page: Page, jitter: nat -> Point, frame: Frame, indices: seq<int>, ptr: Pointer): (r: Walk)
    ensures frame.grid.None? ==> r == Walk(ptr, [], false)
  {
    match frame.grid
    case None => Walk(ptr, [], false)
    case Some(grid) =>
      var (targets, raised) := TileTargets(grid.tiles, indices, jitter, 0);
      var a := ClickSeries(ptr, targets, false, page);
      Walk(a.ptr, a.events, raised)
  }

  /** One click per in-range tile that has a box, in index order, each
      remembered; it raises exactly on an index below `-len(tiles)`, after
      clicking the tiles before it. */
  lemma ClickGridTilesMeaning(page: Page, jitter: nat -> Point, frame: Frame, indices: seq<int>, ptr: Pointer)
    requires frame.grid.Some?
    ensures var r := ClickGridTiles(page, jitter, frame, indices, ptr);
            var targets := TileTargets(frame.grid.value.tiles, indices, jitter, 0).0;
            Count(r.events, Down) == |targets| && Count(r.events, Up) == |targets| &&
            (r.raised <==> exists i :: 0 <= i < |indices| && indices[i] < -|frame.grid.value.tiles|) &&
            (|targets| > 0 ==> r.ptr.last == targets[|targets| - 1])
  {
    var (targets, raised) := TileTargets(frame.grid.value.tiles, indices, jitter, 0);
    var a := ClickSeries(ptr, targets, false, page);
    assert ClickGridTiles(page, jitter, frame, indices, ptr) == Walk(a.ptr, a.events, raised);
    ClickSeriesPresses(ptr, targets, false, page);
  }

  /** The pointer goes straight from tile to tile, and presses and releases
      on each clicked point, in order. */
  lemma ClickGridTilesLandsOn(page: Page, jitter: nat -> Point, frame: Frame, indices: seq<int>, ptr: Pointer)
    requires frame.grid.Some?
    ensures var targets := TileTargets(frame.grid.value.tiles, indices, jitter, 0).0;
            MoveTargets(ClickGridTiles(page, jitter, frame, indices, ptr).events) ==
            (if |targets| == 0 then [] else InitTargets(ptr.mouse, page)) + targets
    ensures forall button, at | button == Down || button == Up ::
              ButtonPoints(ClickGridTiles(page, jitter, frame, indices, ptr).events, button, at) ==
              TileTargets(frame.grid.value.tiles, indices, jitter, 0).0
  {
    var targets := TileTargets(frame.grid.value.tiles, indices, jitter, 0).0;
    ClickSeriesMoveTargets(ptr, targets, page);
    forall button, at | button == Down || button == Up
      ensures ButtonPoints(ClickSeries(ptr, targets, false, page).events, button, at) == targets
    {
      ClickSeriesLandsOn(ptr, targets, false, page, at);
    }
  }

  /** The points `_click_canvas_points` clicks, in order, and whether it
      stopped on a point it could not read. */
  function CanvasTargets(canvas: Box, points: seq<Value>): (r: (seq<Point>, bool))
    ensures |r.0| <= |points|
    decreases |points|
  {
    if |points| == 0 then ([], false)
    else
      match CanvasPoint(canvas, points[0])
      case Raise => ([], true)
      case Return(p) =>
        var rest := CanvasTargets(canvas, points[1..]);
        if p.None? then rest else ([p.value] + rest.0, rest.1)
  }

  /** The canvas clicks stop at the first point that raises, and only there. */
  lemma {:induction false} CanvasTargetsRaises(canvas: Box, points: seq<Value>)
    ensures CanvasTargets(canvas, points).1 <==>
              exists i :: 0 <= i < |points| && CanvasPoint(canvas, points[i]).Raise?
    decreases |points|
  {
    if |points| > 0 {
      CanvasTargetsRaises(canvas, points[1..]);
      if (exists i :: 0 <= i < |points[1..]| && CanvasPoint(canvas, points[1..][i]).Raise?) {
        var i :| 0 <= i < |points[1..]| && CanvasPoint(canvas, points[1..][i]).Raise?;
        assert points[1..][i] == points[i + 1];
      }
      if (exists i :: 0 <= i < |points| && CanvasPoint(canvas, points[i]).Raise?) {
        var i :| 0 <= i < |points| && CanvasPoint(canvas, points[i]).Raise?;
        if i > 0 {
          assert points[1..][i - 1] == points[i];
        }
      }
    }
  }

  /** The canvas clicks work point by point: the clicks for a concatenation
      are those for its first part, then, unless the first part raised, those
      for its second part. */
  lemma {:induction false} CanvasTargetsSplits(canvas: Box, a: seq<Value>, b: seq<Value>)
    ensures var ta := CanvasTargets(canvas, a);
            var tb := CanvasTargets(canvas, b);
            CanvasTargets(canvas, a + b) == if ta.1 then ta else (ta.0 + tb.0, tb.1)
    decreases |a|
  {
    if |a| == 0 {
      assert a + b == b;
      assert [] + CanvasTargets(canvas, b).0 == CanvasTargets(canvas, b).0;
    } else {
      assert (a + b)[1..] == a[1..] + b;
      assert (a + b)[0] == a[0];
      CanvasTargetsSplits(canvas, a[1..], b);
      match CanvasPoint(canvas, a[0])
      case Raise =>
      case Return(p) =>
        if p.Some? {
          var x, y := CanvasTargets(canvas, a[1..]).0, CanvasTargets(canvas, b).0;
          assert [p.value] + (x + y) == ([p.value] + x) + y;
        }
    }
  }

  /** Numeric `[x, y]` answers are clicked, one each and in order, at the
      canvas origin plus (x, y), and nothing raises. */
  lemma {:induction false} CanvasTargetsOfNumericPairs(canvas: Box, points: seq<Value>)
    requires forall i :: 0 <= i < |points| ==> NumericPair(points[i])
    ensures var t := CanvasTargets(canvas, points);
            !t.1 && |t.0| == |points| &&
            forall i :: 0 <= i < |points| ==>
              NumericPair(points[i]) &&
              t.0[i] == Point(canvas.x + points[i].items[0].n, canvas.y + points[i].items[1].n)
    decreases |points|
  {
    if |points| > 0 {
      CanvasTargetsOfNumericPairs(canvas, points[1..]);
      var rest := CanvasTargets(canvas, points[1..]).0;
      assert forall i :: 0 <= i < |rest| ==>
               NumericPair(points[i + 1]) &&
               rest[i] == Point(canvas.x + points[i + 1].items[0].n, canvas.y + points[i + 1].items[1].n);
    }
  }

  /** `_click_canvas_points`: nothing without a primary canvas; otherwise a
      `click` on each readable point, offset by the canvas origin. */
  function ClickCanvasPoints(page: Page, frame: Frame, points: seq<Value>, ptr: Pointer): (r: Walk)
    ensures PrimaryCanvas(frame.canvases).None? ==> r == Walk(ptr, [], false)
  {
    match PrimaryCanvas(frame.canvases)
    case None => Walk(ptr, [], false)
    case Some(canvas) =>
      var (targets, raised) := CanvasTargets(canvas, points);
      var a := ClickSeries(ptr, targets, true, page);
      Walk(a.ptr, a.events, raised)
  }

  /** Numeric `[x, y]` answers are clicked at the canvas origin plus (x, y),
      once each and in order, the last one remembered. */
  lemma ClickCanvasPointsMeaning(page: Page, frame: Frame, points: seq<Value>, ptr: Pointer)
    requires PrimaryCanvas(frame.canvases).Some?
    ensures var r := ClickCanvasPoints(page, frame, points, ptr);
            var targets := CanvasTargets(PrimaryCanvas(frame.canvases).value, points).0;
            Count(r.events, Down) == |targets| &&
            (|targets| > 0 ==> r.ptr.last == targets[|targets| - 1] && r.ptr.mouse.position == Some(targets[|targets| - 1]))
    ensures ClickCanvasPoints(page, frame, points, ptr).raised <==>
              exists i :: 0 <= i < |points| && CanvasPoint(PrimaryCanvas(frame.canvases).value, points[i]).Raise?
  {
    ClickSeriesPresses(ptr, CanvasTargets(PrimaryCanvas(frame.canvases).value, points).0, true, page);
    CanvasTargetsRaises(PrimaryCanvas(frame.canvases).value, points);
  }

  /** Each press and release of `_click_canvas_points` happens on its point,
      in order. */
  lemma ClickCanvasPointsLandsOn(page: Page, frame: Frame, points: seq<Value>, ptr: Pointer)
    requires PrimaryCanvas(frame.canvases).Some?
    ensures forall button, at | button == Down || button == Up ::
              ButtonPoints(ClickCanvasPoints(page, frame, points, ptr).events, button, at) ==
              CanvasTargets(PrimaryCanvas(frame.canvases).value, points).0
  {
    var targets := CanvasTargets(PrimaryCanvas(frame.canvases).value, points).0;
    forall button, at | button == Down || button == Up
      ensures ButtonPoints(ClickSeries(ptr, targets, true, page).events, button, at) == targets
    {
      ClickSeriesLandsOn(ptr, targets, true, page, at);
    }
  }

  /** The drags `_drag_canvas_pairs` performs, in order, and whether it
      stopped on a pair it could not read. */
  function DragTargets(canvas: Box, pairs: seq<(Value, Value)>): (r: (seq<(Point, Point)>, bool))
    ensures |r.0| <= |pairs|
    decreases |pairs|
  {
    if |pairs| == 0 then ([], false)
    else
      match DragPair(canvas, pairs[0])
      case Raise => ([], true)
      case Return(d) =>
        var rest := DragTargets(canvas, pairs[1..]);
        if d.None? then rest else ([d.value] + rest.0, rest.1)
  }

  /** The canvas drags stop at the first pair that raises, and only there. */
  lemma {:induction false} DragTargetsRaises(canvas: Box, pairs: seq<(Value, Value)>)
    ensures DragTargets(canvas, pairs).1 <==>
              exists i :: 0 <= i < |pairs| && DragPair(canvas, pairs[i]).Raise?
    decreases |pairs|
  {
    if |pairs| > 0 {
      DragTargetsRaises(canvas, pairs[1..]);
      if (exists i :: 0 <= i < |pairs[1..]| && DragPair(canvas, pairs[1..][i]).Raise?) {
        var i :| 0 <= i < |pairs[1..]| && DragPair(canvas, pairs[1..][i]).Raise?;
        assert pairs[1..][i] == pairs[i + 1];
      }
      if (exists i :: 0 <= i < |pairs| && DragPair(canvas, pairs[i]).Raise?) {
        var i :| 0 <= i < |pairs| && DragPair(canvas, pairs[i]).Raise?;
        if i > 0 {
          assert pairs[1..][i - 1] == pairs[i];
        }
      }
    }
  }

  /** Pairs of numeric `[x, y]` answers are dragged, one drag each and in
      order, between the canvas origin plus each side, and nothing raises. */
  lemma {:induction false} DragTargetsOfNumericPairs(canvas: Box, pairs: seq<(Value, Value)>)
    requires forall i :: 0 <= i < |pairs| ==> NumericPair(pairs[i].0) && NumericPair(pairs[i].1)
    ensures var t := DragTargets(canvas, pairs);
            !t.1 && |t.0| == |pairs| &&
            forall i :: 0 <= i < |pairs| ==>
              NumericPair(pairs[i].0) && NumericPair(pairs[i].1) &&
              t.0[i] == (Point(canvas.x + pairs[i].0.items[0].n, canvas.y + pairs[i].0.items[1].n),
                         Point(canvas.x + pairs[i].1.items[0].n, canvas.y + pairs[i].1.items[1].n))
    decreases |pairs|
  {
    if |pairs| > 0 {
      DragTargetsOfNumericPairs(canvas, pairs[1..]);
      var rest := DragTargets(canvas, pairs[1..]).0;
      var t := DragTargets(canvas, pairs).0;
      assert t == [DragPair(canvas, pairs[0]).value.value] + rest;
      forall i | 0 <= i < |pairs|
        ensures t[i] == (Point(canvas.x + pairs[i].0.items[0].n, canvas.y + pairs[i].0.items[1].n),
                         Point(canvas.x + pairs[i].1.items[0].n, canvas.y + pairs[i].1.items[1].n))
      {
        if i > 0 {
          assert t[i] == rest[i - 1] && pairs[1..][i - 1] == pairs[i];
        }
      }
    }
  }

  /** `drag_and_drop(start, end, steps=35)`, remembering the end. */
  function DragOnce(ptr: Pointer, start: Point, end: Point, page: Page): (r: Acted)
    ensures r.ptr == Pointer(Mouse(Some(end), None), end)
    ensures Count(r.events, Down) == 1 && Count(r.events, Up) == 1
    ensures DragAt(r.events, |r.events| - DragStepCount(35) - 3, start, end)
  {
    var d := DragAndDrop(ptr.mouse, start, end, 35, page);
    DragAtCountsOnce(d.events, |d.events| - DragStepCount(35) - 3, start, end);
    Acted(Pointer(d.mouse, end), d.events)
  }

  /** `drag_and_drop(start, end, steps=35)` for each pair, remembering each end. */
  function DragSeries(ptr: Pointer, drags: seq<(Point, Point)>, page: Page): (r: Acted)
    ensures |drags| == 0 ==> r == Acted(ptr, [])
    ensures |drags| > 0 ==> r.ptr.mouse.position == Some(drags[|drags| - 1].1) && r.ptr.last == drags[|drags| - 1].1
    decreases |drags|
  {
    if |drags| == 0 then Acted(ptr, [])
    else
      var d := DragOnce(ptr, drags[0].0, drags[0].1, page);
      var rest := DragSeries(d.ptr, drags[1..], page);
      assert |drags| > 1 ==> drags[1..][|drags| - 2] == drags[|drags| - 1];
      Acted(rest.ptr, d.events + rest.events)
  }

  /** Every drag presses once, so a series presses once per drag. */
  lemma {:induction false} DragSeriesPresses(ptr: Pointer, drags: seq<(Point, Point)>, page: Page)
    ensures Count(DragSeries(ptr, drags, page).events, Down) == |drags|
    ensures Count(DragSeries(ptr, drags, page).events, Up) == |drags|
    decreases |drags|
  {
    if |drags| > 0 {
      var d := DragOnce(ptr, drags[0].0, drags[0].1, page);
      DragSeriesPresses(d.ptr, drags[1..], page);
      PressesAdd(DragSeries(ptr, drags, page).events, d.events, DragSeries(d.ptr, drags[1..], page).events, 1, |drags| - 1);
    }
  }

  /** The start and the end points of the drags, in order. */
  function Starts(drags: seq<(Point, Point)>): (r: seq<Point>)
    ensures |r| == |drags| && forall i :: 0 <= i < |drags| ==> r[i] == drags[i].0
    decreases |drags|
  {
    if |drags| == 0 then [] else [drags[0].0] + Starts(drags[1..])
  }

  function Ends(drags: seq<(Point, Point)>): (r: seq<Point>)
    ensures |r| == |drags| && forall i :: 0 <= i < |drags| ==> r[i] == drags[i].1
    decreases |drags|
  {
    if |drags| == 0 then [] else [drags[0].1] + Ends(drags[1..])
  }

  /** The i-th drag of a series presses at the i-th start and releases at the
      i-th end, wherever the pointer started. */
  lemma {:induction false} DragSeriesLandsOn(ptr: Pointer, drags: seq<(Point, Point)>, page: Page, at: Point)
    ensures ButtonPoints(DragSeries(ptr, drags, page).events, Down, at) == Starts(drags)
    ensures ButtonPoints(DragSeries(ptr, drags, page).events, Up, at) == Ends(drags)
    decreases |drags|
  {
    if |drags| > 0 {
      DragSeriesHead(ptr, drags, page, at);
      DragSeriesLandsOn(Pointer(Mouse(Some(drags[0].1), None), drags[0].1), drags[1..], page, drags[0].1);
    }
  }

  /** The first drag of a series presses first, at its start, and releases
      first, at its end; the rest of the series goes on from there. The
      pointer the rest starts from is written out, so the recursion above
      never looks inside a drag. */
  lemma DragSeriesHead(ptr: Pointer, drags: seq<(Point, Point)>, page: Page, at: Point)
    requires |drags| > 0
    ensures var e := DragSeries(ptr, drags, page).events;
            var rest := DragSeries(Pointer(Mouse(Some(drags[0].1), None), drags[0].1), drags[1..], page).events;
            ButtonPoints(e, Down, at) == [drags[0].0] + ButtonPoints(rest, Down, drags[0].1) &&
            ButtonPoints(e, Up, at) == [drags[0].1] + ButtonPoints(rest, Up, drags[0].1)
  {
    var d := DragOnce(ptr, drags[0].0, drags[0].1, page);
    DragThenMore(DragSeries(ptr, drags, page).events, d.events, DragSeries(d.ptr, drags[1..], page).events,
                 |d.events| - DragStepCount(35) - 3, drags[0].0, drags[0].1, at);
  }

  /** `_drag_canvas_pairs`: nothing without a primary canvas. */
  function DragCanvasPairs(page: Page, frame: Frame, coordinates: seq<Value>, ptr: Pointer): (r: Walk)
    ensures PrimaryCanvas(frame.canvases).None? ==> r == Walk(ptr, [], false)
  {
    match PrimaryCanvas(frame.canvases)
    case None => Walk(ptr, [], false)
    case Some(canvas) =>
      var (drags, raised) := DragTargets(canvas, PairUp(coordinates));
      var a := DragSeries(ptr, drags, page);
      Walk(a.ptr, a.events, raised)
  }

  /** Each well-formed pair of consecutive coordinates becomes one drag with
      a single press and release, in order, and the last end is remembered. */
  lemma DragCanvasPairsMeaning(page: Page, frame: Frame, coordinates: seq<Value>, ptr: Pointer)
    requires PrimaryCanvas(frame.canvases).Some?
    ensures var r := DragCanvasPairs(page, frame, coordinates, ptr);
            var drags := DragTargets(PrimaryCanvas(frame.canvases).value, PairUp(coordinates)).0;
            Count(r.events, Down) == |drags| && Count(r.events, Up) == |drags| &&
            |drags| <= |coordinates| / 2 &&
            (|drags| > 0 ==> r.ptr.last == drags[|drags| - 1].1)
    ensures DragCanvasPairs(page, frame, coordinates, ptr).raised <==>
              exists i :: 0 <= i < |PairUp(coordinates)| &&
                DragPair(PrimaryCanvas(frame.canvases).value, PairUp(coordinates)[i]).Raise?
  {
    PairUpIsConsecutive(coordinates);
    DragSeriesPresses(ptr, DragTargets(PrimaryCanvas(frame.canvases).value, PairUp(coordinates)).0, page);
    DragTargetsRaises(PrimaryCanvas(frame.canvases).value, PairUp(coordinates));
  }

  /** The i-th drag of `_drag_canvas_pairs` presses at the i-th start and
      releases at the i-th end. */
  lemma DragCanvasPairsLandsOn(page: Page, frame: Frame, coordinates: seq<Value>, ptr: Pointer)
    requires PrimaryCanvas(frame.canvases).Some?
    ensures forall at ::
              var drags := DragTargets(PrimaryCanvas(frame.canvases).value, PairUp(coordinates)).0;
              ButtonPoints(DragCanvasPairs(page, frame, coordinates, ptr).events, Down, at) == Starts(drags) &&
              ButtonPoints(DragCanvasPairs(page, frame, coordinates, ptr).events, Up, at) == Ends(drags)
  {
    forall at {
      DragSeriesLandsOn(ptr, DragTargets(PrimaryCanvas(frame.canvases).value, PairUp(coordinates)).0, page, at);
    }
  }

  /** `drag_and_drop` with `steps=35` follows a path of 42 steps. */
  lemma CanvasDragSteps()
    ensures DragStepCount(35) == 42
  {
    assert 35.0 * 1.2 == 42.0;
  }

  // ---------------------------------------------------------------------
  // `_apply_answers`

  /** `_apply_answers`: route the answer and run it, turning every exception
      into false. */
  function ApplyAnswers(page: Page, jitter: nat -> Point, frame: Frame, kind: Kind, answers: Value, ptr: Pointer): (r: Run)
    ensures r.result.Return?
    ensures Classify(kind, answers).Raise? || Classify(kind, answers) == Return(Decline) ==>
              r == Run(ptr, [], Return(false))
    ensures Classify(kind, answers).Return? && Classify(kind, answers).value.RunActions? ==>
              var e := ExecuteActions(page, frame, kind, Classify(kind, answers).value.actions, ptr);
              r == Run(e.ptr, e.events, Return(e.result == Return(true)))
    ensures Classify(kind, answers).Return? && Classify(kind, answers).value.ClickTiles? ==>
              var w := ClickGridTiles(page, jitter, frame, Classify(kind, answers).value.indices, ptr);
              r == Run(w.ptr, w.events, Return(!w.raised))
    ensures Classify(kind, answers).Return? && Classify(kind, answers).value.ClickPoints? ==>
              var w := ClickCanvasPoints(page, frame, Classify(kind, answers).value.points, ptr);
              r == Run(w.ptr, w.events, Return(!w.raised))
    ensures Classify(kind, answers).Return? && Classify(kind, answers).value.DragPairs? ==>
              var w := DragCanvasPairs(page, frame, Classify(kind, answers).value.coordinates, ptr);
              r == Run(w.ptr, w.events, Return(!w.raised))
  {
    match Classify(kind, answers)
    case Raise => Run(ptr, [], Return(false))
    case Return(route) =>
      match route
      case Decline => Run(ptr, [], Return(false))
      case RunActions(actions) =>
        var e := ExecuteActions(page, frame, kind, actions, ptr);
        Run(e.ptr, e.events, Return(e.result == Return(true)))
      case ClickTiles(indices) =>
        var w := ClickGridTiles(page, jitter, frame, indices, ptr);
        Run(w.ptr, w.events, Return(!w.raised))
      case ClickPoints(points) =>
        var w := ClickCanvasPoints(page, frame, points, ptr);
        Run(w.ptr, w.events, Return(!w.raised))
      case DragPairs(coordinates) =>
        var w := DragCanvasPairs(page, frame, coordinates, ptr);
        Run(w.ptr, w.events, Return(!w.raised))
  }

  /** A grid answer of plain indices reports success, having clicked the
      grid's tiles, unless some index is below `-len(tiles)`; a grid answer
      with an index that does not convert reports failure without clicking. */
  lemma ApplyGridAnswer(page: Page, jitter: nat -> Point, frame: Frame, items: seq<Value>, ptr: Pointer)
    requires |items| == 0 || !items[0].Obj?
    ensures GridIndices(items).Raise? ==> ApplyAnswers(page, jitter, frame, Grid, Arr(items), ptr) == Run(ptr, [], Return(false))
    ensures GridIndices(items).Return? && frame.grid.Some? ==>
              ApplyAnswers(page, jitter, frame, Grid, Arr(items), ptr).result ==
                Return(!exists i :: 0 <= i < |items| && GridIndices(items).value[i] < -|frame.grid.value.tiles|)
  {
    ClassifyPrecedence(Grid, Arr(items));
    if GridIndices(items).Return? && frame.grid.Some? {
      ClickGridTilesMeaning(page, jitter, frame, GridIndices(items).value, ptr);
    }
  }

  /** A canvas answer of plain points reports success, having clicked the
      readable points, unless some point raises, in which case the points
      before it have been clicked. */
  lemma ApplyCanvasAnswer(page: Page, jitter: nat -> Point, frame: Frame, items: seq<Value>, ptr: Pointer)
    requires |items| == 0 || !items[0].Obj?
    requires PrimaryCanvas(frame.canvases).Some?
    ensures var canvas := PrimaryCanvas(frame.canvases).value;
            var r := ApplyAnswers(page, jitter, frame, Canvas, Arr(items), ptr);
            r.result == Return(!exists i :: 0 <= i < |items| && CanvasPoint(canvas, items[i]).Raise?) &&
            Count(r.events, Down) == |CanvasTargets(canvas, items).0|
  {
    ClassifyPrecedence(Canvas, Arr(items));
    ClickCanvasPointsMeaning(page, frame, items, ptr);
  }

  /** The answer `[[1, 2], 5]` on a canvas clicks (1, 2) once and then
      reports failure: `len(5)` raises, and `_apply_answers` turns that into
      false. */
  lemma CanvasAnswerWithScalarFails(page: Page, jitter: nat -> Point, frame: Frame, ptr: Pointer)
    requires PrimaryCanvas(frame.canvases).Some?
    ensures var r := ApplyAnswers(page, jitter, frame, Canvas, Arr([Arr([Num(1.0), Num(2.0)]), Num(5.0)]), ptr);
            r.result == Return(false) && Count(r.events, Down) == 1
  {
    var canvas := PrimaryCanvas(frame.canvases).value;
    var items := [Arr([Num(1.0), Num(2.0)]), Num(5.0)];
    ApplyCanvasAnswer(page, jitter, frame, items, ptr);
    assert CanvasPoint(canvas, items[1]).Raise?;
    assert items[1..] == [Num(5.0)];
    assert CanvasTargets(canvas, items[1..]) == ([], true);
  }

  /** A drag answer of plain coordinates reports success, having dragged
      each readable consecutive pair, unless some pair raises. */
  lemma ApplyDragAnswer(page: Page, jitter: nat -> Point, frame: Frame, items: seq<Value>, ptr: Pointer)
    requires |items| == 0 || !items[0].Obj?
    requires PrimaryCanvas(frame.canvases).Some?
    ensures var canvas := PrimaryCanvas(frame.canvases).value;
            var r := ApplyAnswers(page, jitter, frame, Drag, Arr(items), ptr);
            r.result == Return(!exists i :: 0 <= i < |PairUp(items)| && DragPair(canvas, PairUp(items)[i]).Raise?) &&
            Count(r.events, Down) == |DragTargets(canvas, PairUp(items)).0|
  {
    ClassifyPrecedence(Drag, Arr(items));
    DragCanvasPairsMeaning(page, frame, items, ptr);
  }

  // ---------------------------------------------------------------------
  // `_build_human_move_payload`

  /** The submit button the payload aims at: `.button-submit`, or the
      `button[type="submit"]` fallback only when the first is missing. */
  function PayloadSubmit(frame: Frame): Option<Box> {
    if frame.submit.Some? then frame.submit.value
    else if frame.submitFallback.Some? then frame.submitFallback.value
    else None
  }

  /** The route sent with a challenge: from the pointer's position (or the
      remembered one before the pointer has moved) to the submit button's
      centre, relative to the frame and clamped at 0. */
  function BuildHumanMovePayload(frame: Frame, ptr: Pointer): (r: Option<(Point, Point)>)
    ensures r.Some? <==> PayloadSubmit(frame).Some?
    ensures r.Some? ==>
              var start := ptr.mouse.position.GetOr(ptr.last);
              r.value.0 == Point(ClampedOffset(start.x, frame.offset.x), ClampedOffset(start.y, frame.offset.y)) &&
              r.value.1.x >= 0.0 && r.value.1.y >= 0.0
    ensures r.Some? ==>
              var c := Center(PayloadSubmit(frame).value);
              r.value.1 == Point(ClampedOffset(c.x, frame.offset.x), ClampedOffset(c.y, frame.offset.y))
  {
    HumanMovePayload(frame.offset, ptr.mouse.position, ptr.last, PayloadSubmit(frame))
  }
}
