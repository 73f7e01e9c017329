# hCaptcha click solver: answer handling, solving-service client and pointer layer

This project models, in Dafny, the core of a browser automation tool. The tool
solves hCaptcha image challenges by sending them to the Multibot solving
service and replaying the returned answer with a simulated human pointer. The
model covers three parts of the program:

- **The solving-service client** (`CaptchaAPIService`) is modelled in module `Api`:
  - task creation and reply validation;
  - the bounded polling loop of `wait_for_result`;
  - the flattening of a `humanMove` trajectory.
- **The answer handling of the solver** (`HCaptchaSolver`) is modelled in modules `Answers` and `Actions`:
  - how `_apply_answers` routes an answer;
  - how `_execute_actions` maps and replays action paths, including the relative-coordinate heuristic and the grid margin;
  - the tile, canvas-point and drag-pair handlers;
  - the payload sent with a human-move request.
- **The pointer layer** (`MouseMotion`) is modelled in module `Motion`:
  - the pointer position and the trace it records;
  - the structure of the synthesised Bézier paths;
  - the exact stream of low-level pointer calls (`mouse.move` with its step count, `mouse.down`, `mouse.up`, `asyncio.sleep`) each operation issues.
- **Where presses land** is modelled in module `Presses`. `mouse.down` and `mouse.up` act where the last `mouse.move` left the pointer:
  - `Where` is the pointer position after a stream of pointer calls;
  - `ButtonPoints` lists where each press, or each release, of a stream happens, in order.

Decoded JSON is the datatype `Values.Value`, including Python truthiness,
`float()`, `int()`, `list()` and `str.lower()` on those values. An exception
is the value `Raise` of `Values.Outcome`. This keeps the pointer calls made
before an exception, where the code catches it (`_apply_answers`) or lets it
escape a loop part-way (`_click_grid_tiles`, `_click_canvas_points`,
`_drag_canvas_pairs`).

The page and the frame are read-only inputs:

- the bounding boxes of the task grid, its tiles, the canvases and the submit buttons, in document order;
- the frame offset;
- the viewport.

The random draws are also inputs:

- the two `random.uniform` draws of `_init_position`, as fractions (`Motion.Page.initFraction`);
- the jittered curve sample of `_build_path` (`Motion.Page.curve`);
- the tile-click offsets (`jitter: nat -> Point`).

Polling replies are a function from the fetch number to the reply
(`fetches: nat -> Response`).

Files: `values.dfy`, `geometry.dfy`, `motion.dfy`, `presses.dfy`, `api.dfy`, `answers.dfy`, `actions.dfy`.

## Model

| member | source | states |
|---|---|---|
| Values.ToFloat | core/solver.py:635-636 | `float()` of a number is the number; `None`, a list or a dict has no float value, which is where Python raises |
| Values.ToInt | core/solver.py:578 | `int()` of a number truncates it toward zero; `None`, a list or a dict has no int value, which is where Python raises |
| Values.Trunc | core/motion.py:109 | `int()` of a float truncates toward zero: the result lies within 1 of the input, between it and zero |
| Values.ListOf | core/solver.py:564-567 | `list()` of a list is the list itself; a string becomes its one-character strings, in order |
| Geometry.InsideBoxIsInclusive | core/solver.py:864-875 | the submit-box test is closed on every edge: the four corners and the centre are inside, and a point past any edge is outside |
| Geometry.Round2 | core/solver.py:529 | `round(v, 2)` lies within 0.005 of `v`, and a non-positive value never rounds to a positive one |
| Motion.SetPosition | core/motion.py:38-42 | the position becomes the given point and the recorded trace is untouched |
| Motion.Initialize | core/motion.py:67-68 | the lazy initialisation issues one move to the initial position when no position is set, and nothing otherwise; either way a position is then set |
| Motion.InitialPositionInRange | core/motion.py:129-138 | the initial position lies in the middle 60% of the viewport on each axis, or in [200, 600] x [200, 500] without a viewport |
| Motion.DefaultStepCount | core/motion.py:146 | the default step count is between 12 and 45 |
| Motion.DefaultStepCountIsClampedQuotient | core/motion.py:146 | the default step count is `int(distance / 12)` clamped to [12, 45], for the true Euclidean distance |
| Motion.StepCount | core/motion.py:146 | an explicit non-zero step count is used as given; none or 0 falls back to the distance default, which lies in [12, 45] |
| Motion.ParametersSweepUnitInterval | core/motion.py:162-163 | the curve parameters `i / n` increase strictly, stay in (0, 1] and end at exactly 1 |
| Motion.BuildPath | core/motion.py:161-183 | a path has one point per step plus the end point, and ends exactly at the target |
| Motion.BuildPathSamplesCurve | core/motion.py:162-180 | every point before the last is the jittered curve sample at its own parameter |
| Motion.JitterMagnitude | core/motion.py:177 | the jitter bound lies in [1.2, 6] and is `distance / 60` between distances 72 and 360 |
| Motion.MovesAlong | core/motion.py:54-55 | following a path issues exactly one move per point and never presses |
| Motion.MoveTo | core/motion.py:44-57 | `move_to` ends on the target with a final single-step move there, and never presses. From a known position it issues one move per default step plus one. It records the trace, from the start to the target, exactly when asked, and clears it otherwise |
| Motion.MovesAlongTargets | core/motion.py:54-55 | the move calls along a path visit exactly the path's points, in order |
| Motion.MoveToRecordsItsPath | core/motion.py:44-57 | the recorded trace is the start point followed by exactly the points the move calls visit after the lazy initialisation |
| Motion.MoveDirect | core/motion.py:59-77 | `move_direct` ends on the target with one move of `steps or 1` steps, never presses and keeps the trace |
| Motion.MoveDirectPausesAndTargets | core/motion.py:67-77 | `move_direct` pauses `max(0, delay or 0)` seconds in all, never a negative time, and moves only to the lazy initial position and to the target |
| Motion.MovePoints | core/motion.py:79-86 | `move_points` of nothing does nothing; otherwise it ends on the last waypoint, never presses and keeps the trace |
| Motion.MovePointsVisitsInOrder | core/motion.py:83-86 | the move calls of `move_points` visit exactly the waypoints in order, after the lazy initialisation when no position was set |
| Motion.ClickHere | core/motion.py:116-127 | `click_here` keeps the pointer state and issues one press immediately followed by one release, after the optional pause |
| Motion.Click | core/motion.py:88-103 | `click` ends on the target, records the trace exactly when asked, and issues one press and release, with only moves and pauses around them; with no pause before, the press directly follows the move onto the target |
| Motion.ClickWithoutPauses | core/motion.py:88-103 | without pauses, a click ends with the single-step move onto the target, the press and the release, and presses and releases exactly once |
| Motion.DragStepCount | core/motion.py:109 | the drag path has at least 10 steps, and at least the requested number |
| Motion.DragAndDrop | core/motion.py:105-114 | `drag_and_drop` reaches the start point, presses, follows a path that ends on the end point, and releases. It ends on the end point with the trace cleared |
| Motion.DragAtCountsOnce | core/motion.py:105-114 | a drag presses exactly once and releases exactly once |
| Presses.ButtonPointsCount | core/motion.py:98-99 | a stream has one press position per `mouse.down` and one release position per `mouse.up` |
| Presses.ButtonPointsConcat | core/motion.py:54-57 | the presses of two streams in a row are those of the first, then those of the second starting from where the first left the pointer |
| Presses.PressLandsOn | core/motion.py:88-103 | in a click, the press and the release both happen on the target of the move just before them, and the pointer stays there |
| Presses.DragLandsOn | core/motion.py:105-114 | a drag presses on its start point and releases on its end point, and the pointer stays on the end |
| Api.Validate | core/api_service.py:56-65 | a failed request, a non-ok status or a truthy `errorId` yields nothing. A missing body or a non-object body raises. An accepted reply is the ok body object, unchanged |
| Api.CreateTask | core/api_service.py:56-72 | `create_task` raises exactly when the reply is an ok non-object. It returns an id exactly when the reply is accepted and carries a truthy `taskId`, and the id returned is that truthy value |
| Api.CreateTaskCases | core/api_service.py:45-72 | transport failures and non-ok statuses give None; an ok object reply gives its `taskId` unless `errorId` is truthy or `taskId` is falsy |
| Api.FetchResult | core/api_service.py:189-201 | an accepted payload is exactly the body object of the reply; an ok reply that is not an object raises |
| Api.FetchResultKeepsPayload | core/api_service.py:178-201 | `_fetch_result` returns a payload exactly when the reply is ok, its body is that object, and `errorId` is falsy |
| Api.Judge | core/api_service.py:86-88 | a rejected fetch ends polling with None; one that raises ends it by raising |
| Api.JudgeAccepted | core/api_service.py:90-103 | "ready" ends polling with the whole payload when raw, else with its `answers` (None when missing or null); "failed" ends it with None; any other status keeps polling |
| Api.PollBudget | core/api_service.py:84-106 | the i-th fetch happens exactly when `i * interval <= max_wait` |
| Api.DefaultBudget | core/api_service.py:22-23 | with the default 1 s interval and 15 s limit, at most 16 fetches happen |
| Api.Poll | core/api_service.py:85-106 | polling from fetch i makes at least i and at most the budgeted number of fetches |
| Api.WaitForResult | core/api_service.py:84-111 | `wait_for_result` never fetches more than the budget allows |
| Api.PollStopsAtFirstVerdict | core/api_service.py:85-103 | polling answers with the verdict of the first fetch that is not pending, after exactly that many fetches |
| Api.PollTimesOut | core/api_service.py:105-111 | when every budgeted fetch is pending, polling answers None after the whole budget |
| Api.EntryDelay | core/api_service.py:159-164 | a trajectory delay is 0 when absent, null or not convertible by `float()`, and the converted value otherwise |
| Api.NormalizeEntry | core/api_service.py:157-165 | a trajectory entry raises exactly when x or y does not convert; otherwise it keeps the converted x and y |
| Api.Kept | core/api_service.py:154-156 | the entries kept from a path are lists of at least two elements, and no more entries than the path has |
| Api.FlattenPathIsFilterThenConvert | core/api_service.py:154-165 | one segment's path raises exactly when a kept entry does not convert; otherwise it is the conversion of the kept entries, in order |
| Api.FlattenIsFilterThenConvert | core/api_service.py:147-165 | the trajectory skips non-dict segments, non-list paths and short entries. It raises exactly when a kept entry does not convert, and is otherwise all kept entries converted, in order |
| Api.RequestHumanMove | core/api_service.py:167-171 | a returned trajectory is never empty |
| Api.RequestHumanMoveOutcome | core/api_service.py:134-171 | with a created task and a non-empty raw payload: a missing, non-list or empty `answers` gives None; otherwise the flattened trajectory, None when empty, or the exception it raises |
| Answers.KindOf | core/solver.py:577-590 | only "Grid" is a grid, and any request type other than the three known ones is handled as none of them |
| Answers.PairPoint | core/solver.py:900-906 | a compared point comes from a list of at least two elements; two numbers give exactly that point; an entry whose x or y does not convert is skipped |
| Answers.ScanMeaning | core/solver.py:890-909 | the scan answers true exactly when every point met is within the 80-pixel band. It raises exactly when it meets a fault before any out-of-band point |
| Answers.IsCanvasPathRelative | core/solver.py:882-885 | a root box without a positive width and height is never treated as relative |
| Answers.CanvasPathRelativeMeaning | core/solver.py:882-909 | the batch is relative exactly when the box is positive and every point of every `path`, `start` and `end` is within 80 pixels of it. It raises exactly when a fault comes first |
| Answers.CandidateShapes | core/solver.py:895-898 | a flat pair is one point; a list of entries is scanned entry by entry, with short entries skipped |
| Answers.ConvertPoint | core/solver.py:634-648 | `point_converter` raises exactly when a coordinate does not convert; otherwise it maps the converted point |
| Answers.GridMarginRule | core/solver.py:631-642 | a grid point is offset by the root corner exactly when it lies within `w / 4 + 40` of the root box horizontally and `h / 4 + 40` vertically, on all four sides, and by the frame offset otherwise; the root box itself is always root-relative |
| Answers.GridMarginExamples | core/solver.py:631-642 | on a 100 x 100 box the margin is 65: (160, 50) and (-65, -65) are root-relative, (166, 50) and (50, -66) frame-relative |
| Answers.CanvasMappingIsUniform | core/solver.py:643-648 | for canvas, drag and other requests every point moves by the same offset: the root corner when relative, the frame offset otherwise |
| Answers.EntryDelay | core/solver.py:733-738 | an action delay is never negative, is `max(0, v / 1000)` when the third element converts to `v`, and is absent without a third element or when it does not convert |
| Answers.ConvertEntry | core/solver.py:726-739 | an entry converts exactly when it is a list of at least two elements whose point converts, to that point, with a non-negative delay |
| Answers.ConvertActionPathSplits | core/solver.py:725-740 | conversion distributes over concatenation, never lengthens the path, and drops a malformed entry |
| Answers.ConvertedDelaysNonnegative | core/solver.py:733-739 | every converted delay is non-negative |
| Answers.SynthesisedDragPath | core/solver.py:657-669 | building the two-point drag path raises exactly when one of the four coordinates does not convert |
| Answers.EntriesOf | core/solver.py:656 | iterating a list yields its elements; iterating None, a number or a boolean raises |
| Answers.FallbackPath | core/solver.py:672-680 | the fallback path has at most two points, and any point at all only when `start` is a pair |
| Answers.ActionPath | core/solver.py:656-680 | an action ends without a path only when its `start` is not a pair |
| Answers.PlanAction | core/solver.py:653-713 | a non-dict action raises; a walk always has a point; only a "drag" action drags |
| Answers.SynthesisedDragPlan | core/solver.py:657-669 | a drag with no path but numeric `start` and `end` drags along exactly those two mapped points with a 0.02 s delay each |
| Answers.GridIndices | core/solver.py:578 | the indices are the elements' `int()` values, in order, and converting raises exactly when one element does not convert |
| Answers.ClassifyPrecedence | core/solver.py:560-590 | routing precedence: a dict's `actions` or `steps` list, then its `answers` list, else decline; a list starting with a dict runs as actions; otherwise by request type, and scalars are declined |
| Answers.FindGridTile | core/solver.py:775-790 | the tile found is the first, in document order, whose box contains the point; none is found exactly when no tile's box contains it |
| Answers.PrimaryCanvas | core/solver.py:543-552 | the primary canvas is the first with a box of at least 100 x 100; none exactly when no canvas has one |
| Answers.TileSlot | core/solver.py:798-801 | an index at or past the end is skipped, one below `-len(tiles)` raises, and any other selects a tile in range, counting from the end when negative |
| Answers.PairUpIsConsecutive | core/solver.py:839-844 | the i-th drag pair is elements 2i and 2i+1, and an odd trailing element is dropped |
| Answers.DragPair | core/solver.py:845-859 | a pair is skipped exactly when either side is not a list of at least two elements; two numeric pairs drag between the canvas corner plus each |
| Answers.CanvasPoint | core/solver.py:823-827 | a short list is skipped, a scalar raises, and a numeric pair is clicked at the canvas corner plus the pair |
| Answers.ClampedOffsetBounds | core/solver.py:528-535 | a payload coordinate is never negative, is 0 left of or above the frame, and otherwise lies within 0.005 of the frame-relative value |
| Answers.HumanMovePayload | core/solver.py:515-535 | a payload exists exactly when the submit button has a box; all its coordinates are non-negative; it runs from the clamped frame-relative pointer position to the clamped frame-relative centre of the submit box |
| Actions.ClickAt | core/solver.py:710-711 | a direct click ends on the target, keeps the remembered position, and is one move onto the target followed at once by one press and release; its moves go to the lazy initial position, when there was none, and then to the target |
| Actions.GlideClick | core/solver.py:828 | a gliding click ends on the target with the trace cleared; it presses and releases once, right after the single-step move onto the target |
| Actions.PerformDrag | core/solver.py:742-758 | a replayed drag ends on, and remembers, the last path point, pressing and releasing once |
| Actions.ClickGridCoordinate | core/solver.py:760-773 | a grid click lands on the centre of the first tile holding the point, or on the point itself, and remembers where |
| Actions.PerformTrail | core/solver.py:690-705 | a walk ends with one press and release. Its end point is remembered when it lies in the submit box. Otherwise, outside a grid task, the remembered position is kept |
| Actions.PerformPlan | core/solver.py:682-713 | a productive action presses and releases exactly once; any other action issues no pointer call |
| Actions.SetupOf | core/solver.py:603-615 | the loop runs only with a root box (the task grid, or the primary canvas) and a `.button-submit` box |
| Actions.ExecuteActions | core/solver.py:600-630 | an empty batch, or a frame without a root or submit box, answers false without any pointer call; a batch whose relative-coordinate scan raises, raises before any pointer call |
| Actions.RunLoopMeaning | core/solver.py:650-718 | the loop answers whether any action so far was productive, pressing once per productive action, and raises when an action raises |
| Actions.LastEndCons | core/solver.py:650-716 | the last productive end of a batch is that of its tail when the tail has one, else the first action's end when that action is productive, else none |
| Actions.LastEndExists | core/solver.py:715-716 | a batch has a last productive end exactly when some action in it is productive |
| Actions.RunLoopRemembers | core/solver.py:650-716 | the loop remembers the end of the last productive action, and keeps the position remembered before when no action is productive |
| Actions.ExecuteActionsMeaning | core/solver.py:600-718 | a raising relative-coordinate scan raises with no pointer call. Otherwise `_execute_actions` answers whether at least one action was productive, pressing and releasing once for each, raises when an action raises, and remembers the end of the last productive action, keeping the old remembered position when none was |
| Actions.ClickSeries | core/solver.py:811-813 | clicking a series of targets ends on, and remembers, the last target; an empty series does nothing |
| Actions.ClickSeriesPresses | core/solver.py:811-813 | a series of clicks presses and releases once per target |
| Actions.ClickOnce | core/solver.py:810-828 | one click of a series ends on its target, keeps the remembered position and clears the trace only when gliding; it presses and releases once, right after the move onto the target; a direct click moves only to the lazy initial position and the target |
| Actions.ClickSeriesLandsOn | core/solver.py:810-828 | wherever the pointer starts, the i-th press and the i-th release of a click series both happen on the i-th target |
| Actions.ClickSeriesMoveTargets | core/solver.py:810-812 | a direct click series moves straight through its targets, in order, after the lazy initialisation when the pointer had no position |
| Actions.PlacedSeriesMoveTargets | core/solver.py:810-812 | once the pointer has a position, a direct click series moves exactly through its targets, in order |
| Actions.TileTargets | core/solver.py:798-809 | at most one click per index; the loop raises exactly when some index is below `-len(tiles)` |
| Actions.TileTargetsNearCentres | core/solver.py:806-809 | with offsets drawn from [-10, 10], every clicked point lies within 10 of the centre of a tile that has a box |
| Actions.ClickGridTiles | core/solver.py:792-795 | without a task grid nothing happens |
| Actions.ClickGridTilesMeaning | core/solver.py:792-813 | one press per clicked tile; it raises exactly on an index below `-len(tiles)`; the last clicked point is remembered |
| Actions.ClickGridTilesLandsOn | core/solver.py:792-813 | the pointer moves straight from clicked point to clicked point, after the lazy initialisation, and presses and releases on each clicked point, in order |
| Actions.ClickCanvasPoints | core/solver.py:815-821 | without a primary canvas nothing happens |
| Actions.ClickCanvasPointsMeaning | core/solver.py:823-829 | one click per readable point, ending on and remembering the last one; the loop raises exactly when some point's `len` or `float()` raises |
| Actions.ClickCanvasPointsLandsOn | core/solver.py:815-829 | the i-th press and the i-th release both happen on the i-th readable point, offset by the canvas corner |
| Actions.CanvasTargets | core/solver.py:823-829 | no more clicks than answers |
| Actions.CanvasTargetsRaises | core/solver.py:823-827 | the clicks stop on a raise exactly when some point raises |
| Actions.CanvasTargetsSplits | core/solver.py:823-829 | the clicks work point by point: those for a concatenation are the first part's, then, unless it raised, the second part's |
| Actions.CanvasTargetsOfNumericPairs | core/solver.py:823-829 | numeric `[x, y]` answers are clicked once each, in order, at the canvas corner plus (x, y), and nothing raises |
| Actions.DragOnce | core/solver.py:860-861 | one canvas drag ends on, and remembers, its end, pressing once: a move onto the start, the press, moves ending on the end, and the release |
| Actions.DragSeries | core/solver.py:840-861 | a series of drags ends on, and remembers, the last end; an empty series does nothing |
| Actions.DragSeriesPresses | core/solver.py:840-861 | a series of drags presses and releases once per drag |
| Actions.DragSeriesLandsOn | core/solver.py:840-861 | wherever the pointer starts, the i-th drag of a series presses on the i-th start and releases on the i-th end |
| Actions.DragCanvasPairs | core/solver.py:831-837 | without a primary canvas nothing happens |
| Actions.DragCanvasPairsMeaning | core/solver.py:831-861 | at most one drag per consecutive pair, one press each, the last end remembered; the loop raises exactly when some pair's `float()` raises |
| Actions.DragCanvasPairsLandsOn | core/solver.py:831-861 | the i-th drag presses on the i-th readable start and releases on the i-th readable end |
| Actions.DragTargets | core/solver.py:845-861 | no more drags than pairs |
| Actions.DragTargetsRaises | core/solver.py:845-859 | the drags stop on a raise exactly when some pair raises |
| Actions.DragTargetsOfNumericPairs | core/solver.py:845-861 | pairs of numeric answers are dragged once each, in order, between the canvas corner plus each side, and nothing raises |
| Actions.CanvasDragSteps | core/solver.py:860 | canvas drags, requested with 35 steps, follow a 42-step path |
| Actions.ApplyAnswers | core/solver.py:554-592 | `_apply_answers` never raises. A declined or unroutable answer answers false without any pointer call. An action list answers exactly what `_execute_actions` does, false when it raises. Tile, canvas-point and drag-pair answers keep the pointer calls made and answer false exactly when their handler raises |
| Actions.ApplyCanvasAnswer | core/solver.py:581-592 | a canvas answer of plain points answers true unless some point raises, pressing once per readable point before it |
| Actions.CanvasAnswerWithScalarFails | core/solver.py:581-592 | the canvas answer `[[1, 2], 5]` clicks once and answers false |
| Actions.ApplyDragAnswer | core/solver.py:585-592 | a drag answer of plain coordinates answers true unless some consecutive pair raises, pressing once per readable pair before it |
| Actions.ApplyGridAnswer | core/solver.py:577-580 | a grid answer with an unconvertible index answers false with no pointer call. Otherwise, with a task grid, it answers true unless some index is below `-len(tiles)` |
| Actions.BuildHumanMovePayload | core/solver.py:496-541 | a payload exists exactly when `.button-submit`, or the fallback selector when that element is missing, has a box. It starts at the clamped frame-relative pointer position, or at the remembered one before the pointer has moved, and ends at the clamped frame-relative centre of that button |

## Left out

- Browser and network calls are inputs, not effects. This covers:
  - the element queries and their bounding boxes;
  - `frame_element`;
  - the HTTP requests, their status codes and the JSON decoding of replies. A reply is a transport failure, or an ok flag with an optional decoded body.
- In `Motion` and `Actions`, sleeping is an event with its duration; wall-clock time is not modelled.
- The `asyncio.sleep(poll_interval)` between polls of `wait_for_result` produces no event. `Api.Poll` models only the elapsed time through the fetch budget.
- The token listener, `wait_token`, `_token_aware_sleep`, `solve`, `_handle_checkbox`, `_handle_challenge_round`, `_is_last_task` and the challenge collection are not part of this model. They are browser orchestration around the modelled core.
- `_click_submit_button` is not modelled. It is a single `click` on the submit box's centre, the same gesture as `Actions.GlideClick`.
- The logger and `main.py` are not modelled. They only print and configure.
- The route payload that `request_human_move` sends to the service is not modelled. The service's reply is an input.
- The Bézier arithmetic and the random draws are not modelled. A path's points are whatever `Page.curve` returns at each parameter; the model fixes how many samples there are and where the path ends.
- `Page.curve` is a fixed function of the start, the end and the parameter, so two `move_to` calls between the same points get the same path. The source draws fresh random numbers on each call. No property here depends on two paths differing.
- Floating point is modelled as exact reals. For example, `elapsed += poll_interval` is modelled as `i * interval` with no rounding drift.
- `int(steps * 1.2)` is computed exactly. It agrees with the float computation for the step counts the program uses (35 gives 42).
- Values.ToFloat: a string converts only when it is an optional sign followed by decimal digits. Python's `float()` also accepts decimals, exponents, surrounding whitespace, `inf` and `nan`.
- Values.ToInt: the same string subset; Python's `int()` also strips whitespace and accepts underscores.
- `str()` of a non-string action type is not modelled: it can never equal "drag" after lower-casing.
- The key order of JSON objects is not modelled, and no modelled step depends on it. The model iterates over the keys of a dict used as a path without converting any: keys are strings, which the list check skips.
- Api.WaitForResult: requires a positive `poll_interval`. With an interval of zero or less and replies that stay pending, the source loop never ends. Api.Poll, Api.PollBudget, Api.RequestHumanMove and Api.RequestHumanMoveOutcome carry the same requirement.
- Answers.TileSlot and Actions.TileTargets: the tile offsets are drawn per index position, not per click. Both are arbitrary inputs, so every sequence of draws the source can make is still covered.
- Motion.InitialPositionInRange: the draw fractions must lie in [0, 1], which is what `random.uniform` promises.
- `Presses` takes a press or release to happen where the last `mouse.move` ended, which is what Playwright's `mouse.down` and `mouse.up` do. A stream that presses before any move presses at the given starting point.
- `_convert_action_path` drops an entry whose coordinates do not convert, as well as a malformed one. The converter's exception is caught per entry.
- The start/end fallback of `_execute_actions` and the synthesised drag path convert their coordinates unguarded, so a bad coordinate there raises out of `_execute_actions`. `_apply_answers` turns that into false.
