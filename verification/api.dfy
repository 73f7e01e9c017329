/** The client of the remote solving service (`CaptchaAPIService`): response
    validation for task creation and result fetching, the bounded polling loop
    of `wait_for_result`, and the flattening of a `humanMove` trajectory.
    HTTP and JSON decoding are outside the model: each request's outcome is an
    input `Response`, and the i-th result fetch of a poll sees `fetches(i)`. */
module Api {
  import opened Values
  import opened Geometry

  /** What one POST produced: the request itself failed (the exception the
      client catches), or an HTTP reply with its `ok` flag and its body, which
      is None when the body is not valid JSON. */
  datatype Response = TransportError | Http(ok: bool, body: Option<Value>)

  /** The checks `create_task` and `_fetch_result` share: a failed request,
      a non-ok status or a truthy `errorId` give None; an undecodable body or
      a body that is not an object raises, since the client calls `.get` on it. */
  function Validate(resp: Response): (r: Outcome<Option<map<string, Value>>>)
    ensures r == Return(None) <==>
              resp.TransportError? || !resp.ok ||
              (resp.body.Some? && resp.body.value.Obj? && Truthy(Get(resp.body.value.fields, "errorId")))
    ensures r.Raise? <==> resp.Http? && resp.ok && (resp.body.None? || !resp.body.value.Obj?)
    ensures r.Return? && r.value.Some? ==>
              resp.Http? && resp.ok && resp.body == Some(Obj(r.value.value)) &&
              !Truthy(Get(r.value.value, "errorId"))
  {
    if resp.TransportError? || !resp.ok then Return(None)
    else if resp.body.None? || !resp.body.value.Obj? then Raise
    else if Truthy(Get(resp.body.value.fields, "errorId")) then Return(None)
    else Return(Some(resp.body.value.fields))
  }

  /** `create_task`: the task id, or None when the reply is rejected or carries
      no usable `taskId`. */
  function CreateTask(resp: Response): (r: Outcome<Option<Value>>)
    ensures r.Raise? <==> Validate(resp).Raise?
    ensures r.Return? && r.value.Some? ==> Truthy(r.value.value)
    ensures r.Return? && r.value.Some? <==>
              Validate(resp).Return? && Validate(resp).value.Some? &&
              Truthy(Get(Validate(resp).value.value, "taskId"))
  {
    match Validate(resp)
    case Raise => Raise
    case Return(None) => Return(None)
    case Return(Some(data)) =>
      var taskId := Get(data, "taskId");
      if !Truthy(taskId) then Return(None) else Return(Some(taskId))
  }

  /** `create_task` gives None exactly on a failed request, a non-ok status,
      a truthy `errorId` or a missing or falsy `taskId`, and otherwise returns
      the `taskId` it was sent, unchanged. */
  lemma CreateTaskCases(resp: Response)
    ensures resp.TransportError? || (resp.Http? && !resp.ok) ==> CreateTask(resp) == Return(None)
    ensures resp.Http? && resp.ok && resp.body.Some? && resp.body.value.Obj? ==>
              var data := resp.body.value.fields;
              CreateTask(resp) ==
                if Truthy(Get(data, "errorId")) || !Truthy(Get(data, "taskId")) then Return(None)
                else Return(Some(data["taskId"]))
  {
  }

  /** `_fetch_result`: the decoded reply object, unchanged, unless it is rejected. */
  function FetchResult(resp: Response): (r: Outcome<Option<map<string, Value>>>)
    ensures r.Return? && r.value.Some? ==> resp.Http? && resp.body == Some(Obj(r.value.value))
    ensures r.Raise? <==> resp.Http? && resp.ok && (resp.body.None? || !resp.body.value.Obj?)
  {
    Validate(resp)
  }

  /** `_fetch_result` passes every accepted payload through unchanged, and
      rejects exactly the failed, non-ok and `errorId` replies. */
  lemma FetchResultKeepsPayload(resp: Response, data: map<string, Value>)
    ensures FetchResult(resp) == Return(Some(data)) <==>
              resp == Http(true, Some(Obj(data))) && !Truthy(Get(data, "errorId"))
  {
  }

  /** What one fetch tells the polling loop: keep polling, or stop with an answer. */
  datatype Verdict = Pending | Finished(answer: Outcome<Option<Value>>)

  /** One iteration of `wait_for_result`'s loop body, before the sleep. */
  function Judge(resp: Response, returnRaw: bool): (v: Verdict)
    ensures FetchResult(resp).Raise? ==> v == Finished(Raise)
    ensures FetchResult(resp) == Return(None) ==> v == Finished(Return(None))
  {
    match FetchResult(resp)
    case Raise => Finished(Raise)
    case Return(None) => Finished(Return(None))
    case Return(Some(data)) =>
      var status := Get(data, "status");
      if status == Str("ready") then
        if returnRaw then Finished(Return(Some(Obj(data))))
        else
          var answers := Get(data, "answers");
          if answers.Null? then Finished(Return(None)) else Finished(Return(Some(answers)))
      else if status == Str("failed") then Finished(Return(None))
      else Pending
  }

  /** A fetched payload with status `ready` ends the poll with the whole
      payload when the raw reply is asked for, and otherwise with its
      `answers`, or None when they are null or absent; `failed` ends it with
      None; any other status keeps polling. */
  lemma JudgeAccepted(resp: Response, returnRaw: bool, data: map<string, Value>)
    requires FetchResult(resp) == Return(Some(data))
    ensures Get(data, "status") == Str("ready") && returnRaw ==>
              Judge(resp, returnRaw) == Finished(Return(Some(resp.body.value)))
    ensures Get(data, "status") == Str("ready") && !returnRaw ==>
              Judge(resp, returnRaw) ==
                Finished(Return(if "answers" in data && !data["answers"].Null? then Some(data["answers"]) else None))
    ensures Get(data, "status") == Str("failed") ==> Judge(resp, returnRaw) == Finished(Return(None))
    ensures Judge(resp, returnRaw).Pending? <==>
              Get(data, "status") != Str("ready") && Get(data, "status") != Str("failed")
  {
  }

  /** The number of loop iterations `elapsed <= max_wait_time` admits when
      `elapsed` takes the values 0, interval, 2 interval, ... */
  function MaxPolls(interval: real, maxWait: real): (n: nat)
    requires interval > 0.0
  {
    if maxWait < 0.0 then 0 else (maxWait / interval).Floor + 1
  }

  lemma MulMonotone(a: real, b: real, c: real)
    requires c > 0.0
    ensures a <= b <==> a * c <= b * c
  {
    if a <= b {
      assert b * c - a * c == (b - a) * c;
      MulNonnegative(b - a, c);
    } else {
      assert a * c - b * c == (a - b) * c;
      MulPositive(a - b, c);
    }
  }

  /** The loop condition before the i-th fetch holds exactly for the first
      `MaxPolls` values of i. */
  lemma PollBudget(interval: real, maxWait: real, i: nat)
    requires interval > 0.0
    ensures i as real * interval <= maxWait <==> i < MaxPolls(interval, maxWait)
  {
    MulMonotone(i as real, maxWait / interval, interval);
    assert maxWait / interval * interval == maxWait;
    if maxWait >= 0.0 {
      var q := maxWait / interval;
      assert i < q.Floor + 1 <==> i as real <= q;
    } else {
      MulNonnegative(i as real, interval);
    }
  }

  /** With the defaults of one second between fetches and fifteen seconds in
      all, the loop fetches at most sixteen times. */
  lemma DefaultBudget()
    ensures MaxPolls(1.0, 15.0) == 16
  {
    assert 15.0 / 1.0 == 15.0;
  }

  /** The answer of a poll and the number of result fetches it made. */
  datatype Polled = Polled(answer: Outcome<Option<Value>>, fetches: nat)

  /** The loop of `wait_for_result` from its i-th iteration on, `elapsed`
      being `i * interval` there. */
  function Poll(fetches: nat -> Response, returnRaw: bool, interval: real, maxWait: real, i: nat): (r: Polled)
    requires interval > 0.0
    ensures i <= MaxPolls(interval, maxWait) ==> i <= r.fetches <= MaxPolls(interval, maxWait)
    decreases MaxPolls(interval, maxWait) - i
  {
    PollBudget(interval, maxWait, i);
    if i as real * interval > maxWait then Polled(Return(None), i)
    else
      match Judge(fetches(i), returnRaw)
      case Finished(answer) => Polled(answer, i + 1)
      case Pending => Poll(fetches, returnRaw, interval, maxWait, i + 1)
  }

  /** `wait_for_result`. A non-positive interval would make the source loop
      forever on pending replies, so it is excluded. */
  function WaitForResult(fetches: nat -> Response, returnRaw: bool, interval: real, maxWait: real): (r: Polled)
    requires interval > 0.0
    ensures r.fetches <= MaxPolls(interval, maxWait)
  {
    Poll(fetches, returnRaw, interval, maxWait, 0)
  }

  /** The poll stops at the first fetch that is not pending, having made
      exactly that many fetches, and answers what that fetch decided. */
  lemma {:induction false} PollStopsAtFirstVerdict(fetches: nat -> Response, returnRaw: bool, interval: real, maxWait: real, i: nat, k: nat)
    requires interval > 0.0
    requires i <= k < MaxPolls(interval, maxWait)
    requires forall j :: i <= j < k ==> Judge(fetches(j), returnRaw).Pending?
    requires Judge(fetches(k), returnRaw).Finished?
    ensures Poll(fetches, returnRaw, interval, maxWait, i) ==
              Polled(Judge(fetches(k), returnRaw).answer, k + 1)
    decreases k - i
  {
    PollBudget(interval, maxWait, i);
    if i < k {
      assert Judge(fetches(i), returnRaw).Pending?;
      PollStopsAtFirstVerdict(fetches, returnRaw, interval, maxWait, i + 1, k);
    }
  }

  /** When every fetch the budget admits is pending, the poll gives up with
      None after exactly `MaxPolls` fetches. */
  lemma {:induction false} PollTimesOut(fetches: nat -> Response, returnRaw: bool, interval: real, maxWait: real, i: nat)
    requires interval > 0.0
    requires i <= MaxPolls(interval, maxWait)
    requires forall j :: i <= j < MaxPolls(interval, maxWait) ==> Judge(fetches(j), returnRaw).Pending?
    ensures Poll(fetches, returnRaw, interval, maxWait, i) == Polled(Return(None), MaxPolls(interval, maxWait))
    decreases MaxPolls(interval, maxWait) - i
  {
    PollBudget(interval, maxWait, i);
    if i < MaxPolls(interval, maxWait) {
      PollTimesOut(fetches, returnRaw, interval, maxWait, i + 1);
    }
  }

  /** One normalised trajectory point: x, y and a delay in milliseconds. */
  datatype HumanStep = HumanStep(x: real, y: real, delayMs: real)

  /** An entry the flattening keeps: a list of at least two elements. */
  predicate IsTrajectoryEntry(entry: Value) {
    entry.Arr? && |entry.items| >= 2
  }

  /** The delay of a kept entry: its third element when present, not null and
      convertible, otherwise 0. */
  function EntryDelay(entry: Value): (d: real)
    requires IsTrajectoryEntry(entry)
    ensures |entry.items| == 2 || entry.items[2].Null? ==> d == 0.0
    ensures |entry.items| > 2 && entry.items[2].Num? ==> d == entry.items[2].n
    ensures |entry.items| > 2 && ToFloat(entry.items[2]).Some? ==> d == ToFloat(entry.items[2]).value
    ensures |entry.items| > 2 && ToFloat(entry.items[2]).None? ==> d == 0.0
  {
    if |entry.items| > 2 && !entry.items[2].Null? then
      match ToFloat(entry.items[2])
      case Some(v) => v
      case None => 0.0
    else 0.0
  }

  /** One kept entry: `float(entry[0])` and `float(entry[1])` are not guarded,
      so an entry whose x or y does not convert raises. */
  function NormalizeEntry(entry: Value): (r: Outcome<HumanStep>)
    requires IsTrajectoryEntry(entry)
    ensures r.Raise? <==> ToFloat(entry.items[0]).None? || ToFloat(entry.items[1]).None?
    ensures r.Return? ==> r.value.x == ToFloat(entry.items[0]).value && r.value.y == ToFloat(entry.items[1]).value
  {
    match (ToFloat(entry.items[0]), ToFloat(entry.items[1]))
    case (Some(x), Some(y)) => Return(HumanStep(x, y, EntryDelay(entry)))
    case _ => Raise
  }

  /** The inner loop: the kept entries of one `path` list, in order. */
  function FlattenPath(path: seq<Value>): (r: Outcome<seq<HumanStep>>)
    decreases |path|
  {
    if |path| == 0 then Return([])
    else
      var rest := FlattenPath(path[1..]);
      if !IsTrajectoryEntry(path[0]) then rest
      else
        match NormalizeEntry(path[0])
        case Raise => Raise
        case Return(step) => if rest.Raise? then Raise else Return([step] + rest.value)
  }

  /** The path list of a segment, or nothing when the segment is not an
      object or its `path` is not a list. */
  function SegmentPath(segment: Value): seq<Value> {
    if segment.Obj? && Get(segment.fields, "path").Arr? then Get(segment.fields, "path").items else []
  }

  /** The outer loop over the answer segments. */
  function FlattenAnswers(answers: seq<Value>): (r: Outcome<seq<HumanStep>>)
    decreases |answers|
  {
    if |answers| == 0 then Return([])
    else
      match FlattenPath(SegmentPath(answers[0]))
      case Raise => Raise
      case Return(head) =>
        var rest := FlattenAnswers(answers[1..]);
        if rest.Raise? then Raise else Return(head + rest.value)
  }

  // -- The reference reading of the flattening: filter, then convert. --

  /** The kept entries of a path, in input order. */
  function Kept(path: seq<Value>): (r: seq<Value>)
    ensures |r| <= |path|
    ensures forall i :: 0 <= i < |r| ==> IsTrajectoryEntry(r[i])
    decreases |path|
  {
    if |path| == 0 then []
    else (if IsTrajectoryEntry(path[0]) then [path[0]] else []) + Kept(path[1..])
  }

  /** The kept entries of all segments, in order. */
  function KeptEntries(answers: seq<Value>): (r: seq<Value>)
    ensures forall i :: 0 <= i < |r| ==> IsTrajectoryEntry(r[i])
    decreases |answers|
  {
    if |answers| == 0 then [] else Kept(SegmentPath(answers[0])) + KeptEntries(answers[1..])
  }

  /** A kept entry whose coordinates both convert. */
  predicate Convertible(entry: Value) {
    IsTrajectoryEntry(entry) && ToFloat(entry.items[0]).Some? && ToFloat(entry.items[1]).Some?
  }

  predicate AllConvertible(entries: seq<Value>) {
    forall i :: 0 <= i < |entries| ==> Convertible(entries[i])
  }

  lemma AllConvertibleConcat(a: seq<Value>, b: seq<Value>)
    ensures AllConvertible(a + b) <==> AllConvertible(a) && AllConvertible(b)
  {
    if AllConvertible(a) && AllConvertible(b) {
      forall i | 0 <= i < |a + b| ensures Convertible((a + b)[i]) {
        if i >= |a| {
          assert (a + b)[i] == b[i - |a|];
        }
      }
    }
    if AllConvertible(a + b) {
      forall i | 0 <= i < |a| ensures Convertible(a[i]) {
        assert (a + b)[i] == a[i];
      }
      forall i | 0 <= i < |b| ensures Convertible(b[i]) {
        assert (a + b)[|a| + i] == b[i];
      }
    }
  }

  /** Convert every entry of a list of convertible entries. */
  function ConvertAll(entries: seq<Value>): (r: seq<HumanStep>)
    requires AllConvertible(entries)
    ensures |r| == |entries|
    decreases |entries|
  {
    if |entries| == 0 then []
    else
      assert Convertible(entries[0]);
      [NormalizeEntry(entries[0]).value] + ConvertAll(entries[1..])
  }

  lemma {:induction false} ConvertAllConcat(a: seq<Value>, b: seq<Value>)
    requires AllConvertible(a) && AllConvertible(b)
    ensures AllConvertible(a + b) && ConvertAll(a + b) == ConvertAll(a) + ConvertAll(b)
    decreases |a|
  {
    AllConvertibleConcat(a, b);
    if |a| > 0 {
      assert (a + b)[1..] == a[1..] + b;
      ConvertAllConcat(a[1..], b);
    } else {
      assert a + b == b;
    }
  }

  /** The flattening of one path raises exactly when one of its kept entries
      does not convert, and otherwise converts its kept entries in order. */
  lemma {:induction false} FlattenPathIsFilterThenConvert(path: seq<Value>)
    ensures FlattenPath(path).Raise? <==> !AllConvertible(Kept(path))
    ensures FlattenPath(path).Return? ==>
              AllConvertible(Kept(path)) && FlattenPath(path).value == ConvertAll(Kept(path))
    decreases |path|
  {
    if |path| > 0 {
      FlattenPathIsFilterThenConvert(path[1..]);
      var head := if IsTrajectoryEntry(path[0]) then [path[0]] else [];
      var tail := Kept(path[1..]);
      assert Kept(path) == head + tail;
      AllConvertibleConcat(head, tail);
      if AllConvertible(head) && AllConvertible(tail) {
        ConvertAllConcat(head, tail);
      }
    }
  }

  /** `request_human_move`'s flattening, stated against the filter-then-convert
      reading: it raises exactly when some kept entry of some dict segment's
      `path` list has a coordinate that does not convert, and otherwise yields
      those entries converted, in order, skipping everything else. */
  lemma {:induction false} FlattenIsFilterThenConvert(answers: seq<Value>)
    ensures FlattenAnswers(answers).Raise? <==> !AllConvertible(KeptEntries(answers))
    ensures FlattenAnswers(answers).Return? ==>
              AllConvertible(KeptEntries(answers)) &&
              FlattenAnswers(answers).value == ConvertAll(KeptEntries(answers))
    decreases |answers|
  {
    if |answers| > 0 {
      var head := Kept(SegmentPath(answers[0]));
      var tail := KeptEntries(answers[1..]);
      FlattenPathIsFilterThenConvert(SegmentPath(answers[0]));
      FlattenIsFilterThenConvert(answers[1..]);
      AllConvertibleConcat(head, tail);
      if AllConvertible(head) && AllConvertible(tail) {
        ConvertAllConcat(head, tail);
      }
    }
  }

  /** `request_human_move` after the route has been sent: create the task,
      poll for the raw reply, and flatten its `answers` list. None on any
      failure along the way or when nothing survives the flattening. */
  function RequestHumanMove(create: Response, fetches: nat -> Response, interval: real, maxWait: real): (r: Outcome<Option<seq<HumanStep>>>)
    requires interval > 0.0
    ensures r.Return? && r.value.Some? ==> |r.value.value| > 0
  {
    match CreateTask(create)
    case Raise => Raise
    case Return(None) => Return(None)
    case Return(Some(_)) =>
      match WaitForResult(fetches, true, interval, maxWait).answer
      case Raise => Raise
      case Return(None) => Return(None)
      case Return(Some(result)) =>
        if !Truthy(result) || !result.Obj? then Return(None)
        else
          var answers := Get(result.fields, "answers");
          if !answers.Arr? || |answers.items| == 0 then Return(None)
          else
            match FlattenAnswers(answers.items)
            case Raise => Raise
            case Return(steps) => if |steps| == 0 then Return(None) else Return(Some(steps))
  }

  /** Once a task exists and the poll delivers a payload, the trajectory is
      None for a missing, non-list or empty `answers`, None when no entry
      survives, and otherwise exactly the flattened entries. */
  lemma RequestHumanMoveOutcome(create: Response, fetches: nat -> Response, interval: real, maxWait: real, data: map<string, Value>)
    requires interval > 0.0
    requires CreateTask(create).Return? && CreateTask(create).value.Some?
    requires WaitForResult(fetches, true, interval, maxWait).answer == Return(Some(Obj(data)))
    requires |data| > 0
    ensures var answers := Get(data, "answers");
            var r := RequestHumanMove(create, fetches, interval, maxWait);
            (!answers.Arr? || |answers.items| == 0 ==> r == Return(None)) &&
            (answers.Arr? && |answers.items| > 0 ==>
               r == match FlattenAnswers(answers.items)
                    case Raise => Raise
                    case Return(steps) => if |steps| == 0 then Return(None) else Return(Some(steps)))
  {
  }
}
