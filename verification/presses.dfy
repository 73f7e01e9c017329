/** Where the presses and releases of an event stream happen: the pointer
    position is followed through the moves, and each press or release is
    read off at the position it happens. */
module Presses {
  import opened Geometry
  import opened Motion

  /** Where the pointer is after `events`, starting from `at`: the target of
      the last move, or `at` when nothing moved it. */
  function Where(events: seq<Event>, at: Point): Point
    decreases |events|
  {
    if |events| == 0 then at
    else Where(events[1..], if events[0].Move? then events[0].to else at)
  }

  /** Where each `button` event of `events` happens, in order, when the
      pointer starts at `at`. */
  function ButtonPoints(events: seq<Event>, button: Event, at: Point): seq<Point>
    decreases |events|
  {
    if |events| == 0 then []
    else
      var here := if events[0].Move? then events[0].to else at;
      (if events[0] == button then [here] else []) + ButtonPoints(events[1..], button, here)
  }

  /** One location per `button` event. */
  lemma {:induction false} ButtonPointsCount(events: seq<Event>, button: Event, at: Point)
    ensures |ButtonPoints(events, button, at)| == Count(events, button)
    decreases |events|
  {
    if |events| > 0 {
      ButtonPointsCount(events[1..], button, if events[0].Move? then events[0].to else at);
    }
  }

  lemma {:induction false} WhereConcat(a: seq<Event>, b: seq<Event>, at: Point)
    ensures Where(a + b, at) == Where(b, Where(a, at))
    decreases |a|
  {
    if |a| == 0 {
      assert a + b == b;
    } else {
      assert (a + b)[0] == a[0];
      assert (a + b)[1..] == a[1..] + b;
      WhereConcat(a[1..], b, if a[0].Move? then a[0].to else at);
    }
  }

  /** The events of `b` happen where `a` left the pointer. */
  lemma {:induction false} ButtonPointsConcat(a: seq<Event>, b: seq<Event>, button: Event, at: Point)
    ensures ButtonPoints(a + b, button, at) == ButtonPoints(a, button, at) + ButtonPoints(b, button, Where(a, at))
    decreases |a|
  {
    if |a| == 0 {
      assert a + b == b;
    } else {
      var here := if a[0].Move? then a[0].to else at;
      var head: seq<Point> := if a[0] == button then [here] else [];
      assert (a + b)[0] == a[0];
      assert (a + b)[1..] == a[1..] + b;
      ButtonPointsConcat(a[1..], b, button, here);
      assert head + (ButtonPoints(a[1..], button, here) + ButtonPoints(b, button, Where(a[1..], here))) ==
             (head + ButtonPoints(a[1..], button, here)) + ButtonPoints(b, button, Where(a[1..], here));
    }
  }

  /** Moves and pauses press nothing. */
  lemma MovesPressNowhere(a: seq<Event>, button: Event, at: Point)
    requires OnlyMoves(a) && (button == Down || button == Up)
    ensures ButtonPoints(a, button, at) == []
  {
    MovesHaveNoClicks(a);
    ButtonPointsCount(a, button, at);
  }

  /** A sequence ending in a move leaves the pointer at that move's target. */
  lemma WhereAfterMove(a: seq<Event>, at: Point)
    requires |a| > 0 && a[|a| - 1].Move?
    ensures Where(a, at) == a[|a| - 1].to
  {
    var last := a[|a| - 1];
    assert a == a[..|a| - 1] + [last];
    WhereConcat(a[..|a| - 1], [last], at);
  }

  /** A click shape right after a move presses and releases at that move's
      target, and leaves the pointer there. */
  lemma PressLandsOn(events: seq<Event>, at: Point)
    requires |events| >= 3 && PressAt(events, |events| - 2) && events[|events| - 3].Move?
    ensures var t := events[|events| - 3].to;
            ButtonPoints(events, Down, at) == [t] && ButtonPoints(events, Up, at) == [t] &&
            Where(events, at) == t
  {
    var a := events[..|events| - 2];
    var t := events[|events| - 3].to;
    assert events == a + [Down, Up];
    assert OnlyMoves(a) by {
      forall i | 0 <= i < |a| ensures a[i].Move? || a[i].Sleep? {
        assert a[i] == events[i];
      }
    }
    assert a[|a| - 1] == events[|events| - 3];
    WhereAfterMove(a, at);
    MovesPressNowhere(a, Down, at);
    MovesPressNowhere(a, Up, at);
    ButtonPointsConcat(a, [Down, Up], Down, at);
    ButtonPointsConcat(a, [Down, Up], Up, at);
    WhereConcat(a, [Down, Up], at);
  }

  /** A drag shape presses at its start, releases at its end and leaves the
      pointer at the end. */
  lemma DragLandsOn(events: seq<Event>, k: int, start: Point, end: Point, at: Point)
    requires DragAt(events, k, start, end)
    ensures ButtonPoints(events, Down, at) == [start] && ButtonPoints(events, Up, at) == [end]
    ensures Where(events, at) == end
  {
    var a, b := events[..k], events[k + 1..|events| - 1];
    assert OnlyMoves(a) by {
      forall i | 0 <= i < |a| ensures a[i].Move? || a[i].Sleep? {
        assert a[i] == events[i];
      }
    }
    assert OnlyMoves(b) by {
      forall i | 0 <= i < |b| ensures b[i].Move? || b[i].Sleep? {
        assert b[i] == events[k + 1 + i];
      }
    }
    assert a[|a| - 1] == Move(start, 1);
    assert b[|b| - 1] == Move(end, 1);
    assert events == ((a + [Down]) + b) + [Up];
    WhereAfterMove(a, at);
    var p := Where(a + [Down], at);
    WhereConcat(a, [Down], at);
    WhereAfterMove(b, p);
    WhereConcat(a + [Down], b, at);
    WhereConcat((a + [Down]) + b, [Up], at);
    forall button | button == Down || button == Up
      ensures ButtonPoints(events, button, at) ==
              ButtonPoints(a, button, at) + ButtonPoints([Down], button, start) + ButtonPoints(b, button, start) + ButtonPoints([Up], button, end)
    {
      ButtonPointsConcat(a, [Down], button, at);
      ButtonPointsConcat(a + [Down], b, button, at);
      ButtonPointsConcat((a + [Down]) + b, [Up], button, at);
    }
    MovesPressNowhere(a, Down, at);
    MovesPressNowhere(a, Up, at);
    MovesPressNowhere(b, Down, start);
    MovesPressNowhere(b, Up, start);
  }

  /** A non-empty sequence is its head followed by its tail. */
  lemma HeadThenTail<T>(s: seq<T>)
    requires |s| > 0
    ensures [s[0]] + s[1..] == s
  {
  }

  /** A click shape followed by more events: its press and its release come
      first, at the target of the move before them, and the rest continue
      from that target. */
  lemma ClickThenMore(e: seq<Event>, a: seq<Event>, rest: seq<Event>, t: Point, at: Point)
    requires e == a + rest
    requires |a| >= 3 && PressAt(a, |a| - 2) && a[|a| - 3] == Move(t, 1)
    ensures ButtonPoints(e, Down, at) == [t] + ButtonPoints(rest, Down, t)
    ensures ButtonPoints(e, Up, at) == [t] + ButtonPoints(rest, Up, t)
  {
    PressLandsOn(a, at);
    ButtonPointsConcat(a, rest, Down, at);
    ButtonPointsConcat(a, rest, Up, at);
  }

  /** A drag shape followed by more events: its press comes first at the
      start, its release first at the end, and the rest continue from the end. */
  lemma DragThenMore(e: seq<Event>, a: seq<Event>, rest: seq<Event>, k: int, start: Point, end: Point, at: Point)
    requires e == a + rest && DragAt(a, k, start, end)
    ensures ButtonPoints(e, Down, at) == [start] + ButtonPoints(rest, Down, end)
    ensures ButtonPoints(e, Up, at) == [end] + ButtonPoints(rest, Up, end)
  {
    DragLandsOn(a, k, start, end, at);
    ButtonPointsConcat(a, rest, Down, at);
    ButtonPointsConcat(a, rest, Up, at);
  }

  /** Moves onto a target followed by more events. */
  lemma MovesThenMore(e: seq<Event>, a: seq<Event>, rest: seq<Event>, init: seq<Point>, t: Point, ts: seq<Point>)
    requires e == a + rest
    requires MoveTargets(a) == init + [t] && MoveTargets(rest) == ts
    ensures MoveTargets(e) == init + ([t] + ts)
  {
    MoveTargetsConcat(a, rest);
    ConcatAssociates(init, [t], ts);
  }
}
