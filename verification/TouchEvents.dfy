/** What one Qt touch event is turned into, and the protocol the receiver of the motion events
    expects (src/core/render_widget_host_view_qt_delegate_client.cpp:83-107 and 563-709). */
module TouchEvents {
  import opened Wrappers
  import opened TouchIds

  datatype EventType = TouchBegin | TouchUpdate | TouchEnd | TouchCancel

  datatype Action = DOWN | UP | MOVE | CANCEL | POINTER_DOWN | POINTER_UP

  /** The argument of one call of processMotionEvent. */
  datatype MotionEvent = MotionEvent(points: seq<TouchPoint>, action: Action, index: int)

  /** The assertions of the MotionEventQt constructor. */
  predicate WellConstructed(me: MotionEvent) {
    if me.action == POINTER_DOWN || me.action == POINTER_UP then
      && 0 <= me.index < |me.points|
      && me.points[me.index].point.state == (if me.action == POINTER_DOWN then Pressed else Released)
    else
      me.index == -1
  }

  // ---- the emitted events ----

  /** `QList::mid`, which yields the whole list for the position -1. */
  function Mid(pts: seq<TouchPoint>, from: int): seq<TouchPoint>
    requires -1 <= from <= |pts|
  {
    if from == -1 then pts else pts[from..]
  }

  /** The number of leading pressed points: lastPressIndex + 1. */
  function PressPrefix(pts: seq<TouchPoint>): (n: nat)
    ensures n <= |pts|
    ensures forall i :: 0 <= i < n ==> pts[i].point.state == Pressed
    ensures n < |pts| ==> pts[n].point.state != Pressed
  {
    if pts == [] || pts[0].point.state != Pressed then 0 else 1 + PressPrefix(pts[1..])
  }

  /** One POINTER_DOWN per pressed point from `last` downwards, each carrying the points from it on. */
  function PointerDowns(pts: seq<TouchPoint>, last: int): seq<MotionEvent>
    requires -2 <= last < |pts|
    decreases last + 2
  {
    if last < 0 then []
    else [MotionEvent(pts[last..], POINTER_DOWN, 0)] + PointerDowns(pts, last - 1)
  }

  predicate AnyUpdated(pts: seq<TouchPoint>) {
    exists i :: 0 <= i < |pts| && pts[i].point.state == Updated
  }

  /** The last loop: the released points leave from the back of the list. */
  function Releases(pts: seq<TouchPoint>): seq<MotionEvent> {
    if pts == [] || pts[|pts| - 1].point.state != Released then []
    else
      [if |pts| > 1 then MotionEvent(pts, POINTER_UP, |pts| - 1) else MotionEvent(pts, UP, -1)]
      + Releases(pts[..|pts| - 1])
  }

  function StripReleased(pts: seq<TouchPoint>): (r: seq<TouchPoint>)
    ensures r <= pts
    ensures r != [] ==> r[|r| - 1].point.state != Released
    ensures forall i :: |r| <= i < |pts| ==> pts[i].point.state == Released
  {
    if pts == [] || pts[|pts| - 1].point.state != Released then pts else StripReleased(pts[..|pts| - 1])
  }

  function Presses(kind: EventType, pts: seq<TouchPoint>): seq<MotionEvent> {
    var last := PressPrefix(pts) - 1;
    match kind
    case TouchBegin => [MotionEvent(Mid(pts, last), DOWN, -1)] + PointerDowns(pts, last - 1)
    case TouchUpdate => PointerDowns(pts, last)
    case _ => []
  }

  function Moves(kind: EventType, pts: seq<TouchPoint>): seq<MotionEvent> {
    if (kind.TouchBegin? || kind.TouchUpdate?) && AnyUpdated(pts) then [MotionEvent(pts, MOVE, -1)] else []
  }

  function Emitted(kind: EventType, pts: seq<TouchPoint>): seq<MotionEvent> {
    Presses(kind, pts) + Moves(kind, pts) + Releases(pts)
  }

  // ---- the receiver ----

  function Pointers(pts: seq<TouchPoint>): set<nat> {
    set i | 0 <= i < |pts| :: pts[i].pointer
  }

  ghost predicate DistinctPointers(pts: seq<TouchPoint>) {
    forall i, j :: 0 <= i < j < |pts| ==> pts[i].pointer != pts[j].pointer
  }

  /** Acceptance of one motion event with `live` pointers down; the result is the new live set. */
  ghost function Receive(live: set<nat>, me: MotionEvent): Option<set<nat>> {
    if !WellConstructed(me) || !DistinctPointers(me.points) || me.points == [] then None
    else
      var carried := Pointers(me.points);
      match me.action
      case DOWN => if live == {} && |me.points| == 1 then Some(carried) else None
      case POINTER_DOWN =>
        var added := me.points[me.index].pointer;
        if live != {} && added !in live && carried == live + {added} then Some(carried) else None
      case MOVE => if carried == live then Some(live) else None
      case POINTER_UP =>
        if |me.points| > 1 && carried == live then Some(live - {me.points[me.index].pointer}) else None
      case UP => if |me.points| == 1 && carried == live then Some({}) else None
      case CANCEL => if carried == live then Some({}) else None
  }

  ghost function ReceiveAll(live: set<nat>, out: seq<MotionEvent>): Option<set<nat>>
    decreases |out|
  {
    if out == [] then Some(live)
    else
      match Receive(live, out[0])
      case None => None
      case Some(next) => ReceiveAll(next, out[1..])
  }

  lemma {:induction false} ReceiveAppend(live: set<nat>, a: seq<MotionEvent>, b: seq<MotionEvent>)
    requires ReceiveAll(live, a).Some?
    ensures ReceiveAll(live, a + b) == ReceiveAll(ReceiveAll(live, a).value, b)
    decreases |a|
  {
    if a == [] {
      assert a + b == b;
    } else {
      assert (a + b)[0] == a[0] && (a + b)[1..] == a[1..] + b;
      ReceiveAppend(Receive(live, a[0]).value, a[1..], b);
    }
  }

  lemma PointersTail(pts: seq<TouchPoint>, k: nat)
    requires k < |pts| && DistinctPointers(pts)
    ensures Pointers(pts[k..]) == Pointers(pts[k + 1..]) + {pts[k].pointer}
    ensures pts[k].pointer !in Pointers(pts[k + 1..]) && DistinctPointers(pts[k..])
  {
    forall i | 0 <= i < |pts[k..]|
      ensures pts[k..][i].pointer in Pointers(pts[k + 1..]) + {pts[k].pointer}
    {
      if i > 0 { assert pts[k..][i] == pts[k + 1..][i - 1]; }
    }
    var tail := pts[k + 1..];
    forall i | 0 <= i < |tail|
      ensures tail[i].pointer in Pointers(pts[k..]) && tail[i].pointer != pts[k].pointer
    {
      assert pts[k..][i + 1] == tail[i] == pts[k + 1 + i];
    }
    assert pts[k..][0] == pts[k];
  }

  lemma PointersInit(pts: seq<TouchPoint>)
    requires pts != [] && DistinctPointers(pts)
    ensures var n := |pts| - 1;
            Pointers(pts[..n]) == Pointers(pts) - {pts[n].pointer} && DistinctPointers(pts[..n])
  {
    var n := |pts| - 1;
    forall i | 0 <= i < n ensures pts[i].pointer in Pointers(pts[..n]) {
      assert pts[..n][i] == pts[i];
    }
  }

  lemma {:induction false} PointerDownsAccepted(pts: seq<TouchPoint>, last: int)
    requires -1 <= last < |pts| - 1 && DistinctPointers(pts)
    requires forall i :: 0 <= i <= last ==> pts[i].point.state == Pressed
    ensures ReceiveAll(Pointers(pts[last + 1..]), PointerDowns(pts, last)) == Some(Pointers(pts))
    decreases last + 1
  {
    if last < 0 {
      assert pts[0..] == pts;
    } else {
      var live := Pointers(pts[last + 1..]);
      PointersTail(pts, last);
      assert pts[last + 1..][0].pointer in live;
      var me := MotionEvent(pts[last..], POINTER_DOWN, 0);
      assert me.points[0] == pts[last];
      assert Receive(live, me) == Some(Pointers(pts[last..]));
      PointerDownsAccepted(pts, last - 1);
      assert PointerDowns(pts, last)[1..] == PointerDowns(pts, last - 1);
    }
  }

  lemma {:induction false} ReleasesAccepted(pts: seq<TouchPoint>)
    requires DistinctPointers(pts)
    ensures ReceiveAll(Pointers(pts), Releases(pts)) == Some(Pointers(StripReleased(pts)))
    decreases |pts|
  {
    var n := |pts| - 1;
    if pts != [] && pts[n].point.state == Released {
      PointersInit(pts);
      ReleasesAccepted(pts[..n]);
      assert Releases(pts)[1..] == Releases(pts[..n]);
      if n == 0 {
        assert Pointers(pts[..0]) == {};
      }
    }
  }

  /** How the live pointers of the receiver must look before an event of each type. */
  ghost predicate ReadyFor(kind: EventType, pts: seq<TouchPoint>, live: set<nat>) {
    && DistinctPointers(pts)
    && match kind
       case TouchBegin => live == {} && pts != [] && PressPrefix(pts) == |pts|
       case TouchUpdate => PressPrefix(pts) < |pts| && live == Pointers(pts[PressPrefix(pts)..])
       case TouchEnd => live == Pointers(pts)
       case TouchCancel => false
  }

  lemma PressesAccepted(kind: EventType, pts: seq<TouchPoint>, live: set<nat>)
    requires ReadyFor(kind, pts, live)
    ensures ReceiveAll(live, Presses(kind, pts)) == Some(Pointers(pts))
  {
    var last := PressPrefix(pts) - 1;
    if kind == TouchBegin {
      PointersTail(pts, last);
      var down := MotionEvent(pts[last..], DOWN, -1);
      assert Pointers(pts[last + 1..]) == {};
      assert Receive(live, down) == Some(Pointers(pts[last..]));
      assert Presses(kind, pts)[1..] == PointerDowns(pts, last - 1);
      PointerDownsAccepted(pts, last - 1);
    } else if kind == TouchUpdate {
      PointerDownsAccepted(pts, last);
    }
  }

  /** One event's motion events are accepted from the pointers that were live before it, and leave
      exactly the points that were not released. */
  lemma EmittedAccepted(kind: EventType, pts: seq<TouchPoint>, live: set<nat>)
    requires ReadyFor(kind, pts, live)
    ensures ReceiveAll(live, Emitted(kind, pts)) == Some(Pointers(StripReleased(pts)))
  {
    PressesAccepted(kind, pts, live);
    ReceiveAppend(live, Presses(kind, pts), Moves(kind, pts));
    if Moves(kind, pts) != [] {
      assert Receive(Pointers(pts), Moves(kind, pts)[0]) == Some(Pointers(pts));
      assert Moves(kind, pts)[1..] == [];
    }
    ReceiveAppend(live, Presses(kind, pts) + Moves(kind, pts), Releases(pts));
    ReleasesAccepted(pts);
  }

  // ---- the order within one event ----

  function Phase(a: Action): nat {
    match a
    case DOWN => 0
    case POINTER_DOWN => 1
    case MOVE => 2
    case POINTER_UP => 3
    case UP => 4
    case CANCEL => 5
  }

  ghost predicate InPhases(out: seq<MotionEvent>, low: nat, high: nat) {
    && (forall i :: 0 <= i < |out| ==> low <= Phase(out[i].action) <= high)
    && (forall i, j :: 0 <= i < j < |out| ==> Phase(out[i].action) <= Phase(out[j].action))
  }

  lemma {:induction false} PointerDownsPhases(pts: seq<TouchPoint>, last: int)
    requires -2 <= last < |pts|
    ensures InPhases(PointerDowns(pts, last), 1, 1)
    decreases last + 2
  {
    if last >= 0 { PointerDownsPhases(pts, last - 1); }
  }

  lemma {:induction false} ReleasesPhases(pts: seq<TouchPoint>)
    ensures InPhases(Releases(pts), 3, 4)
    decreases |pts|
  {
    var n := |pts| - 1;
    if pts != [] {
      ReleasesPhases(pts[..n]);
      assert n == 0 ==> Releases(pts[..n]) == [];
    }
  }

  lemma PhasesAppend(a: seq<MotionEvent>, b: seq<MotionEvent>, low: nat, mid: nat, high: nat)
    requires InPhases(a, low, mid) && InPhases(b, mid, high) && low <= mid <= high
    ensures InPhases(a + b, low, high)
  {
  }

  /** DOWN first, then the POINTER_DOWNs, then the MOVE, then the POINTER_UPs, then UP: the promise
      of the comment on line 585, for every list of points. */
  lemma DownsThenMovesThenUps(kind: EventType, pts: seq<TouchPoint>)
    ensures InPhases(Emitted(kind, pts), 0, 4)
  {
    PressesPhases(kind, pts);
    ReleasesPhases(pts);
    ThreePhases(Presses(kind, pts), Moves(kind, pts), Releases(pts));
  }

  lemma ThreePhases(a: seq<MotionEvent>, b: seq<MotionEvent>, c: seq<MotionEvent>)
    requires InPhases(a, 0, 1) && InPhases(b, 2, 2) && InPhases(c, 3, 4)
    ensures InPhases(a + b + c, 0, 4)
  {
    PhasesAppend(a, b, 0, 2, 2);
    PhasesAppend(a + b, c, 0, 3, 4);
  }

  lemma PressesPhases(kind: EventType, pts: seq<TouchPoint>)
    ensures InPhases(Presses(kind, pts), 0, 1)
  {
    var last := PressPrefix(pts) - 1;
    PointerDownsPhases(pts, last);
    if kind == TouchBegin {
      PointerDownsPhases(pts, last - 1);
      PhasesAppend([MotionEvent(Mid(pts, last), DOWN, -1)], PointerDowns(pts, last - 1), 0, 1, 1);
    }
  }

  // ---- when a move is sent ----

  function MovesIn(out: seq<MotionEvent>): seq<MotionEvent> {
    if out == [] then []
    else MovesIn(out[..|out| - 1]) + if out[|out| - 1].action == MOVE then [out[|out| - 1]] else []
  }

  lemma {:induction false} MovesInAppend(a: seq<MotionEvent>, b: seq<MotionEvent>)
    ensures MovesIn(a + b) == MovesIn(a) + MovesIn(b)
    decreases |b|
  {
    if b == [] {
      assert a + b == a;
    } else {
      var n := |b| - 1;
      assert (a + b)[..|a + b| - 1] == a + b[..n];
      MovesInAppend(a, b[..n]);
    }
  }

  lemma {:induction false} NoMovesIn(out: seq<MotionEvent>)
    requires forall i :: 0 <= i < |out| ==> out[i].action != MOVE
    ensures MovesIn(out) == []
    decreases |out|
  {
    if out != [] { NoMovesIn(out[..|out| - 1]); }
  }

  ghost predicate SomeUpdated(pts: seq<TouchPoint>) {
    exists p :: p in pts && p.point.state == Updated
  }

  /** A begin or an update sends one move with all the points exactly if one of them is updated; an end sends
      none. */
  lemma MovesExactlyWhen(kind: EventType, pts: seq<TouchPoint>)
    ensures MovesIn(Emitted(kind, pts))
         == if kind in {TouchBegin, TouchUpdate} && SomeUpdated(pts) then [MotionEvent(pts, MOVE, -1)] else []
  {
    PressesPhases(kind, pts);
    ReleasesPhases(pts);
    NoMovesIn(Presses(kind, pts));
    NoMovesIn(Releases(pts));
    MovesInAppend(Presses(kind, pts), Moves(kind, pts));
    MovesInAppend(Presses(kind, pts) + Moves(kind, pts), Releases(pts));
    MovesThemselves(kind, pts);
  }

  lemma MovesThemselves(kind: EventType, pts: seq<TouchPoint>)
    ensures MovesIn(Moves(kind, pts))
         == if kind in {TouchBegin, TouchUpdate} && SomeUpdated(pts) then [MotionEvent(pts, MOVE, -1)] else []
  {
    assert MovesIn([]) == [];
    assert [MotionEvent(pts, MOVE, -1)][..0] == [];
    assert AnyUpdated(pts) <==> SomeUpdated(pts);
  }
}
