/** The touch handler of RenderWidgetHostViewQtDelegateClient
    (src/core/render_widget_host_view_qt_delegate_client.cpp:42-67 and 563-709) and the pointer
    protocol it keeps over every run of touch events. */
module Touch {
  import opened Wrappers
  import opened TouchIds
  import opened TouchEvents

  datatype State = State(ids: map<int, nat>, previous: seq<TouchPoint>, motionStarted: bool)

  const INITIAL := State(map[], [], false)

  // ---- the effect of one event ----

  ghost predicate SortedByState(pts: seq<TouchPoint>) {
    forall i, j :: 0 <= i < j < |pts| ==> pts[i].point.state.Rank() <= pts[j].point.state.Rank()
  }

  /** What mapTouchPointIds returns. */
  function MappedPoints(s: State, points: seq<Point>): seq<TouchPoint> {
    Mapped(Assign(s.ids, points), points)
  }

  /** `sorted` is one of the lists std::sort may leave. */
  ghost predicate SortResult(s: State, points: seq<Point>, sorted: seq<TouchPoint>) {
    multiset(sorted) == multiset(MappedPoints(s, points)) && SortedByState(sorted)
  }

  function FingersOf(pts: seq<TouchPoint>): set<int> {
    set i | 0 <= i < |pts| :: pts[i].point.id
  }

  /** The points a cancel is about: its own, or else those of the event before it. */
  function Cancelled(s: State, sorted: seq<TouchPoint>): seq<TouchPoint> {
    if sorted == [] then s.previous else sorted
  }

  function After(s: State, kind: EventType, points: seq<Point>, sorted: seq<TouchPoint>): State {
    AfterSorted(s.(ids := Assign(s.ids, points) - ReleasedFingers(points)), kind, sorted)
  }

  /** What the handler does once the ids are mapped and the points sorted. */
  function AfterSorted(s: State, kind: EventType, sorted: seq<TouchPoint>): State {
    match kind
    case TouchBegin => State(s.ids, StripReleased(sorted), true)
    case TouchUpdate => State(s.ids, StripReleased(sorted), true)
    case TouchEnd => State(s.ids, [], false)
    case TouchCancel => State(s.ids - FingersOf(Cancelled(s, sorted)), [], false)
  }

  function Sent(s: State, kind: EventType, sorted: seq<TouchPoint>): seq<MotionEvent> {
    if kind == TouchCancel then
      if Cancelled(s, sorted) != [] && s.motionStarted
      then [MotionEvent(Cancelled(s, sorted), CANCEL, -1)]
      else []
    else Emitted(kind, sorted)
  }

  // ---- the environment: Qt's rules ----

  /** Qt delivers a touch event with these points while `fingers` are on the screen, and never tracks
      more than `bound` fingers at once. */
  ghost predicate WellFormed(fingers: set<int>, kind: EventType, points: seq<Point>, bound: nat) {
    && DistinctFingers(points)
    && |points| <= bound
    && (forall i :: 0 <= i < |points| ==> points[i].state != Unknown)
    && match kind
       case TouchBegin =>
         fingers == {} && points != [] && forall i :: 0 <= i < |points| ==> points[i].state == Pressed
       case TouchUpdate =>
         && fingers != {}
         && fingers <= Fingers(points)
         && forall i :: 0 <= i < |points| ==> (points[i].state == Pressed <==> points[i].id !in fingers)
       case TouchEnd =>
         && points != []
         && Fingers(points) == fingers
         && forall i :: 0 <= i < |points| ==> points[i].state == Released
       case TouchCancel =>
         points == [] || Fingers(points) == fingers
  }

  function FingersAfter(kind: EventType, points: seq<Point>): set<int> {
    if kind.TouchBegin? || kind.TouchUpdate? then Fingers(points) - ReleasedFingers(points) else {}
  }

  // ---- one event ----

  /** The id map knows exactly the fingers on the screen, and so does the previous list. */
  ghost predicate Inv(s: State, fingers: set<int>, bound: nat) {
    && s.ids.Keys == fingers
    && Injective(s.ids) && Below(s.ids, bound)
    && Consistent(s.previous, s.ids)
    && FingersOf(s.previous) == fingers
    && (fingers != {} ==> s.motionStarted)
  }

  /** The points carry the mapped ids, each finger once. */
  ghost predicate Consistent(pts: seq<TouchPoint>, ids: map<int, nat>) {
    && (forall i :: 0 <= i < |pts| ==> pts[i].point.id in ids && pts[i].pointer == ids[pts[i].point.id])
    && (forall i, j :: 0 <= i < j < |pts| ==> pts[i].point.id != pts[j].point.id)
  }

  lemma ConsistentPointers(pts: seq<TouchPoint>, ids: map<int, nat>)
    requires Consistent(pts, ids) && Injective(ids)
    ensures DistinctPointers(pts)
    ensures FingersOf(pts) == ids.Keys ==> Pointers(pts) == ids.Values
  {
    if FingersOf(pts) == ids.Keys {
      forall v | v in ids.Values ensures v in Pointers(pts) {
        var f :| f in ids && ids[f] == v;
        assert f in FingersOf(pts);
      }
    }
  }

  lemma {:induction false} CountOne<T>(s: seq<T>, x: T)
    requires forall i, j :: 0 <= i < j < |s| ==> s[i] != s[j]
    ensures multiset(s)[x] <= 1
  {
    if s != [] {
      var n := |s| - 1;
      CountOne(s[..n], x);
      assert s == s[..n] + [s[n]];
      assert x == s[n] ==> x !in s[..n];
    }
  }

  lemma CountTwo<T>(s: seq<T>, i: nat, j: nat)
    requires i < j < |s|
    ensures s[i] == s[j] ==> multiset(s)[s[i]] >= 2
  {
    assert s == s[..j] + s[j..];
    assert s[i] in s[..j] && s[j] in s[j..] by { assert s[..j][i] == s[i] && s[j..][0] == s[j]; }
    assert multiset(s) == multiset(s[..j]) + multiset(s[j..]);
  }

  lemma PermutationStaysDistinct<T>(a: seq<T>, b: seq<T>)
    requires multiset(a) == multiset(b)
    requires forall i, j :: 0 <= i < j < |a| ==> a[i] != a[j]
    ensures forall i, j :: 0 <= i < j < |b| ==> b[i] != b[j]
  {
    forall i, j | 0 <= i < j < |b| ensures b[i] != b[j] {
      CountOne(a, b[i]);
      CountTwo(b, i, j);
    }
  }

  lemma PermutationSameElements<T>(a: seq<T>, b: seq<T>)
    requires multiset(a) == multiset(b)
    ensures |a| == |b|
    ensures forall x :: x in a <==> x in b
  {
    assert |multiset(a)| == |a| && |multiset(b)| == |b|;
    forall x ensures x in a <==> x in b {
      assert x in multiset(a) <==> x in multiset(b);
    }
  }

  lemma PermutationStaysConsistent(a: seq<TouchPoint>, b: seq<TouchPoint>, ids: map<int, nat>)
    requires multiset(a) == multiset(b) && Consistent(a, ids)
    ensures Consistent(b, ids)
  {
    PermutationStaysDistinct(a, b);
    PermutationSameElements(a, b);
    forall i | 0 <= i < |b|
      ensures b[i].point.id in ids && b[i].pointer == ids[b[i].point.id]
    {
      assert b[i] in a;
    }
    forall i, j | 0 <= i < j < |b| ensures b[i].point.id != b[j].point.id {
      assert b[i] in a && b[j] in a && b[i] != b[j];
    }
  }

  lemma PermutationSameFingers(a: seq<TouchPoint>, b: seq<TouchPoint>)
    requires multiset(a) == multiset(b)
    ensures FingersOf(b) == FingersOf(a)
  {
    PermutationSameElements(a, b);
    forall i | 0 <= i < |a| ensures a[i].point.id in FingersOf(b) {
      assert a[i] in b;
    }
    forall i | 0 <= i < |b| ensures b[i].point.id in FingersOf(a) {
      assert b[i] in a;
    }
  }

  lemma MappedConsistent(ids: map<int, nat>, points: seq<Point>)
    requires DistinctFingers(points) && Fingers(points) <= ids.Keys
    ensures Consistent(Mapped(ids, points), ids) && FingersOf(Mapped(ids, points)) == Fingers(points)
  {
    var mapped := Mapped(ids, points);
    forall i | 0 <= i < |points| ensures mapped[i].point.id in Fingers(points) {
      assert mapped[i].point == points[i];
    }
    forall i | 0 <= i < |points| ensures points[i].id in FingersOf(mapped) {
      assert mapped[i].point == points[i];
    }
  }

  lemma PermutationOfMapped(ids: map<int, nat>, points: seq<Point>, sorted: seq<TouchPoint>)
    requires Fingers(points) <= ids.Keys && multiset(sorted) == multiset(Mapped(ids, points))
    ensures |sorted| == |points| && forall i :: 0 <= i < |sorted| ==> sorted[i].point in points
  {
    var mapped := Mapped(ids, points);
    PermutationSameElements(mapped, sorted);
    forall x | x in sorted ensures x.point in points {
      assert x in mapped;
    }
  }

  /** Sorting keeps the points consistent with the map, and keeps the set of points. */
  lemma SortKeepsPoints(s: State, points: seq<Point>, sorted: seq<TouchPoint>)
    requires DistinctFingers(points) && SortResult(s, points, sorted)
    ensures Consistent(sorted, Assign(s.ids, points)) && FingersOf(sorted) == Fingers(points)
    ensures |sorted| == |points| && forall i :: 0 <= i < |sorted| ==> sorted[i].point in points
  {
    var ids := Assign(s.ids, points);
    var mapped := Mapped(ids, points);
    MappedConsistent(ids, points);
    PermutationStaysConsistent(mapped, sorted, ids);
    PermutationSameFingers(mapped, sorted);
    PermutationOfMapped(ids, points, sorted);
  }

  /** In a sorted list without unknown states the pressed points are exactly the leading ones and
      the released points exactly those stripped at the back. */
  lemma SortedSplits(pts: seq<TouchPoint>)
    requires SortedByState(pts) && forall i :: 0 <= i < |pts| ==> pts[i].point.state != Unknown
    ensures forall i :: 0 <= i < |pts| ==> (pts[i].point.state == Pressed <==> i < PressPrefix(pts))
    ensures forall i :: 0 <= i < |pts| ==> (pts[i].point.state == Released <==> i >= |StripReleased(pts)|)
  {
    PressedLead(pts, PressPrefix(pts));
    ReleasedTrail(pts, StripReleased(pts));
  }

  lemma PressedLead(pts: seq<TouchPoint>, k: nat)
    requires SortedByState(pts) && forall i :: 0 <= i < |pts| ==> pts[i].point.state != Unknown
    requires k <= |pts| && (forall i :: 0 <= i < k ==> pts[i].point.state == Pressed)
    requires k < |pts| ==> pts[k].point.state != Pressed
    ensures forall i :: 0 <= i < |pts| ==> (pts[i].point.state == Pressed <==> i < k)
  {
    forall i | k < i < |pts| ensures pts[i].point.state != Pressed {
      assert pts[k].point.state.Rank() <= pts[i].point.state.Rank();
    }
  }

  lemma ReleasedTrail(pts: seq<TouchPoint>, rest: seq<TouchPoint>)
    requires SortedByState(pts) && rest <= pts && (rest != [] ==> rest[|rest| - 1].point.state != Released)
    requires forall i :: |rest| <= i < |pts| ==> pts[i].point.state == Released
    ensures forall i :: 0 <= i < |pts| ==> (pts[i].point.state == Released <==> i >= |rest|)
  {
    var n := |rest|;
    forall i | 0 <= i < n - 1 ensures pts[i].point.state != Released {
      assert pts[i].point.state.Rank() <= pts[n - 1].point.state.Rank();
    }
  }

  lemma FingerCount(points: seq<Point>)
    ensures |Fingers(points)| <= |points|
  {
    if points != [] {
      var n := |points| - 1;
      FingerCount(points[..n]);
      assert Fingers(points) <= Fingers(points[..n]) + {points[n].id} by {
        forall i | 0 <= i < |points| ensures points[i].id in Fingers(points[..n]) + {points[n].id} {
          if i < n { assert points[..n][i] == points[i]; }
        }
      }
      SubsetSize(Fingers(points), Fingers(points[..n]) + {points[n].id});
    }
  }

  /** The id map after an event that is not a cancel. */
  lemma MapAfterEvent(s: State, fingers: set<int>, kind: EventType, points: seq<Point>, bound: nat)
    requires Inv(s, fingers, bound) && bound <= BITS && WellFormed(fingers, kind, points, bound)
    requires points != []
    ensures var ids := Assign(s.ids, points);
            Injective(ids) && Below(ids, bound) && ids.Keys == Fingers(points)
  {
    FingerCount(points);
    AllFingers(fingers, kind, points, bound);
    AssignKeepsBound(s.ids, points, bound);
  }

  /** An event that is not a bare cancel speaks of every finger. */
  lemma AllFingers(fingers: set<int>, kind: EventType, points: seq<Point>, bound: nat)
    requires WellFormed(fingers, kind, points, bound) && points != []
    ensures fingers + Fingers(points) == Fingers(points)
  {
    if kind == TouchBegin { assert fingers == {}; }
  }

  /** The points from `k` on, when they are exactly those of the fingers already known. */
  lemma OldPoints(pts: seq<TouchPoint>, k: nat, ids: map<int, nat>, before: map<int, nat>)
    requires k <= |pts| && Consistent(pts, ids) && Injective(ids)
    requires before.Keys <= FingersOf(pts) && forall f :: f in before ==> f in ids && before[f] == ids[f]
    requires forall i :: 0 <= i < |pts| ==> (pts[i].point.id in before <==> i >= k)
    ensures Pointers(pts[k..]) == before.Values
  {
    var old' := pts[k..];
    forall i | 0 <= i < |old'| ensures old'[i].pointer in before.Values {
      assert old'[i] == pts[k + i];
      assert before[old'[i].point.id] == old'[i].pointer;
    }
    forall v | v in before.Values ensures v in Pointers(old') {
      var f :| f in before && before[f] == v;
      assert f in FingersOf(pts);
      var i :| 0 <= i < |pts| && pts[i].point.id == f;
      assert old'[i - k] == pts[i];
    }
  }

  lemma UpdateIsReady(s: State, fingers: set<int>, points: seq<Point>, sorted: seq<TouchPoint>)
    requires fingers == s.ids.Keys && fingers != {} && Injective(Assign(s.ids, points))
    requires Consistent(sorted, Assign(s.ids, points)) && SortedByState(sorted)
    requires fingers <= FingersOf(sorted)
    requires forall i :: 0 <= i < |sorted| ==> sorted[i].point.state != Unknown
    requires forall i :: 0 <= i < |sorted| ==> (sorted[i].point.state == Pressed <==> sorted[i].point.id !in fingers)
    ensures ReadyFor(TouchUpdate, sorted, s.ids.Values)
  {
    SortedSplits(sorted);
    ConsistentPointers(sorted, Assign(s.ids, points));
    OldPoints(sorted, PressPrefix(sorted), Assign(s.ids, points), s.ids);
    var f :| f in fingers;
    assert f in FingersOf(sorted);
  }

  lemma BeginIsReady(sorted: seq<TouchPoint>, ids: map<int, nat>)
    requires Consistent(sorted, ids) && Injective(ids) && SortedByState(sorted) && sorted != []
    requires forall i :: 0 <= i < |sorted| ==> sorted[i].point.state == Pressed
    ensures ReadyFor(TouchBegin, sorted, {})
  {
    SortedSplits(sorted);
    ConsistentPointers(sorted, ids);
  }

  lemma EndIsReady(sorted: seq<TouchPoint>, ids: map<int, nat>)
    requires Consistent(sorted, ids) && Injective(ids) && FingersOf(sorted) == ids.Keys
    ensures ReadyFor(TouchEnd, sorted, ids.Values)
  {
    ConsistentPointers(sorted, ids);
  }

  lemma EventIsReady(s: State, fingers: set<int>, kind: EventType, points: seq<Point>,
                     sorted: seq<TouchPoint>, bound: nat)
    requires Inv(s, fingers, bound) && bound <= BITS && WellFormed(fingers, kind, points, bound)
    requires SortResult(s, points, sorted) && kind != TouchCancel
    ensures ReadyFor(kind, sorted, s.ids.Values)
  {
    MapAfterEvent(s, fingers, kind, points, bound);
    SortKeepsPoints(s, points, sorted);
    if kind == TouchBegin {
      assert s.ids == map[] && s.ids.Values == {};
      BeginIsReady(sorted, Assign(s.ids, points));
    } else if kind == TouchUpdate {
      UpdateIsReady(s, fingers, points, sorted);
    } else {
      NothingNew(s.ids, points);
      EndIsReady(sorted, s.ids);
    }
  }

  lemma {:induction false} NothingNew(ids: map<int, nat>, points: seq<Point>)
    requires Fingers(points) <= ids.Keys
    ensures Assign(ids, points) == ids
    decreases |points|
  {
    if points != [] {
      FirstFinger(points);
      NothingNew(ids, points[1..]);
    }
  }

  lemma ReleasedOf(pts: seq<TouchPoint>, points: seq<Point>, i: nat)
    requires i < |pts| && pts[i].point in points && DistinctFingers(points)
    ensures pts[i].point.id in ReleasedFingers(points) <==> pts[i].point.state == Released
  {
    var a :| 0 <= a < |points| && points[a] == pts[i].point;
    if pts[i].point.id in ReleasedFingers(points) {
      var b :| 0 <= b < |points| && points[b].state == Released && points[b].id == pts[i].point.id;
      assert a == b;
    }
  }

  lemma StripConsistent(pts: seq<TouchPoint>, ids: map<int, nat>, points: seq<Point>)
    requires SortedByState(pts) && Consistent(pts, ids)
    requires forall i :: 0 <= i < |pts| ==> pts[i].point.state != Unknown
    requires FingersOf(pts) == ids.Keys && DistinctFingers(points)
    requires forall i :: 0 <= i < |pts| ==> pts[i].point in points
    ensures var left := ids - ReleasedFingers(points);
            Consistent(StripReleased(pts), left) && FingersOf(StripReleased(pts)) == left.Keys
  {
    SortedSplits(pts);
    forall i | 0 <= i < |pts| ensures pts[i].point.id in ReleasedFingers(points) <==> i >= |StripReleased(pts)| {
      ReleasedOf(pts, points, i);
    }
    PrefixConsistent(pts, StripReleased(pts), ids, ReleasedFingers(points));
  }

  /** The leading points, when the others are exactly those of the fingers taken out of the map. */
  lemma PrefixConsistent(pts: seq<TouchPoint>, rest: seq<TouchPoint>, ids: map<int, nat>, gone: set<int>)
    requires Consistent(pts, ids) && FingersOf(pts) == ids.Keys && rest <= pts
    requires forall i :: 0 <= i < |pts| ==> (pts[i].point.id in gone <==> i >= |rest|)
    ensures Consistent(rest, ids - gone) && FingersOf(rest) == (ids - gone).Keys
  {
    forall i | 0 <= i < |rest| ensures rest[i].point.id in ids && rest[i].point.id !in gone {
      assert rest[i] == pts[i];
    }
    forall f | f in ids && f !in gone ensures f in FingersOf(rest) {
      assert f in FingersOf(pts);
      var i :| 0 <= i < |pts| && pts[i].point.id == f;
      assert rest[i] == pts[i];
    }
  }

  lemma EveryoneReleased(points: seq<Point>)
    requires forall i :: 0 <= i < |points| ==> points[i].state == Released
    ensures ReleasedFingers(points) == Fingers(points)
  {
  }

  lemma StepAccepted(s: State, fingers: set<int>, kind: EventType, points: seq<Point>,
                     sorted: seq<TouchPoint>, bound: nat)
    requires Inv(s, fingers, bound) && bound <= BITS && WellFormed(fingers, kind, points, bound)
    requires SortResult(s, points, sorted) && kind != TouchCancel
    ensures var left := Assign(s.ids, points) - ReleasedFingers(points);
            && Consistent(StripReleased(sorted), left) && FingersOf(StripReleased(sorted)) == left.Keys
            && Injective(left) && Below(left, bound)
            && left.Keys == Fingers(points) - ReleasedFingers(points)
            && ReceiveAll(s.ids.Values, Sent(s, kind, sorted)) == Some(left.Values)
  {
    SortKeepsPoints(s, points, sorted);
    MapAfterEvent(s, fingers, kind, points, bound);
    EventIsReady(s, fingers, kind, points, sorted, bound);
    EmittedAccepted(kind, sorted, s.ids.Values);
    StripConsistent(sorted, Assign(s.ids, points), points);
    ConsistentPointers(StripReleased(sorted), Assign(s.ids, points) - ReleasedFingers(points));
  }

  /** One well-formed event keeps the invariant, and its motion events take the receiver from the
      pointers of the old map to those of the new one. */
  lemma EventAccepted(s: State, fingers: set<int>, kind: EventType, points: seq<Point>,
                      sorted: seq<TouchPoint>, bound: nat)
    requires Inv(s, fingers, bound) && bound <= BITS && WellFormed(fingers, kind, points, bound)
    requires SortResult(s, points, sorted)
    ensures var s' := After(s, kind, points, sorted);
            && Inv(s', FingersAfter(kind, points), bound)
            && ReceiveAll(s.ids.Values, Sent(s, kind, sorted)) == Some(s'.ids.Values)
  {
    if kind == TouchCancel {
      CancelAccepted(s, fingers, points, sorted, bound);
      InitialInv(bound);
    } else {
      StepAccepted(s, fingers, kind, points, sorted, bound);
      if kind == TouchEnd {
        EveryoneReleased(points);
        assert After(s, kind, points, sorted) == INITIAL;
        InitialInv(bound);
      }
    }
  }

  lemma InitialInv(bound: nat)
    ensures Inv(INITIAL, {}, bound) && INITIAL.ids.Values == {}
  {
    assert FingersOf([]) == {};
  }

  lemma CancelledPoints(s: State, fingers: set<int>, points: seq<Point>, sorted: seq<TouchPoint>, bound: nat)
    requires Inv(s, fingers, bound) && WellFormed(fingers, TouchCancel, points, bound)
    requires SortResult(s, points, sorted)
    ensures Assign(s.ids, points) == s.ids
    ensures var tp := Cancelled(s, sorted); Consistent(tp, s.ids) && FingersOf(tp) == fingers
  {
    NothingNew(s.ids, points);
    if points == [] {
      NoPointsSorted(s, sorted);
    } else {
      SortKeepsPoints(s, points, sorted);
      PointsStay(points, sorted);
    }
  }

  lemma PointsStay(points: seq<Point>, sorted: seq<TouchPoint>)
    requires points != [] && |sorted| == |points|
    ensures sorted != []
  {
  }

  lemma NoPointsSorted(s: State, sorted: seq<TouchPoint>)
    requires SortResult(s, [], sorted)
    ensures sorted == []
  {
    PermutationSameElements(MappedPoints(s, []), sorted);
  }

  /** A cancel ends the sequence for the receiver and forgets every finger. */
  lemma CancelAccepted(s: State, fingers: set<int>, points: seq<Point>, sorted: seq<TouchPoint>, bound: nat)
    requires Inv(s, fingers, bound) && WellFormed(fingers, TouchCancel, points, bound)
    requires SortResult(s, points, sorted)
    ensures After(s, TouchCancel, points, sorted) == INITIAL
    ensures ReceiveAll(s.ids.Values, Sent(s, TouchCancel, sorted)) == Some({})
  {
    CancelledPoints(s, fingers, points, sorted, bound);
    CancelEmpties(s, Cancelled(s, sorted));
    assert After(s, TouchCancel, points, sorted).ids == map[];
  }

  lemma CancelEmpties(s: State, tp: seq<TouchPoint>)
    requires Consistent(tp, s.ids) && FingersOf(tp) == s.ids.Keys && Injective(s.ids)
    requires s.ids != map[] ==> s.motionStarted
    ensures var out := if tp != [] && s.motionStarted then [MotionEvent(tp, CANCEL, -1)] else [];
            ReceiveAll(s.ids.Values, out) == Some({})
  {
    ConsistentPointers(tp, s.ids);
    if tp == [] {
      assert FingersOf(tp) == {};
      assert s.ids == map[] && s.ids.Values == {};
    } else {
      assert tp[0].point.id in FingersOf(tp);
      var me := MotionEvent(tp, CANCEL, -1);
      assert Receive(s.ids.Values, me) == Some({});
      assert [me][1..] == [];
    }
  }

  // ---- runs ----

  datatype Input = Input(kind: EventType, points: seq<Point>, ghost sorted: seq<TouchPoint>)

  ghost predicate ValidRun(s: State, fingers: set<int>, inputs: seq<Input>, bound: nat)
    decreases |inputs|
  {
    inputs == []
    || (var e := inputs[0];
        && WellFormed(fingers, e.kind, e.points, bound)
        && SortResult(s, e.points, e.sorted)
        && ValidRun(After(s, e.kind, e.points, e.sorted), FingersAfter(e.kind, e.points), inputs[1..], bound))
  }

  ghost function FinalState(s: State, inputs: seq<Input>): State
    decreases |inputs|
  {
    if inputs == [] then s
    else FinalState(After(s, inputs[0].kind, inputs[0].points, inputs[0].sorted), inputs[1..])
  }

  ghost function FinalFingers(fingers: set<int>, inputs: seq<Input>): set<int> {
    if inputs == [] then fingers
    else FingersAfter(inputs[|inputs| - 1].kind, inputs[|inputs| - 1].points)
  }

  ghost function Stream(s: State, inputs: seq<Input>): seq<MotionEvent>
    decreases |inputs|
  {
    if inputs == [] then []
    else
      var e := inputs[0];
      Sent(s, e.kind, e.sorted) + Stream(After(s, e.kind, e.points, e.sorted), inputs[1..])
  }

  lemma {:induction false} RunKeepsInv(s: State, fingers: set<int>, inputs: seq<Input>, bound: nat)
    requires Inv(s, fingers, bound) && bound <= BITS && ValidRun(s, fingers, inputs, bound)
    ensures Inv(FinalState(s, inputs), FinalFingers(fingers, inputs), bound)
    decreases |inputs|
  {
    if inputs != [] {
      var e := inputs[0];
      EventAccepted(s, fingers, e.kind, e.points, e.sorted, bound);
      RunKeepsInv(After(s, e.kind, e.points, e.sorted), FingersAfter(e.kind, e.points), inputs[1..], bound);
      FinalFingersLater(fingers, inputs);
    }
  }

  lemma FinalFingersLater(fingers: set<int>, inputs: seq<Input>)
    requires inputs != []
    ensures FinalFingers(fingers, inputs)
         == FinalFingers(FingersAfter(inputs[0].kind, inputs[0].points), inputs[1..])
  {
  }

  lemma {:induction false} RunAcceptedFrom(s: State, fingers: set<int>, inputs: seq<Input>, bound: nat)
    requires Inv(s, fingers, bound) && bound <= BITS && ValidRun(s, fingers, inputs, bound)
    ensures ReceiveAll(s.ids.Values, Stream(s, inputs)) == Some(FinalState(s, inputs).ids.Values)
    decreases |inputs|
  {
    if inputs != [] {
      var e, rest := inputs[0], inputs[1..];
      var next := After(s, e.kind, e.points, e.sorted);
      EventAccepted(s, fingers, e.kind, e.points, e.sorted, bound);
      RunAcceptedFrom(next, FingersAfter(e.kind, e.points), rest, bound);
      ReceiveAppend(s.ids.Values, Sent(s, e.kind, e.sorted), Stream(next, rest));
    }
  }

  /** For every run of touch events that follows Qt's rules, whatever std::sort does with equal
      states: the receiver accepts the whole stream, the pointers it ends with are the mapped ids of
      the fingers on the screen, these ids are distinct, and with at most `bound` fingers at once
      they are all below `bound`. */
  lemma RunAccepted(inputs: seq<Input>, bound: nat)
    requires bound <= BITS && ValidRun(INITIAL, {}, inputs, bound)
    ensures var end := FinalState(INITIAL, inputs);
            && ReceiveAll({}, Stream(INITIAL, inputs)) == Some(end.ids.Values)
            && end.ids.Keys == FinalFingers({}, inputs)
            && Injective(end.ids) && Below(end.ids, bound)
  {
    assert INITIAL.ids.Values == {} && FingersOf([]) == {};
    RunKeepsInv(INITIAL, {}, inputs, bound);
    RunAcceptedFrom(INITIAL, {}, inputs, bound);
  }

  /** The finger is mapped now and after every event of the run. */
  ghost predicate StaysMapped(s: State, inputs: seq<Input>, finger: int)
    decreases |inputs|
  {
    && finger in s.ids
    && (inputs == [] ||
        StaysMapped(After(s, inputs[0].kind, inputs[0].points, inputs[0].sorted), inputs[1..], finger))
  }

  /** A finger keeps one id from its press to its release: over every run in which it stays mapped, whatever
      else comes and goes. */
  lemma {:induction false} FingerKeepsId(s: State, inputs: seq<Input>, finger: int)
    requires StaysMapped(s, inputs, finger)
    ensures finger in FinalState(s, inputs).ids && FinalState(s, inputs).ids[finger] == s.ids[finger]
    decreases |inputs|
  {
    if inputs != [] {
      var e := inputs[0];
      EventKeepsId(s, e.kind, e.points, e.sorted, finger);
      FingerKeepsId(After(s, e.kind, e.points, e.sorted), inputs[1..], finger);
    }
  }

  lemma EventKeepsId(s: State, kind: EventType, points: seq<Point>, sorted: seq<TouchPoint>, finger: int)
    requires finger in s.ids && finger in After(s, kind, points, sorted).ids
    ensures After(s, kind, points, sorted).ids[finger] == s.ids[finger]
  {
  }
}
