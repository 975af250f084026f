/** RenderWidgetHostViewQtDelegateClient as far as touch events change it
    (src/core/render_widget_host_view_qt_delegate_client.cpp:33-67 and 563-709). */
module TouchClient {
  import opened Wrappers
  import opened TouchIds
  import opened TouchEvents
  import opened Touch

  /** Line 53 allows a finger to be added while this many are mapped. */
  const MAX_MAPPED: nat := 16

  /** `std::sort`: any permutation sorted by state. */
  method SortByState(pts: seq<TouchPoint>) returns (sorted: seq<TouchPoint>)
    ensures multiset(sorted) == multiset(pts) && SortedByState(sorted)
  {
    if pts == [] { return []; }
    var rest := SortByState(pts[1..]);
    sorted := InsertByState(pts[0], rest);
    assert pts == [pts[0]] + pts[1..];
  }

  method InsertByState(p: TouchPoint, pts: seq<TouchPoint>) returns (r: seq<TouchPoint>)
    requires SortedByState(pts)
    ensures multiset(r) == multiset(pts) + multiset{p} && SortedByState(r)
    ensures r != [] && (r[0] == p || (pts != [] && r[0] == pts[0]))
  {
    if pts == [] || p.point.state.Rank() <= pts[0].point.state.Rank() {
      SortedCons(p, pts);
      return [p] + pts;
    }
    var head, tail := pts[0], pts[1..];
    var rest := InsertByState(p, tail);
    assert pts == [head] + tail;
    assert tail != [] ==> tail[0] == pts[1];
    SortedCons(head, rest);
    r := [head] + rest;
  }

  lemma SortedCons(p: TouchPoint, pts: seq<TouchPoint>)
    requires SortedByState(pts) && (pts != [] ==> p.point.state.Rank() <= pts[0].point.state.Rank())
    ensures SortedByState([p] + pts)
  {
    var r := [p] + pts;
    forall i, j | 0 <= i < j < |r| ensures r[i].point.state.Rank() <= r[j].point.state.Rank() {
      assert pts[0].point.state.Rank() <= pts[j - 1].point.state.Rank();
    }
  }

  class DelegateClient {
    var touchIdMapping: map<int, nat>
    var previousTouchPoints: seq<TouchPoint>
    var touchMotionStarted: bool
    /** The calls of processMotionEvent so far. */
    var sent: seq<MotionEvent>

    ghost function TouchState(): State
      reads this
    {
      State(touchIdMapping, previousTouchPoints, touchMotionStarted)
    }

    /** No bit past the width of the set is ever marked, and no two fingers share an id. */
    ghost predicate Valid()
      reads this
    {
      Injective(touchIdMapping) && Below(touchIdMapping, MAX_MAPPED + 1)
    }

    constructor ()
      ensures TouchState() == INITIAL && sent == [] && Valid()
    {
      touchIdMapping, previousTouchPoints, touchMotionStarted, sent := map[], [], false, [];
    }

    method FirstAvailableId() returns (id: nat)
      requires Below(touchIdMapping, BITS)
      ensures id == FirstUnmarked(touchIdMapping.Values, 0)
    {
      var usedIds: set<nat> := {};
      var left := touchIdMapping.Keys;
      while left != {}
        invariant left <= touchIdMapping.Keys
        invariant usedIds == set f | f in touchIdMapping.Keys - left :: touchIdMapping[f]
        decreases left
      {
        var f := Next(left);
        usedIds, left := usedIds + {touchIdMapping[f]}, left - {f};
      }
      assert usedIds == touchIdMapping.Values by {
        assert left == {} && touchIdMapping.Keys - left == touchIdMapping.Keys;
        forall v | v in touchIdMapping.Values ensures v in usedIds {
          var f := KeyOf(touchIdMapping, v);
          assert f in touchIdMapping.Keys - left;
        }
      }
      id := FirstUnmarked(usedIds, 0);
    }

    /** At most 17 fingers are tracked at once, which is what the assertion of line 52 tolerates. */
    method MapTouchPointIds(input: seq<Point>) returns (output: seq<TouchPoint>)
      requires Valid() && DistinctFingers(input)
      requires |touchIdMapping.Keys + Fingers(input)| <= MAX_MAPPED + 1
      modifies this`touchIdMapping
      ensures output == old(MappedPoints(TouchState(), input))
      ensures touchIdMapping == old(Assign(touchIdMapping, input)) - ReleasedFingers(input)
      ensures Valid()
    {
      ghost var ids := touchIdMapping;
      AssignKeepsBound(ids, input, MAX_MAPPED + 1);
      output := AssignIds(input);
      ForgetReleased(input);
    }

    /** Lines 46-57. */
    method AssignIds(input: seq<Point>) returns (output: seq<TouchPoint>)
      requires Valid() && |touchIdMapping.Keys + Fingers(input)| <= MAX_MAPPED + 1
      modifies this`touchIdMapping
      ensures touchIdMapping == old(Assign(touchIdMapping, input))
      ensures output == Mapped(touchIdMapping, input)
    {
      ghost var ids := touchIdMapping;
      output := [];
      for i := 0 to |input|
        invariant touchIdMapping == Assign(ids, input[..i])
        invariant output == Mapped(touchIdMapping, input[..i])
      {
        AssignStep(ids, input, i);
        MappedStep(touchIdMapping, input, i);
        PrefixFits(ids, input, i, MAX_MAPPED + 1);
        var id := IdOf(input[i].id);
        output := output + [TouchPoint(id, input[i])];
      }
      assert input[..|input|] == input;
    }

    /** Lines 50-54. */
    method IdOf(finger: int) returns (id: nat)
      requires Below(touchIdMapping, BITS)
      requires finger !in touchIdMapping ==> |touchIdMapping| <= MAX_MAPPED
      modifies this`touchIdMapping
      ensures touchIdMapping == old(Insert(touchIdMapping, finger)) && id == touchIdMapping[finger]
    {
      if finger !in touchIdMapping {
        assert |touchIdMapping| <= MAX_MAPPED;
        id := FirstAvailableId();
        touchIdMapping := touchIdMapping[finger := id];
      }
      id := touchIdMapping[finger];
    }

    /** Lines 62-64. */
    method ForgetReleased(input: seq<Point>)
      modifies this`touchIdMapping
      ensures touchIdMapping == old(touchIdMapping) - ReleasedFingers(input)
    {
      for i := 0 to |input|
        invariant touchIdMapping == old(touchIdMapping) - ReleasedFingers(input[..i])
      {
        ReleasedStep(input, i);
        if input[i].state == Released {
          touchIdMapping := touchIdMapping - {input[i].id};
        }
      }
      assert input[..|input|] == input;
    }

    /** Lines 594-595. */
    method ForgetFingers(touchPoints: seq<TouchPoint>)
      modifies this`touchIdMapping
      ensures touchIdMapping == old(touchIdMapping) - FingersOf(touchPoints)
    {
      for i := 0 to |touchPoints|
        invariant touchIdMapping == old(touchIdMapping) - FingersOf(touchPoints[..i])
      {
        FingersStep(touchPoints, i);
        touchIdMapping := touchIdMapping - {touchPoints[i].point.id};
      }
      assert touchPoints[..|touchPoints|] == touchPoints;
    }

    method ProcessMotionEvent(me: MotionEvent)
      modifies this`sent
      ensures sent == old(sent) + [me]
    {
      sent := sent + [me];
    }

    /** The handler. Only a cancel may come without points (line 612), and the selection controller
        does not consume the event. */
    method HandleTouchEvent(kind: EventType, points: seq<Point>)
      requires Valid() && DistinctFingers(points)
      requires points == [] ==> kind == TouchCancel
      requires |touchIdMapping.Keys + Fingers(points)| <= MAX_MAPPED + 1
      modifies this
      ensures Valid()
      ensures Handled(old(TouchState()), kind, points, TouchState(), old(sent), sent)
    {
      ghost var s := TouchState();
      var touchPoints := MapTouchPointIds(points);
      touchPoints := SortByState(touchPoints);
      SortedEmpty(s, points, touchPoints);
      HandleSorted(kind, touchPoints);
      HandledSorted(s, kind, points, touchPoints, old(sent));
    }

    /** Lines 587-709. */
    method HandleSorted(kind: EventType, sorted: seq<TouchPoint>)
      requires Valid() && (sorted == [] ==> kind == TouchCancel)
      modifies this
      ensures Valid()
      ensures TouchState() == AfterSorted(old(TouchState()), kind, sorted)
      ensures sent == old(sent) + old(Sent(TouchState(), kind, sorted))
    {
      if kind == TouchCancel {
        HandleCancel(sorted);
        return;
      }
      if kind == TouchBegin || kind == TouchUpdate {
        touchMotionStarted := true;
      }
      var touchPoints := SendAll(kind, sorted);
      if kind == TouchEnd {
        previousTouchPoints, touchMotionStarted := [], false;
      } else {
        previousTouchPoints := touchPoints;
      }
    }

    /** Lines 606-645 for a cancel, and the clean-up of lines 593-600. */
    method HandleCancel(sorted: seq<TouchPoint>)
      requires Valid()
      modifies this
      ensures Valid()
      ensures touchIdMapping == old(touchIdMapping - FingersOf(Cancelled(TouchState(), sorted)))
      ensures previousTouchPoints == [] && !touchMotionStarted
      ensures sent == old(sent) + old(Sent(TouchState(), TouchCancel, sorted))
    {
      var touchPoints := if sorted == [] then previousTouchPoints else sorted;
      if touchPoints != [] && touchMotionStarted {
        ProcessMotionEvent(MotionEvent(touchPoints, CANCEL, -1));
      }
      ForgetFingers(touchPoints);
      previousTouchPoints, touchMotionStarted := [], false;
    }

    /** Lines 667-709: from the scan of the pressed prefix to the last release. The result is what
        is left of the list. */
    method SendAll(kind: EventType, points: seq<TouchPoint>) returns (touchPoints: seq<TouchPoint>)
      requires points != [] && kind != TouchCancel
      modifies this`sent
      ensures sent == old(sent) + Emitted(kind, points)
      ensures touchPoints == StripReleased(points)
    {
      ghost var before := sent;
      SendPresses(kind, points);
      SendMove(kind, points);
      touchPoints := SendReleases(points);
      InThreeParts(before, Presses(kind, points), Moves(kind, points), Releases(points));
    }

    /** Lines 688-689. */
    method SendMove(kind: EventType, points: seq<TouchPoint>)
      modifies this`sent
      ensures sent == old(sent) + Moves(kind, points)
    {
      if (kind == TouchBegin || kind == TouchUpdate) && AnyUpdated(points) {
        ProcessMotionEvent(MotionEvent(points, MOVE, -1));
      }
    }

    /** Lines 692-703. */
    method SendReleases(points: seq<TouchPoint>) returns (touchPoints: seq<TouchPoint>)
      modifies this`sent
      ensures sent == old(sent) + Releases(points)
      ensures touchPoints == StripReleased(points)
    {
      touchPoints := points;
      while touchPoints != [] && touchPoints[|touchPoints| - 1].point.state == Released
        invariant StripReleased(touchPoints) == StripReleased(points)
        invariant sent + Releases(touchPoints) == old(sent) + Releases(points)
        decreases |touchPoints|
      {
        var n := |touchPoints| - 1;
        var endAction := if |touchPoints| > 1 then POINTER_UP else UP;
        ghost var soFar := sent;
        ProcessMotionEvent(MotionEvent(touchPoints, endAction, if endAction == POINTER_UP then n else -1));
        InTwoParts(soFar, sent[|soFar|], Releases(touchPoints[..n]));
        touchPoints := touchPoints[..n];
      }
    }

    /** Lines 667-686. */
    method SendPresses(kind: EventType, touchPoints: seq<TouchPoint>)
      requires touchPoints != [] && kind != TouchCancel
      modifies this`sent
      ensures sent == old(sent) + Presses(kind, touchPoints)
    {
      var lastPressIndex := -1;
      while lastPressIndex + 1 < |touchPoints| && touchPoints[lastPressIndex + 1].point.state == Pressed
        invariant -1 <= lastPressIndex < |touchPoints|
        invariant forall i :: 0 <= i <= lastPressIndex ==> touchPoints[i].point.state == Pressed
      {
        lastPressIndex := lastPressIndex + 1;
      }
      assert lastPressIndex + 1 == PressPrefix(touchPoints);
      if kind == TouchEnd { return; }
      if kind == TouchBegin {
        ghost var soFar := sent;
        ProcessMotionEvent(MotionEvent(Mid(touchPoints, lastPressIndex), DOWN, -1));
        lastPressIndex := lastPressIndex - 1;
        InTwoParts(soFar, sent[|soFar|], PointerDowns(touchPoints, lastPressIndex));
      }
      while lastPressIndex >= 0
        invariant -2 <= lastPressIndex < PressPrefix(touchPoints)
        invariant sent + PointerDowns(touchPoints, lastPressIndex) == old(sent) + Presses(kind, touchPoints)
        decreases lastPressIndex + 2
      {
        assert touchPoints[lastPressIndex].point.state == Pressed;
        ghost var soFar := sent;
        ProcessMotionEvent(MotionEvent(touchPoints[lastPressIndex..], POINTER_DOWN, 0));
        InTwoParts(soFar, sent[|soFar|], PointerDowns(touchPoints, lastPressIndex - 1));
        lastPressIndex := lastPressIndex - 1;
      }
    }
  }

  lemma InTwoParts<T>(a: seq<T>, x: T, b: seq<T>)
    ensures a + [x] + b == a + ([x] + b)
  {
  }

  lemma InThreeParts<T>(a: seq<T>, b: seq<T>, c: seq<T>, d: seq<T>)
    ensures a + b + c + d == a + (b + c + d)
  {
  }

  /** The whole effect of the handler, for one of the orders the sort may choose. */
  ghost predicate Handled(s: State, kind: EventType, points: seq<Point>, s': State,
                          before: seq<MotionEvent>, after: seq<MotionEvent>)
  {
    exists sorted ::
      && SortResult(s, points, sorted)
      && s' == After(s, kind, points, sorted)
      && after == before + Sent(s, kind, sorted)
  }

  lemma HandledSorted(s: State, kind: EventType, points: seq<Point>, sorted: seq<TouchPoint>, before: seq<MotionEvent>)
    requires SortResult(s, points, sorted)
    ensures var mapped := s.(ids := Assign(s.ids, points) - ReleasedFingers(points));
            Handled(s, kind, points, AfterSorted(mapped, kind, sorted), before, before + Sent(mapped, kind, sorted))
  {
  }

  /** All the points of the Qt event, in some order. */
  ghost predicate CarriesAll(me: MotionEvent, points: seq<Point>) {
    && |me.points| == |points|
    && (forall p :: p in me.points ==> p.point in points)
    && forall i, j :: 0 <= i < j < |me.points| ==> me.points[i].point.id != me.points[j].point.id
  }

  /** What the handler sends contains a move exactly if the event is a begin or an
      update and one of its points is updated; then it is one move, with all the points. */
  lemma HandledMoves(s: State, kind: EventType, points: seq<Point>, s': State, before: seq<MotionEvent>,
                     out: seq<MotionEvent>)
    requires Handled(s, kind, points, s', before, before + out) && DistinctFingers(points)
    ensures var moves := MovesIn(out);
            && |moves| <= 1
            && (moves != [] <==> kind in {TouchBegin, TouchUpdate} && exists p :: p in points && p.state == Updated)
            && (moves != [] ==> CarriesAll(moves[0], points))
  {
    var sorted :| SortResult(s, points, sorted) && before + out == before + Sent(s, kind, sorted);
    SameBehind(before, out, Sent(s, kind, sorted));
    SentMoves(s, kind, sorted);
    SortedCarriesAll(s, points, sorted);
  }

  /** What the handler sends for a cancel: one cancel with the points of the Qt event, or, if that has none, with
      those of the event before; and nothing if there are none either or no sequence has started. */
  lemma HandledCancel(s: State, points: seq<Point>, s': State, before: seq<MotionEvent>, out: seq<MotionEvent>)
    requires Handled(s, TouchCancel, points, s', before, before + out) && DistinctFingers(points)
    ensures out != [] <==> s.motionStarted && (points != [] || s.previous != [])
    ensures out != [] ==> |out| == 1 && out[0].action == CANCEL && out[0].index == -1
    ensures out != [] ==> if points != [] then CarriesAll(out[0], points) else out[0].points == s.previous
  {
    var sorted :| SortResult(s, points, sorted) && before + out == before + Sent(s, TouchCancel, sorted);
    SameBehind(before, out, Sent(s, TouchCancel, sorted));
    SortedEmpty(s, points, sorted);
    SortedCarriesAll(s, points, sorted);
  }

  lemma SentMoves(s: State, kind: EventType, sorted: seq<TouchPoint>)
    ensures MovesIn(Sent(s, kind, sorted))
         == if kind in {TouchBegin, TouchUpdate} && SomeUpdated(sorted) then [MotionEvent(sorted, MOVE, -1)] else []
  {
    if kind == TouchCancel { NoMovesIn(Sent(s, kind, sorted)); } else { MovesExactlyWhen(kind, sorted); }
  }

  lemma SameBehind<T>(a: seq<T>, b: seq<T>, c: seq<T>)
    requires a + b == a + c
    ensures b == c
  {
    assert b == (a + b)[|a|..] == (a + c)[|a|..];
  }

  lemma SortedCarriesAll(s: State, points: seq<Point>, sorted: seq<TouchPoint>)
    requires SortResult(s, points, sorted) && DistinctFingers(points)
    ensures CarriesAll(MotionEvent(sorted, MOVE, -1), points)
    ensures SomeUpdated(sorted) <==> exists p :: p in points && p.state == Updated
  {
    SortKeepsPoints(s, points, sorted);
    SortKeepsEach(s, points, sorted);
  }

  /** No point of the Qt event is lost in mapping and sorting. */
  lemma SortKeepsEach(s: State, points: seq<Point>, sorted: seq<TouchPoint>)
    requires SortResult(s, points, sorted)
    ensures forall p :: p in points <==> exists tp :: tp in sorted && tp.point == p
  {
    var mapped := MappedPoints(s, points);
    PermutationSameElements(mapped, sorted);
    forall p | p in points ensures exists tp :: tp in sorted && tp.point == p {
      var i :| 0 <= i < |points| && points[i] == p;
      assert mapped[i] in mapped && mapped[i].point == p;
    }
    forall tp | tp in sorted ensures tp.point in points {
      assert tp in mapped;
    }
  }

  lemma SortedEmpty(s: State, points: seq<Point>, sorted: seq<TouchPoint>)
    requires SortResult(s, points, sorted)
    ensures |sorted| == |points|
  {
    PermutationSameElements(MappedPoints(s, points), sorted);
  }

  /** Qt's rules meet what the handler asks for, up to 17 fingers at once. */
  lemma WellFormedIsHandled(s: State, fingers: set<int>, kind: EventType, points: seq<Point>, bound: nat)
    requires Inv(s, fingers, bound) && bound <= MAX_MAPPED + 1 && WellFormed(fingers, kind, points, bound)
    ensures Injective(s.ids) && Below(s.ids, MAX_MAPPED + 1)
    ensures DistinctFingers(points) && (points == [] ==> kind == TouchCancel)
    ensures |s.ids.Keys + Fingers(points)| <= MAX_MAPPED + 1
  {
    if points == [] {
      assert s.ids.Keys + Fingers(points) == s.ids.Keys;
      KeysFit(s.ids, bound);
    } else {
      FingerCount(points);
      assert s.ids.Keys + Fingers(points) == Fingers(points);
    }
  }

  /** Distinct ids below a bound belong to no more fingers than that. */
  lemma {:induction false} KeysFit(ids: map<int, nat>, bound: nat)
    requires Injective(ids) && Below(ids, bound)
    ensures |ids.Keys| <= bound
    decreases bound
  {
    if ids != map[] {
      var f := Pick(ids.Keys);
      assert 0 <= ids[f] < bound;
      var last := bound - 1;
      var rest := map f | f in ids && ids[f] != last :: ids[f];
      KeysFit(rest, last);
      if last in ids.Values {
        var k := KeyOf(ids, last);
        assert forall f :: f in ids ==> f in rest.Keys || f == k;
        assert ids.Keys == rest.Keys + {k};
      } else {
        assert rest.Keys == ids.Keys;
      }
    }
  }

  lemma AssignStep(ids: map<int, nat>, input: seq<Point>, i: nat)
    requires i < |input|
    ensures Assign(ids, input[..i + 1]) == Insert(Assign(ids, input[..i]), input[i].id)
  {
    assert input[..i + 1] == input[..i] + [input[i]];
    AssignAppend(ids, input[..i], [input[i]]);
    assert [input[i]][1..] == [];
  }

  lemma MappedStep(ids: map<int, nat>, input: seq<Point>, i: nat)
    requires i < |input| && Fingers(input[..i]) <= ids.Keys
    ensures var next := Insert(ids, input[i].id);
            && Fingers(input[..i + 1]) <= next.Keys
            && Mapped(next, input[..i + 1])
               == Mapped(ids, input[..i]) + [TouchPoint(next[input[i].id], input[i])]
  {
    var next, shorter, longer := Insert(ids, input[i].id), input[..i], input[..i + 1];
    forall k | 0 <= k < |longer| ensures longer[k].id in next.Keys {
      if k < i { assert shorter[k] == longer[k] && shorter[k].id in Fingers(shorter); }
    }
    forall k | 0 <= k < i ensures Mapped(next, longer)[k] == Mapped(ids, shorter)[k] {
      assert shorter[k] == longer[k] && shorter[k].id in Fingers(shorter);
    }
  }

  lemma FingersPrefix(input: seq<Point>, i: nat)
    requires i < |input|
    ensures Fingers(input[..i]) + {input[i].id} <= Fingers(input)
  {
    var head := input[..i];
    forall k | 0 <= k < i ensures head[k].id in Fingers(input) {
      assert head[k] == input[k];
    }
  }

  /** In the middle of an event the ids are in range too, and the assertion of line 52 holds. */
  lemma PrefixFits(ids: map<int, nat>, input: seq<Point>, i: nat, bound: nat)
    requires Injective(ids) && Below(ids, bound) && |ids.Keys + Fingers(input)| <= bound <= BITS
    requires i < |input|
    ensures Below(Assign(ids, input[..i]), bound)
    ensures input[i].id !in Assign(ids, input[..i]) ==> |Assign(ids, input[..i])| < bound
  {
    var all, keys := ids.Keys + Fingers(input), Assign(ids, input[..i]).Keys;
    FingersPrefix(input, i);
    SubsetSize(keys + {input[i].id}, all);
    SubsetSize(keys, all);
    AssignKeepsBound(ids, input[..i], bound);
    assert |Assign(ids, input[..i])| == |keys|;
  }

  lemma ReleasedStep(input: seq<Point>, i: nat)
    requires i < |input|
    ensures ReleasedFingers(input[..i + 1])
         == ReleasedFingers(input[..i]) + (if input[i].state == Released then {input[i].id} else {})
  {
    assert forall k :: 0 <= k < i ==> input[..i + 1][k] == input[..i][k];
    assert input[..i + 1][i] == input[i];
  }

  lemma FingersStep(pts: seq<TouchPoint>, i: nat)
    requires i < |pts|
    ensures FingersOf(pts[..i + 1]) == FingersOf(pts[..i]) + {pts[i].point.id}
  {
    assert forall k :: 0 <= k < i ==> pts[..i + 1][k] == pts[..i][k];
    assert pts[..i + 1][i] == pts[i];
  }
}
