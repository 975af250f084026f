/** How many fingers mapTouchPointIds can take
    (src/core/render_widget_host_view_qt_delegate_client.cpp:33-67). */
module TouchLimit {
  import opened Wrappers
  import opened TouchIds
  import opened TouchEvents
  import opened Touch
  import opened TouchClient

  // ---- the assertion on the size of the map ----

  /** The loop of lines 46-57: the assertion holds for every finger that is new at its turn. */
  ghost predicate AssertionHolds(ids: IdMap, input: seq<Point>)
    decreases |input|
  {
    input == []
    || ((input[0].id !in ids ==> |ids| <= MAX_MAPPED) && AssertionHolds(Insert(ids, input[0].id), input[1..]))
  }

  lemma OneMoreKey(keys: set<int>, f: int, rest: set<int>, limit: nat)
    requires f !in keys
    ensures |keys| <= limit && (rest <= keys + {f} || |keys + {f} + rest| <= limit + 1)
       <==> |keys + ({f} + rest)| <= limit + 1
  {
    assert keys + {f} + rest == keys + ({f} + rest);
    SubsetSize(keys + {f}, keys + {f} + rest);
    if rest <= keys + {f} { assert keys + {f} + rest == keys + {f}; }
  }

  lemma SameKeys(keys: set<int>, f: int, rest: set<int>)
    requires f in keys
    ensures ({f} + rest <= keys <==> rest <= keys) && keys + ({f} + rest) == keys + rest
  {
  }

  /** It holds exactly if no finger is new or at most 17 are then mapped. */
  lemma {:induction false} AssertionExactlyWhen(ids: IdMap, input: seq<Point>)
    ensures AssertionHolds(ids, input)
       <==> Fingers(input) <= ids.Keys || |ids.Keys + Fingers(input)| <= MAX_MAPPED + 1
    decreases |input|
  {
    if input != [] {
      var f, tail := input[0].id, input[1..];
      FirstFinger(input);
      AssertionExactlyWhen(Insert(ids, f), tail);
      if f in ids {
        SameKeys(ids.Keys, f, Fingers(tail));
      } else {
        InsertKeys(ids, f);
        OneMoreKey(ids.Keys, f, Fingers(tail), MAX_MAPPED);
      }
    }
  }

  lemma InsertKeys(ids: IdMap, f: int)
    ensures Insert(ids, f).Keys == ids.Keys + {f} && |ids| == |ids.Keys|
  {
  }

  // ---- seventeen fingers ----

  /** So many fingers pressed at once. */
  function Pressing(n: nat): (r: seq<Point>)
    ensures |r| == n && forall i :: 0 <= i < n ==> r[i] == Point(i, Pressed)
  {
    seq(n, i => Point(i, Pressed))
  }

  function Identity(n: nat): (r: IdMap)
    ensures |r| == n && (forall i :: i in r <==> 0 <= i < n) && forall i :: i in r ==> r[i] == i
  {
    if n == 0 then map[] else Identity(n - 1)[n - 1 := n - 1]
  }

  lemma {:induction false} PressingMaps(ids: IdMap, n: nat)
    requires n <= BITS && ids == map[]
    ensures Assign(ids, Pressing(n)) == Identity(n)
    decreases n
  {
    if n > 0 {
      PressingMaps(ids, n - 1);
      AssignOneMore(ids, Pressing(n - 1), Point(n - 1, Pressed));
      PressingOneMore(n - 1);
      NextIdentity(n - 1);
    }
  }

  lemma PressingOneMore(n: nat)
    ensures Pressing(n + 1) == Pressing(n) + [Point(n, Pressed)]
  {
  }

  lemma AssignOneMore(ids: IdMap, points: seq<Point>, p: Point)
    ensures Assign(ids, points + [p]) == Insert(Assign(ids, points), p.id)
  {
    AssignAppend(ids, points, [p]);
    AssignOne(Assign(ids, points), p);
  }

  lemma AssignOne(ids: IdMap, p: Point)
    ensures Assign(ids, [p]) == Insert(ids, p.id)
  {
    assert [p][1..] == [];
  }

  lemma NextIdentity(n: nat)
    requires n < BITS
    ensures Insert(Identity(n), n) == Identity(n + 1)
  {
    var ids := Identity(n);
    forall k: nat | k < n ensures k in ids.Values {
      assert ids[k] == k;
    }
    forall v | v in ids.Values ensures v < n {
      var f := KeyOf(ids, v);
    }
    LeastFree(ids.Values, n);
  }

  lemma LeastFree(used: set<nat>, n: nat)
    requires n < BITS && n !in used && forall k: nat :: k < n ==> k in used
    ensures FirstUnmarked(used, 0) == n
  {
    var id := FirstUnmarked(used, 0);
    assert id > n ==> n in used;
    assert id < n ==> id in used;
  }

  function PressedAtOnce(n: nat): Input {
    Input(TouchBegin, Pressing(n), MappedPoints(INITIAL, Pressing(n)))
  }

  lemma PressedIsValid(n: nat)
    requires 0 < n
    ensures ValidRun(INITIAL, {}, [PressedAtOnce(n)], n)
  {
    var e := PressedAtOnce(n);
    PressingIsSorted(n);
    assert WellFormed({}, TouchBegin, Pressing(n), n);
    OneEventIsValid(e, n);
  }

  lemma PressingIsSorted(n: nat)
    ensures SortResult(INITIAL, Pressing(n), MappedPoints(INITIAL, Pressing(n)))
  {
  }

  lemma OneEventIsValid(e: Input, bound: nat)
    requires WellFormed({}, e.kind, e.points, bound) && SortResult(INITIAL, e.points, e.sorted)
    ensures ValidRun(INITIAL, {}, [e], bound)
  {
    assert [e][1..] == [];
  }

  lemma PressedFinally(n: nat)
    requires n <= BITS
    ensures FinalState(INITIAL, [PressedAtOnce(n)]).ids == Identity(n)
  {
    PressingMaps(map[], n);
    BeginMaps(Pressing(n), PressedAtOnce(n).sorted);
    OneEvent(PressedAtOnce(n));
  }

  lemma BeginMaps(points: seq<Point>, sorted: seq<TouchPoint>)
    requires forall i :: 0 <= i < |points| ==> points[i].state == Pressed
    ensures After(INITIAL, TouchBegin, points, sorted).ids == Assign(map[], points)
  {
    assert ReleasedFingers(points) == {};
  }

  lemma OneEvent(e: Input)
    ensures FinalState(INITIAL, [e]) == After(INITIAL, e.kind, e.points, e.sorted)
  {
    var next := After(INITIAL, e.kind, e.points, e.sorted);
    assert [e][1..] == [] && FinalState(next, []) == next;
  }

  /** One event with 17 presses is allowed, the assertion holds throughout, and then 17 fingers are
      mapped and the id 16 is given out; with one more it fails. */
  lemma SeventeenFingers()
    ensures ValidRun(INITIAL, {}, [PressedAtOnce(17)], 17)
    ensures AssertionHolds(map[], Pressing(17))
    ensures var ids := FinalState(INITIAL, [PressedAtOnce(17)]).ids; |ids| == 17 && 16 in ids && ids[16] == 16
    ensures !AssertionHolds(map[], Pressing(18))
  {
    PressedIsValid(17);
    PressedFinally(17);
    PressingCount(17);
    PressingCount(18);
    AssertionExactlyWhen(map[], Pressing(17));
    AssertionExactlyWhen(map[], Pressing(18));
    SomePressed(18);
  }

  lemma SomePressed(n: nat)
    requires n > 0
    ensures 0 in Fingers(Pressing(n))
  {
    assert Pressing(n)[0].id == 0;
  }

  lemma PressingCount(n: nat)
    requires n <= BITS
    ensures var none: IdMap := map[]; |none.Keys + Fingers(Pressing(n))| == n
  {
    var none: IdMap := map[];
    PressingMaps(map[], n);
    assert none.Keys + Fingers(Pressing(n)) == Identity(n).Keys;
    assert |Identity(n)| == |Identity(n).Keys|;
  }

  // ---- the bound on ids ----

  /** In every event of the run, before the released fingers are forgotten, all ids are below `bound`. */
  ghost predicate IdsBelow(s: State, inputs: seq<Input>, bound: nat)
    decreases |inputs|
  {
    inputs == []
    || (var e := inputs[0];
        Below(Assign(s.ids, e.points), bound) && IdsBelow(After(s, e.kind, e.points, e.sorted), inputs[1..], bound))
  }

  /** In every event of the run no more than so many fingers are mapped. */
  ghost predicate AtMostMapped(s: State, inputs: seq<Input>, bound: nat)
    decreases |inputs|
  {
    inputs == []
    || (var e := inputs[0];
        |Assign(s.ids, e.points)| <= bound && AtMostMapped(After(s, e.kind, e.points, e.sorted), inputs[1..], bound))
  }

  /** Ids that fit the bit set are distinct. */
  lemma {:induction false} FittingIsInjective(ids: IdMap, points: seq<Point>)
    requires Injective(ids) && Below(Assign(ids, points), BITS)
    ensures Injective(Assign(ids, points))
    decreases |points|
  {
    if points != [] {
      var f := points[0].id;
      var next := Insert(ids, f);
      FirstKeepsId(ids, points);
      assert Assign(ids, points) == Assign(next, points[1..]);
      assert next[f] < BITS;
      assert forall g :: g in ids ==> ids[g] in ids.Values;
      assert Injective(next);
      FittingIsInjective(next, points[1..]);
    }
  }

  lemma PeakExactlyWhen(ids: IdMap, points: seq<Point>, bound: nat)
    requires Injective(ids) && Below(ids, bound) && bound <= BITS
    ensures Below(Assign(ids, points), bound) <==> |Assign(ids, points)| <= bound
    ensures Below(Assign(ids, points), bound) ==> Injective(Assign(ids, points))
  {
    var peak := Assign(ids, points);
    assert |peak| == |peak.Keys|;
    if Below(peak, bound) {
      FittingIsInjective(ids, points);
      KeysFit(peak, bound);
    }
    if |peak| <= bound {
      AssignKeepsBound(ids, points, bound);
    }
  }

  /** Over every run: no id reaches `bound` exactly if the map never holds more than `bound` fingers. So
      no id exceeds 15 exactly if it never holds more than 16. */
  lemma {:induction false} IdsBelowExactlyWhen(s: State, inputs: seq<Input>, bound: nat)
    requires Injective(s.ids) && Below(s.ids, bound) && bound <= BITS
    ensures IdsBelow(s, inputs, bound) <==> AtMostMapped(s, inputs, bound)
    decreases |inputs|
  {
    if inputs != [] {
      var e := inputs[0];
      var next := After(s, e.kind, e.points, e.sorted);
      PeakExactlyWhen(s.ids, e.points, bound);
      AfterIsSubmap(s, e.kind, e.points, e.sorted);
      if Below(Assign(s.ids, e.points), bound) {
        SubmapKeeps(Assign(s.ids, e.points), next.ids, bound);
        IdsBelowExactlyWhen(next, inputs[1..], bound);
      }
    }
  }

  ghost predicate Submap(sub: IdMap, ids: IdMap) {
    sub.Keys <= ids.Keys && forall f :: f in sub ==> sub[f] == ids[f]
  }

  lemma AfterIsSubmap(s: State, kind: EventType, points: seq<Point>, sorted: seq<TouchPoint>)
    ensures Submap(After(s, kind, points, sorted).ids, Assign(s.ids, points))
  {
  }

  lemma SubmapKeeps(ids: IdMap, sub: IdMap, bound: nat)
    requires Injective(ids) && Below(ids, bound)
    requires Submap(sub, ids)
    ensures Injective(sub) && Below(sub, bound)
  {
    assert forall f :: f in sub ==> f in ids;
  }
}
