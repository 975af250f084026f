/** The allocation of small pointer ids to Qt's touch point ids
    (src/core/render_widget_host_view_qt_delegate_client.cpp:33-67). */
module TouchIds {

  /** The width of `ui::BitSet32`. */
  const BITS: nat := 32

  /** `QEventPoint::State`; `Rank` is the numeric value the comparison of line 587 uses. */
  datatype PointState = Unknown | Pressed | Updated | Stationary | Released {
    function Rank(): nat {
      match this
      case Unknown => 0
      case Pressed => 1
      case Updated => 2
      case Stationary => 4
      case Released => 8
    }
  }

  /** A Qt touch point: the finger's id and what happened to it. */
  datatype Point = Point(id: int, state: PointState)

  /** A touch point together with the id Chromium knows the finger by. */
  datatype TouchPoint = TouchPoint(pointer: nat, point: Point)

  type IdMap = map<int, nat>

  ghost predicate Injective(ids: IdMap) {
    forall a, b :: a in ids && b in ids && ids[a] == ids[b] ==> a == b
  }

  function Fingers(points: seq<Point>): set<int> {
    set i | 0 <= i < |points| :: points[i].id
  }

  function ReleasedFingers(points: seq<Point>): set<int> {
    set i | 0 <= i < |points| && points[i].state == Released :: points[i].id
  }

  ghost predicate DistinctFingers(points: seq<Point>) {
    forall i, j :: 0 <= i < j < |points| ==> points[i].id != points[j].id
  }

  /** The lowest clear bit at or above `from`, or BITS when there is none. */
  function FirstUnmarked(used: set<nat>, from: nat): (n: nat)
    requires from <= BITS
    ensures from <= n <= BITS
    ensures n < BITS ==> n !in used
    ensures forall k :: from <= k < n ==> k in used
    decreases BITS - from
  {
    if from == BITS || from !in used then from else FirstUnmarked(used, from + 1)
  }

  function Insert(ids: IdMap, finger: int): IdMap {
    if finger in ids then ids else ids[finger := FirstUnmarked(ids.Values, 0)]
  }

  lemma FirstFinger(input: seq<Point>)
    requires input != []
    ensures Fingers(input) == {input[0].id} + Fingers(input[1..])
  {
    var tail := input[1..];
    forall i | 0 <= i < |input| ensures input[i].id in {input[0].id} + Fingers(tail) {
      if i > 0 { assert tail[i - 1] == input[i]; }
    }
    forall i | 0 <= i < |tail| ensures tail[i].id in Fingers(input) {
      assert input[i + 1] == tail[i];
    }
  }

  /** The map after the first loop of mapTouchPointIds. */
  function Assign(ids: IdMap, points: seq<Point>): (r: IdMap)
    ensures r.Keys == ids.Keys + Fingers(points)
    ensures forall f :: f in ids ==> r[f] == ids[f]
    decreases |points|
  {
    if points == [] then ids
    else
      FirstFinger(points);
      Assign(Insert(ids, points[0].id), points[1..])
  }

  function Mapped(ids: IdMap, points: seq<Point>): (r: seq<TouchPoint>)
    requires Fingers(points) <= ids.Keys
    ensures |r| == |points|
    ensures forall i :: 0 <= i < |points| ==> r[i] == TouchPoint(ids[points[i].id], points[i])
  {
    seq(|points|, i requires 0 <= i < |points| =>
      assert points[i].id in Fingers(points); TouchPoint(ids[points[i].id], points[i]))
  }

  // ---- pigeonhole ----

  lemma {:induction false} RangeFits(n: nat, used: set<nat>)
    requires forall k :: 0 <= k < n ==> k in used
    ensures n <= |used|
  {
    if n > 0 {
      RangeFits(n - 1, used - {n - 1});
    }
  }

  lemma {:induction false} ValuesFit<K, V>(m: map<K, V>)
    ensures |m.Values| <= |m|
    decreases |m|
  {
    if m.Keys == {} {
      assert m.Values == {};
    } else {
      var k :| k in m.Keys;
      var rest := m - {k};
      assert rest.Keys == m.Keys - {k};
      ValuesFit(rest);
      assert m.Values <= rest.Values + {m[k]} by {
        forall v | v in m.Values ensures v in rest.Values + {m[k]} {
          var f :| f in m && m[f] == v;
          if f != k { assert f in rest && rest[f] == v; }
        }
      }
      SubsetSize(m.Values, rest.Values + {m[k]});
      assert |m| == |m.Keys| && |rest| == |rest.Keys|;
    }
  }

  lemma {:induction false} SubsetSize<T>(a: set<T>, b: set<T>)
    requires a <= b
    ensures |a| <= |b|
    decreases |a|
  {
    if a != {} {
      var x :| x in a;
      SubsetSize(a - {x}, b - {x});
    }
  }

  /** Every id in use is below `bound`. */
  ghost predicate Below(ids: IdMap, bound: nat) {
    forall f :: f in ids ==> ids[f] < bound
  }

  lemma InsertKeepsBound(ids: IdMap, finger: int, bound: nat)
    requires Injective(ids) && Below(ids, bound)
    requires |Insert(ids, finger)| <= bound <= BITS
    ensures Injective(Insert(ids, finger)) && Below(Insert(ids, finger), bound)
  {
    if finger !in ids {
      var n := FirstUnmarked(ids.Values, 0);
      RangeFits(n, ids.Values);
      ValuesFit(ids);
      var r := ids[finger := n];
      assert |r.Keys| == |ids.Keys| + 1 by { assert r.Keys == ids.Keys + {finger}; }
      assert n < bound;
      assert n !in ids.Values;
      assert forall f :: f in ids ==> ids[f] in ids.Values;
    }
  }

  /** A whole event keeps the ids distinct and below the number of fingers tracked at once. */
  lemma {:induction false} AssignKeepsBound(ids: IdMap, points: seq<Point>, bound: nat)
    requires Injective(ids) && Below(ids, bound)
    requires |ids.Keys + Fingers(points)| <= bound <= BITS
    ensures Injective(Assign(ids, points)) && Below(Assign(ids, points), bound)
    decreases |points|
  {
    if points != [] {
      var next, tail := Insert(ids, points[0].id), points[1..];
      FirstFinger(points);
      NextFits(ids, points[0].id, Fingers(tail), bound);
      InsertKeepsBound(ids, points[0].id, bound);
      AssignKeepsBound(next, tail, bound);
    }
  }

  lemma NextFits(ids: IdMap, finger: int, rest: set<int>, bound: nat)
    requires |ids.Keys + ({finger} + rest)| <= bound
    ensures |Insert(ids, finger)| <= bound && |Insert(ids, finger).Keys + rest| <= bound
  {
    var next := Insert(ids, finger);
    assert next.Keys + rest == ids.Keys + ({finger} + rest);
    SubsetSize(next.Keys, next.Keys + rest);
    assert |next| == |next.Keys|;
  }

  lemma {:induction false} AssignAppend(ids: IdMap, a: seq<Point>, b: seq<Point>)
    ensures Assign(ids, a + b) == Assign(Assign(ids, a), b)
    decreases |a|
  {
    if a == [] {
      assert a + b == b;
    } else {
      assert (a + b)[0] == a[0] && (a + b)[1..] == a[1..] + b;
      AssignAppend(Insert(ids, a[0].id), a[1..], b);
    }
  }

  /** Line 53: a finger not seen before gets the least id unused at its turn. */
  lemma NewFingerGetsLeastId(ids: IdMap, points: seq<Point>, i: nat)
    requires DistinctFingers(points) && i < |points| && points[i].id !in ids
    requires |ids.Keys + Fingers(points)| <= BITS
    ensures var before := Assign(ids, points[..i]);
            var id := Assign(ids, points)[points[i].id];
            id !in before.Values && forall k :: 0 <= k < id ==> k in before.Values
  {
    NotYetMapped(ids, points, i);
    LeastIdExists(Assign(ids, points[..i]), points[i].id, ids.Keys + Fingers(points));
    AssignSplit(ids, points, i);
    FirstKeepsId(Assign(ids, points[..i]), points[i..]);
  }

  lemma NotYetMapped(ids: IdMap, points: seq<Point>, i: nat)
    requires DistinctFingers(points) && i < |points| && points[i].id !in ids
    ensures points[i].id !in Assign(ids, points[..i])
    ensures Assign(ids, points[..i]).Keys + {points[i].id} <= ids.Keys + Fingers(points)
  {
    var head := points[..i];
    forall k | 0 <= k < i ensures head[k].id != points[i].id && head[k].id in Fingers(points) {
      assert head[k] == points[k];
    }
  }

  lemma AssignSplit(ids: IdMap, points: seq<Point>, i: nat)
    requires i <= |points|
    ensures Assign(ids, points) == Assign(Assign(ids, points[..i]), points[i..])
  {
    AssignAppend(ids, points[..i], points[i..]);
    assert points == points[..i] + points[i..];
  }

  lemma FirstKeepsId(ids: IdMap, points: seq<Point>)
    requires points != []
    ensures Assign(ids, points)[points[0].id] == Insert(ids, points[0].id)[points[0].id]
  {
  }

  lemma LeastIdExists(ids: IdMap, finger: int, all: set<int>)
    requires finger !in ids && ids.Keys + {finger} <= all && |all| <= BITS
    ensures FirstUnmarked(ids.Values, 0) < BITS
  {
    var n := FirstUnmarked(ids.Values, 0);
    RangeFits(n, ids.Values);
    ValuesFit(ids);
    SubsetSize(ids.Keys + {finger}, all);
    assert |ids| == |ids.Keys| == |ids.Keys + {finger}| - 1;
  }
}
