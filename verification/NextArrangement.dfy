/** A step of std::next_permutation yields the least arrangement that is greater, or the first one
    (ISO C++ [alg.permutation.generators]; used by src/core/profile_adapter.cpp:85-90). */
module NextArrangement {
  import opened NextPermutation

  // ---- the order of arrangements ----

  ghost predicate Equivalent<T>(less: (T, T) -> bool, x: T, y: T) {
    !less(x, y) && !less(y, x)
  }

  /** The lists agree, as far as the comparison can tell, before position `k`, where `a` has the lesser element. */
  ghost predicate PrecedesAt<T>(less: (T, T) -> bool, a: seq<T>, b: seq<T>, k: nat) {
    && |a| == |b| && k < |a| && less(a[k], b[k])
    && forall i :: 0 <= i < k ==> Equivalent(less, a[i], b[i])
  }

  /** The lexicographical order of lists of one length. */
  ghost predicate Precedes<T>(less: (T, T) -> bool, a: seq<T>, b: seq<T>) {
    exists k: nat :: PrecedesAt(less, a, b, k)
  }

  /** No arrangement lies between the two. */
  ghost predicate NoneBetween<T(!new)>(less: (T, T) -> bool, a: seq<T>, b: seq<T>) {
    forall t :: multiset(t) == multiset(a) && Precedes(less, a, t) ==> !Precedes(less, t, b)
  }

  // ---- counting what a rest holds ----

  function Count<T>(p: T -> bool, s: seq<T>): nat {
    if s == [] then 0 else Count(p, s[..|s| - 1]) + if p(s[|s| - 1]) then 1 else 0
  }

  lemma CountLast<T>(p: T -> bool, s: seq<T>, x: T)
    ensures Count(p, s + [x]) == Count(p, s) + if p(x) then 1 else 0
  {
    assert (s + [x])[..|s|] == s;
  }

  lemma {:induction false} CountAppend<T>(p: T -> bool, a: seq<T>, b: seq<T>)
    ensures Count(p, a + b) == Count(p, a) + Count(p, b)
    decreases |b|
  {
    if b == [] {
      assert a + b == a;
    } else {
      var n := |b| - 1;
      assert a + b == (a + b[..n]) + [b[n]];
      CountLast(p, a + b[..n], b[n]);
      CountAppend(p, a, b[..n]);
    }
  }

  /** The list without the element at `i`. */
  function TakeOut<T>(s: seq<T>, i: nat): seq<T>
    requires i < |s|
  {
    s[..i] + s[i + 1..]
  }

  lemma TakenOut<T>(s: seq<T>, i: nat)
    requires i < |s|
    ensures multiset(TakeOut(s, i)) == multiset(s) - multiset{s[i]} && |TakeOut(s, i)| == |s| - 1
  {
    assert s == s[..i] + ([s[i]] + s[i + 1..]);
  }

  lemma CountBetween<T>(p: T -> bool, a: seq<T>, x: T, b: seq<T>)
    ensures Count(p, (a + [x]) + b) == Count(p, a + b) + if p(x) then 1 else 0
  {
    CountAppend(p, a + [x], b);
    CountLast(p, a, x);
    CountAppend(p, a, b);
  }

  lemma SplitAt<T>(s: seq<T>, i: nat)
    requires i < |s|
    ensures (s[..i] + [s[i]]) + s[i + 1..] == s
  {
  }

  lemma CountTakenOut<T>(p: T -> bool, s: seq<T>, i: nat)
    requires i < |s|
    ensures Count(p, s) == Count(p, TakeOut(s, i)) + if p(s[i]) then 1 else 0
  {
    CountBetween(p, s[..i], s[i], s[i + 1..]);
    SplitAt(s, i);
  }

  lemma {:induction false} CountPermuted<T>(p: T -> bool, a: seq<T>, b: seq<T>)
    requires multiset(a) == multiset(b)
    ensures Count(p, a) == Count(p, b)
    decreases |a|
  {
    SameElements(a, b);
    if a != [] {
      assert a[0] in b;
      var i :| 0 <= i < |b| && b[i] == a[0];
      TakenOut(a, 0);
      TakenOut(b, i);
      CountPermuted(p, TakeOut(a, 0), TakeOut(b, i));
      CountTakenOut(p, a, 0);
      CountTakenOut(p, b, i);
    }
  }

  lemma {:induction false} CountAgrees<T>(p: T -> bool, a: seq<T>, b: seq<T>)
    requires |a| == |b| && forall i :: 0 <= i < |a| ==> p(a[i]) == p(b[i])
    ensures Count(p, a) == Count(p, b)
    decreases |a|
  {
    if a != [] { CountAgrees(p, a[..|a| - 1], b[..|b| - 1]); }
  }

  lemma {:induction false} CountNone<T>(p: T -> bool, s: seq<T>)
    ensures Count(p, s) == 0 <==> forall i :: 0 <= i < |s| ==> !p(s[i])
    decreases |s|
  {
    if s != [] { CountNone(p, s[..|s| - 1]); }
  }

  lemma CountBehind<T>(p: T -> bool, s: seq<T>, t: seq<T>, k: nat)
    requires multiset(s) == multiset(t) && k <= |t| == |s|
    requires forall i :: 0 <= i < k ==> p(s[i]) == p(t[i])
    ensures Count(p, s[k..]) == Count(p, t[k..])
  {
    assert s == s[..k] + s[k..] && t == t[..k] + t[k..];
    CountPermuted(p, s, t);
    CountAppend(p, s[..k], s[k..]);
    CountAppend(p, t[..k], t[k..]);
    CountAgrees(p, s[..k], t[..k]);
  }

  /** What one arrangement has at `k`, another that agrees before `k` has there or later. */
  lemma HeldLater<T>(p: T -> bool, s: seq<T>, t: seq<T>, k: nat) returns (l: nat)
    requires multiset(s) == multiset(t) && k < |t| && |s| == |t| && p(t[k])
    requires forall i :: 0 <= i < k ==> p(s[i]) == p(t[i])
    ensures k <= l < |s| && p(s[l])
  {
    var a, b := s[k..], t[k..];
    CountBehind(p, s, t, k);
    CountNone(p, b);
    CountNone(p, a);
    assert p(b[0]);
    var j :| 0 <= j < |a| && p(a[j]);
    l := k + j;
  }

  lemma EquivalentAlike<T(!new)>(less: (T, T) -> bool, x: T, y: T, e: T)
    requires WeakOrder(less) && Equivalent(less, x, y)
    ensures less(e, x) == less(e, y) && less(x, e) == less(y, e)
  {
    Between(less, e, y, x);
    Between(less, e, x, y);
    Between(less, x, y, e);
    Between(less, y, x, e);
  }

  // ---- the arrangement a step yields ----

  /** From position `m` on no element is less than one before it. */
  ghost predicate AscendingFrom<T>(less: (T, T) -> bool, s: seq<T>, m: nat) {
    forall i, j :: m <= i < j < |s| ==> !less(s[j], s[i])
  }

  /** `z` keeps what `s` has before the pivot `p`, has there the element that `s` has at `j`, the last one that
      exceeds the pivot, and ascends behind it. */
  ghost predicate StepsUp<T>(less: (T, T) -> bool, s: seq<T>, z: seq<T>, p: nat, j: nat) {
    && p < j < |s| == |z| && multiset(z) == multiset(s)
    && less(s[p], s[j]) && Descending(less, s, p + 1) && (forall k :: j < k < |s| ==> !less(s[p], s[k]))
    && (forall k :: 0 <= k < p ==> z[k] == s[k])
    && z[p] == s[j] && AscendingFrom(less, z, p + 1)
  }

  /** Nothing precedes an ascending rest. */
  lemma NothingBefore<T(!new)>(less: (T, T) -> bool, z: seq<T>, t: seq<T>, m: nat, b: nat)
    requires WeakOrder(less) && multiset(t) == multiset(z) && AscendingFrom(less, z, m)
    ensures PrecedesAt(less, t, z, b) ==> b < m
  {
    if PrecedesAt(less, t, z, b) && b >= m {
      var lesser := x => less(x, z[b]);
      forall i | 0 <= i < b ensures lesser(z[i]) == lesser(t[i]) { EquivalentAlike(less, t[i], z[i], z[b]); }
      var l := HeldLater(lesser, z, t, b);
    }
  }

  /** Nothing follows a descending one. */
  lemma NothingBehind<T(!new)>(less: (T, T) -> bool, s: seq<T>, t: seq<T>, m: nat, a: nat)
    requires WeakOrder(less) && multiset(t) == multiset(s) && Descending(less, s, m)
    ensures PrecedesAt(less, s, t, a) ==> a < m
  {
    if PrecedesAt(less, s, t, a) && a >= m {
      var greater := x => less(s[a], x);
      forall i | 0 <= i < a ensures greater(s[i]) == greater(t[i]) { EquivalentAlike(less, s[i], t[i], s[a]); }
      var l := HeldLater(greater, s, t, a);
      DescendingPairs(less, s, m, a, l);
    }
  }

  /** No element fits between the old and the new one at the pivot. */
  lemma NothingAtPivot<T(!new)>(less: (T, T) -> bool, s: seq<T>, z: seq<T>, t: seq<T>, p: nat, j: nat)
    requires WeakOrder(less) && StepsUp(less, s, z, p, j) && multiset(t) == multiset(s)
    ensures !(PrecedesAt(less, s, t, p) && PrecedesAt(less, t, z, p))
  {
    if PrecedesAt(less, s, t, p) && PrecedesAt(less, t, z, p) {
      var between := x => less(s[p], x) && less(x, s[j]);
      forall i | 0 <= i < p ensures between(s[i]) == between(t[i]) {
        EquivalentAlike(less, s[i], t[i], s[p]);
        EquivalentAlike(less, s[i], t[i], s[j]);
      }
      var l := HeldLater(between, s, t, p);
      if l > p { DescendingPairs(less, s, p + 1, l, j); }
    }
  }

  lemma UpIsLeastGreater<T(!new)>(less: (T, T) -> bool, s: seq<T>, z: seq<T>, p: nat, j: nat)
    requires WeakOrder(less) && StepsUp(less, s, z, p, j)
    ensures Precedes(less, s, z) && NoneBetween(less, s, z)
  {
    assert PrecedesAt(less, s, z, p);
    forall t | multiset(t) == multiset(s) && Precedes(less, s, t) ensures !Precedes(less, t, z) {
      var a :| PrecedesAt(less, s, t, a);
      NothingBehind(less, s, t, p + 1, a);
      NothingAtPivot(less, s, z, t, p, j);
      forall b: nat ensures !PrecedesAt(less, t, z, b) {
        NothingBefore(less, z, t, p + 1, b);
        BeforePivot(less, s, z, t, p, a, b);
      }
    }
  }

  /** Where `s` and `z` agree nothing fits between them. */
  lemma BeforePivot<T(!new)>(less: (T, T) -> bool, s: seq<T>, z: seq<T>, t: seq<T>, p: nat, a: nat, b: nat)
    requires WeakOrder(less) && p < |s| && |z| == |s| && forall k :: 0 <= k < p ==> z[k] == s[k]
    requires PrecedesAt(less, s, t, a) && a <= p
    ensures PrecedesAt(less, t, z, b) && b <= p ==> a == p && b == p
  {
  }

  // ---- the step ----

  /** Some element is less than its successor. */
  ghost predicate CanStepUp<T>(less: (T, T) -> bool, s: seq<T>) {
    exists k :: 0 <= k < |s| - 1 && less(s[k], s[k + 1])
  }

  lemma RestAscends<T(!new)>(less: (T, T) -> bool, s: seq<T>, z: seq<T>, p: nat, j: nat, a: nat, b: nat)
    requires WeakOrder(less) && p < j < |s| == |z| && p < a < b < |s|
    requires less(s[p], s[j]) && Descending(less, s, p + 1) && (forall k :: j < k < |s| ==> !less(s[p], s[k]))
    requires forall k: nat :: k < |s| ==> z[k] == s[Moved(|s|, p, j, k)]
    ensures !less(z[b], z[a])
  {
    var a', b' := |s| + p - a, |s| + p - b;
    assert z[a] == s[if a' == j then p else a'] && z[b] == s[if b' == j then p else b'];
    if a' == j {
      DescendingPairs(less, s, p + 1, b', j);
    } else if b' != j {
      DescendingPairs(less, s, p + 1, b', a');
    }
  }

  lemma NextStepsUp<T(!new)>(less: (T, T) -> bool, s: seq<T>, z: seq<T>)
    requires WeakOrder(less) && |s| > 1 && |z| == |s| && multiset(z) == multiset(s) && Decided(less, s).0 >= 0
    requires var d := Decided(less, s); forall k: nat :: k < |s| ==> z[k] == s[Moved(|s|, d.0, d.1, k)]
    ensures var d := Decided(less, s); StepsUp(less, s, z, d.0, d.1)
  {
    var p, j := Decided(less, s).0, Decided(less, s).1;
    PivotIs(less, s, |s| - 1);
    ExceedingIs(less, s, p, |s| - 1);
    forall a, b | p + 1 <= a < b < |z| ensures !less(z[b], z[a]) { RestAscends(less, s, z, p, j, a, b); }
  }

  lemma MovesAreLeastGreater<T(!new)>(less: (T, T) -> bool, s: seq<T>, z: seq<T>)
    requires WeakOrder(less) && |s| > 1 && |z| == |s| && multiset(z) == multiset(s) && Decided(less, s).0 >= 0
    requires var d := Decided(less, s); forall k: nat :: k < |s| ==> z[k] == s[Moved(|s|, d.0, d.1, k)]
    ensures Precedes(less, s, z) && NoneBetween(less, s, z)
  {
    var d := Decided(less, s);
    NextStepsUp(less, s, z);
    UpIsLeastGreater(less, s, z, d.0, d.1);
  }

  lemma PivotTells<T>(less: (T, T) -> bool, s: seq<T>)
    requires |s| > 1
    ensures Decided(less, s).0 >= 0 <==> CanStepUp(less, s)
  {
    PivotIs(less, s, |s| - 1);
  }

  /** A step yields the least arrangement that follows the list; if none does, because no element is less than
      its successor, it yields the one that ascends. */
  lemma NextIsLeastGreater<T(!new)>(less: (T, T) -> bool, s: seq<T>)
    requires WeakOrder(less)
    ensures var z := Next(less, s);
            && multiset(z) == multiset(s)
            && (if CanStepUp(less, s) then Precedes(less, s, z) && NoneBetween(less, s, z) else Ascending(less, z))
  {
    NextIsPermutation(less, s);
    if |s| > 1 {
      PivotTells(less, s);
      NextTurns(less, s);
      if CanStepUp(less, s) {
        var d := Decided(less, s);
        forall k: nat | k < |s| ensures Next(less, s)[k] == s[Moved(|s|, d.0, d.1, k)] { NextMoves(less, s, k); }
        MovesAreLeastGreater(less, s, Next(less, s));
      }
    }
  }

  /** Where a step cannot go up nothing follows the list, and nothing precedes what the step then yields. */
  lemma TurnsAtTheEnd<T(!new)>(less: (T, T) -> bool, s: seq<T>, t: seq<T>)
    requires WeakOrder(less) && !CanStepUp(less, s) && multiset(t) == multiset(s)
    ensures !Precedes(less, s, t) && !Precedes(less, t, Next(less, s))
  {
    NextIsLeastGreater(less, s);
    EndsMeet(less, s, Next(less, s), t);
  }

  lemma EndsMeet<T(!new)>(less: (T, T) -> bool, s: seq<T>, z: seq<T>, t: seq<T>)
    requires WeakOrder(less) && !CanStepUp(less, s) && Ascending(less, z)
    requires multiset(t) == multiset(s) == multiset(z)
    ensures !Precedes(less, s, t) && !Precedes(less, t, z)
  {
    forall k: nat ensures !PrecedesAt(less, s, t, k) && !PrecedesAt(less, t, z, k) {
      NothingBehind(less, s, t, 0, k);
      NothingBefore(less, z, t, 0, k);
    }
  }
}
