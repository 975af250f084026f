/** std::next_permutation with a comparison, as ISO C++ describes it ([alg.permutation.generators]), and
    two lists that it permutes in step (used by src/core/profile_adapter.cpp:85-90). */
module NextPermutation {

  function Reverse<T>(s: seq<T>): (r: seq<T>)
    ensures |r| == |s| && forall k :: 0 <= k < |s| ==> r[k] == s[|s| - 1 - k]
  {
    seq(|s|, k requires 0 <= k < |s| => s[|s| - 1 - k])
  }

  /** The last position before `i` whose element is less than its successor, or -1. */
  function Pivot<T>(less: (T, T) -> bool, s: seq<T>, i: nat): (p: int)
    requires i < |s|
    ensures -1 <= p < i
  {
    if i == 0 then -1 else if less(s[i - 1], s[i]) then i - 1 else Pivot(less, s, i - 1)
  }

  /** The last position at most `j` whose element exceeds the one at `p`; `p + 1` is one. */
  function Exceeding<T>(less: (T, T) -> bool, s: seq<T>, p: nat, j: nat): (r: nat)
    requires p < j < |s|
    ensures p < r <= j
  {
    if j == p + 1 || less(s[p], s[j]) then j else Exceeding(less, s, p, j - 1)
  }

  /** Where the element at position `k` comes from when those at `p` and `j` are exchanged and the
      rest after `p` is reversed. */
  function Source(n: nat, p: nat, j: nat, k: nat): (i: nat)
    requires k < n && p < j < n
    ensures i < n
  {
    if k < p then k
    else if k == p then j
    else if n + p - k == j then p
    else n + p - k
  }

  function Rearrange<T>(s: seq<T>, p: nat, j: nat): (r: seq<T>)
    requires p < j < |s|
    ensures |r| == |s|
    ensures forall k :: 0 <= k < |s| ==> r[k] == s[Source(|s|, p, j, k)]
  {
    var t := s[p := s[j]][j := s[p]];
    t[..p + 1] + Reverse(t[p + 1..])
  }

  function Next<T>(less: (T, T) -> bool, s: seq<T>): (r: seq<T>)
    ensures |r| == |s|
  {
    if |s| <= 1 then s
    else
      var p := Pivot(less, s, |s| - 1);
      if p == -1 then Reverse(s) else Rearrange(s, p, Exceeding(less, s, p, |s| - 1))
  }

  // ---- a step permutes ----

  lemma {:induction false} ReverseMultiset<T>(s: seq<T>)
    ensures multiset(Reverse(s)) == multiset(s)
    decreases |s|
  {
    if s == [] {
      assert Reverse(s) == [];
    } else {
      var n := |s| - 1;
      assert Reverse(s) == [s[n]] + Reverse(s[..n]);
      assert s == s[..n] + [s[n]];
      ReverseMultiset(s[..n]);
    }
  }

  lemma RearrangeIsPermutation<T>(s: seq<T>, p: nat, j: nat)
    requires p < j < |s|
    ensures multiset(Rearrange(s, p, j)) == multiset(s)
  {
    var t := s[p := s[j]][j := s[p]];
    assert multiset(t) == multiset(s);
    ReverseMultiset(t[p + 1..]);
    assert t == t[..p + 1] + t[p + 1..];
  }

  lemma NextIsPermutation<T>(less: (T, T) -> bool, s: seq<T>)
    ensures multiset(Next(less, s)) == multiset(s)
  {
    if |s| > 1 {
      var p := Pivot(less, s, |s| - 1);
      if p == -1 { ReverseMultiset(s); } else { RearrangeIsPermutation(s, p, Exceeding(less, s, p, |s| - 1)); }
    }
  }

  lemma SameElements<T>(a: seq<T>, b: seq<T>)
    requires multiset(a) == multiset(b)
    ensures |a| == |b| && forall x :: x in a <==> x in b
  {
    assert |multiset(a)| == |a| && |multiset(b)| == |b|;
    forall x ensures x in a <==> x in b {
      assert x in multiset(a) <==> x in multiset(b);
    }
  }

  // ---- a step depends only on the order relation ----

  /** Where the element at position `k` comes from, given the pivot and the element exchanged with it. */
  function Moved(n: nat, p: int, j: nat, k: nat): (i: nat)
    requires k < n && -1 <= p && (p >= 0 ==> p < j < n)
    ensures i < n
  {
    if p == -1 then n - 1 - k else Source(n, p, j, k)
  }

  /** The step the comparison decides on: the pivot and the element exchanged with it. */
  function Decided<T>(less: (T, T) -> bool, s: seq<T>): (r: (int, nat))
    requires |s| > 1
    ensures -1 <= r.0 && (r.0 >= 0 ==> r.0 < r.1 < |s|)
  {
    var p := Pivot(less, s, |s| - 1);
    (p, if p == -1 then 0 else Exceeding(less, s, p, |s| - 1))
  }

  lemma NextMoves<T>(less: (T, T) -> bool, s: seq<T>, k: nat)
    requires k < |s| && |s| > 1
    ensures var d := Decided(less, s);
            Next(less, s)[k] == s[Moved(|s|, d.0, d.1, k)]
  {
  }

  ghost predicate SameOrder<T>(less: (T, T) -> bool, a: seq<T>, b: seq<T>) {
    && |a| == |b|
    && forall i, j :: 0 <= i < |a| && 0 <= j < |a| ==> (less(a[i], a[j]) <==> less(b[i], b[j]))
  }

  lemma {:induction false} SamePivot<T>(less: (T, T) -> bool, a: seq<T>, b: seq<T>, i: nat)
    requires SameOrder(less, a, b) && i < |a|
    ensures Pivot(less, a, i) == Pivot(less, b, i)
  {
    if i > 0 { SamePivot(less, a, b, i - 1); }
  }

  lemma {:induction false} SameExceeding<T>(less: (T, T) -> bool, a: seq<T>, b: seq<T>, p: nat, j: nat)
    requires SameOrder(less, a, b) && p < j < |a|
    ensures Exceeding(less, a, p, j) == Exceeding(less, b, p, j)
  {
    if j > p + 1 { SameExceeding(less, a, b, p, j - 1); }
  }

  lemma SameDecision<T>(less: (T, T) -> bool, a: seq<T>, b: seq<T>)
    requires SameOrder(less, a, b) && |a| > 1
    ensures Decided(less, a) == Decided(less, b)
  {
    SamePivot(less, a, b, |a| - 1);
    var p := Pivot(less, a, |a| - 1);
    if p >= 0 { SameExceeding(less, a, b, p, |a| - 1); }
  }

  /** Each element of `a` is what `f` makes of the one in `b`. */
  ghost predicate Images<T>(f: T -> T, a: seq<T>, b: seq<T>) {
    |a| == |b| && forall k :: 0 <= k < |a| ==> a[k] == f(b[k])
  }

  /** Both lists have their elements from the same positions. */
  ghost predicate MoveAlike<T>(a: seq<T>, b: seq<T>, a': seq<T>, b': seq<T>, from: seq<nat>) {
    && |a| == |b| == |a'| == |b'| == |from|
    && forall k :: 0 <= k < |from| ==> from[k] < |a| && a'[k] == a[from[k]] && b'[k] == b[from[k]]
  }

  /** On lists with the same order relation a step moves the same positions. */
  lemma NextMovesAlike<T>(less: (T, T) -> bool, a: seq<T>, b: seq<T>) returns (from: seq<nat>)
    requires SameOrder(less, a, b) && |a| > 1
    ensures MoveAlike(a, b, Next(less, a), Next(less, b), from)
  {
    var n, d := |a|, Decided(less, a);
    SameDecision(less, a, b);
    from := seq(n, k requires 0 <= k < n => Moved(n, d.0, d.1, k));
    forall k | 0 <= k < n
      ensures Next(less, a)[k] == a[from[k]] && Next(less, b)[k] == b[from[k]]
    {
      NextMoves(less, a, k);
      NextMoves(less, b, k);
    }
  }

  lemma MoveAlikeKeepsOrder<T>(less: (T, T) -> bool, a: seq<T>, b: seq<T>, a': seq<T>, b': seq<T>, from: seq<nat>)
    requires SameOrder(less, a, b) && MoveAlike(a, b, a', b', from)
    ensures SameOrder(less, a', b')
  {
    forall k, l | 0 <= k < |a'| && 0 <= l < |a'| ensures less(a'[k], a'[l]) <==> less(b'[k], b'[l]) {
      assert less(a[from[k]], a[from[l]]) <==> less(b[from[k]], b[from[l]]);
    }
  }

  lemma NextKeepsOrder<T>(less: (T, T) -> bool, a: seq<T>, b: seq<T>)
    requires SameOrder(less, a, b)
    ensures SameOrder(less, Next(less, a), Next(less, b))
  {
    if |a| > 1 {
      var from := NextMovesAlike(less, a, b);
      MoveAlikeKeepsOrder(less, a, b, Next(less, a), Next(less, b), from);
    }
  }

  lemma NextKeepsImages<T>(less: (T, T) -> bool, f: T -> T, a: seq<T>, b: seq<T>)
    requires SameOrder(less, a, b) && Images(f, a, b)
    ensures Images(f, Next(less, a), Next(less, b))
  {
    if |a| > 1 {
      var from := NextMovesAlike(less, a, b);
      MoveAlikeKeepsImages(f, a, b, Next(less, a), Next(less, b), from);
    }
  }

  lemma MoveAlikeKeepsImages<T>(f: T -> T, a: seq<T>, b: seq<T>, a': seq<T>, b': seq<T>, from: seq<nat>)
    requires Images(f, a, b) && MoveAlike(a, b, a', b', from)
    ensures Images(f, a', b')
  {
  }

  // ---- what a step looks at ----

  ghost predicate WeakOrder<T(!new)>(less: (T, T) -> bool) {
    && (forall x :: !less(x, x))
    && (forall x, y, z :: less(x, y) && less(y, z) ==> less(x, z))
    && (forall x, y, z :: less(x, z) ==> less(x, y) || less(y, z))
  }

  /** From position `m` on no element is less than its successor. */
  ghost predicate Descending<T>(less: (T, T) -> bool, s: seq<T>, m: nat) {
    forall k :: m <= k < |s| - 1 ==> !less(s[k], s[k + 1])
  }

  lemma {:induction false} DescendingPairs<T(!new)>(less: (T, T) -> bool, s: seq<T>, m: nat, i: nat, j: nat)
    requires WeakOrder(less) && Descending(less, s, m) && m <= i <= j < |s|
    ensures !less(s[i], s[j])
    decreases j
  {
    if i < j {
      DescendingPairs(less, s, m, i, j - 1);
      Between(less, s[i], s[j - 1], s[j]);
    }
  }

  lemma Between<T(!new)>(less: (T, T) -> bool, x: T, y: T, z: T)
    requires WeakOrder(less)
    ensures less(x, z) ==> less(x, y) || less(y, z)
  {
  }

  lemma {:induction false} PivotIs<T>(less: (T, T) -> bool, s: seq<T>, i: nat)
    requires i < |s|
    ensures var p := Pivot(less, s, i);
            && (forall k :: p < k < i ==> !less(s[k], s[k + 1]))
            && (p >= 0 ==> less(s[p], s[p + 1]))
  {
    if i > 0 && !less(s[i - 1], s[i]) { PivotIs(less, s, i - 1); }
  }

  lemma {:induction false} ExceedingIs<T>(less: (T, T) -> bool, s: seq<T>, p: nat, j: nat)
    requires p < j < |s| && less(s[p], s[p + 1])
    ensures var r := Exceeding(less, s, p, j);
            less(s[p], s[r]) && forall k :: r < k <= j ==> !less(s[p], s[k])
  {
    if j > p + 1 && !less(s[p], s[j]) { ExceedingIs(less, s, p, j - 1); }
  }

  /** Before a descending rest the decision tells how the element at `i` compares with every later
      one. */
  lemma DecisionTellsOrder<T(!new)>(less: (T, T) -> bool, s: seq<T>, i: nat, l: nat)
    requires WeakOrder(less) && i < l < |s| && Descending(less, s, i + 1)
    ensures var d := Decided(less, s);
            d.0 <= i && (less(s[i], s[l]) <==> d.0 == i && l <= d.1)
  {
    var d := Decided(less, s);
    PivotIs(less, s, |s| - 1);
    if d.0 < i {
      DescendingPairs(less, s, i + 1, i + 1, l);
      Between(less, s[i], s[i + 1], s[l]);
    } else {
      ExceedingIs(less, s, i, |s| - 1);
      if l <= d.1 {
        DescendingPairs(less, s, i + 1, l, d.1);
        Between(less, s[i], s[l], s[d.1]);
      }
    }
  }

  /** With three elements or more the moves give away the decision. */
  lemma MovesTellDecision(n: nat, d: (int, nat), e: (int, nat))
    requires n >= 3 && -1 <= d.0 && -1 <= e.0 && (d.0 >= 0 ==> d.0 < d.1 < n) && (e.0 >= 0 ==> e.0 < e.1 < n)
    requires forall k: nat :: k < n ==> Moved(n, d.0, d.1, k) == Moved(n, e.0, e.1, k)
    ensures d.0 == e.0 && (d.0 >= 0 ==> d.1 == e.1)
  {
    assert Moved(n, d.0, d.1, 0) == Moved(n, e.0, e.1, 0) && Moved(n, d.0, d.1, 1) == Moved(n, e.0, e.1, 1);
    if d.0 >= 0 { assert Moved(n, d.0, d.1, d.0) == Moved(n, e.0, e.1, d.0); }
    if e.0 >= 0 { assert Moved(n, d.0, d.1, e.0) == Moved(n, e.0, e.1, e.0); }
  }

  // ---- one step on an arrangement ----

  /** A step at pivot `m` leaves what is before it and puts a greater element there. */
  ghost predicate ClimbsAt<T>(less: (T, T) -> bool, s: seq<T>, z: seq<T>, m: nat) {
    m + 1 < |s| && Descending(less, s, m + 1) && less(s[m], s[m + 1]) ==>
      |z| == |s| && z[..m] == s[..m] && less(s[m], z[m])
  }

  lemma NextClimbs<T>(less: (T, T) -> bool, s: seq<T>, m: nat)
    ensures ClimbsAt(less, s, Next(less, s), m)
  {
    if |s| > 1 {
      var d := Decided(less, s);
      forall k: nat | k < |s| ensures Next(less, s)[k] == s[Moved(|s|, d.0, d.1, k)] {
        NextMoves(less, s, k);
      }
      MovesClimb(less, s, Next(less, s), m, d.0, d.1);
    }
  }

  lemma MovesClimb<T>(less: (T, T) -> bool, s: seq<T>, z: seq<T>, m: nat, p: int, j: nat)
    requires |s| > 1 && (p, j) == Decided(less, s) && |z| == |s|
    requires forall k: nat :: k < |s| ==> z[k] == s[Moved(|s|, p, j, k)]
    ensures ClimbsAt(less, s, z, m)
  {
    if m + 1 < |s| && Descending(less, s, m + 1) && less(s[m], s[m + 1]) {
      PivotIs(less, s, |s| - 1);
      ExceedingIs(less, s, m, |s| - 1);
      assert p == m;
      assert z[m] == s[j];
      SamePrefix(z, s, m);
    }
  }

  lemma SamePrefix<T>(a: seq<T>, b: seq<T>, m: nat)
    requires m <= |a| == |b| && forall k :: 0 <= k < m ==> a[k] == b[k]
    ensures a[..m] == b[..m]
  {
  }

  /** No element is less than one before it. */
  ghost predicate Ascending<T>(less: (T, T) -> bool, s: seq<T>) {
    forall i, j :: 0 <= i < j < |s| ==> !less(s[j], s[i])
  }

  /** A step without pivot turns a descending list round. */
  ghost predicate TurnsAt<T>(less: (T, T) -> bool, s: seq<T>, z: seq<T>) {
    |s| > 1 && Decided(less, s).0 == -1 ==> Ascending(less, z)
  }

  lemma NextTurns<T(!new)>(less: (T, T) -> bool, s: seq<T>)
    requires WeakOrder(less)
    ensures TurnsAt(less, s, Next(less, s))
  {
    var r, n := Next(less, s), |s|;
    if n > 1 && Decided(less, s).0 == -1 {
      PivotIs(less, s, n - 1);
      forall i, j | 0 <= i < j < n ensures !less(r[j], r[i]) {
        DescendingPairs(less, s, 0, n - 1 - j, n - 1 - i);
      }
    }
  }

  /** No two positions hold elements with the same image. */
  ghost predicate Distinct<T>(f: T -> T, s: seq<T>) {
    forall i, j :: 0 <= i < |s| && 0 <= j < |s| && f(s[i]) == f(s[j]) ==> i == j
  }

  /** If the images still match after a step, the step was the same on both lists. */
  ghost predicate TellsAt<T>(less: (T, T) -> bool, f: T -> T, a: seq<T>, b: seq<T>, a': seq<T>, b': seq<T>) {
    |b| >= 3 && Distinct(f, b) && Images(f, a, b) && Images(f, a', b') ==>
      && Decided(less, a).0 == Decided(less, b).0
      && (Decided(less, a).0 >= 0 ==> Decided(less, a).1 == Decided(less, b).1)
  }

  lemma NextTells<T>(less: (T, T) -> bool, f: T -> T, a: seq<T>, b: seq<T>)
    ensures TellsAt(less, f, a, b, Next(less, a), Next(less, b))
  {
    if |b| >= 3 && Distinct(f, b) && Images(f, a, b) && Images(f, Next(less, a), Next(less, b)) {
      var n, d, e := |b|, Decided(less, a), Decided(less, b);
      forall k: nat | k < n ensures Moved(n, d.0, d.1, k) == Moved(n, e.0, e.1, k) {
        NextMoves(less, a, k);
        NextMoves(less, b, k);
      }
      MovesTellDecision(n, d, e);
    }
  }

  /** A step exchanges the elements of a list of two, whatever their order. */
  lemma TwoExchange<T>(less: (T, T) -> bool, s: seq<T>)
    requires |s| < 3
    ensures Next(less, s) == if |s| == 2 then [s[1], s[0]] else s
  {
  }

  // ---- any number of steps ----

  function Iterate<T>(step: T -> T, x: T, n: nat): T
    decreases n
  {
    if n == 0 then x else Iterate(step, step(x), n - 1)
  }

  lemma {:induction false} IterateAdd<T>(step: T -> T, x: T, a: nat, b: nat)
    ensures Iterate(step, x, a + b) == Iterate(step, Iterate(step, x, a), b)
    decreases a
  {
    if a > 0 { IterateAdd(step, step(x), a - 1, b); }
  }

  lemma IterateOnce<T>(step: T -> T, x: T)
    ensures Iterate(step, x, 1) == step(x)
  {
    assert Iterate(step, step(x), 0) == step(x);
  }

  /** What every step keeps, any number of steps keeps. */
  lemma {:induction false} IterateKeeps<T(!new)>(step: T -> T, x: T, y: T, n: nat, related: (T, T) -> bool)
    requires related(x, y) && forall a, b :: related(a, b) ==> related(step(a), step(b))
    ensures related(Iterate(step, x, n), Iterate(step, y, n))
    decreases n
  {
    if n > 0 { IterateKeeps(step, step(x), step(y), n - 1, related); }
  }

  ghost predicate Permuting<T(!new)>(step: seq<T> -> seq<T>) {
    forall s :: multiset(step(s)) == multiset(s)
  }

  lemma {:induction false} IteratePermutes<T(!new)>(step: seq<T> -> seq<T>, s: seq<T>, n: nat)
    requires Permuting(step)
    ensures multiset(Iterate(step, s, n)) == multiset(s) && |Iterate(step, s, n)| == |s|
    decreases n
  {
    if n > 0 {
      IteratePermutes(step, step(s), n - 1);
    }
    assert |multiset(Iterate(step, s, n))| == |Iterate(step, s, n)| && |multiset(s)| == |s|;
  }

  // ---- the climb ----

  ghost predicate Climbing<T(!new)>(less: (T, T) -> bool, step: seq<T> -> seq<T>) {
    Permuting(step) && forall s, m: nat {:trigger ClimbsAt(less, s, step(s), m)} :: ClimbsAt(less, s, step(s), m)
  }

  /** The elements that exceed `e`. */
  ghost function Above<T(!new)>(less: (T, T) -> bool, s: seq<T>, e: T): set<T> {
    set z | z in s && less(e, z)
  }

  lemma AboveShrinks<T(!new)>(less: (T, T) -> bool, s: seq<T>, z: seq<T>, e: T, e': T)
    requires WeakOrder(less) && multiset(s) == multiset(z) && less(e, e') && e' in s
    ensures Above(less, z, e') < Above(less, s, e)
  {
    SameElements(s, z);
    assert e' in Above(less, s, e) && e' !in Above(less, z, e');
  }

  lemma PrefixOfPrefix<T>(a: seq<T>, b: seq<T>, m: nat)
    requires m < |a| == |b| && a[..m + 1] == b[..m + 1]
    ensures a[..m] == b[..m] && a[m] == b[m]
  {
    assert a[..m] == a[..m + 1][..m] && b[..m] == b[..m + 1][..m];
    assert a[m] == a[..m + 1][m] && b[m] == b[..m + 1][m];
  }

  /** `z` is a rearrangement of `s` that keeps what is before `m` and descends from there. */
  ghost predicate Climbed<T>(less: (T, T) -> bool, s: seq<T>, z: seq<T>, m: nat) {
    multiset(z) == multiset(s) && |z| == |s| && m <= |s| && z[..m] == s[..m] && Descending(less, z, m)
  }

  /** Some number of steps has the rest from `m` on descending and leaves what is before it. */
  lemma {:induction false} Climb<T(!new)>(less: (T, T) -> bool, step: seq<T> -> seq<T>, s: seq<T>, m: nat)
    returns (t: nat)
    requires WeakOrder(less) && Climbing(less, step) && m < |s|
    ensures Climbed(less, s, Iterate(step, s, t), m)
    decreases |s| - m, Above(less, s, s[m])
  {
    if m == |s| - 1 { return 0; }
    t := Climb(less, step, s, m + 1);
    var y := Iterate(step, s, t);
    PrefixOfPrefix(y, s, m);
    if less(y[m], y[m + 1]) {
      var z := step(y);
      assert ClimbsAt(less, y, z, m);
      SameElements(s, y);
      SameElements(y, z);
      assert z[m] in z;
      AboveShrinks(less, s, z, s[m], z[m]);
      var t' := Climb(less, step, z, m);
      OneMore(step, s, t, t');
      t := t + (1 + t');
    }
  }

  lemma OneMore<T>(step: T -> T, x: T, a: nat, b: nat)
    ensures Iterate(step, x, a + (1 + b)) == Iterate(step, step(Iterate(step, x, a)), b)
  {
    IterateAdd(step, x, a, 1 + b);
  }

  // ---- two lists permuted in step ----

  /** The elements of `a` stay the images of those of `b`, after every number of steps. */
  ghost predicate InStep<T>(step: seq<T> -> seq<T>, f: T -> T, a: seq<T>, b: seq<T>) {
    forall n: nat :: Images(f, Iterate(step, a, n), Iterate(step, b, n))
  }

  lemma InStepLater<T>(step: seq<T> -> seq<T>, f: T -> T, a: seq<T>, b: seq<T>, t: nat)
    requires InStep(step, f, a, b)
    ensures InStep(step, f, Iterate(step, a, t), Iterate(step, b, t))
  {
    var a', b' := Iterate(step, a, t), Iterate(step, b, t);
    forall n: nat ensures Images(f, Iterate(step, a', n), Iterate(step, b', n)) {
      IterateAdd(step, a, t, n);
      IterateAdd(step, b, t, n);
      assert Images(f, Iterate(step, a, t + n), Iterate(step, b, t + n));
    }
  }

  lemma InStepNow<T>(step: seq<T> -> seq<T>, f: T -> T, a: seq<T>, b: seq<T>)
    requires InStep(step, f, a, b)
    ensures Images(f, a, b) && Images(f, step(a), step(b))
  {
    assert Images(f, Iterate(step, a, 0), Iterate(step, b, 0));
    assert Images(f, Iterate(step, a, 1), Iterate(step, b, 1));
    IterateOnce(step, a);
    IterateOnce(step, b);
  }

  lemma CountTwo<T>(s: seq<T>, i: nat, j: nat)
    requires i < j < |s| && s[i] == s[j]
    ensures multiset(s)[s[i]] >= 2
  {
    var head, tail := s[..j], s[j..];
    assert s == head + tail && head[i] == s[i] && tail[0] == s[j];
    assert s[i] in head && s[j] in tail;
  }

  lemma {:induction false} CountOne<T>(f: T -> T, s: seq<T>, x: T)
    requires Distinct(f, s)
    ensures multiset(s)[x] <= 1
    decreases |s|
  {
    if s != [] {
      var n := |s| - 1;
      var head, last := s[..n], s[n];
      assert s == head + [last];
      assert forall i :: 0 <= i < n ==> head[i] == s[i];
      CountOne(f, head, x);
      if x == last {
        forall i | 0 <= i < n ensures head[i] != x {
          assert f(s[i]) == f(s[n]) ==> i == n;
        }
        assert x !in multiset(head);
      }
    }
  }

  lemma PermutationStaysDistinct<T>(f: T -> T, a: seq<T>, b: seq<T>)
    requires multiset(a) == multiset(b) && Distinct(f, a)
    ensures Distinct(f, b)
  {
    SameElements(a, b);
    forall i, j | 0 <= i < |b| && 0 <= j < |b| && f(b[i]) == f(b[j]) ensures i == j {
      assert b[i] in a && b[j] in a;
      var k :| 0 <= k < |a| && a[k] == b[i];
      var l :| 0 <= l < |a| && a[l] == b[j];
      CountOne(f, a, b[i]);
      if i < j { CountTwo(b, i, j); }
      if j < i { CountTwo(b, j, i); }
    }
  }

  ghost predicate Telling<T(!new)>(less: (T, T) -> bool, f: T -> T, step: seq<T> -> seq<T>) {
    forall a, b {:trigger TellsAt(less, f, a, b, step(a), step(b))} :: TellsAt(less, f, a, b, step(a), step(b))
  }

  /** Everything the proof needs to know of a step. */
  ghost predicate Steps<T(!new)>(less: (T, T) -> bool, f: T -> T, step: seq<T> -> seq<T>) {
    && WeakOrder(less) && Climbing(less, step) && Telling(less, f, step)
    && forall s {:trigger TurnsAt(less, s, step(s))} :: TurnsAt(less, s, step(s))
  }

  lemma AgreeBeforeDescending<T(!new)>(less: (T, T) -> bool, f: T -> T, step: seq<T> -> seq<T>, a: seq<T>, b: seq<T>,
                                       i: nat, l: nat)
    requires Steps(less, f, step) && InStep(step, f, a, b) && |b| >= 3 && Distinct(f, b)
    requires i < l < |b| && Descending(less, b, i + 1)
    ensures less(f(b[i]), f(b[l])) <==> less(b[i], b[l])
  {
    InStepNow(step, f, a, b);
    assert TellsAt(less, f, a, b, step(a), step(b));
    DecisionTellsOrder(less, b, i, l);
    PivotIs(less, a, |a| - 1);
    DecisionTellsOrder(less, a, i, l);
  }

  lemma RestElement<T>(s: seq<T>, y: seq<T>, m: nat, l: nat) returns (k: nat)
    requires multiset(s) == multiset(y) && |s| == |y| && m <= l < |s| && s[..m] == y[..m]
    ensures m <= k < |y| && y[k] == s[l]
  {
    var head, rest, rest' := s[..m], s[m..], y[m..];
    assert s == head + rest && y == head + rest';
    var x := s[l];
    assert multiset(s)[x] == multiset(head)[x] + multiset(rest)[x];
    assert multiset(y)[x] == multiset(head)[x] + multiset(rest')[x];
    assert rest[l - m] == x;
    assert x in multiset(rest) && x in multiset(rest');
    var j :| 0 <= j < |rest'| && rest'[j] == x;
    k := m + j;
  }

  lemma AgreeWithLater<T(!new)>(less: (T, T) -> bool, f: T -> T, step: seq<T> -> seq<T>, a: seq<T>, b: seq<T>,
                                i: nat, l: nat)
    requires Steps(less, f, step) && InStep(step, f, a, b) && |b| >= 3 && Distinct(f, b) && i < l < |b|
    ensures less(f(b[i]), f(b[l])) <==> less(b[i], b[l])
  {
    var t := Climb(less, step, b, i + 1);
    var x, y := Iterate(step, a, t), Iterate(step, b, t);
    StaysInStep(step, f, a, b, t);
    var k := RestElement(b, y, i + 1, l);
    PrefixOfPrefix(y, b, i);
    AgreeBeforeDescending(less, f, step, x, y, i, k);
  }

  lemma BothTurn<T(!new)>(less: (T, T) -> bool, f: T -> T, step: seq<T> -> seq<T>, a: seq<T>, b: seq<T>)
    requires Steps(less, f, step) && InStep(step, f, a, b) && |b| >= 3 && Distinct(f, b) && Descending(less, b, 0)
    ensures Ascending(less, step(a)) && Ascending(less, step(b))
  {
    InStepNow(step, f, a, b);
    assert TellsAt(less, f, a, b, step(a), step(b));
    PivotIs(less, b, |b| - 1);
    assert TurnsAt(less, a, step(a)) && TurnsAt(less, b, step(b));
  }

  /** Lists in step come to an arrangement in which both ascend. */
  lemma BothAscend<T(!new)>(less: (T, T) -> bool, f: T -> T, step: seq<T> -> seq<T>, a: seq<T>, b: seq<T>)
    returns (t: nat)
    requires Steps(less, f, step) && InStep(step, f, a, b) && |b| >= 3 && Distinct(f, b)
    ensures Ascending(less, Iterate(step, a, t)) && Ascending(less, Iterate(step, b, t))
  {
    var u := Climb(less, step, b, 0);
    StaysInStep(step, f, a, b, u);
    BothTurn(less, f, step, Iterate(step, a, u), Iterate(step, b, u));
    t := u + 1;
    AfterStep(step, a, u);
    AfterStep(step, b, u);
  }

  lemma StaysInStep<T(!new)>(step: seq<T> -> seq<T>, f: T -> T, a: seq<T>, b: seq<T>, n: nat)
    requires Permuting(step) && InStep(step, f, a, b) && Distinct(f, b)
    ensures InStep(step, f, Iterate(step, a, n), Iterate(step, b, n))
    ensures Distinct(f, Iterate(step, b, n)) && |Iterate(step, b, n)| == |b|
  {
    InStepLater(step, f, a, b, n);
    IteratePermutes(step, b, n);
    PermutationStaysDistinct(f, b, Iterate(step, b, n));
  }

  lemma AfterStep<T>(step: T -> T, x: T, n: nat)
    ensures Iterate(step, x, n + 1) == step(Iterate(step, x, n))
  {
    IterateAdd(step, x, n, 1);
    IterateOnce(step, Iterate(step, x, n));
  }

  lemma AllAgree<T(!new)>(less: (T, T) -> bool, f: T -> T, step: seq<T> -> seq<T>, a: seq<T>, b: seq<T>, i: nat, j: nat)
    requires Steps(less, f, step) && InStep(step, f, a, b) && |b| >= 3 && Distinct(f, b)
    requires Ascending(less, a) && Ascending(less, b) && i < |b| && j < |b|
    ensures less(f(b[i]), f(b[j])) <==> less(b[i], b[j])
  {
    InStepNow(step, f, a, b);
    if i < j { AgreeWithLater(less, f, step, a, b, i, j); }
  }

  lemma InStepSameOrder<T(!new)>(less: (T, T) -> bool, f: T -> T, step: seq<T> -> seq<T>, a: seq<T>, b: seq<T>)
    requires Steps(less, f, step) && InStep(step, f, a, b) && |b| >= 3 && Distinct(f, b)
    ensures SameOrder(less, a, b)
  {
    var t := BothAscend(less, f, step, a, b);
    var x, y := Iterate(step, a, t), Iterate(step, b, t);
    InStepNow(step, f, a, b);
    StaysInStep(step, f, a, b, t);
    IteratePermutes(step, b, t);
    SameElements(b, y);
    forall i, j | 0 <= i < |b| && 0 <= j < |b| ensures less(a[i], a[j]) <==> less(b[i], b[j]) {
      assert b[i] in y && b[j] in y;
      var k :| 0 <= k < |y| && y[k] == b[i];
      var l :| 0 <= l < |y| && y[l] == b[j];
      AllAgree(less, f, step, x, y, k, l);
    }
  }

  // ---- the theorem ----

  /** std::next_permutation with this comparison. */
  function Stepper<T>(less: (T, T) -> bool): seq<T> -> seq<T> {
    s => Next(less, s)
  }

  lemma NextSteps<T(!new)>(less: (T, T) -> bool, f: T -> T)
    requires WeakOrder(less)
    ensures Steps(less, f, Stepper(less))
  {
    var step := Stepper(less);
    forall s ensures multiset(step(s)) == multiset(s) { NextIsPermutation(less, s); }
    forall s, m: nat ensures ClimbsAt(less, s, step(s), m) { NextClimbs(less, s, m); }
    forall s ensures TurnsAt(less, s, step(s)) { NextTurns(less, s); }
    forall a, b ensures TellsAt(less, f, a, b, step(a), step(b)) { NextTells(less, f, a, b); }
  }

  lemma SameOrderInStep<T(!new)>(less: (T, T) -> bool, f: T -> T, a: seq<T>, b: seq<T>, n: nat)
    requires SameOrder(less, a, b) && Images(f, a, b)
    ensures Images(f, Iterate(Stepper(less), a, n), Iterate(Stepper(less), b, n))
  {
    var step := Stepper(less);
    var related := (x, y) => SameOrder(less, x, y) && Images(f, x, y);
    forall x, y | related(x, y) ensures related(step(x), step(y)) {
      NextKeepsOrder(less, x, y);
      NextKeepsImages(less, f, x, y);
    }
    IterateKeeps(step, a, b, n, related);
    assert related(Iterate(step, a, n), Iterate(step, b, n));
  }

  lemma FewInStep<T(!new)>(less: (T, T) -> bool, f: T -> T, a: seq<T>, b: seq<T>, n: nat)
    requires Images(f, a, b) && |b| < 3
    ensures Images(f, Iterate(Stepper(less), a, n), Iterate(Stepper(less), b, n))
  {
    var step := Stepper(less);
    var related := (x, y) => |y| < 3 && Images(f, x, y);
    forall x, y | related(x, y) ensures related(step(x), step(y)) {
      TwoExchange(less, x);
      TwoExchange(less, y);
    }
    IterateKeeps(step, a, b, n, related);
    assert related(Iterate(step, a, n), Iterate(step, b, n));
  }

  /** Two lists stay in step for ever exactly if there are fewer than three elements or every two
      elements of one compare as their images do in the other. */
  lemma InStepExactlyWhen<T(!new)>(less: (T, T) -> bool, f: T -> T, a: seq<T>, b: seq<T>)
    requires WeakOrder(less) && Images(f, a, b) && Distinct(f, b)
    ensures InStep(Stepper(less), f, a, b) <==> |b| < 3 || SameOrder(less, a, b)
  {
    var step := Stepper(less);
    if |b| < 3 {
      forall n: nat ensures Images(f, Iterate(step, a, n), Iterate(step, b, n)) { FewInStep(less, f, a, b, n); }
    } else if SameOrder(less, a, b) {
      forall n: nat ensures Images(f, Iterate(step, a, n), Iterate(step, b, n)) { SameOrderInStep(less, f, a, b, n); }
    } else if InStep(step, f, a, b) {
      NextSteps(less, f);
      InStepSameOrder(less, f, step, a, b);
    }
  }
}
