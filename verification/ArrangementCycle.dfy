/** std::next_permutation goes through all arrangements of a list in which no two elements compare equal and comes
    back after as many steps as the factorial of its length (used by src/core/profile_adapter.cpp:76-90). */
module ArrangementCycle {
  import opened NextPermutation
  import opened NextArrangement

  function Factorial(n: nat): (f: nat)
    ensures f >= 1
  {
    if n == 0 then 1 else Factorial(n - 1) * n
  }

  /** No element occurs twice, and of any two one is less than the other. */
  ghost predicate Strict<T(!new)>(less: (T, T) -> bool, s: seq<T>) {
    && (forall x :: multiset(s)[x] <= 1)
    && forall x, y :: x in s && y in s && x != y ==> less(x, y) || less(y, x)
  }

  /** A list whose elements all compare one way or the other. */
  lemma StrictIf<T(!new)>(less: (T, T) -> bool, s: seq<T>)
    requires WeakOrder(less)
    requires forall i, j :: 0 <= i < j < |s| ==> less(s[i], s[j]) || less(s[j], s[i])
    ensures Strict(less, s)
  {
    forall x ensures multiset(s)[x] <= 1 {
      CountOne(y => y, s, x);
    }
  }

  lemma StrictPermuted<T(!new)>(less: (T, T) -> bool, s: seq<T>, z: seq<T>)
    requires Strict(less, s) && multiset(z) == multiset(s)
    ensures Strict(less, z)
  {
    SameElements(s, z);
  }

  lemma StrictPositions<T(!new)>(less: (T, T) -> bool, s: seq<T>, i: nat, j: nat)
    requires Strict(less, s) && i < j < |s|
    ensures s[i] != s[j] && (less(s[i], s[j]) || less(s[j], s[i]))
  {
    if s[i] == s[j] { CountTwo(s, i, j); }
  }

  /** An arrangement of `s` that keeps what is before `m`. */
  ghost predicate Keeps<T>(s: seq<T>, z: seq<T>, m: nat) {
    multiset(z) == multiset(s) && |z| == |s| && m <= |s| && z[..m] == s[..m]
  }

  lemma KeepsLess<T>(s: seq<T>, z: seq<T>, m: nat)
    requires Keeps(s, z, m + 1)
    ensures Keeps(s, z, m) && z[m] == s[m]
  {
    PrefixOfPrefix(z, s, m);
  }

  /** The elements from position `m` on. */
  ghost function Rest<T(!new)>(s: seq<T>, m: nat): set<T>
    requires m <= |s|
  {
    set x | x in s[m..]
  }

  lemma RestMember<T(!new)>(s: seq<T>, m: nat, x: T)
    requires m <= |s|
    ensures x in Rest(s, m) <==> exists l :: m <= l < |s| && s[l] == x
  {
    if x in Rest(s, m) {
      var j :| 0 <= j < |s[m..]| && s[m..][j] == x;
      assert s[m + j] == x;
    }
    if l :| m <= l < |s| && s[l] == x {
      assert s[m..][l - m] == x;
    }
  }

  lemma RestKept<T(!new)>(s: seq<T>, z: seq<T>, m: nat)
    requires Keeps(s, z, m)
    ensures Rest(z, m) == Rest(s, m)
  {
    forall x | x in Rest(s, m) ensures x in Rest(z, m) {
      RestMember(s, m, x);
      var l :| m <= l < |s| && s[l] == x;
      var k := RestElement(s, z, m, l);
      RestMember(z, m, x);
    }
    forall x | x in Rest(z, m) ensures x in Rest(s, m) {
      RestMember(z, m, x);
      var l :| m <= l < |z| && z[l] == x;
      var k := RestElement(z, s, m, l);
      RestMember(s, m, x);
    }
  }

  lemma {:induction false} RestSize<T(!new)>(less: (T, T) -> bool, s: seq<T>, m: nat)
    requires Strict(less, s) && m <= |s|
    ensures |Rest(s, m)| == |s| - m
    decreases |s| - m
  {
    if m == |s| {
      assert Rest(s, m) == {};
    } else {
      RestSize(less, s, m + 1);
      assert s[m..] == [s[m]] + s[m + 1..];
      assert Rest(s, m) == {s[m]} + Rest(s, m + 1);
      RestMember(s, m + 1, s[m]);
      if l :| m + 1 <= l < |s| && s[l] == s[m] { StrictPositions(less, s, m, l); }
    }
  }

  /** The later elements that exceed the one at `m`. */
  ghost function Over<T(!new)>(less: (T, T) -> bool, s: seq<T>, m: nat): set<T>
    requires m < |s|
  {
    set x | x in Rest(s, m) && less(s[m], x)
  }

  // ---- a descending rest: the next element comes to its front ----

  /** `z` has at `m` the next greater of the elements that `s` has from there on, and ascends behind it. */
  ghost predicate Raised<T(!new)>(less: (T, T) -> bool, s: seq<T>, z: seq<T>, m: nat)
    requires m < |s|
  {
    && Keeps(s, z, m) && AscendingFrom(less, z, m + 1)
    && z[m] in Over(less, s, m) && Over(less, z, m) == Over(less, s, m) - {z[m]}
    && forall x :: x in Over(less, s, m) ==> !less(x, z[m])
  }

  ghost predicate RaisesAt<T(!new)>(less: (T, T) -> bool, s: seq<T>, z: seq<T>, m: nat) {
    m < |s| && Strict(less, s) && Descending(less, s, m + 1) && Over(less, s, m) != {} ==> Raised(less, s, z, m)
  }

  lemma PivotAtDescent<T(!new)>(less: (T, T) -> bool, s: seq<T>, m: nat)
    requires WeakOrder(less) && m < |s| && Descending(less, s, m + 1) && Over(less, s, m) != {}
    ensures |s| > 1 && Decided(less, s).0 == m
  {
    var x :| x in Over(less, s, m);
    RestMember(s, m, x);
    var l :| m <= l < |s| && s[l] == x;
    DescendingPairs(less, s, m + 1, m + 1, l);
    Between(less, s[m], s[m + 1], s[l]);
    PivotIs(less, s, |s| - 1);
  }

  lemma UpRaises<T(!new)>(less: (T, T) -> bool, s: seq<T>, z: seq<T>, m: nat, j: nat)
    requires WeakOrder(less) && Strict(less, s) && StepsUp(less, s, z, m, j)
    ensures Raised(less, s, z, m)
  {
    SamePrefix(z, s, m);
    RestKept(s, z, m);
    RestMember(s, m, s[j]);
    forall x | x in Over(less, s, m) ensures !less(x, z[m]) {
      RestMember(s, m, x);
      var l :| m <= l < |s| && s[l] == x;
      DescendingPairs(less, s, m + 1, l, j);
    }
    OverShrinks(less, s, z, m);
  }

  lemma OverShrinks<T(!new)>(less: (T, T) -> bool, s: seq<T>, z: seq<T>, m: nat)
    requires WeakOrder(less) && Strict(less, s) && Keeps(s, z, m) && m < |s| && Rest(z, m) == Rest(s, m)
    requires z[m] in Over(less, s, m) && forall x :: x in Over(less, s, m) ==> !less(x, z[m])
    ensures Over(less, z, m) == Over(less, s, m) - {z[m]}
  {
    forall x | x in Over(less, s, m) && x != z[m] ensures x in Over(less, z, m) {
      assert x in s && z[m] in s;
    }
  }

  lemma NextRaises<T(!new)>(less: (T, T) -> bool, s: seq<T>, m: nat)
    requires WeakOrder(less)
    ensures RaisesAt(less, s, Next(less, s), m)
  {
    if m < |s| && Strict(less, s) && Descending(less, s, m + 1) && Over(less, s, m) != {} {
      PivotAtDescent(less, s, m);
      var d := Decided(less, s);
      NextIsPermutation(less, s);
      forall k: nat | k < |s| ensures Next(less, s)[k] == s[Moved(|s|, d.0, d.1, k)] { NextMoves(less, s, k); }
      RaisesByMoves(less, s, Next(less, s), m);
    }
  }

  lemma RaisesByMoves<T(!new)>(less: (T, T) -> bool, s: seq<T>, z: seq<T>, m: nat)
    requires WeakOrder(less) && Strict(less, s) && |s| > 1 && m < |s| == |z| && multiset(z) == multiset(s)
    requires Decided(less, s).0 == m
    requires var d := Decided(less, s); forall k: nat :: k < |s| ==> z[k] == s[Moved(|s|, d.0, d.1, k)]
    ensures Raised(less, s, z, m)
  {
    NextStepsUp(less, s, z);
    UpRaises(less, s, z, m, Decided(less, s).1);
  }

  // ---- an ascending rest: so many steps until it descends ----

  ghost predicate Raising<T(!new)>(less: (T, T) -> bool, step: seq<T> -> seq<T>) {
    forall s, m: nat {:trigger RaisesAt(less, s, step(s), m)} :: RaisesAt(less, s, step(s), m)
  }

  /** `z` descends from `m` on, and nothing before that has moved. */
  ghost predicate Descends<T>(less: (T, T) -> bool, s: seq<T>, z: seq<T>, m: nat) {
    Keeps(s, z, m) && Descending(less, z, m)
  }

  lemma RaisedFrom<T(!new)>(less: (T, T) -> bool, s: seq<T>, y: seq<T>, z: seq<T>, m: nat)
    requires m < |s| && Keeps(s, y, m + 1)
    ensures Over(less, y, m) == Over(less, s, m)
    ensures Raised(less, y, z, m) ==> Raised(less, s, z, m)
  {
    KeepsLess(s, y, m);
    RestKept(s, y, m);
  }

  /** Once the rest behind `m` has run through its arrangements the next greater element comes to `m`. */
  lemma NextHead<T(!new)>(less: (T, T) -> bool, step: seq<T> -> seq<T>, s: seq<T>, m: nat, f: nat)
    requires Raising(less, step) && Strict(less, s) && m < |s| && f >= 1 && Over(less, s, m) != {}
    requires Descends(less, s, Iterate(step, s, f - 1), m + 1)
    ensures Raised(less, s, Iterate(step, s, f), m)
  {
    var y := Iterate(step, s, f - 1);
    AfterStep(step, s, f - 1);
    StrictPermuted(less, s, y);
    assert RaisesAt(less, y, step(y), m);
    RaisedFrom(less, s, y, step(y), m);
  }

  /** If the rest from `m` on ascends, it descends after one step less than `f`. */
  ghost predicate TakesAt<T(!new)>(less: (T, T) -> bool, step: seq<T> -> seq<T>, s: seq<T>, m: nat, f: nat)
    requires f >= 1
  {
    Strict(less, s) && AscendingFrom(less, s, m) ==> Descends(less, s, Iterate(step, s, f - 1), m)
  }

  /** How long the rest behind `m` takes, whatever ascending rest it is. */
  ghost predicate Takes<T(!new)>(less: (T, T) -> bool, step: seq<T> -> seq<T>, n: nat, m: nat, f: nat) {
    f >= 1 && forall s {:trigger TakesAt(less, step, s, m, f)} :: |s| == n ==> TakesAt(less, step, s, m, f)
  }

  ghost predicate Topped<T(!new)>(less: (T, T) -> bool, s: seq<T>, z: seq<T>, m: nat) {
    m < |s| && Keeps(s, z, m) && AscendingFrom(less, z, m + 1) && Over(less, z, m) == {}
  }

  lemma ToppedFrom<T(!new)>(less: (T, T) -> bool, s: seq<T>, y: seq<T>, z: seq<T>, m: nat)
    requires m < |s| && Raised(less, s, y, m) && Topped(less, y, z, m)
    ensures Topped(less, s, z, m)
  {
  }

  lemma OneRound<T(!new)>(less: (T, T) -> bool, step: seq<T> -> seq<T>, s: seq<T>, m: nat, f: nat)
    requires Raising(less, step) && Strict(less, s) && m < |s| && AscendingFrom(less, s, m + 1)
    requires f >= 1 && TakesAt(less, step, s, m + 1, f) && Over(less, s, m) != {}
    ensures var y := Iterate(step, s, f);
            Raised(less, s, y, m) && Strict(less, y) && |Over(less, y, m)| == |Over(less, s, m)| - 1
  {
    NextHead(less, step, s, m, f);
    StrictPermuted(less, s, Iterate(step, s, f));
  }

  /** A number of rounds of `f` steps. */
  function Rounds<T>(step: T -> T, x: T, f: nat, rounds: nat): T
    decreases rounds
  {
    if rounds == 0 then x else Rounds(step, Iterate(step, x, f), f, rounds - 1)
  }

  lemma {:induction false} RoundsAreSteps<T>(step: T -> T, x: T, f: nat, rounds: nat)
    ensures Rounds(step, x, f, rounds) == Iterate(step, x, rounds * f)
    decreases rounds
  {
    if rounds > 0 {
      RoundsAreSteps(step, Iterate(step, x, f), f, rounds - 1);
      IterateAdd(step, x, f, (rounds - 1) * f);
      assert f + (rounds - 1) * f == rounds * f;
    }
  }

  /** The greatest element comes to the front of the rest after as many rounds as there are greater ones. */
  lemma {:induction false} HeadsUp<T(!new)>(less: (T, T) -> bool, step: seq<T> -> seq<T>, s: seq<T>, m: nat, f: nat,
                                            rounds: nat)
    requires Raising(less, step) && Strict(less, s) && m < |s| && AscendingFrom(less, s, m + 1)
    requires Takes(less, step, |s|, m + 1, f) && |Over(less, s, m)| == rounds
    ensures Topped(less, s, Rounds(step, s, f, rounds), m)
    decreases rounds
  {
    if rounds > 0 {
      var y := Iterate(step, s, f);
      assert TakesAt(less, step, s, m + 1, f);
      OneRound(less, step, s, m, f);
      HeadsUp(less, step, y, m, f, rounds - 1);
      ToppedFrom(less, s, y, Rounds(step, y, f, rounds - 1), m);
    }
  }

  lemma AllOver<T(!new)>(less: (T, T) -> bool, s: seq<T>, m: nat)
    requires WeakOrder(less) && Strict(less, s) && m < |s| && AscendingFrom(less, s, m)
    ensures |Over(less, s, m)| == |s| - m - 1
  {
    forall x ensures x in Over(less, s, m) <==> x in Rest(s, m + 1) {
      RestMember(s, m, x);
      RestMember(s, m + 1, x);
      if l :| m + 1 <= l < |s| && s[l] == x { StrictPositions(less, s, m, l); }
    }
    assert Over(less, s, m) == Rest(s, m + 1);
    RestSize(less, s, m + 1);
  }

  lemma NoneOver<T(!new)>(less: (T, T) -> bool, s: seq<T>, m: nat)
    requires m < |s| && Over(less, s, m) == {} && Descending(less, s, m + 1)
    ensures Descending(less, s, m)
  {
    if m + 1 < |s| {
      RestMember(s, m, s[m + 1]);
      assert s[m + 1] !in Over(less, s, m);
    }
  }

  lemma ToppedDescends<T(!new)>(less: (T, T) -> bool, s: seq<T>, z: seq<T>, y: seq<T>, m: nat)
    requires Topped(less, s, z, m) && Descends(less, z, y, m + 1)
    ensures Descends(less, s, y, m)
  {
    RaisedFrom(less, z, y, y, m);
    KeepsLess(z, y, m);
    NoneOver(less, y, m);
  }

  lemma LastRound<T>(step: T -> T, x: T, f: nat, rounds: nat)
    requires f >= 1
    ensures Iterate(step, x, f * (rounds + 1) - 1) == Iterate(step, Rounds(step, x, f, rounds), f - 1)
  {
    RoundsAreSteps(step, x, f, rounds);
    IterateAdd(step, x, rounds * f, f - 1);
    assert rounds * f + (f - 1) == f * (rounds + 1) - 1;
  }

  /** One more element in front of the rest takes that many times longer. */
  lemma TakesLonger<T(!new)>(less: (T, T) -> bool, step: seq<T> -> seq<T>, s: seq<T>, m: nat, f: nat, rounds: nat)
    requires Raising(less, step) && Strict(less, s) && m < |s| && AscendingFrom(less, s, m + 1)
    requires Takes(less, step, |s|, m + 1, f) && |Over(less, s, m)| == rounds
    ensures Descends(less, s, Iterate(step, s, f * (rounds + 1) - 1), m)
  {
    var z := Rounds(step, s, f, rounds);
    HeadsUp(less, step, s, m, f, rounds);
    StrictPermuted(less, s, z);
    assert TakesAt(less, step, z, m + 1, f);
    ToppedDescends(less, s, z, Iterate(step, z, f - 1), m);
    LastRound(step, s, f, rounds);
  }

  lemma AllTakeLonger<T(!new)>(less: (T, T) -> bool, step: seq<T> -> seq<T>, n: nat, m: nat, f: nat)
    requires WeakOrder(less) && Raising(less, step) && m < n && Takes(less, step, n, m + 1, f)
    ensures Takes(less, step, n, m, f * (n - m))
  {
    forall s | |s| == n ensures TakesAt(less, step, s, m, f * (n - m)) {
      if Strict(less, s) && AscendingFrom(less, s, m) {
        AllOver(less, s, m);
        TakesLonger(less, step, s, m, f, n - m - 1);
      }
    }
  }

  /** An ascending rest runs through all of its arrangements: so many steps until it descends. */
  lemma {:induction false} RestTakes<T(!new)>(less: (T, T) -> bool, step: seq<T> -> seq<T>, n: nat, m: nat)
    requires WeakOrder(less) && Raising(less, step) && m <= n
    ensures Takes(less, step, n, m, Factorial(n - m))
    decreases n - m
  {
    if m == n {
      forall s | |s| == n ensures TakesAt(less, step, s, m, 1) {
        assert Iterate(step, s, 0) == s;
      }
    } else {
      RestTakes(less, step, n, m + 1);
      AllTakeLonger(less, step, n, m, Factorial(n - m - 1));
    }
  }

  // ---- every arrangement is reached ----

  lemma {:induction false} FirstDifference<T>(a: seq<T>, b: seq<T>) returns (k: nat)
    requires |a| == |b| && a != b
    ensures k < |a| && a[k] != b[k] && forall i :: 0 <= i < k ==> a[i] == b[i]
    decreases |a|
  {
    if a[0] != b[0] { return 0; }
    assert a == [a[0]] + a[1..] && b == [b[0]] + b[1..];
    k := FirstDifference(a[1..], b[1..]);
    k := k + 1;
  }

  lemma DifferencePrecedes<T(!new)>(less: (T, T) -> bool, a: seq<T>, b: seq<T>, k: nat)
    requires WeakOrder(less) && Strict(less, a) && multiset(a) == multiset(b) && |a| == |b| && k < |a| && a[k] != b[k]
    requires forall i :: 0 <= i < k ==> a[i] == b[i]
    ensures PrecedesAt(less, a, b, k) || PrecedesAt(less, b, a, k)
  {
    SameElements(a, b);
    assert b[k] in a;
  }

  /** Only one arrangement ascends. */
  lemma AscendingIsUnique<T(!new)>(less: (T, T) -> bool, a: seq<T>, b: seq<T>)
    requires WeakOrder(less) && Strict(less, a) && multiset(a) == multiset(b)
    requires AscendingFrom(less, a, 0) && AscendingFrom(less, b, 0)
    ensures a == b
  {
    SameElements(a, b);
    if a != b {
      var k := FirstDifference(a, b);
      DifferencePrecedes(less, a, b, k);
      NothingBefore(less, a, b, 0, k);
      NothingBefore(less, b, a, 0, k);
    }
  }

  lemma NotPast<T(!new)>(less: (T, T) -> bool, s: seq<T>, a: seq<T>, y: seq<T>, m: nat)
    requires Strict(less, s) && m < |s| && Keeps(s, a, m) && less(a[m], s[m]) && Raised(less, a, y, m)
    ensures Keeps(s, y, m) && (y[m] == s[m] || less(y[m], s[m]))
  {
    RestKept(s, a, m);
    RestMember(s, m, s[m]);
    SameElements(s, y);
    assert s[m] in Over(less, a, m) && y[m] in s;
  }

  /** One round on the way to the element that `s` has at `m`. */
  lemma RoundTowards<T(!new)>(less: (T, T) -> bool, step: seq<T> -> seq<T>, s: seq<T>, a: seq<T>, m: nat, f: nat)
    requires Raising(less, step) && Strict(less, s) && m < |s| && Keeps(s, a, m) && AscendingFrom(less, a, m + 1)
    requires f >= 1 && TakesAt(less, step, a, m + 1, f) && less(a[m], s[m])
    ensures var y := Iterate(step, a, f);
            && Keeps(s, y, m) && AscendingFrom(less, y, m + 1) && (y[m] == s[m] || less(y[m], s[m]))
            && |Over(less, y, m)| < |Over(less, a, m)|
  {
    StrictPermuted(less, s, a);
    HeadIsOver(less, s, a, m);
    OneRound(less, step, a, m, f);
    NotPast(less, s, a, Iterate(step, a, f), m);
  }

  lemma HeadKept<T>(s: seq<T>, a: seq<T>, m: nat)
    requires m < |s| && Keeps(s, a, m) && a[m] == s[m]
    ensures Keeps(s, a, m + 1)
  {
    assert a[..m + 1] == a[..m] + [a[m]] && s[..m + 1] == s[..m] + [s[m]];
  }

  /** The rest behind `m` runs through its arrangements until the element of `s` is at `m`. */
  lemma {:induction false} HeadTo<T(!new)>(less: (T, T) -> bool, step: seq<T> -> seq<T>, s: seq<T>, a: seq<T>, m: nat,
                                           f: nat)
    returns (u: nat)
    requires Raising(less, step) && Strict(less, s) && m < |s| && Keeps(s, a, m) && AscendingFrom(less, a, m + 1)
    requires Takes(less, step, |s|, m + 1, f) && (a[m] == s[m] || less(a[m], s[m]))
    ensures Keeps(s, Iterate(step, a, u), m + 1) && AscendingFrom(less, Iterate(step, a, u), m + 1)
    decreases |Over(less, a, m)|
  {
    if a[m] == s[m] {
      HeadKept(s, a, m);
      return 0;
    }
    assert TakesAt(less, step, a, m + 1, f);
    RoundTowards(less, step, s, a, m, f);
    u := HeadTo(less, step, s, Iterate(step, a, f), m, f);
    IterateAdd(step, a, f, u);
    u := f + u;
  }

  lemma HeadIsOver<T(!new)>(less: (T, T) -> bool, s: seq<T>, a: seq<T>, m: nat)
    requires m < |s| && Keeps(s, a, m) && less(a[m], s[m])
    ensures s[m] in Over(less, a, m)
  {
    RestKept(s, a, m);
    RestMember(s, m, s[m]);
  }

  lemma LeastFirst<T(!new)>(less: (T, T) -> bool, s: seq<T>, a: seq<T>, m: nat)
    requires Strict(less, s) && m < |s| && Keeps(s, a, m) && AscendingFrom(less, a, m)
    ensures a[m] == s[m] || less(a[m], s[m])
  {
    var l := RestElement(s, a, m, m);
    SameElements(s, a);
    assert a[m] in s;
  }

  /** From an arrangement that ascends from `m` on every one with the same beginning is reached. */
  lemma {:induction false} Reaches<T(!new)>(less: (T, T) -> bool, step: seq<T> -> seq<T>, s: seq<T>, a: seq<T>, m: nat)
    returns (u: nat)
    requires WeakOrder(less) && Raising(less, step) && Strict(less, s) && Keeps(s, a, m) && AscendingFrom(less, a, m)
    ensures Iterate(step, a, u) == s
    decreases |s| - m
  {
    if m == |s| {
      assert a == a[..m] && s == s[..m];
      return 0;
    }
    LeastFirst(less, s, a, m);
    RestTakes(less, step, |s|, m + 1);
    var v := HeadTo(less, step, s, a, m, Factorial(|s| - m - 1));
    u := Reaches(less, step, s, Iterate(step, a, v), m + 1);
    IterateAdd(step, a, v, u);
    u := v + u;
  }

  // ---- the cycle ----

  ghost predicate Turning<T(!new)>(less: (T, T) -> bool, step: seq<T> -> seq<T>) {
    forall s {:trigger step(s)} :: Descending(less, s, 0) ==> AscendingFrom(less, step(s), 0)
  }

  /** Everything the proof needs to know of a step. */
  ghost predicate Cycles<T(!new)>(less: (T, T) -> bool, step: seq<T> -> seq<T>) {
    WeakOrder(less) && Raising(less, step) && Climbing(less, step) && Turning(less, step)
  }

  lemma NextTurning<T(!new)>(less: (T, T) -> bool, s: seq<T>)
    requires WeakOrder(less) && Descending(less, s, 0)
    ensures AscendingFrom(less, Next(less, s), 0)
  {
    NextIsLeastGreater(less, s);
  }

  lemma NextCycles<T(!new)>(less: (T, T) -> bool)
    requires WeakOrder(less)
    ensures Cycles(less, Stepper(less))
  {
    var step := Stepper(less);
    forall s ensures multiset(step(s)) == multiset(s) { NextIsPermutation(less, s); }
    forall s, m: nat ensures ClimbsAt(less, s, step(s), m) { NextClimbs(less, s, m); }
    forall s, m: nat ensures RaisesAt(less, s, step(s), m) { NextRaises(less, s, m); }
    forall s | Descending(less, s, 0) ensures AscendingFrom(less, step(s), 0) { NextTurning(less, s); }
  }

  lemma TurnedAround<T(!new)>(less: (T, T) -> bool, step: seq<T> -> seq<T>, a: seq<T>, y: seq<T>)
    requires WeakOrder(less) && Turning(less, step) && Permuting(step)
    requires Strict(less, a) && AscendingFrom(less, a, 0) && Descends(less, a, y, 0)
    ensures step(y) == a
  {
    AscendingIsUnique(less, a, step(y));
  }

  lemma ComesBackAfter<T(!new)>(less: (T, T) -> bool, step: seq<T> -> seq<T>, a: seq<T>, f: nat)
    requires WeakOrder(less) && Turning(less, step) && Permuting(step)
    requires Strict(less, a) && AscendingFrom(less, a, 0) && Takes(less, step, |a|, 0, f)
    ensures Iterate(step, a, f) == a
  {
    DescendsAfter(less, step, a, f);
    TurnedAround(less, step, a, Iterate(step, a, f - 1));
    OneMoreStep(step, a, f);
  }

  lemma AscendingComesBack<T(!new)>(less: (T, T) -> bool, step: seq<T> -> seq<T>, a: seq<T>)
    requires Cycles(less, step) && Strict(less, a) && AscendingFrom(less, a, 0)
    ensures Iterate(step, a, Factorial(|a|)) == a
  {
    RestTakes(less, step, |a|, 0);
    ComesBackAfter(less, step, a, Factorial(|a|));
  }

  lemma OneMoreStep<T>(step: T -> T, x: T, f: nat)
    requires f >= 1
    ensures Iterate(step, x, f) == step(Iterate(step, x, f - 1))
  {
    AfterStep(step, x, f - 1);
  }

  lemma DescendsAfter<T(!new)>(less: (T, T) -> bool, step: seq<T> -> seq<T>, a: seq<T>, f: nat)
    requires Takes(less, step, |a|, 0, f) && Strict(less, a) && AscendingFrom(less, a, 0)
    ensures Descends(less, a, Iterate(step, a, f - 1), 0)
  {
    assert TakesAt(less, step, a, 0, f);
  }

  /** Every list comes to the arrangement that ascends. */
  lemma ComesToAscend<T(!new)>(less: (T, T) -> bool, step: seq<T> -> seq<T>, s: seq<T>) returns (t: nat)
    requires Cycles(less, step)
    ensures var a := Iterate(step, s, t); multiset(a) == multiset(s) && |a| == |s| && AscendingFrom(less, a, 0)
  {
    if s == [] { return 0; }
    var u := Climb(less, step, s, 0);
    t := u + 1;
    AfterStep(step, s, u);
    IteratePermutes(step, s, t);
  }

  lemma StepsComeBack<T(!new)>(less: (T, T) -> bool, step: seq<T> -> seq<T>, s: seq<T>)
    requires Cycles(less, step) && Strict(less, s)
    ensures Iterate(step, s, Factorial(|s|)) == s
  {
    var t := ComesToAscend(less, step, s);
    var a := Iterate(step, s, t);
    StrictPermuted(less, s, a);
    assert s[..0] == a[..0];
    var u := Reaches(less, step, s, a, 0);
    AscendingComesBack(less, step, a);
    BackFromThere(step, s, a, Factorial(|s|), u);
  }

  lemma BackFromThere<T>(step: T -> T, s: T, a: T, f: nat, u: nat)
    requires Iterate(step, a, f) == a && Iterate(step, a, u) == s
    ensures Iterate(step, s, f) == s
  {
    IterateAdd(step, a, f, u);
    IterateAdd(step, a, u, f);
    assert f + u == u + f;
  }

  /** After as many steps as the factorial of its length a list without ties is back. */
  lemma ComesBack<T(!new)>(less: (T, T) -> bool, s: seq<T>)
    requires WeakOrder(less) && Strict(less, s)
    ensures Iterate(Stepper(less), s, Factorial(|s|)) == s
  {
    NextCycles(less);
    StepsComeBack(less, Stepper(less), s);
  }

  /** Whole rounds make no difference. */
  lemma {:induction false} RoundsAreIdle<T>(step: T -> T, x: T, f: nat, rounds: nat)
    requires Iterate(step, x, f) == x
    ensures Rounds(step, x, f, rounds) == x
    decreases rounds
  {
    if rounds > 0 { RoundsAreIdle(step, x, f, rounds - 1); }
  }

  lemma ModuloIsIdle<T>(step: T -> T, x: T, f: nat, k: nat)
    requires f >= 1 && Iterate(step, x, f) == x
    ensures Iterate(step, x, k % f) == Iterate(step, x, k)
  {
    RoundsAreIdle(step, x, f, k / f);
    RoundsAreSteps(step, x, f, k / f);
    IterateAdd(step, x, k / f * f, k % f);
    assert k / f * f + k % f == k;
  }

  /** So it makes no difference if the number of steps is reduced modulo that factorial. */
  lemma StepsModuloRound<T(!new)>(less: (T, T) -> bool, s: seq<T>, k: nat)
    requires WeakOrder(less) && Strict(less, s)
    ensures Iterate(Stepper(less), s, k % Factorial(|s|)) == Iterate(Stepper(less), s, k)
  {
    ComesBack(less, s);
    ModuloIsIdle(Stepper(less), s, Factorial(|s|), k);
  }

  lemma ReachedFrom<T(!new)>(less: (T, T) -> bool, step: seq<T> -> seq<T>, s: seq<T>, t: seq<T>) returns (u: nat)
    requires Cycles(less, step) && Strict(less, t) && multiset(s) == multiset(t) && |s| == |t|
    ensures Iterate(step, s, u) == t
  {
    var v := ComesToAscend(less, step, s);
    var a := Iterate(step, s, v);
    assert t[..0] == a[..0];
    var w := Reaches(less, step, t, a, 0);
    IterateAdd(step, s, v, w);
    u := v + w;
  }

  /** Every arrangement of a list without ties is reached from every other within one round. */
  lemma ReachesEvery<T(!new)>(less: (T, T) -> bool, s: seq<T>, t: seq<T>) returns (u: nat)
    requires WeakOrder(less) && Strict(less, s) && multiset(s) == multiset(t)
    ensures u < Factorial(|s|) && Iterate(Stepper(less), s, u) == t
  {
    NextCycles(less);
    SameElements(s, t);
    StrictPermuted(less, s, t);
    var v := ReachedFrom(less, Stepper(less), s, t);
    StepsModuloRound(less, s, v);
    u := v % Factorial(|s|);
  }
}
