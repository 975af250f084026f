/** The full version list hint of ProfileAdapter
    (src/core/profile_adapter.cpp:63-91, 735-739 and 780-782). */
module ClientHints {
  import opened NextPermutation
  import opened ArrangementCycle
  import opened BrandLists

  const INT_MAX := 0x7FFF_FFFF

  lemma {:induction false} FactorialGrows(m: nat, n: nat)
    requires m <= n
    ensures Factorial(m) <= Factorial(n)
    decreases n - m
  {
    if m < n {
      FactorialGrows(m, n - 1);
      assert Factorial(n) == Factorial(n - 1) * n >= Factorial(n - 1);
    }
  }

  /** 12! is the largest factorial an int can hold. */
  lemma FactorialFitsInt(n: nat)
    ensures n <= 12 <==> Factorial(n) <= INT_MAX
  {
    assert Factorial(6) == 720;
    assert Factorial(9) == 504 * Factorial(6);
    assert Factorial(12) == 1320 * Factorial(9) == 479001600;
    assert Factorial(13) == 6227020800;
    if n <= 12 { FactorialGrows(n, 12); } else { FactorialGrows(13, n); }
  }

  /** Lines 77-79; nothing overflows. */
  method Permutations(size: nat) returns (permutations: nat)
    requires size <= 12
    ensures permutations == Factorial(size) <= INT_MAX
  {
    permutations := 1;
    var i := 2;
    while i <= size
      invariant i == 2 || i <= size + 1
      invariant 2 <= i && permutations == Factorial(i - 1) <= INT_MAX
    {
      permutations := permutations * i;
      FactorialFitsInt(i);
      i := i + 1;
    }
  }

  /** No two entries compare equal. */
  ghost predicate WithoutTies(s: seq<BrandVersion>) {
    forall i, j :: 0 <= i < j < |s| ==> Compare(s[i], s[j]) || Compare(s[j], s[i])
  }

  /** The reduction of line 81 loses nothing: as many steps as the major version says lead to the same list. */
  lemma MajorVersionModulo(s: seq<BrandVersion>, majorVersion: nat)
    requires WithoutTies(s)
    ensures Shuffle(s, majorVersion % Factorial(|s|)) == Shuffle(s, majorVersion)
  {
    CompareIsWeakOrder();
    StrictIf(Compare, s);
    StepsModuloRound(Compare, s, majorVersion);
  }

  /** Nor does it shut out any order: every one is that of some major version. */
  lemma EveryOrderIsUsed(s: seq<BrandVersion>, t: seq<BrandVersion>) returns (majorVersion: nat)
    requires WithoutTies(s) && multiset(s) == multiset(t)
    ensures majorVersion < Factorial(|s|) && Shuffle(s, majorVersion) == t
  {
    CompareIsWeakOrder();
    StrictIf(Compare, s);
    majorVersion := ReachesEvery(Compare, s, t);
  }

  /** The loop of lines 85-90, for whatever is done to both lists in a step. */
  method RepeatOnBoth<T>(step: T -> T, short: T, full: T, n: nat) returns (short': T, full': T)
    ensures short' == Iterate(step, short, n) && full' == Iterate(step, full, n)
  {
    short', full' := short, full;
    for i := 0 to n
      invariant Iterate(step, short', n - i) == Iterate(step, short, n)
      invariant Iterate(step, full', n - i) == Iterate(step, full, n)
    {
      short' := step(short');
      full' := step(full');
    }
  }

  class UserAgentMetadata {
    var brandVersionList: seq<BrandVersion>
    var brandFullVersionList: seq<BrandVersion>

    constructor ()
      ensures brandVersionList == [] && brandFullVersionList == []
    {
      brandVersionList, brandFullVersionList := [], [];
    }

    /** Both lists are those of the object after the same number of shuffle steps. `keys` is what
        QJsonObject::keys() yields; with at most 12 of them `permutations` does not overflow. */
    method PopulateBrandVersionLists(object': map<string, string>, keys: seq<string>, majorVersion: nat)
      requires KeysOf(object', keys) && |keys| <= 12
      modifies this
      ensures var steps := majorVersion % Factorial(|keys|);
              && brandFullVersionList == Shuffle(FullList(object', keys), steps)
              && brandVersionList == Shuffle(ShortList(object', keys), steps)
    {
      FillLists(object', keys);
      var permutations := Permutations(|keys|);
      ShuffleLists(majorVersion % permutations);
    }

    /** Lines 66-74. */
    method FillLists(object': map<string, string>, keys: seq<string>)
      requires KeysOf(object', keys)
      modifies this
      ensures brandFullVersionList == FullList(object', keys) && brandVersionList == ShortList(object', keys)
    {
      brandVersionList, brandFullVersionList := [], [];
      for i := 0 to |keys|
        invariant |brandFullVersionList| == |brandVersionList| == i
        invariant forall k :: 0 <= k < i ==> brandFullVersionList[k] == FullList(object', keys)[k]
        invariant forall k :: 0 <= k < i ==> brandVersionList[k] == ShortList(object', keys)[k]
      {
        var version := object'[keys[i]];
        brandFullVersionList := brandFullVersionList + [BrandVersion(keys[i], version)];
        brandVersionList := brandVersionList + [BrandVersion(keys[i], BeforeDot(version))];
      }
    }

    /** Lines 85-90. */
    method ShuffleLists(permutations: nat)
      modifies this
      ensures brandFullVersionList == Shuffle(old(brandFullVersionList), permutations)
      ensures brandVersionList == Shuffle(old(brandVersionList), permutations)
    {
      brandVersionList, brandFullVersionList :=
        RepeatOnBoth(Stepper(Compare), brandVersionList, brandFullVersionList, permutations);
    }

    /** clientHint(UAFullVersionList). */
    method FullVersionList() returns (ret: map<string, string>)
      ensures ret == ToObject(brandFullVersionList)
    {
      ret := map[];
      for i := 0 to |brandFullVersionList|
        invariant ret == ToObject(brandFullVersionList[..i])
      {
        assert brandFullVersionList[..i + 1][..i] == brandFullVersionList[..i];
        ret := ret[brandFullVersionList[i].brand := brandFullVersionList[i].version];
      }
      assert brandFullVersionList[..|brandFullVersionList|] == brandFullVersionList;
    }

    /** Setting the hint and reading it back: the same object; and the lists name the brands in the
        same order if there are fewer than three or the short versions compare as the full ones. */
    method SetThenGet(object': map<string, string>, keys: seq<string>, majorVersion: nat)
      returns (ret: map<string, string>)
      requires KeysOf(object', keys) && |keys| <= 12
      modifies this
      ensures ret == object'
      ensures |keys| < 3 || SameOrder(Compare, ShortList(object', keys), FullList(object', keys)) ==>
                Partners(brandVersionList, brandFullVersionList)
    {
      PopulateBrandVersionLists(object', keys, majorVersion);
      ghost var steps := majorVersion % Factorial(|keys|);
      HintRoundTrip(object', keys, steps);
      AlignedExactlyWhen(ShortList(object', keys), FullList(object', keys));
      ret := FullVersionList();
    }
  }
}
