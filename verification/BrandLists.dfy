/** The two brand lists of the user agent metadata and their shuffle
    (src/core/profile_adapter.cpp:63-91, 735-739 and 780-782). */
module BrandLists {
  import opened NextPermutation

  datatype BrandVersion = BrandVersion(brand: string, version: string)

  // ---- the comparison ----

  /** `operator<` of std::string. */
  predicate Less(a: string, b: string) {
    b != [] && (a == [] || a[0] < b[0] || (a[0] == b[0] && Less(a[1..], b[1..])))
  }

  /** The lambda of line 82. */
  predicate Compare(a: BrandVersion, b: BrandVersion) {
    Less(a.brand + a.version, b.brand + b.version)
  }

  lemma {:induction false} LessIrreflexive(a: string)
    ensures !Less(a, a)
    decreases |a|
  {
    if a != [] { LessIrreflexive(a[1..]); }
  }

  lemma {:induction false} LessTransitive(a: string, b: string, c: string)
    requires Less(a, b) && Less(b, c)
    ensures Less(a, c)
    decreases |a|
  {
    if a != [] && a[0] == b[0] == c[0] { LessTransitive(a[1..], b[1..], c[1..]); }
  }

  /** Every string is on one side or the other of two that differ. */
  lemma {:induction false} LessSplits(a: string, b: string, c: string)
    requires Less(a, c)
    ensures Less(a, b) || Less(b, c)
    decreases |a|
  {
    if a != [] && b != [] && a[0] == b[0] == c[0] { LessSplits(a[1..], b[1..], c[1..]); }
  }

  /** Where two strings first differ `a` has the lesser character, or it ends there. */
  ghost predicate LessAt(a: string, b: string, k: nat) {
    k <= |a| && k < |b| && a[..k] == b[..k] && (k == |a| || a[k] < b[k])
  }

  lemma LessAtBehind(a: string, b: string, k: nat)
    requires a != [] && b != [] && a[0] == b[0]
    ensures LessAt(a[1..], b[1..], k) <==> LessAt(a, b, k + 1)
  {
    assert a == [a[0]] + a[1..] && b == [b[0]] + b[1..];
    if k < |a| && k < |b| {
      assert a[..k + 1] == [a[0]] + a[1..][..k] && b[..k + 1] == [b[0]] + b[1..][..k];
      assert a[1..][..k] == a[..k + 1][1..] && b[1..][..k] == b[..k + 1][1..];
    }
  }

  lemma LessAtFirst(a: string, b: string, k: nat)
    ensures LessAt(a, b, k) && k > 0 ==> a != [] && b != [] && a[0] == b[0]
  {
    if LessAt(a, b, k) && k > 0 { assert a[..k][0] == b[..k][0]; }
  }

  /** The order is the lexicographical one. */
  lemma {:induction false} LessIs(a: string, b: string)
    ensures Less(a, b) <==> exists k: nat :: LessAt(a, b, k)
    decreases |a|
  {
    if a != [] && b != [] && a[0] == b[0] {
      LessIs(a[1..], b[1..]);
      if k: nat :| LessAt(a[1..], b[1..], k) { LessAtBehind(a, b, k); }
      if k: nat :| LessAt(a, b, k) {
        assert k > 0;
        LessAtBehind(a, b, k - 1);
      }
    } else {
      assert a[..0] == b[..0];
      assert Less(a, b) <==> LessAt(a, b, 0);
      forall k: nat ensures LessAt(a, b, k) ==> k == 0 { LessAtFirst(a, b, k); }
    }
  }

  lemma CompareIsWeakOrder()
    ensures WeakOrder(Compare)
  {
    forall x ensures !Compare(x, x) {
      LessIrreflexive(x.brand + x.version);
    }
    forall x, y, z | Compare(x, y) && Compare(y, z) ensures Compare(x, z) {
      LessTransitive(x.brand + x.version, y.brand + y.version, z.brand + z.version);
    }
    forall x, y, z | Compare(x, z) ensures Compare(x, y) || Compare(y, z) {
      LessSplits(x.brand + x.version, y.brand + y.version, z.brand + z.version);
    }
  }

  // ---- the shuffle ----

  /** The loop of lines 85-90 on one list. */
  function Shuffle(s: seq<BrandVersion>, steps: nat): seq<BrandVersion> {
    Iterate(Stepper(Compare), s, steps)
  }

  lemma ShuffleMultiset(s: seq<BrandVersion>, steps: nat)
    ensures multiset(Shuffle(s, steps)) == multiset(s) && |Shuffle(s, steps)| == |s|
  {
    var step := Stepper(Compare);
    forall a ensures multiset(step(a)) == multiset(a) { NextIsPermutation(Compare, a); }
    IteratePermutes(step, s, steps);
  }

  function BeforeDot(version: string): (r: string)
    ensures r <= version && '.' !in r
    ensures r == version || version[|r|] == '.'
  {
    if version == [] || version[0] == '.' then [] else [version[0]] + BeforeDot(version[1..])
  }

  function Shortened(b: BrandVersion): BrandVersion {
    b.(version := BeforeDot(b.version))
  }

  /** Entry `k` of the short list names the same brand as entry `k` of the full list, with the part
      of its version before the first dot. */
  ghost predicate Partners(short: seq<BrandVersion>, full: seq<BrandVersion>) {
    Images(Shortened, short, full)
  }

  ghost predicate DistinctBrands(s: seq<BrandVersion>) {
    forall i, j :: 0 <= i < |s| && 0 <= j < |s| && s[i].brand == s[j].brand ==> i == j
  }

  /** The lists are partners after every number of steps. */
  ghost predicate AlignedForever(short: seq<BrandVersion>, full: seq<BrandVersion>) {
    forall steps: nat :: Partners(Shuffle(short, steps), Shuffle(full, steps))
  }

  /** The lists stay aligned however often they are shuffled, exactly if there are fewer than three
      brands or every two entries of the short list compare as their partners do. */
  lemma AlignedExactlyWhen(short: seq<BrandVersion>, full: seq<BrandVersion>)
    requires Partners(short, full) && DistinctBrands(full)
    ensures AlignedForever(short, full) <==> |full| < 3 || SameOrder(Compare, short, full)
  {
    CompareIsWeakOrder();
    InStepExactlyWhen(Compare, Shortened, short, full);
    if AlignedForever(short, full) {
      forall n: nat ensures Images(Shortened, Iterate(Stepper(Compare), short, n), Iterate(Stepper(Compare), full, n)) {
        assert Partners(Shuffle(short, n), Shuffle(full, n));
      }
    }
  }

  /** If neither of two brands is a prefix of the other, their versions do not matter. */
  lemma {:induction false} BrandsDecide(a: string, b: string, x: string, y: string)
    requires !(a <= b) && !(b <= a)
    ensures Less(a + x, b + y) <==> Less(a, b)
    decreases |a|
  {
    assert (a + x)[0] == a[0] && (b + y)[0] == b[0];
    if a[0] == b[0] {
      assert (a + x)[1..] == a[1..] + x && (b + y)[1..] == b[1..] + y;
      assert a == [a[0]] + a[1..] && b == [b[0]] + b[1..];
      BrandsDecide(a[1..], b[1..], x, y);
    }
  }

  ghost predicate PrefixFree(s: seq<BrandVersion>) {
    forall i, j :: 0 <= i < |s| && 0 <= j < |s| && i != j ==> !(s[i].brand <= s[j].brand)
  }

  lemma PrefixFreeSameOrder(short: seq<BrandVersion>, full: seq<BrandVersion>)
    requires PrefixFree(full) && Partners(short, full)
    ensures SameOrder(Compare, short, full)
  {
    forall i, j | 0 <= i < |full| && 0 <= j < |full|
      ensures Compare(short[i], short[j]) <==> Compare(full[i], full[j])
    {
      if i == j {
        LessIrreflexive(full[i].brand + full[i].version);
        LessIrreflexive(short[i].brand + short[i].version);
      } else {
        BrandsDecide(full[i].brand, full[j].brand, full[i].version, full[j].version);
        BrandsDecide(full[i].brand, full[j].brand, short[i].version, short[j].version);
      }
    }
  }

  /** If no brand is a prefix of another, the lists stay aligned however often they are shuffled. */
  lemma ShuffledListsStayAligned(full: seq<BrandVersion>, short: seq<BrandVersion>, steps: nat)
    requires PrefixFree(full) && Partners(short, full)
    ensures Partners(Shuffle(short, steps), Shuffle(full, steps))
  {
    PrefixFreeSameOrder(short, full);
    SameOrderInStep(Compare, Shortened, short, full, steps);
  }

  // ---- setting and reading the hint ----

  /** `keys` is the object's key list. */
  ghost predicate KeysOf(object': map<string, string>, keys: seq<string>) {
    && (forall k :: k in keys <==> k in object')
    && (forall i, j :: 0 <= i < j < |keys| ==> keys[i] != keys[j])
  }

  function FullList(object': map<string, string>, keys: seq<string>): (r: seq<BrandVersion>)
    requires forall k :: k in keys ==> k in object'
    ensures |r| == |keys|
    ensures forall i :: 0 <= i < |keys| ==> r[i] == BrandVersion(keys[i], object'[keys[i]])
  {
    seq(|keys|, i requires 0 <= i < |keys| => BrandVersion(keys[i], object'[keys[i]]))
  }

  function ShortList(object': map<string, string>, keys: seq<string>): (r: seq<BrandVersion>)
    requires forall k :: k in keys ==> k in object'
    ensures Partners(r, FullList(object', keys))
  {
    seq(|keys|, i requires 0 <= i < |keys| => Shortened(BrandVersion(keys[i], object'[keys[i]])))
  }

  /** The loop of clientHint: later entries overwrite earlier ones. */
  function ToObject(s: seq<BrandVersion>): (r: map<string, string>)
    ensures forall k :: k in r ==> BrandVersion(k, r[k]) in s
    ensures forall e :: e in s ==> e.brand in r
  {
    if s == [] then map[] else ToObject(s[..|s| - 1])[s[|s| - 1].brand := s[|s| - 1].version]
  }

  ghost predicate IsEntry(object': map<string, string>, e: BrandVersion) {
    e.brand in object' && object'[e.brand] == e.version
  }

  lemma FullListEntries(object': map<string, string>, keys: seq<string>, e: BrandVersion)
    requires KeysOf(object', keys)
    ensures e in FullList(object', keys) <==> IsEntry(object', e)
  {
    var full := FullList(object', keys);
    if IsEntry(object', e) {
      var i :| 0 <= i < |keys| && keys[i] == e.brand;
      assert full[i] == e;
    }
    if e in full {
      var i :| 0 <= i < |full| && full[i] == e;
      assert keys[i] in object';
    }
  }

  /** A list of exactly the object's entries reads back as the object. */
  lemma EntriesToObject(object': map<string, string>, s: seq<BrandVersion>)
    requires forall e :: e in s <==> IsEntry(object', e)
    ensures ToObject(s) == object'
  {
    var r := ToObject(s);
    forall k | k in object' ensures k in r {
      assert IsEntry(object', BrandVersion(k, object'[k]));
    }
    forall k | k in r ensures k in object' && r[k] == object'[k] {
      assert IsEntry(object', BrandVersion(k, r[k]));
    }
  }

  /** Whatever the number of shuffle steps, reading the hint back yields the object that was set. */
  lemma HintRoundTrip(object': map<string, string>, keys: seq<string>, steps: nat)
    requires KeysOf(object', keys)
    ensures ToObject(Shuffle(FullList(object', keys), steps)) == object'
  {
    var full := FullList(object', keys);
    ShuffleMultiset(full, steps);
    SameElements(full, Shuffle(full, steps));
    forall e ensures e in full <==> IsEntry(object', e) { FullListEntries(object', keys, e); }
    EntriesToObject(object', Shuffle(full, steps));
  }

  // ---- the hypothesis is needed ----

  lemma {:induction false} LessPrefix(a: string, b: string)
    requires a < b
    ensures Less(a, b) && !Less(b, a)
    decreases |a|
  {
    if a != [] { LessPrefix(a[1..], b[1..]); }
  }

  lemma ExchangeLast(x: BrandVersion, y: BrandVersion, z: BrandVersion)
    requires Compare(y, z)
    ensures Next(Compare, [x, y, z]) == [x, z, y]
  {
    var s := [x, y, z];
    assert Pivot(Compare, s, 2) == 1 && Exceeding(Compare, s, 1, 2) == 2;
    assert Rearrange(s, 1, 2) == [x, z, y];
  }

  lemma ExchangeFirst(x: BrandVersion, y: BrandVersion, z: BrandVersion)
    requires !Compare(y, z) && Compare(x, y) && !Compare(x, z)
    ensures Next(Compare, [x, y, z]) == [y, z, x]
  {
    var s := [x, y, z];
    assert Pivot(Compare, s, 2) == Pivot(Compare, s, 1) == 0;
    assert Exceeding(Compare, s, 0, 2) == Exceeding(Compare, s, 0, 1) == 1;
    assert Rearrange(s, 0, 1) == [y, z, x];
  }

  lemma StartOver(x: BrandVersion, y: BrandVersion, z: BrandVersion)
    requires !Compare(y, z) && !Compare(x, y)
    ensures Next(Compare, [x, y, z]) == [z, y, x]
  {
    var s := [x, y, z];
    assert Pivot(Compare, s, 2) == -1;
    assert Reverse(s) == [z, y, x];
  }

  lemma ThreeSteps(s0: seq<BrandVersion>, s1: seq<BrandVersion>, s2: seq<BrandVersion>, s3: seq<BrandVersion>)
    requires s1 == Next(Compare, s0) && s2 == Next(Compare, s1) && s3 == Next(Compare, s2)
    ensures Shuffle(s0, 3) == s3
  {
    assert Shuffle(s3, 0) == s3;
    assert Shuffle(s2, 1) == s3;
    assert Shuffle(s1, 2) == s3;
  }

  /** With one brand a prefix of another the lists can part: "Brand" version "1.5" and "Brand1"
      without a version compare equal once shortened. */
  lemma PrefixedBrandsDiverge()
    ensures var full := [BrandVersion("Brand", "1.5"), BrandVersion("Brand1", ""), BrandVersion("Z", "1")];
            var short := [BrandVersion("Brand", "1"), BrandVersion("Brand1", ""), BrandVersion("Z", "1")];
            Partners(short, full) && !Partners(Shuffle(short, 3), Shuffle(full, 3))
  {
    var x, x' := BrandVersion("Brand", "1.5"), BrandVersion("Brand", "1");
    var y, z := BrandVersion("Brand1", ""), BrandVersion("Z", "1");
    assert BeforeDot(".5") == "" && BeforeDot("") == "";
    assert Partners([x', y, z], [x, y, z]);
    Comparisons();
    FullSteps(x, y, z);
    ShortSteps(x', y, z);
    assert Shuffle([x', y, z], 3)[0] == x' && Shuffle([x, y, z], 3)[0] == z;
  }

  lemma Comparisons()
    ensures var x, x' := BrandVersion("Brand", "1.5"), BrandVersion("Brand", "1");
            var y, z := BrandVersion("Brand1", ""), BrandVersion("Z", "1");
            && Compare(y, z) && Compare(x, z) && Compare(x', z) && Compare(y, x) && !Compare(y, x')
            && !Compare(z, y) && !Compare(z, x) && !Compare(z, x') && !Compare(x, y) && !Compare(x', y)
  {
    assert "Brand" + "1.5" == "Brand1.5" && "Brand" + "1" == "Brand1" + "" == "Brand1" && "Z" + "1" == "Z1";
    LessPrefix("Brand1", "Brand1.5");
    LessIrreflexive("Brand1");
  }

  lemma FullSteps(x: BrandVersion, y: BrandVersion, z: BrandVersion)
    requires Compare(y, z) && Compare(x, z) && Compare(y, x)
    requires !Compare(z, y) && !Compare(z, x) && !Compare(x, y)
    ensures Shuffle([x, y, z], 3) == [z, x, y]
  {
    ExchangeLast(x, y, z);
    ExchangeFirst(x, z, y);
    ExchangeLast(z, y, x);
    ThreeSteps([x, y, z], [x, z, y], [z, y, x], [z, x, y]);
  }

  lemma ShortSteps(x: BrandVersion, y: BrandVersion, z: BrandVersion)
    requires Compare(y, z) && Compare(x, z) && !Compare(y, x)
    requires !Compare(z, y) && !Compare(z, x) && !Compare(x, y)
    ensures Shuffle([x, y, z], 3) == [x, y, z]
  {
    ExchangeLast(x, y, z);
    ExchangeFirst(x, z, y);
    StartOver(z, y, x);
    ThreeSteps([x, y, z], [x, z, y], [z, y, x], [x, y, z]);
  }
}
