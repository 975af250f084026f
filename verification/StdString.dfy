/** The parts of std::string, base/strings and the C library that the CF_HTML functions use.
    Characters are bytes; positions are 64-bit unsigned numbers. */
module StdString {

  const NPOS: nat := 0xFFFF_FFFF_FFFF_FFFF

  /** Addition of two size_t. */
  function SizeAdd(a: nat, b: nat): nat {
    (a + b) % (NPOS + 1)
  }

  predicate At(s: string, pat: string, i: nat) {
    i + |pat| <= |s| && s[i..i + |pat|] == pat
  }

  /** `s.find(pat, from)`. */
  function Find(s: string, pat: string, from: nat): (r: nat)
    requires |s| < NPOS
    ensures r != NPOS ==> from <= r && At(s, pat, r)
    ensures forall k :: from <= k < r ==> !At(s, pat, k)
    ensures r == NPOS ==> forall k :: from <= k ==> !At(s, pat, k)
    decreases |s| + 1 - from
  {
    if from > |s| then NPOS else if At(s, pat, from) then from else Find(s, pat, from + 1)
  }

  /** `s.rfind(pat, from)`. */
  function RFind(s: string, pat: string, from: nat): (r: nat)
    requires |s| < NPOS
    ensures r != NPOS ==> r <= from && At(s, pat, r)
    ensures forall k: nat :: (r == NPOS || r < k) && k <= from ==> !At(s, pat, k)
    decreases from
  {
    if from > |s| then RFind(s, pat, |s|)
    else if At(s, pat, from) then from
    else if from == 0 then NPOS
    else RFind(s, pat, from - 1)
  }

  lemma FindIs(s: string, pat: string, from: nat, r: nat)
    requires |s| < NPOS && from <= r && At(s, pat, r)
    requires forall k :: from <= k < r ==> !At(s, pat, k)
    ensures Find(s, pat, from) == r
  {
  }

  lemma RFindIs(s: string, pat: string, from: nat, r: nat)
    requires |s| < NPOS && r <= from && At(s, pat, r)
    requires forall k :: r < k <= from ==> !At(s, pat, k)
    ensures RFind(s, pat, from) == r
  {
  }

  /** A match fixes every character. */
  lemma AtChar(s: string, pat: string, i: nat, j: nat)
    requires At(s, pat, i) && j < |pat|
    ensures s[i + j] == pat[j]
  {
    assert s[i..i + |pat|][j] == pat[j];
  }

  /** One differing character excludes a match. */
  lemma Mismatch(s: string, pat: string, i: nat, j: nat)
    requires j < |pat| && (i + j < |s| ==> s[i + j] != pat[j])
    ensures !At(s, pat, i)
  {
    if At(s, pat, i) { AtChar(s, pat, i, j); }
  }

  lemma AtOneChar(s: string, c: char, k: nat)
    ensures At(s, [c], k) <==> k < |s| && s[k] == c
  {
    if k < |s| { assert s[k..k + 1] == [s[k]]; }
  }

  function LowerChar(c: char): (r: char)
    ensures r != c <==> 'A' <= c <= 'Z'
  {
    if 'A' <= c <= 'Z' then ((c as int) + 32) as char else c
  }

  /** `base::ToLowerASCII`. */
  function ToLower(s: string): (r: string)
    ensures |r| == |s| && forall i :: 0 <= i < |s| ==> r[i] == LowerChar(s[i])
  {
    seq(|s|, i requires 0 <= i < |s| => LowerChar(s[i]))
  }

  predicate IsSpace(c: char) {
    '\U{0009}' <= c <= '\U{000D}' || c == ' '
  }

  function TrimLeft(s: string): (r: string)
    ensures |r| <= |s|
  {
    if s != [] && IsSpace(s[0]) then TrimLeft(s[1..]) else s
  }

  function TrimRight(s: string): (r: string)
    ensures |r| <= |s|
  {
    if s != [] && IsSpace(s[|s| - 1]) then TrimRight(s[..|s| - 1]) else s
  }

  /** `base::TrimWhitespaceASCII(s, TRIM_ALL, ..)`. */
  function Trim(s: string): (r: string)
    ensures |r| <= |s|
  {
    TrimLeft(TrimRight(s))
  }

  predicate AllSpace(s: string) {
    forall i :: 0 <= i < |s| ==> IsSpace(s[i])
  }

  lemma {:induction false} TrimLeftIs(s: string) returns (front: string)
    ensures s == front + TrimLeft(s) && AllSpace(front)
    ensures TrimLeft(s) != [] ==> !IsSpace(TrimLeft(s)[0])
    decreases |s|
  {
    front := [];
    if s != [] && IsSpace(s[0]) {
      var rest := TrimLeftIs(s[1..]);
      front := [s[0]] + rest;
      assert s == [s[0]] + s[1..];
    }
  }

  lemma {:induction false} TrimRightIs(s: string) returns (back: string)
    ensures s == TrimRight(s) + back && AllSpace(back)
    ensures TrimRight(s) != [] ==> !IsSpace(TrimRight(s)[|TrimRight(s)| - 1])
    decreases |s|
  {
    back := [];
    if s != [] && IsSpace(s[|s| - 1]) {
      var init, last := s[..|s| - 1], s[|s| - 1];
      var rest := TrimRightIs(init);
      back := rest + [last];
      LastBack(s, init, last, TrimRight(init), rest);
    }
  }

  lemma LastBack(s: string, init: string, last: char, front: string, rest: string)
    requires s != [] && init == s[..|s| - 1] && last == s[|s| - 1] && init == front + rest
    ensures s == front + (rest + [last])
  {
    assert s == init + [last];
  }

  /** Trimming takes off the white space at both ends and nothing else. */
  lemma TrimIs(s: string) returns (front: string, back: string)
    ensures s == front + Trim(s) + back && AllSpace(front) && AllSpace(back)
    ensures Trim(s) != [] ==> !IsSpace(Trim(s)[0]) && !IsSpace(Trim(s)[|Trim(s)| - 1])
  {
    back := TrimRightIs(s);
    front := TrimLeftIs(TrimRight(s));
  }

  // ---- numbers ----

  const INT_MAX := 0x7FFF_FFFF
  const INT_MIN := -0x8000_0000

  predicate IsDigit(c: char) {
    '0' <= c <= '9'
  }

  function ParseDigits(s: string, acc: nat): nat
    decreases |s|
  {
    if s != [] && IsDigit(s[0]) then ParseDigits(s[1..], 10 * acc + (s[0] as int - '0' as int)) else acc
  }

  /** `atoi`; a value out of range is clamped, as the Windows runtime does. */
  function Atoi(s: string): (r: int)
    ensures INT_MIN <= r <= INT_MAX
  {
    var t := TrimLeft(s);
    var value: int :=
      if t != [] && t[0] == '-' then 0 - ParseDigits(t[1..], 0)
      else if t != [] && t[0] == '+' then ParseDigits(t[1..], 0)
      else ParseDigits(t, 0);
    if value > INT_MAX then INT_MAX else if value < INT_MIN then INT_MIN else value
  }

  /** `static_cast<size_t>` of an int. */
  function ToSize(n: int): (r: nat)
    requires INT_MIN <= n <= INT_MAX
    ensures r <= NPOS
  {
    if n < 0 then n + NPOS + 1 else n
  }

  function Digit(d: nat): (c: char)
    requires d < 10
    ensures IsDigit(c)
  {
    ('0' as int + d) as char
  }

  /** The last `width` decimal digits of `n`. */
  function Padded(n: nat, width: nat): (r: string)
    ensures |r| == width && forall i :: 0 <= i < width ==> IsDigit(r[i])
    decreases width, n
  {
    if width == 0 then [] else Padded(n / 10, width - 1) + [Digit(n % 10)]
  }

  /** `%010u`: the conversion reads 32 bits, which ten digits always hold. */
  function Number(n: nat): (r: string)
    ensures |r| == 10 && forall i :: 0 <= i < 10 ==> IsDigit(r[i])
  {
    Padded(n % 0x1_0000_0000, 10)
  }

  function Pow10(k: nat): (r: nat)
    ensures r >= 1
  {
    if k == 0 then 1 else 10 * Pow10(k - 1)
  }

  lemma {:induction false} ParseAppend(a: string, b: string, acc: nat)
    requires forall i :: 0 <= i < |a| ==> IsDigit(a[i])
    ensures ParseDigits(a + b, acc) == ParseDigits(b, ParseDigits(a, acc))
    decreases |a|
  {
    if a == [] {
      assert a + b == b;
    } else {
      assert (a + b)[0] == a[0] && (a + b)[1..] == a[1..] + b;
      ParseAppend(a[1..], b, 10 * acc + (a[0] as int - '0' as int));
    }
  }

  lemma {:induction false} ParsePadded(n: nat, width: nat)
    requires n < Pow10(width)
    ensures ParseDigits(Padded(n, width), 0) == n
    decreases width
  {
    if width > 0 {
      ParsePadded(n / 10, width - 1);
      ParseAppend(Padded(n / 10, width - 1), [Digit(n % 10)], 0);
      assert [Digit(n % 10)][1..] == [];
    }
  }

  /** Reading a printed number back, whatever non-digit follows it. */
  lemma AtoiOfNumber(n: nat, tail: string)
    requires n <= INT_MAX
    requires tail == [] || !IsDigit(tail[0])
    ensures Atoi(Number(n) + tail) == n
  {
    var t := Number(n) + tail;
    assert IsDigit(t[0]) by { assert t[0] == Number(n)[0]; }
    assert TrimLeft(t) == t;
    PrintedDigits(n, tail);
  }

  /** Ten digits print a number of 32 bits; of a larger one the conversion reads no more than these. */
  lemma NumberValue(n: nat)
    ensures ParseDigits(Number(n), 0) == n % 0x1_0000_0000
  {
    TenDigits();
    ParsePadded(n % 0x1_0000_0000, 10);
  }

  lemma LeadingSpace(c: char, s: string)
    requires IsSpace(c)
    ensures Atoi([c] + s) == Atoi(s)
  {
    assert ([c] + s)[1..] == s;
  }

  lemma AtoiOfDigits(s: string, n: nat)
    requires s != [] && IsDigit(s[0]) && ParseDigits(s, 0) == n
    ensures Atoi("-" + s) == if n <= INT_MAX + 1 then 0 - n else INT_MIN
    ensures Atoi("+" + s) == if n <= INT_MAX then n else INT_MAX
    ensures Atoi(s) == if n <= INT_MAX then n else INT_MAX
  {
    assert ("-" + s)[1..] == s && ("+" + s)[1..] == s;
  }

  lemma DigitsBefore(digits: string, n: nat, tail: string)
    requires digits != [] && (forall i :: 0 <= i < |digits| ==> IsDigit(digits[i])) && ParseDigits(digits, 0) == n
    requires tail == [] || !IsDigit(tail[0])
    ensures var s := digits + tail; s != [] && IsDigit(s[0]) && ParseDigits(s, 0) == n
  {
    ParseAppend(digits, tail, 0);
    ParseStops(tail, n);
    assert (digits + tail)[0] == digits[0];
  }

  lemma PrintedDigits(n: nat, tail: string)
    requires n < 0x1_0000_0000 && (tail == [] || !IsDigit(tail[0]))
    ensures var s := Number(n) + tail; s != [] && IsDigit(s[0]) && ParseDigits(s, 0) == n
  {
    NumberValue(n);
    DigitsBefore(Number(n), n, tail);
  }

  /** White space and a sign before the number are read too; a number that does not fit an int is clamped. */
  lemma AtoiSigned(c: char, n: nat, tail: string)
    requires n < 0x1_0000_0000 && (tail == [] || !IsDigit(tail[0])) && IsSpace(c)
    ensures Atoi([c] + ("-" + (Number(n) + tail))) == if n <= INT_MAX + 1 then 0 - n else INT_MIN
    ensures Atoi([c] + ("+" + (Number(n) + tail))) == if n <= INT_MAX then n else INT_MAX
    ensures Atoi([c] + (Number(n) + tail)) == if n <= INT_MAX then n else INT_MAX
  {
    var digits := Number(n) + tail;
    PrintedDigits(n, tail);
    AtoiOfDigits(digits, n);
    LeadingSpace(c, "-" + digits);
    LeadingSpace(c, "+" + digits);
    LeadingSpace(c, digits);
  }

  lemma ParseStops(tail: string, acc: nat)
    requires tail == [] || !IsDigit(tail[0])
    ensures ParseDigits(tail, acc) == acc
  {
  }

  lemma TenDigits()
    ensures Pow10(10) == 10000000000
  {
    assert Pow10(5) == 100000;
    assert Pow10(8) == 1000 * Pow10(5);
  }
}
