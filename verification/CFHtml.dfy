/** Microsoft's CF_HTML clipboard format: its printer and its parser
    (src/core/clipboard_util_win.cpp:20-114). */
module CFHtml {
  import opened StdString

  const START := "<html>\r\n<body>\r\n<!--StartFragment-->"
  const END := "<!--EndFragment-->\r\n</body>\r\n</html>"
  const URL_PREFIX := "SourceURL:"

  const P0 := "Version:0.9\r\nStartHTML:"
  const P1 := "\r\nEndHTML:"
  const P2 := "\r\nStartFragment:"
  const P3 := "\r\nEndFragment:"
  const P4 := "\r\n"

  /** The description header with its four offsets. */
  function Header(startHtml: nat, endHtml: nat, startFragment: nat, endFragment: nat): (r: string)
    ensures |r| == 105
  {
    P0 + Number(startHtml) + P1 + Number(endHtml) + P2 + Number(startFragment) + P3 + Number(endFragment) + P4
  }

  function SourceLine(url: string): string {
    if url == [] then [] else URL_PREFIX + url + "\r\n"
  }

  function StartHtmlOffset(url: string): nat {
    105 + if url == [] then 0 else |URL_PREFIX| + |url| + 2
  }

  function StartFragmentOffset(url: string): nat {
    StartHtmlOffset(url) + |START|
  }

  function EndFragmentOffset(html: string, url: string): nat {
    StartFragmentOffset(url) + |html|
  }

  function EndHtmlOffset(html: string, url: string): nat {
    EndFragmentOffset(html, url) + |END|
  }

  /** The document is not too long for a C++ string. */
  predicate Printable(html: string, url: string) {
    EndHtmlOffset(html, url) < NPOS
  }

  /** Everything before the markup. */
  function Preamble(html: string, url: string): (r: string)
    ensures |r| == StartHtmlOffset(url)
  {
    Header(StartHtmlOffset(url), EndHtmlOffset(html, url), StartFragmentOffset(url), EndFragmentOffset(html, url))
    + SourceLine(url)
  }

  function HtmlToCFHtml(html: string, url: string): (r: string)
    ensures |r| == if html == [] then 0 else EndHtmlOffset(html, url)
  {
    if html == [] then [] else Preamble(html, url) + START + html + END
  }

  /** The out-parameters of the parser; the caller passes what they hold before the call. */
  datatype Metadata = Metadata(baseUrl: string, htmlStart: nat, fragmentStart: nat, fragmentEnd: nat)

  /** Lines 72-83. */
  function ExtractUrl(cf: string, before: string): string
    requires |cf| < NPOS
  {
    var lineStart := Find(cf, URL_PREFIX, 0);
    if lineStart == NPOS then before
    else
      var srcEnd := Find(cf, "\n", lineStart);
      var srcStart := lineStart + |URL_PREFIX|;
      if srcEnd == NPOS then before
      else
        NewlineAfterPrefix(cf, lineStart, srcEnd);
        Trim(cf[srcStart..srcEnd])
  }

  lemma NewlineAfterPrefix(cf: string, lineStart: nat, srcEnd: nat)
    requires At(cf, URL_PREFIX, lineStart) && lineStart <= srcEnd && At(cf, "\n", srcEnd)
    ensures lineStart + |URL_PREFIX| <= srcEnd <= |cf|
  {
    assert forall i :: 0 <= i < |URL_PREFIX| ==> URL_PREFIX[i] != '\n';
    AtChar(cf, "\n", srcEnd, 0);
    if srcEnd < lineStart + |URL_PREFIX| {
      AtChar(cf, URL_PREFIX, lineStart, srcEnd - lineStart);
    }
  }

  /** What atoi reads behind the first occurrence of `name`. */
  function ReadNumber(cf: string, name: string, before: nat): nat
    requires |cf| < NPOS
  {
    var at := Find(cf, name, 0);
    if at == NPOS then before else ToSize(Atoi(cf[at + |name|..]))
  }

  /** Lines 94-113: the comments, or else the numbers of the header. */
  function ExtractFragment(cf: string, markupStart: nat, fragmentStart: nat, fragmentEnd: nat): (nat, nat)
    requires |cf| < NPOS
  {
    var tagStart := Find(cf, "<!--StartFragment", markupStart);
    if tagStart == NPOS then
      (ReadNumber(cf, "StartFragment:", fragmentStart), ReadNumber(cf, "EndFragment:", fragmentEnd))
    else
      var tagEnd := RFind(cf, "<!--EndFragment", NPOS);
      (SizeAdd(Find(cf, ">", tagStart), 1), RFind(cf, "<", tagEnd))
  }

  function MarkupStart(cf: string): nat
    requires |cf| < NPOS
  {
    Find(ToLower(cf), "<html", 0)
  }

  function CFHtmlExtractMetadata(cf: string, before: Metadata): Metadata
    requires |cf| < NPOS
  {
    var f := ExtractFragment(cf, MarkupStart(cf), before.fragmentStart, before.fragmentEnd);
    Metadata(ExtractUrl(cf, before.baseUrl), MarkupStart(cf), f.0, f.1)
  }

  // ---- the markup part of a printed document ----

  lemma StartChars()
    ensures |START| == 36
    ensures forall o :: 0 <= o < 16 ==> START[o] != '<' || START[o + 1] != '!'
    ensures At(START, "<!--StartFragment", 16)
    ensures forall o :: 16 <= o < 35 ==> START[o] != '>'
    ensures START[35] == '>'
  {
    assert START[16..33] == "<!--StartFragment";
  }

  lemma EndChars()
    ensures |END| == 36
    ensures At(END, "<!--EndFragment", 0)
    ensures forall o :: 0 < o < 35 ==> END[o] != '<' || END[o + 1] != '!'
    ensures END[35] == '>' && END[0] == '<'
  {
    assert END[0..15] == "<!--EndFragment";
  }

  /** A match inside a piece of a longer text. */
  lemma AtInside(a: string, b: string, c: string, pat: string, i: nat)
    requires At(b, pat, i)
    ensures At(a + b + c, pat, |a| + i)
  {
    assert (a + b + c)[|a| + i..|a| + i + |pat|] == b[i..i + |pat|];
  }

  /** The comment scan from the start of the markup, whatever precedes it and whatever the html
      contains. */
  lemma FragmentScan(b: string, html: string)
    requires |b + START + html + END| < NPOS
    ensures var doc := b + START + html + END;
            && Find(doc, "<!--StartFragment", |b|) == |b| + 16
            && Find(doc, ">", |b| + 16) == |b| + 35
            && RFind(doc, "<!--EndFragment", NPOS) == |b| + 36 + |html|
            && RFind(doc, "<", |b| + 36 + |html|) == |b| + 36 + |html|
  {
    ScanStart(b, html + END);
    AppendTwice(b + START, html, END);
    ScanEnd(b + START + html);
  }

  lemma AppendTwice(a: string, b: string, c: string)
    ensures a + b + c == a + (b + c)
  {
  }

  lemma ScanStart(b: string, rest: string)
    requires |b + START + rest| < NPOS
    ensures var doc := b + START + rest;
            && Find(doc, "<!--StartFragment", |b|) == |b| + 16
            && Find(doc, ">", |b| + 16) == |b| + 35
  {
    var doc := b + START + rest;
    StartChars();
    AtInside(b, START, rest, "<!--StartFragment", 16);
    forall k | |b| <= k < |b| + 16 ensures !At(doc, "<!--StartFragment", k) {
      assert doc[k] == START[k - |b|] && doc[k + 1] == START[k - |b| + 1];
      Mismatch(doc, "<!--StartFragment", k, if doc[k] != '<' then 0 else 1);
    }
    FindIs(doc, "<!--StartFragment", |b|, |b| + 16);
    forall k | |b| + 16 <= k < |b| + 35 ensures !At(doc, ">", k) {
      assert doc[k] == START[k - |b|];
      Mismatch(doc, ">", k, 0);
    }
    assert doc[|b| + 35] == START[35];
    FindIs(doc, ">", |b| + 16, |b| + 35);
  }

  lemma ScanEnd(front: string)
    requires |front + END| < NPOS
    ensures RFind(front + END, "<!--EndFragment", NPOS) == RFind(front + END, "<", |front|) == |front|
  {
    var doc := front + END;
    EndChars();
    AtInside(front, END, [], "<!--EndFragment", 0);
    assert front + END + [] == doc;
    forall k | |front| < k <= NPOS ensures !At(doc, "<!--EndFragment", k) {
      if k < |doc| - 1 {
        assert doc[k] == END[k - |front|] && doc[k + 1] == END[k - |front| + 1];
        Mismatch(doc, "<!--EndFragment", k, if doc[k] != '<' then 0 else 1);
      }
    }
    RFindIs(doc, "<!--EndFragment", NPOS, |front|);
    assert doc[|front|] == END[0];
    RFindIs(doc, "<", |front|, |front|);
  }

  /** A document whose comment is not closed, or that has no closing comment: what the sums and searches with npos
      make of it. */
  lemma ScanWithoutEnds(cf: string, from: nat, fragmentStart: nat, fragmentEnd: nat)
    requires |cf| < NPOS && Find(cf, "<!--StartFragment", from) != NPOS
    ensures var f := ExtractFragment(cf, from, fragmentStart, fragmentEnd);
            && (Find(cf, ">", Find(cf, "<!--StartFragment", from)) == NPOS ==> f.0 == 0)
            && (RFind(cf, "<!--EndFragment", NPOS) == NPOS ==> f.1 == RFind(cf, "<", NPOS) != NPOS)
  {
    var at := Find(cf, "<!--StartFragment", from);
    AtChar(cf, "<!--StartFragment", at, 0);
    AtOneChar(cf, '<', at);
  }

  /** A line of the url that does not end, and offsets that are not given, leave the caller's values. */
  lemma NothingExtracted(cf: string, before: Metadata)
    requires |cf| < NPOS
    ensures Find(cf, URL_PREFIX, 0) != NPOS && Find(cf, "\n", Find(cf, URL_PREFIX, 0)) == NPOS ==>
              ExtractUrl(cf, before.baseUrl) == before.baseUrl
    ensures Find(cf, "<!--StartFragment", MarkupStart(cf)) == NPOS && Find(cf, "StartFragment:", 0) == NPOS ==>
              CFHtmlExtractMetadata(cf, before).fragmentStart == before.fragmentStart
    ensures Find(cf, "<!--StartFragment", MarkupStart(cf)) == NPOS && Find(cf, "EndFragment:", 0) == NPOS ==>
              CFHtmlExtractMetadata(cf, before).fragmentEnd == before.fragmentEnd
  {
  }

  // ---- the header ----

  /** No character of `s` is `c`. */
  predicate Lacks(s: string, c: char) {
    forall i :: 0 <= i < |s| ==> s[i] != c
  }

  lemma PieceChars()
    ensures |P0| == 23 && |P1| == 10 && |P2| == 16 && |P3| == 14 && |P4| == 2
    ensures Lacks(P0, '<') && Lacks(P1, '<') && Lacks(P2, '<') && Lacks(P3, '<') && Lacks(P4, '<')
    ensures Lacks(P0, 'U') && Lacks(P1, 'U') && Lacks(P2, 'U') && Lacks(P3, 'U') && Lacks(P4, 'U')
    ensures forall i :: 0 <= i < 23 ==> (P0[i] == 'S' <==> i == 13) && P0[i] != 'E'
    ensures forall i :: 0 <= i < 10 ==> (P1[i] == 'E' <==> i == 2) && P1[i] != 'S'
    ensures forall i :: 0 <= i < 16 ==> (P2[i] == 'S' <==> i == 2) && P2[i] != 'E'
    ensures forall i :: 0 <= i < 14 ==> (P3[i] == 'E' <==> i == 2) && P3[i] != 'S'
    ensures P0[18] == 'H' && P1[5] == 'H'
  {
  }

  lemma HeaderAt(a: nat, b: nat, c: nat, d: nat, k: nat)
    requires k < 105
    ensures Header(a, b, c, d)[k] ==
            if k < 23 then P0[k] else if k < 33 then Number(a)[k - 23]
            else if k < 43 then P1[k - 33] else if k < 53 then Number(b)[k - 43]
            else if k < 69 then P2[k - 53] else if k < 79 then Number(c)[k - 69]
            else if k < 93 then P3[k - 79] else if k < 103 then Number(d)[k - 93]
            else P4[k - 103]
  {
  }

  /** Where each kind of character stands in a header. */
  lemma HeaderChar(a: nat, b: nat, c: nat, d: nat, k: nat)
    requires k < 105
    ensures var x := Header(a, b, c, d)[k];
            && x != '<' && x != 'U'
            && (x == 'S' <==> k == 13 || k == 55)
            && (x == 'E' <==> k == 35 || k == 81)
            && (k == 18 || k == 38 ==> x == 'H')
  {
    PieceChars();
    HeaderAt(a, b, c, d, k);
  }
}
