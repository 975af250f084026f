/** Printing a CF_HTML document and parsing it again
    (src/core/clipboard_util_win.cpp:20-114). */
module CFHtmlRoundTrip {
  import opened StdString
  import opened CFHtml

  predicate MentionsHtmlTag(url: string)
    requires |url| < NPOS
  {
    Find(ToLower(url), "<html", 0) != NPOS
  }

  /** No newline, and no whitespace at either end. */
  predicate CleanUrl(url: string) {
    '\n' !in url && (url == [] || (!IsSpace(url[0]) && !IsSpace(url[|url| - 1])))
  }

  // ---- searching behind a known prefix ----

  lemma AtShift(a: string, b: string, pat: string, i: nat)
    ensures At(a + b, pat, |a| + i) <==> At(b, pat, i)
  {
    if i + |pat| <= |b| {
      assert (a + b)[|a| + i..|a| + i + |pat|] == b[i..i + |pat|];
    }
  }

  lemma FindShift(a: string, b: string, pat: string, from: nat)
    requires |a + b| < NPOS
    ensures Find(a + b, pat, |a| + from)
         == if Find(b, pat, from) == NPOS then NPOS else |a| + Find(b, pat, from)
  {
    var r := Find(b, pat, from);
    forall k: nat | |a| + from <= k && (r == NPOS || k < |a| + r) ensures !At(a + b, pat, k) {
      AtShift(a, b, pat, k - |a|);
    }
    if r != NPOS {
      AtShift(a, b, pat, r);
      FindIs(a + b, pat, |a| + from, |a| + r);
    }
  }

  /** The first match lies behind `a` if none starts inside it. */
  lemma FindBehind(a: string, b: string, pat: string)
    requires |a + b| < NPOS
    requires forall k :: 0 <= k < |a| ==> !At(a + b, pat, k)
    ensures Find(a + b, pat, 0) == if Find(b, pat, 0) == NPOS then NPOS else |a| + Find(b, pat, 0)
  {
    FindShift(a, b, pat, 0);
    var r := Find(a + b, pat, |a|);
    if r != NPOS { FindIs(a + b, pat, 0, r); }
  }

  // ---- the start of the markup ----

  lemma LowerShift(a: string, b: string)
    ensures ToLower(a + b) == ToLower(a) + ToLower(b)
  {
  }

  /** A tag in `url + "\r\n" + rest` that starts before the line break lies inside the url. */
  lemma TagInUrl(url: string, rest: string, k: nat)
    requires k < |url| + 2
    ensures At(ToLower(url + "\r\n" + rest), "<html", k) <==> At(ToLower(url), "<html", k)
  {
    var text := ToLower(url + "\r\n" + rest);
    if k + 5 <= |url| {
      assert text[k..k + 5] == ToLower(url)[k..k + 5];
    } else {
      var j := if k < |url| then |url| - k else 0;
      assert text[k + j] == (url + "\r\n" + rest)[k + j];
      Mismatch(text, "<html", k, j);
    }
  }

  /** The search for the html tag takes its letters in either case. */
  lemma TagInAnyCase(cf: string, k: nat)
    requires k + 5 <= |cf|
    ensures At(ToLower(cf), "<html", k)
       <==> && cf[k] == '<' && (cf[k + 1] == 'h' || cf[k + 1] == 'H') && (cf[k + 2] == 't' || cf[k + 2] == 'T')
            && (cf[k + 3] == 'm' || cf[k + 3] == 'M') && (cf[k + 4] == 'l' || cf[k + 4] == 'L')
  {
    var part := ToLower(cf)[k..k + 5];
    assert part == [LowerChar(cf[k]), LowerChar(cf[k + 1]), LowerChar(cf[k + 2]), LowerChar(cf[k + 3]),
                    LowerChar(cf[k + 4])];
    assert "<html" == ['<', 'h', 't', 'm', 'l'];
  }

  lemma NoTagInHeader(html: string, url: string, rest: string, k: nat)
    requires k < 105
    ensures !At(ToLower(Preamble(html, url) + rest), "<html", k)
  {
    var doc := Preamble(html, url) + rest;
    HeaderChar(StartHtmlOffset(url), EndHtmlOffset(html, url), StartFragmentOffset(url),
               EndFragmentOffset(html, url), k);
    Mismatch(ToLower(doc), "<html", k, 0);
  }

  lemma MarkupFollows(rest: string)
    requires |START + rest| < NPOS
    ensures Find(ToLower(START + rest), "<html", 0) == 0
  {
    var text := ToLower(START + rest);
    assert START[0..5] == "<html";
    assert text[0..5] == "<html" by {
      assert forall i :: 0 <= i < 5 ==> text[i] == LowerChar(START[i]);
    }
    FindIs(text, "<html", 0, 0);
  }

  /** The html starts where the printer says exactly if the url mentions no html tag; in any case it
      does not start later. */
  lemma HtmlStart(html: string, url: string)
    requires Printable(html, url)
    ensures var at := MarkupStart(Preamble(html, url) + START + html + END);
            && at <= StartHtmlOffset(url)
            && (at == StartHtmlOffset(url) <==> !MentionsHtmlTag(url))
  {
    DocumentSplit(html, url);
    MarkupFollows(html + END);
    MarkupBehind(html, url, START + (html + END));
  }

  lemma MarkupBehind(html: string, url: string, markup: string)
    requires |Preamble(html, url) + markup| < NPOS && Find(ToLower(markup), "<html", 0) == 0
    ensures var at := MarkupStart(Preamble(html, url) + markup);
            && at <= StartHtmlOffset(url)
            && (at == StartHtmlOffset(url) <==> !MentionsHtmlTag(url))
  {
    var b := Preamble(html, url);
    LowerShift(b, markup);
    AtShift(ToLower(b), ToLower(markup), "<html", 0);
    forall k | 0 <= k < 105 ensures !At(ToLower(b + markup), "<html", k) {
      NoTagInHeader(html, url, markup, k);
    }
    if url == [] {
      NothingInNothing();
      FindIs(ToLower(b + markup), "<html", 0, |b|);
    } else {
      TagBehindHeader(html, url, markup);
    }
  }

  lemma NothingInNothing()
    ensures !MentionsHtmlTag([])
  {
  }

  lemma TagBehindHeader(html: string, url: string, markup: string)
    requires url != [] && |Preamble(html, url) + markup| < NPOS
    requires Find(ToLower(markup), "<html", 0) == 0
    requires forall k :: 0 <= k < 105 ==> !At(ToLower(Preamble(html, url) + markup), "<html", k)
    ensures var at := Find(ToLower(Preamble(html, url) + markup), "<html", 0);
            at == StartHtmlOffset(url) <==> !MentionsHtmlTag(url)
  {
    var front := PreambleFront(html, url, markup);
    var back := (url + "\r\n") + markup;
    NoTagInPrefix(html, url, markup);
    LowerShift(front, back);
    FindBehind(ToLower(front), ToLower(back), "<html");
    TagInLine(url, markup);
  }

  lemma PrefixInDocument(html: string, url: string, rest: string, k: nat)
    requires url != [] && 105 <= k < 115
    ensures |Preamble(html, url) + rest| > k && (Preamble(html, url) + rest)[k] == URL_PREFIX[k - 105]
  {
  }

  lemma NoTagInPrefix(html: string, url: string, markup: string)
    requires url != []
    ensures forall k :: 105 <= k < 115 ==> !At(ToLower(Preamble(html, url) + markup), "<html", k)
  {
    forall k | 105 <= k < 115 ensures !At(ToLower(Preamble(html, url) + markup), "<html", k) {
      PrefixInDocument(html, url, markup, k);
      NoTagAtPrefix(Preamble(html, url) + markup, k);
    }
  }

  lemma NoTagAtPrefix(doc: string, k: nat)
    requires 105 <= k < 115 && k < |doc| && doc[k] == URL_PREFIX[k - 105]
    ensures !At(ToLower(doc), "<html", k)
  {
    assert forall i :: 0 <= i < 10 ==> URL_PREFIX[i] != '<';
    Mismatch(ToLower(doc), "<html", k, 0);
  }

  lemma TagInLine(url: string, markup: string)
    requires |url + "\r\n" + markup| < NPOS && Find(ToLower(markup), "<html", 0) == 0
    ensures var at := Find(ToLower(url + "\r\n" + markup), "<html", 0);
            at <= |url| + 2 && (at == |url| + 2 <==> !MentionsHtmlTag(url))
  {
    var line, back := url + "\r\n", ToLower(url + "\r\n" + markup);
    LowerShift(line, markup);
    AtShift(ToLower(line), ToLower(markup), "<html", 0);
    forall k | 0 <= k < |line| ensures At(back, "<html", k) <==> At(ToLower(url), "<html", k) {
      TagInUrl(url, markup, k);
    }
    if MentionsHtmlTag(url) {
      assert At(back, "<html", Find(ToLower(url), "<html", 0));
    } else {
      FindIs(back, "<html", 0, |line|);
    }
  }

  // ---- the url ----

  lemma NoUrlInHeader(html: string, url: string, rest: string, k: nat)
    requires k < 105
    ensures !At(Preamble(html, url) + rest, URL_PREFIX, k)
  {
    var doc, j := Preamble(html, url) + rest, if k < 99 then 6 else 0;
    HeaderChar(StartHtmlOffset(url), EndHtmlOffset(html, url), StartFragmentOffset(url),
               EndFragmentOffset(html, url), k + j);
    Mismatch(doc, URL_PREFIX, k, j);
  }

  lemma {:induction false} TrimLeftIdentity(s: string)
    ensures TrimLeft(s) == s <==> s == [] || !IsSpace(s[0])
  {
    if s != [] && IsSpace(s[0]) { assert |TrimLeft(s[1..])| < |s|; }
  }

  lemma TrimIdentity(s: string)
    ensures Trim(s) == s <==> s == [] || (!IsSpace(s[0]) && !IsSpace(s[|s| - 1]))
  {
    TrimLeftIdentity(s);
    if s != [] && IsSpace(s[|s| - 1]) {
      assert |TrimRight(s)| < |s|;
    }
  }

  lemma TrimReturn(s: string)
    ensures Trim(s + "\r") == Trim(s)
  {
    var t := s + "\r";
    assert IsSpace(t[|t| - 1]) && t[..|t| - 1] == s;
  }

  /** The first SourceURL of a printed document is the printed one. */
  lemma UrlFound(html: string, url: string, rest: string)
    requires url != [] && |Preamble(html, url) + rest| < NPOS
    ensures Find(Preamble(html, url) + rest, URL_PREFIX, 0) == 105
  {
    var doc := Preamble(html, url) + rest;
    forall k | 0 <= k < 105 ensures !At(doc, URL_PREFIX, k) { NoUrlInHeader(html, url, rest, k); }
    assert doc[105..115] == URL_PREFIX;
    FindIs(doc, URL_PREFIX, 0, 105);
  }

  /** The line behind it ends at the first newline of the url or else with the printed line break. */
  lemma UrlLineEnd(html: string, url: string, rest: string)
    requires url != [] && |Preamble(html, url) + rest| < NPOS
    ensures var n := Find(url + "\r\n", "\n", 0);
            && Find(Preamble(html, url) + rest, "\n", 105) == 115 + n
            && n < |url| + 2
            && (Preamble(html, url) + rest)[115..115 + n] == (url + "\r\n")[..n]
  {
    var line := url + "\r\n";
    var front := PreambleFront(html, url, rest);
    AtOneChar(line, '\n', |url| + 1);
    LineEnd(front, line, rest);
    NoNewlineInPrefix(html, url, rest);
  }

  /** Everything up to the url is 115 characters long. */
  lemma PreambleFront(html: string, url: string, rest: string) returns (front: string)
    requires url != []
    ensures |front| == 115 && Preamble(html, url) + rest == front + ((url + "\r\n") + rest)
  {
    var h := Header(StartHtmlOffset(url), EndHtmlOffset(html, url), StartFragmentOffset(url),
                    EndFragmentOffset(html, url));
    front := h + URL_PREFIX;
    Regroup(h, URL_PREFIX, url, "\r\n", rest);
  }

  lemma Regroup(a: string, b: string, c: string, d: string, e: string)
    ensures a + (b + c + d) + e == (a + b) + ((c + d) + e)
  {
  }

  lemma LineEnd(front: string, line: string, rest: string)
    requires |front + (line + rest)| < NPOS && Find(line, "\n", 0) != NPOS
    ensures var n := Find(line, "\n", 0);
            && Find(front + (line + rest), "\n", |front|) == |front| + n
            && n < |line|
            && (front + (line + rest))[|front|..|front| + n] == line[..n]
  {
    var n := Find(line, "\n", 0);
    AtOneChar(line, '\n', n);
    FirstNewline(line, rest, n);
    FindShift(front, line + rest, "\n", 0);
  }

  lemma NoNewlineInPrefix(html: string, url: string, rest: string)
    requires url != [] && |Preamble(html, url) + rest| < NPOS
    ensures var doc := Preamble(html, url) + rest; Find(doc, "\n", 105) == Find(doc, "\n", 115)
  {
    forall k | 105 <= k < 115 ensures !At(Preamble(html, url) + rest, "\n", k) {
      PrefixInDocument(html, url, rest, k);
      assert forall i :: 0 <= i < 10 ==> URL_PREFIX[i] != '\n';
      AtOneChar(Preamble(html, url) + rest, '\n', k);
    }
    SkipTo(Preamble(html, url) + rest, "\n", 105, 115);
  }

  lemma SkipTo(doc: string, pat: string, from: nat, to: nat)
    requires |doc| < NPOS && from <= to
    requires forall k :: from <= k < to ==> !At(doc, pat, k)
    ensures Find(doc, pat, from) == Find(doc, pat, to)
  {
    var r := Find(doc, pat, to);
    if r != NPOS { FindIs(doc, pat, from, r); }
  }

  lemma FirstNewline(line: string, rest: string, n: nat)
    requires |line + rest| < NPOS && n == Find(line, "\n", 0) != NPOS
    ensures Find(line + rest, "\n", 0) == n
  {
    AtOneChar(line, '\n', n);
    AtOneChar(line + rest, '\n', n);
    forall k | 0 <= k < n ensures !At(line + rest, "\n", k) {
      AtOneChar(line, '\n', k);
      AtOneChar(line + rest, '\n', k);
    }
    FindIs(line + rest, "\n", 0, n);
  }

  lemma NewlineInUrl(url: string)
    requires |url| + 2 < NPOS
    ensures var n := Find(url + "\r\n", "\n", 0);
            if '\n' in url then n < |url| else n == |url| + 1
  {
    if '\n' in url {
      NewlineFound(url);
    } else {
      NewlineNotFound(url);
    }
  }

  lemma NewlineFound(url: string)
    requires |url| + 2 < NPOS && '\n' in url
    ensures Find(url + "\r\n", "\n", 0) < |url|
  {
    var i :| 0 <= i < |url| && url[i] == '\n';
    AtOneChar(url + "\r\n", '\n', i);
  }

  lemma NewlineNotFound(url: string)
    requires |url| + 2 < NPOS && '\n' !in url
    ensures Find(url + "\r\n", "\n", 0) == |url| + 1
  {
    var line := url + "\r\n";
    forall k | 0 <= k < |url| + 1 ensures !At(line, "\n", k) { AtOneChar(line, '\n', k); }
    AtOneChar(line, '\n', |url| + 1);
    FindIs(line, "\n", 0, |url| + 1);
  }

  /** What the parser makes of the printed url. */
  lemma UrlExtracted(html: string, url: string, rest: string, before: string)
    requires url != [] && |Preamble(html, url) + rest| < NPOS
    ensures var n := Find(url + "\r\n", "\n", 0);
            n < |url| + 2 && ExtractUrl(Preamble(html, url) + rest, before) == Trim((url + "\r\n")[..n])
  {
    UrlFound(html, url, rest);
    UrlLineEnd(html, url, rest);
  }

  /** A non-empty url comes back unchanged exactly if it is clean. */
  lemma UrlReturned(html: string, url: string, rest: string, before: string)
    requires url != [] && |Preamble(html, url) + rest| < NPOS
    ensures ExtractUrl(Preamble(html, url) + rest, before) == url <==> CleanUrl(url)
  {
    UrlExtracted(html, url, rest, before);
    NewlineInUrl(url);
    TrimIdentity(url);
    if '\n' !in url {
      assert (url + "\r\n")[..|url| + 1] == url + "\r";
      TrimReturn(url);
    }
  }

  lemma NoUrlInStart(rest: string, k: nat)
    requires k < 36
    ensures !At(START + rest, URL_PREFIX, k)
  {
    assert forall i :: 0 <= i < 36 ==> (START[i] == 'S' <==> i == 20);
    assert START[21] == 't';
    Mismatch(START + rest, URL_PREFIX, k, if k == 20 then 1 else 0);
  }

  lemma NoNewUrlAtEnd(html: string, k: nat)
    ensures At(html + END, URL_PREFIX, k) <==> At(html, URL_PREFIX, k)
  {
    assert forall i :: 0 <= i < 36 ==> END[i] != 'S';
    assert forall i :: 0 <= i < 10 ==> URL_PREFIX[i] != '<';
    if k + 10 <= |html| {
      assert (html + END)[k..k + 10] == html[k..k + 10];
    } else {
      Mismatch(html + END, URL_PREFIX, k, if k < |html| then |html| - k else 0);
    }
  }

  /** Parsing leaves the url that the caller passes as it is, whatever it is. */
  ghost predicate LeavesUrl(cf: string)
    requires |cf| < NPOS
  {
    forall before: Metadata :: CFHtmlExtractMetadata(cf, before).baseUrl == before.baseUrl
  }

  /** Parsing yields this url, whatever the caller passes. */
  ghost predicate YieldsUrl(cf: string, url: string)
    requires |cf| < NPOS
  {
    forall before: Metadata :: CFHtmlExtractMetadata(cf, before).baseUrl == url
  }

  /** Without a url the parser leaves the caller's string alone exactly if the html does not itself
      contain the words "SourceURL:"; if it does, the result no longer depends on that string. */
  lemma NoUrlFound(html: string)
    requires html != [] && Printable(html, [])
    ensures LeavesUrl(HtmlToCFHtml(html, [])) <==> Find(html, URL_PREFIX, 0) == NPOS
    ensures Find(html, URL_PREFIX, 0) != NPOS ==> exists url :: YieldsUrl(HtmlToCFHtml(html, []), url)
  {
    UrlInDocument(html);
    var cf, front := HtmlToCFHtml(html, []), Preamble(html, []) + START + html;
    if Find(html, URL_PREFIX, 0) != NPOS {
      var url := ExtractUrl(front + END, []);
      forall before: Metadata ensures CFHtmlExtractMetadata(cf, before).baseUrl == url {
        UrlFoundIn(front, before.baseUrl, []);
      }
      assert YieldsUrl(cf, url);
      assert CFHtmlExtractMetadata(cf, Metadata(url + "/", 0, 0, 0)).baseUrl != url + "/";
    }
  }

  lemma EndLine()
    ensures |END| == 36 && END[19] == '\n' && forall i :: 0 <= i < 36 ==> END[i] != 'S'
  {
  }

  /** A url found in a printed text replaces whatever the caller passes, as END ends its line. */
  lemma UrlFoundIn(front: string, before: string, other: string)
    requires |front + END| < NPOS && Find(front + END, URL_PREFIX, 0) != NPOS
    ensures ExtractUrl(front + END, before) == ExtractUrl(front + END, other)
  {
    var doc, at := front + END, Find(front + END, URL_PREFIX, 0);
    EndLine();
    AtChar(doc, URL_PREFIX, at, 0);
    assert doc[|front| + 19] == END[19];
    AtOneChar(doc, '\n', |front| + 19);
  }

  lemma UrlInDocument(html: string)
    requires Printable(html, [])
    ensures Find(Preamble(html, []) + START + html + END, URL_PREFIX, 0) == NPOS
       <==> Find(html, URL_PREFIX, 0) == NPOS
  {
    DocumentSplit(html, []);
    var b, markup := Preamble(html, []), START + (html + END);
    forall k | 0 <= k < |b| ensures !At(b + markup, URL_PREFIX, k) { NoUrlInHeader(html, [], markup, k); }
    FindBehind(b, markup, URL_PREFIX);
    UrlInMarkup(html);
  }

  lemma UrlInMarkup(html: string)
    requires |START + (html + END)| < NPOS
    ensures Find(START + (html + END), URL_PREFIX, 0) == NPOS <==> Find(html, URL_PREFIX, 0) == NPOS
  {
    var back := html + END;
    forall k | 0 <= k < 36 ensures !At(START + back, URL_PREFIX, k) { NoUrlInStart(back, k); }
    FindBehind(START, back, URL_PREFIX);
    forall k: nat ensures At(back, URL_PREFIX, k) <==> At(html, URL_PREFIX, k) { NoNewUrlAtEnd(html, k); }
  }

  // ---- the offsets ----

  lemma PrintedFragment(html: string, url: string)
    ensures var doc := Preamble(html, url) + START + html + END;
            && |doc| == EndHtmlOffset(html, url)
            && doc[StartFragmentOffset(url)..EndFragmentOffset(html, url)] == html
  {
  }

  /** The round trip. For every non-empty html, whatever it contains: the end of the fragment is
      always found; html_start is the printed one exactly if the url mentions no html tag, and then
      so is the start of the fragment. */
  lemma RoundTrip(html: string, url: string, before: Metadata)
    requires html != [] && Printable(html, url)
    ensures var doc := HtmlToCFHtml(html, url);
            var m := CFHtmlExtractMetadata(doc, before);
            && m.fragmentEnd == EndFragmentOffset(html, url)
            && (m.htmlStart == StartHtmlOffset(url) <==> !MentionsHtmlTag(url))
            && (!MentionsHtmlTag(url) ==>
                  m.fragmentStart == StartFragmentOffset(url) && doc[m.fragmentStart..m.fragmentEnd] == html)
  {
    var doc := HtmlToCFHtml(html, url);
    PrintedFragment(html, url);
    HtmlStart(html, url);
    FragmentExtracted(html, url, MarkupStart(doc), before);
  }

  /** What the comment scan yields from any start up to the printed start of the markup. */
  lemma FragmentExtracted(html: string, url: string, markupStart: nat, before: Metadata)
    requires Printable(html, url) && markupStart <= StartHtmlOffset(url)
    ensures var f := ExtractFragment(Preamble(html, url) + START + html + END, markupStart,
                                     before.fragmentStart, before.fragmentEnd);
            && f.1 == EndFragmentOffset(html, url)
            && markupStart <= f.0 <= StartFragmentOffset(url)
            && (markupStart == StartHtmlOffset(url) ==> f.0 == StartFragmentOffset(url))
  {
    FragmentScan(Preamble(html, url), html);
    FragmentFrom(Preamble(html, url) + START + html + END, StartHtmlOffset(url), EndFragmentOffset(html, url),
                 markupStart, before);
  }

  /** The scan in terms of what its searches find. */
  lemma ScannedFragment(doc: string, from: nat, tagStart: nat, tagEnd: nat, before: nat, before': nat)
    requires |doc| < NPOS && Find(doc, "<!--StartFragment", from) == tagStart != NPOS
    requires Find(doc, ">", tagStart) == tagEnd != NPOS
    ensures ExtractFragment(doc, from, before, before')
         == (tagEnd + 1, RFind(doc, "<", RFind(doc, "<!--EndFragment", NPOS)))
  {
    assert SizeAdd(tagEnd, 1) == tagEnd + 1;
  }

  lemma FragmentFrom(doc: string, at: nat, end: nat, markupStart: nat, before: Metadata)
    requires |doc| < NPOS && markupStart <= at && at + 36 <= |doc|
    requires Find(doc, "<!--StartFragment", at) == at + 16 && Find(doc, ">", at + 16) == at + 35
    requires RFind(doc, "<!--EndFragment", NPOS) == end && RFind(doc, "<", end) == end
    ensures var f := ExtractFragment(doc, markupStart, before.fragmentStart, before.fragmentEnd);
            && f.1 == end
            && markupStart <= f.0 <= at + 36
            && (markupStart == at ==> f.0 == at + 36)
  {
    TagFound(doc, at, markupStart);
    var tagStart := Find(doc, "<!--StartFragment", markupStart);
    ScannedFragment(doc, markupStart, tagStart, Find(doc, ">", tagStart), before.fragmentStart, before.fragmentEnd);
  }

  /** A non-empty url is returned unchanged exactly if it is clean. */
  lemma UrlRoundTrip(html: string, url: string, before: Metadata)
    requires html != [] && url != [] && Printable(html, url)
    ensures CFHtmlExtractMetadata(HtmlToCFHtml(html, url), before).baseUrl == url <==> CleanUrl(url)
  {
    DocumentSplit(html, url);
    UrlReturned(html, url, START + html + END, before.baseUrl);
  }

  lemma DocumentSplit(html: string, url: string)
    ensures Preamble(html, url) + START + html + END == Preamble(html, url) + (START + html + END)
    ensures Preamble(html, url) + START + html + END == Preamble(html, url) + (START + (html + END))
  {
    Associate(Preamble(html, url), START, html, END);
  }

  lemma Associate(a: string, b: string, c: string, d: string)
    ensures a + b + c + d == a + (b + c + d) == a + (b + (c + d))
  {
  }

  /** The comment is found, and not behind the printed one, even if the url contains another. */
  lemma TagFound(doc: string, at: nat, markupStart: nat)
    requires |doc| < NPOS && markupStart <= at
    requires At(doc, "<!--StartFragment", at + 16) && At(doc, ">", at + 35)
    ensures var tagStart := Find(doc, "<!--StartFragment", markupStart);
            && markupStart <= tagStart <= at + 16
            && tagStart <= Find(doc, ">", tagStart) <= at + 35
  {
  }

  // ---- the decimal header ----

  lemma NumberAt(s: string, k: nat, n: nat)
    requires n <= StdString.INT_MAX && k + 10 < |s|
    requires forall i :: 0 <= i < 10 ==> s[k + i] == Number(n)[i]
    requires !IsDigit(s[k + 10])
    ensures ToSize(Atoi(s[k..])) == n
  {
    assert s[k..] == Number(n) + s[k + 10..];
    AtoiOfNumber(n, s[k + 10..]);
  }

  lemma AtFromChars(s: string, pat: string, i: nat)
    requires i + |pat| <= |s| && forall j :: 0 <= j < |pat| ==> pat[j] == s[i + j]
    ensures At(s, pat, i)
  {
  }

  /** The number behind the name at position `at`, when no match starts earlier. */
  lemma NumberBehind(s: string, name: string, at: nat, n: nat, before: nat)
    requires |s| < NPOS && n <= StdString.INT_MAX && at + |name| + 10 < |s|
    requires forall j :: 0 <= j < |name| ==> name[j] == s[at + j]
    requires forall i :: 0 <= i < 10 ==> Number(n)[i] == s[at + |name| + i]
    requires s[at + |name| + 10] == '\r'
    requires forall k :: 0 <= k < at ==> !At(s, name, k)
    ensures ReadNumber(s, name, before) == n
  {
    AtFromChars(s, name, at);
    FindIs(s, name, 0, at);
    NumberAt(s, at + |name|, n);
  }

  /** The zero-padded numbers of the header agree with the offsets of the markup, as long as these
      fit an int. */
  lemma HeaderNumbers(html: string, url: string, rest: string, before: nat)
    requires StartHtmlOffset(url) + |rest| < NPOS && EndHtmlOffset(html, url) <= StdString.INT_MAX
    ensures var doc := Preamble(html, url) + rest;
            && ReadNumber(doc, "StartHTML:", before) == StartHtmlOffset(url)
            && ReadNumber(doc, "EndHTML:", before) == EndHtmlOffset(html, url)
            && ReadNumber(doc, "StartFragment:", before) == StartFragmentOffset(url)
            && ReadNumber(doc, "EndFragment:", before) == EndFragmentOffset(html, url)
  {
    var a, b := StartHtmlOffset(url), EndHtmlOffset(html, url);
    var c, d := StartFragmentOffset(url), EndFragmentOffset(html, url);
    var tail := SourceLine(url) + rest;
    AppendTwice(Header(a, b, c, d), SourceLine(url), rest);
    StartHtmlRead(a, b, c, d, tail, before);
    EndHtmlRead(a, b, c, d, tail, before);
    StartFragmentRead(a, b, c, d, tail, before);
    EndFragmentRead(a, b, c, d, tail, before);
  }

  /** On a printed document the numbers name what the comment scan finds, and the end of the html is
      the end of the document; only a url that mentions an html tag makes them differ in where the
      html starts, and perhaps in where the fragment does. */
  lemma HeaderAgreesWithScan(html: string, url: string, before: Metadata)
    requires html != [] && EndHtmlOffset(html, url) <= StdString.INT_MAX
    ensures var doc := HtmlToCFHtml(html, url);
            var m := CFHtmlExtractMetadata(doc, before);
            && |doc| == ReadNumber(doc, "EndHTML:", 0)
            && m.fragmentEnd == ReadNumber(doc, "EndFragment:", 0)
            && (m.htmlStart == ReadNumber(doc, "StartHTML:", 0) <==> !MentionsHtmlTag(url))
            && (!MentionsHtmlTag(url) ==> m.fragmentStart == ReadNumber(doc, "StartFragment:", 0))
  {
    RoundTrip(html, url, before);
    DocumentSplit(html, url);
    PrintedFragment(html, url);
    HeaderNumbers(html, url, START + html + END, 0);
  }

  /** A document with a printed header but without the comments, as another program may write it, is
      read by its numbers. */
  lemma FallbackReadsNumbers(html: string, url: string, rest: string, before: Metadata)
    requires |Preamble(html, url) + rest| < NPOS && EndHtmlOffset(html, url) <= StdString.INT_MAX
    requires Find(Preamble(html, url) + rest, "<!--StartFragment", 0) == NPOS
    ensures var m := CFHtmlExtractMetadata(Preamble(html, url) + rest, before);
            m.fragmentStart == StartFragmentOffset(url) && m.fragmentEnd == EndFragmentOffset(html, url)
  {
    var doc := Preamble(html, url) + rest;
    FallbackNumbers(html, url, rest, before);
    NoneLater(doc, "<!--StartFragment", MarkupStart(doc));
    WithoutComments(doc, MarkupStart(doc), before.fragmentStart, before.fragmentEnd);
  }

  lemma FallbackNumbers(html: string, url: string, rest: string, before: Metadata)
    requires StartHtmlOffset(url) + |rest| < NPOS && EndHtmlOffset(html, url) <= StdString.INT_MAX
    ensures ReadNumber(Preamble(html, url) + rest, "StartFragment:", before.fragmentStart) == StartFragmentOffset(url)
    ensures ReadNumber(Preamble(html, url) + rest, "EndFragment:", before.fragmentEnd) == EndFragmentOffset(html, url)
  {
    HeaderNumbers(html, url, rest, before.fragmentStart);
    HeaderNumbers(html, url, rest, before.fragmentEnd);
  }

  lemma NoneLater(s: string, pat: string, from: nat)
    requires |s| < NPOS && Find(s, pat, 0) == NPOS
    ensures Find(s, pat, from) == NPOS
  {
  }

  lemma WithoutComments(doc: string, markupStart: nat, fragmentStart: nat, fragmentEnd: nat)
    requires |doc| < NPOS && Find(doc, "<!--StartFragment", markupStart) == NPOS
    ensures ExtractFragment(doc, markupStart, fragmentStart, fragmentEnd)
         == (ReadNumber(doc, "StartFragment:", fragmentStart), ReadNumber(doc, "EndFragment:", fragmentEnd))
  {
  }

  lemma StartHtmlRead(a: nat, b: nat, c: nat, d: nat, tail: string, before: nat)
    requires a <= StdString.INT_MAX && |tail| + 105 < NPOS
    ensures ReadNumber(Header(a, b, c, d) + tail, "StartHTML:", before) == a
  {
    var doc := Header(a, b, c, d) + tail;
    Names();
    forall k | 0 <= k < 13 ensures !At(doc, "StartHTML:", k) {
      HeaderChar(a, b, c, d, k);
      Mismatch(doc, "StartHTML:", k, 0);
    }
    forall k | 13 <= k < 34
      ensures doc[k] == if k < 23 then P0[k] else if k < 33 then Number(a)[k - 23] else P1[k - 33]
    {
      HeaderAt(a, b, c, d, k);
    }
    NumberBehind(doc, "StartHTML:", 13, a, before);
  }

  lemma EndHtmlRead(a: nat, b: nat, c: nat, d: nat, tail: string, before: nat)
    requires b <= StdString.INT_MAX && |tail| + 105 < NPOS
    ensures ReadNumber(Header(a, b, c, d) + tail, "EndHTML:", before) == b
  {
    var doc := Header(a, b, c, d) + tail;
    Names();
    forall k | 0 <= k < 35 ensures !At(doc, "EndHTML:", k) {
      HeaderChar(a, b, c, d, k);
      Mismatch(doc, "EndHTML:", k, 0);
    }
    forall k | 35 <= k < 54
      ensures doc[k] == if k < 43 then P1[k - 33] else if k < 53 then Number(b)[k - 43] else P2[k - 53]
    {
      HeaderAt(a, b, c, d, k);
    }
    NumberBehind(doc, "EndHTML:", 35, b, before);
  }

  lemma NotStartFragment(a: nat, b: nat, c: nat, d: nat, tail: string, k: nat)
    requires k < 55
    ensures !At(Header(a, b, c, d) + tail, "StartFragment:", k)
  {
    HeaderChar(a, b, c, d, if k == 13 then 18 else k);
    Mismatch(Header(a, b, c, d) + tail, "StartFragment:", k, if k == 13 then 5 else 0);
  }

  lemma StartFragmentRead(a: nat, b: nat, c: nat, d: nat, tail: string, before: nat)
    requires c <= StdString.INT_MAX && |tail| + 105 < NPOS
    ensures ReadNumber(Header(a, b, c, d) + tail, "StartFragment:", before) == c
  {
    var doc := Header(a, b, c, d) + tail;
    Names();
    forall k | 0 <= k < 55 ensures !At(doc, "StartFragment:", k) { NotStartFragment(a, b, c, d, tail, k); }
    forall k | 55 <= k < 80
      ensures doc[k] == if k < 69 then P2[k - 53] else if k < 79 then Number(c)[k - 69] else P3[k - 79]
    {
      HeaderAt(a, b, c, d, k);
    }
    NumberBehind(doc, "StartFragment:", 55, c, before);
  }

  lemma NotEndFragment(a: nat, b: nat, c: nat, d: nat, tail: string, k: nat)
    requires k < 81
    ensures !At(Header(a, b, c, d) + tail, "EndFragment:", k)
  {
    HeaderChar(a, b, c, d, if k == 35 then 38 else k);
    Mismatch(Header(a, b, c, d) + tail, "EndFragment:", k, if k == 35 then 3 else 0);
  }

  lemma EndFragmentRead(a: nat, b: nat, c: nat, d: nat, tail: string, before: nat)
    requires d <= StdString.INT_MAX && |tail| + 105 < NPOS
    ensures ReadNumber(Header(a, b, c, d) + tail, "EndFragment:", before) == d
  {
    var doc := Header(a, b, c, d) + tail;
    Names();
    forall k | 0 <= k < 81 ensures !At(doc, "EndFragment:", k) { NotEndFragment(a, b, c, d, tail, k); }
    forall k | 81 <= k < 104
      ensures doc[k] == if k < 93 then P3[k - 79] else if k < 103 then Number(d)[k - 93] else P4[k - 103]
    {
      HeaderAt(a, b, c, d, k);
    }
    NumberBehind(doc, "EndFragment:", 81, d, before);
  }

  /** The names end the pieces between the numbers. */
  lemma Names()
    ensures forall j :: 0 <= j < 10 ==> "StartHTML:"[j] == P0[13 + j]
    ensures forall j :: 0 <= j < 8 ==> "EndHTML:"[j] == P1[2 + j]
    ensures forall j :: 0 <= j < 14 ==> "StartFragment:"[j] == P2[2 + j]
    ensures forall j :: 0 <= j < 12 ==> "EndFragment:"[j] == P3[2 + j]
    ensures P1[0] == P2[0] == P3[0] == P4[0] == '\r'
  {
  }

  // ---- the text ----

  lemma Pieces(a: string, b: string, c: string, d: string, e: string)
    ensures a + (b + c + d) + e == a + b + c + d + e
  {
  }

  lemma HeaderText(a: nat, b: nat, c: nat, d: nat)
    ensures Header(a, b, c, d)
         == "Version:0.9\r\nStartHTML:" + Number(a) + "\r\nEndHTML:" + Number(b)
          + "\r\nStartFragment:" + Number(c) + "\r\nEndFragment:" + Number(d) + "\r\n"
  {
  }

  lemma MarkupText(front: string, html: string)
    ensures front + START + html + END
         == front + "<html>\r\n<body>\r\n<!--StartFragment-->" + html + "<!--EndFragment-->\r\n</body>\r\n</html>"
  {
  }

  /** The text of a document with a source url, the offsets counted from its beginning. */
  lemma PrintedText(html: string, url: string)
    requires html != [] && url != []
    ensures HtmlToCFHtml(html, url)
         == Header(117 + |url|, 117 + |url| + 36 + |html| + 36, 117 + |url| + 36, 117 + |url| + 36 + |html|)
          + "SourceURL:" + url + "\r\n"
          + "<html>\r\n<body>\r\n<!--StartFragment-->" + html + "<!--EndFragment-->\r\n</body>\r\n</html>"
  {
    var header := Header(StartHtmlOffset(url), EndHtmlOffset(html, url), StartFragmentOffset(url),
                         EndFragmentOffset(html, url));
    Pieces(header, URL_PREFIX, url, "\r\n", START);
    MarkupText(header + URL_PREFIX + url + "\r\n", html);
  }
}
