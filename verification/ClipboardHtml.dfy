/** The Windows branches of ClipboardQt::WriteHTML and ClipboardQt::ReadHTML for ASCII text
    (src/core/clipboard_qt.cpp:154-168 and 279-316). */
module ClipboardHtml {
  import opened Wrappers
  import opened StdString
  import opened CFHtml
  import opened CFHtmlRoundTrip

  const UNSET := Metadata([], NPOS, NPOS, NPOS)

  /** The two DCHECKs of lines 164-166. */
  predicate WriteChecks(m: Metadata) {
    && m.fragmentStart != NPOS && m.fragmentEnd != NPOS && m.htmlStart != NPOS
    && m.htmlStart <= m.fragmentStart <= m.fragmentEnd
  }

  /** The checks hold for every source url, whatever it contains, unless there is no markup. */
  lemma WriteChecksHold(markup: string, url: string)
    requires Printable(markup, url)
    ensures WriteChecks(CFHtmlExtractMetadata(HtmlToCFHtml(markup, url), UNSET)) <==> markup != []
  {
    if markup != [] {
      HtmlStart(markup, url);
      FragmentExtracted(markup, url, MarkupStart(HtmlToCFHtml(markup, url)), UNSET);
    } else {
      EmptyText();
    }
  }

  lemma EmptyText()
    ensures CFHtmlExtractMetadata([], UNSET).htmlStart == NPOS
  {
    assert ToLower([]) == [];
  }

  /** A C string ends at the first NUL. */
  function UpToNul(s: string): (r: string)
    ensures r <= s && '\0' !in r
    ensures r == s || s[|r|] == '\0'
  {
    if s == [] || s[0] == '\0' then [] else [s[0]] + UpToNul(s[1..])
  }

  /** An offset past the end of the converted text becomes npos. */
  function LimitOffset(offset: nat, length: nat): nat {
    if offset > length then NPOS else offset
  }

  function Min(a: nat, b: nat): nat {
    if a < b then a else b
  }

  datatype Html = Html(markup: string, srcUrl: string, fragmentStart: nat, fragmentEnd: nat)

  /** What ReadHTML leaves in its out-parameters; `mime` is the html of the clipboard, if any. */
  function Read(mime: Option<string>): (r: Html)
    requires mime.Some? ==> |mime.value| < NPOS
    ensures 0 <= r.fragmentStart <= r.fragmentEnd <= |r.markup|
  {
    if mime.None? then Html([], [], 0, 0)
    else ReadMetadata(mime.value, CFHtmlExtractMetadata(mime.value, UNSET))
  }

  /** Lines 302-316. */
  function ReadMetadata(cf: string, m: Metadata): (r: Html)
    requires m.htmlStart == NPOS || m.htmlStart <= |cf|
    ensures 0 <= r.fragmentStart <= r.fragmentEnd <= |r.markup|
  {
    if m.fragmentStart == NPOS || m.fragmentEnd == NPOS || m.htmlStart == NPOS then Html([], m.baseUrl, 0, 0)
    else if m.fragmentStart < m.htmlStart || m.fragmentEnd < m.fragmentStart then Html([], m.baseUrl, 0, 0)
    else
      var markup := UpToNul(cf[m.htmlStart..]);
      var end := Min(LimitOffset(m.fragmentEnd - m.htmlStart, |markup|), |markup|);
      Html(markup, m.baseUrl, Min(LimitOffset(m.fragmentStart - m.htmlStart, |markup|), end), end)
  }

  function Fragment(r: Html): string
    requires r.fragmentStart <= r.fragmentEnd <= |r.markup|
  {
    r.markup[r.fragmentStart..r.fragmentEnd]
  }

  /** CFHtmlExtractMetadata with its out-parameters written one by one; `before` is what they hold. */
  method ExtractMetadata(cfHtml: string, before: Metadata)
    returns (baseUrl: string, htmlStart: nat, fragmentStart: nat, fragmentEnd: nat)
    requires |cfHtml| < NPOS
    ensures Metadata(baseUrl, htmlStart, fragmentStart, fragmentEnd) == CFHtmlExtractMetadata(cfHtml, before)
  {
    baseUrl, fragmentStart, fragmentEnd := before.baseUrl, before.fragmentStart, before.fragmentEnd;
    var lineStart := Find(cfHtml, URL_PREFIX, 0);
    if lineStart != NPOS {
      var srcEnd := Find(cfHtml, "\n", lineStart);
      var srcStart := lineStart + |URL_PREFIX|;
      if srcEnd != NPOS {
        NewlineAfterPrefix(cfHtml, lineStart, srcEnd);
        baseUrl := Trim(cfHtml[srcStart..srcEnd]);
      }
    }
    htmlStart := Find(ToLower(cfHtml), "<html", 0);
    var tagStart := Find(cfHtml, "<!--StartFragment", htmlStart);
    if tagStart == NPOS {
      fragmentStart := ReadNumber(cfHtml, "StartFragment:", fragmentStart);
      fragmentEnd := ReadNumber(cfHtml, "EndFragment:", fragmentEnd);
    } else {
      fragmentStart := SizeAdd(Find(cfHtml, ">", tagStart), 1);
      var tagEnd := RFind(cfHtml, "<!--EndFragment", NPOS);
      fragmentEnd := RFind(cfHtml, "<", tagEnd);
    }
  }

  /** ReadHTML. For every clipboard the fragment lies within the markup. */
  method ReadHTML(mimeHtml: Option<string>)
    returns (markup: string, srcUrl: string, fragmentStart: nat, fragmentEnd: nat)
    requires mimeHtml.Some? ==> |mimeHtml.value| < NPOS
    ensures Html(markup, srcUrl, fragmentStart, fragmentEnd) == Read(mimeHtml)
    ensures 0 <= fragmentStart <= fragmentEnd <= |markup|
  {
    markup, srcUrl, fragmentStart, fragmentEnd := [], [], 0, 0;
    if mimeHtml.None? { return; }
    var htmlStart, startIndex, endIndex: nat;
    srcUrl, htmlStart, startIndex, endIndex := ExtractMetadata(mimeHtml.value, UNSET);
    ghost var m := Metadata(srcUrl, htmlStart, startIndex, endIndex);
    assert Read(mimeHtml) == ReadMetadata(mimeHtml.value, m);
    if startIndex == NPOS || endIndex == NPOS || htmlStart == NPOS { return; }
    if startIndex < htmlStart || endIndex < startIndex { return; }
    markup := UpToNul(mimeHtml.value[htmlStart..]);
    fragmentEnd := Min(LimitOffset(endIndex - htmlStart, |markup|), |markup|);
    fragmentStart := Min(LimitOffset(startIndex - htmlStart, |markup|), fragmentEnd);
  }

  function UrlOf(sourceUrl: Option<string>): string {
    if sourceUrl.Some? then sourceUrl.value else []
  }

  class Clipboard {
    /** The html of the data not yet committed to the clipboard. */
    var html: string

    constructor ()
    {
      html := [];
    }

    /** Without markup the first DCHECK fails. The clipboard gets the document from its first
        "<html" on, which is the markup part unless the source url contains one. */
    method WriteHTML(markup: string, sourceUrl: Option<string>)
      requires markup != []
      requires Printable(markup, UrlOf(sourceUrl))
      modifies this
      ensures var cf := HtmlToCFHtml(markup, UrlOf(sourceUrl));
              MarkupStart(cf) <= |cf| && html == cf[MarkupStart(cf)..]
      ensures sourceUrl == None || !MentionsHtmlTag(sourceUrl.value) ==> html == START + markup + END
    {
      var url := UrlOf(sourceUrl);
      var cf := HtmlToCFHtml(markup, url);
      var m := CFHtmlExtractMetadata(cf, UNSET);
      WriteChecksHold(markup, url);
      assert WriteChecks(m);
      HtmlStart(markup, url);
      NothingInNothing();
      DocumentSplit(markup, url);
      html := cf[m.htmlStart..];
    }
  }

  // ---- reading what was written ----

  /** The written text scanned again: the markup begins at 0. */
  lemma WrittenMetadata(html: string)
    requires |START + html + END| < NPOS
    ensures var m := CFHtmlExtractMetadata(START + html + END, UNSET);
            && m.baseUrl == ExtractUrl(START + html + END, [])
            && m.htmlStart == 0 && m.fragmentStart == 36 && m.fragmentEnd == 36 + |html|
  {
    AppendTwice(START, html, END);
    MarkupFollows(html + END);
    WrittenFragment(START + html + END, html);
  }

  lemma WrittenFragment(text: string, html: string)
    requires |text| < NPOS && text == START + html + END
    ensures ExtractFragment(text, 0, NPOS, NPOS) == (36, 36 + |html|)
  {
    assert [] + START + html + END == text;
    FragmentScan([], html);
    FragmentFrom(text, 0, 36 + |html|, 0, UNSET);
  }

  lemma NulFirst(c: char, s: string)
    ensures UpToNul([c] + s) == if c == '\0' then [] else [c] + UpToNul(s)
  {
    assert ([c] + s)[1..] == s;
  }

  lemma {:induction false} NulBehind(a: string, b: string)
    ensures UpToNul(a + b) == if '\0' in a then UpToNul(a) else a + UpToNul(b)
    decreases |a|
  {
    if a == [] {
      assert a + b == b && a + UpToNul(b) == UpToNul(b);
    } else {
      var c, rest := a[0], a[1..];
      assert a == [c] + rest;
      AppendTwice([c], rest, b);
      AppendTwice([c], rest, UpToNul(b));
      NulFirst(c, rest);
      NulFirst(c, rest + b);
      NulBehind(rest, b);
    }
  }

  lemma NoNulInMarkup()
    ensures '\0' !in START && '\0' !in END && UpToNul(END) == END
  {
    assert Lacks(START, '\0') && Lacks(END, '\0');
  }

  lemma ReadFromZero(cf: string, m: Metadata)
    requires m.htmlStart == 0 && m.fragmentStart <= m.fragmentEnd < NPOS
    requires m.fragmentStart <= |UpToNul(cf)| < NPOS
    ensures ReadMetadata(cf, m)
         == Html(UpToNul(cf), m.baseUrl, m.fragmentStart, Min(m.fragmentEnd, |UpToNul(cf)|))
  {
    assert cf[0..] == cf;
  }

  lemma WrittenMarkup(html: string)
    ensures UpToNul(START + html + END) == START + UpToNul(html + END)
    ensures UpToNul(html + END) == if '\0' in html then UpToNul(html) else html + END
  {
    AppendTwice(START, html, END);
    NoNulInMarkup();
    NulBehind(START, html + END);
    NulBehind(html, END);
  }

  lemma SourceUrlUnset(html: string)
    requires |START + html + END| < NPOS && Find(html, URL_PREFIX, 0) == NPOS
    ensures ExtractUrl(START + html + END, []) == []
  {
    AppendTwice(START, html, END);
    UrlInMarkup(html);
  }

  lemma Middle(a: string, b: string, c: string)
    ensures (a + (b + c))[|a|..|a| + |b|] == b
  {
  }

  /** The slice that ReadHTML cuts out of a text with this start, cut off behind `cut` or not. */
  lemma CutFragment(start: string, cut: string, rest: string, end: nat)
    requires if rest == [] then |start| + |cut| <= end else |start| + |cut| == end
    ensures (start + (cut + rest))[|start|..Min(end, |start + (cut + rest)|)] == cut
  {
    Middle(start, cut, rest);
  }

  /** Writing html and reading it back: the fragment is the html up to its first NUL, so it is the
      html itself exactly if that contains none; and no source url appears unless the html itself
      speaks of one. */
  lemma WriteThenRead(html: string)
    requires |START + html + END| < NPOS
    ensures var r := Read(Some(START + html + END));
            && Fragment(r) == UpToNul(html)
            && (Fragment(r) == html <==> '\0' !in html)
            && (Find(html, URL_PREFIX, 0) == NPOS ==> r.srcUrl == [])
  {
    ReadWritten(html);
    assert UpToNul(html) == html <==> '\0' !in html;
    WrittenMetadata(html);
    if Find(html, URL_PREFIX, 0) == NPOS { SourceUrlUnset(html); }
  }

  lemma ReadWritten(html: string)
    requires |START + html + END| < NPOS
    ensures var r := Read(Some(START + html + END));
            Fragment(r) == UpToNul(html) && r.srcUrl == ExtractUrl(START + html + END, [])
  {
    var rest := if '\0' in html then [] else END;
    WrittenMetadata(html);
    WrittenMarkup(html);
    assert UpToNul(html) + [] == UpToNul(html);
    assert '\0' !in html ==> UpToNul(html) == html;
    ReadMarkup(START + html + END, CFHtmlExtractMetadata(START + html + END, UNSET), START, UpToNul(html), rest);
  }

  /** Reading a text whose markup begins at 0 and is cut off at its first NUL. */
  lemma ReadMarkup(text: string, m: Metadata, start: string, cut: string, rest: string)
    requires |UpToNul(text)| < NPOS && UpToNul(text) == start + (cut + rest)
    requires m.htmlStart == 0 && m.fragmentStart == |start|
    requires |start| + |cut| <= m.fragmentEnd < NPOS && (rest != [] ==> m.fragmentEnd == |start| + |cut|)
    ensures var r := ReadMetadata(text, m);
            Fragment(r) == cut && r.srcUrl == m.baseUrl
  {
    ReadFromZero(text, m);
    CutFragment(start, cut, rest, m.fragmentEnd);
  }
}
