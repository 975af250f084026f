/** What ReadHTML makes of CF_HTML documents that keep their header, as other programs put them on the clipboard
    (src/core/clipboard_qt.cpp:279-316, src/core/clipboard_util_win.cpp:67-114). */
module ClipboardRead {
  import opened Wrappers
  import opened StdString
  import opened CFHtml
  import opened CFHtmlRoundTrip
  import opened ClipboardHtml
  import opened CFHtmlTaggedUrl

  /** The parser found everything, in this order. */
  predicate Ordered(m: Metadata) {
    m.htmlStart <= m.fragmentStart <= m.fragmentEnd < NPOS
  }

  /** The markup is the document from the start of the html up to the first NUL behind that, and the fragment is
      what the parser's offsets cut out of the document, as far as the markup reaches. Nothing is read if the
      offsets are not found or out of order. */
  lemma ReadsSlice(cf: string, m: Metadata)
    requires |cf| < NPOS && (m.htmlStart == NPOS || m.htmlStart <= |cf|)
    requires m.fragmentStart <= NPOS && m.fragmentEnd <= NPOS
    ensures var r := ReadMetadata(cf, m);
            if Ordered(m) then
              && r.markup == UpToNul(cf[m.htmlStart..])
              && var end := Min(m.fragmentEnd, m.htmlStart + |r.markup|);
                 Fragment(r) == cf[Min(m.fragmentStart, end)..end]
            else r.markup == [] && Fragment(r) == []
  {
    if Ordered(m) { OrderedSlice(cf, m); }
  }

  lemma OrderedSlice(cf: string, m: Metadata)
    requires |cf| < NPOS && m.htmlStart <= |cf| && Ordered(m)
    ensures var r := ReadMetadata(cf, m);
            var end := Min(m.fragmentEnd, m.htmlStart + |r.markup|);
            r.markup == UpToNul(cf[m.htmlStart..]) && Fragment(r) == cf[Min(m.fragmentStart, end)..end]
  {
    var markup := UpToNul(cf[m.htmlStart..]);
    var end := Min(m.fragmentEnd, m.htmlStart + |markup|);
    OrderedOffsets(cf, m, markup, end);
    SliceOfHtml(cf, m, ReadMetadata(cf, m), markup, end);
  }

  lemma SliceOfHtml(cf: string, m: Metadata, r: Html, markup: string, end: nat)
    requires m.htmlStart <= |cf| && Ordered(m) && markup <= cf[m.htmlStart..]
    requires end == Min(m.fragmentEnd, m.htmlStart + |markup|)
    requires r == Html(markup, m.baseUrl, Min(m.fragmentStart, end) - m.htmlStart, end - m.htmlStart)
    ensures end == Min(m.fragmentEnd, m.htmlStart + |r.markup|) && Fragment(r) == cf[Min(m.fragmentStart, end)..end]
  {
    FragmentIsSlice(cf, m.htmlStart, markup, m.baseUrl, Min(m.fragmentStart, end), end);
  }

  lemma OrderedOffsets(cf: string, m: Metadata, markup: string, end: nat)
    requires |cf| < NPOS && m.htmlStart <= |cf| && Ordered(m) && markup == UpToNul(cf[m.htmlStart..])
    requires end == Min(m.fragmentEnd, m.htmlStart + |markup|)
    ensures ReadMetadata(cf, m)
         == Html(markup, m.baseUrl, Min(m.fragmentStart, end) - m.htmlStart, end - m.htmlStart)
  {
    LimitedOffset(m.fragmentEnd, m.htmlStart, |markup|);
    LimitedOffset(m.fragmentStart, m.htmlStart, |markup|);
  }

  lemma LimitedOffset(offset: nat, at: nat, length: nat)
    requires at <= offset < NPOS && length < NPOS
    ensures Min(LimitOffset(offset - at, length), length) == Min(offset, at + length) - at
    ensures forall end :: at <= end <= at + length ==>
              Min(LimitOffset(offset - at, length), end - at) == Min(offset, end) - at
  {
  }

  lemma FragmentIsSlice(cf: string, at: nat, markup: string, url: string, start: nat, end: nat)
    requires at <= start <= end <= at + |markup| && at <= |cf| && markup <= cf[at..]
    ensures Fragment(Html(markup, url, start - at, end - at)) == cf[start..end]
  {
    SliceBehind(cf, at, markup, start, end);
  }

  lemma SliceBehind(cf: string, at: nat, markup: string, start: nat, end: nat)
    requires at <= start <= end <= at + |markup| && at <= |cf| && markup <= cf[at..]
    ensures cf[start..end] == markup[start - at..end - at]
  {
    assert cf[start..end] == cf[at..][start - at..end - at];
    assert markup == cf[at..][..|markup|];
  }

  /** In a text without NUL, if the parser's offsets are ordered and within it. */
  lemma ReadsWithoutNul(cf: string)
    requires |cf| < NPOS && '\0' !in cf
    requires var m := CFHtmlExtractMetadata(cf, UNSET); Ordered(m) && m.fragmentEnd <= |cf|
    ensures var m, r := CFHtmlExtractMetadata(cf, UNSET), Read(Some(cf));
            && r.markup == cf[m.htmlStart..] && Fragment(r) == cf[m.fragmentStart..m.fragmentEnd]
            && r.srcUrl == m.baseUrl
  {
    WholeSlice(cf, CFHtmlExtractMetadata(cf, UNSET));
  }

  lemma WholeSlice(cf: string, m: Metadata)
    requires |cf| < NPOS && '\0' !in cf && Ordered(m) && m.fragmentEnd <= |cf|
    ensures var r := ReadMetadata(cf, m);
            r.markup == cf[m.htmlStart..] && Fragment(r) == cf[m.fragmentStart..m.fragmentEnd] && r.srcUrl == m.baseUrl
  {
    OrderedSlice(cf, m);
    assert UpToNul(cf[m.htmlStart..]) == cf[m.htmlStart..];
  }

  /** A header in front of the html makes no difference to what is read. */
  lemma ReadBehindHeader(front: string, text: string, m: Metadata)
    requires |front + text| < NPOS && m.htmlStart == |front| && Ordered(m)
    ensures ReadMetadata(front + text, m)
         == ReadMetadata(text, m.(htmlStart := 0, fragmentStart := m.fragmentStart - |front|,
                                  fragmentEnd := m.fragmentEnd - |front|))
  {
    assert (front + text)[|front|..] == text && text[0..] == text;
  }

  /** The line of the url from its first html tag on. */
  function TagLine(url: string): string
    requires |url| < NPOS
  {
    if MentionsHtmlTag(url) then TagTail(url) + "\r\n" else []
  }

  lemma WrittenBehindTagLine(html: string, url: string)
    requires html != [] && Printable(html, url)
    ensures var cf := HtmlToCFHtml(html, url);
            && Written(html, url) == TagLine(url) + START + html + END
            && MarkupStart(cf) + |TagLine(url)| == StartHtmlOffset(url)
            && cf == cf[..MarkupStart(cf)] + Written(html, url)
  {
    var cf := HtmlToCFHtml(html, url);
    WrittenIs(html, url);
    if MentionsHtmlTag(url) {
      var front := TaggedDocument(html, url);
    } else {
      HtmlStart(html, url);
      assert [] + START == START;
    }
    assert cf == cf[..MarkupStart(cf)] + cf[MarkupStart(cf)..];
  }

  lemma PrintedOffsets(html: string, url: string)
    requires html != [] && Printable(html, url)
    ensures var m := CFHtmlExtractMetadata(HtmlToCFHtml(html, url), UNSET);
            && Ordered(m) && m.fragmentEnd == EndFragmentOffset(html, url)
            && m.fragmentStart <= StartFragmentOffset(url)
            && (m.fragmentStart == StartFragmentOffset(url) <==> !HidesFragment(url))
  {
    FragmentStartExactlyWhen(html, url, UNSET);
    HtmlStart(html, url);
    FragmentExtracted(html, url, MarkupStart(HtmlToCFHtml(html, url)), UNSET);
  }

  /** Reading a document whose html starts with `line`, in terms of the offsets the parser finds in it. */
  lemma ReadBehindLine(front: string, line: string, html: string, m: Metadata)
    requires '\0' !in line && |front + (line + START + html + END)| < NPOS
    requires m.htmlStart == |front| && Ordered(m) && m.fragmentEnd == |front| + |line| + 36 + |html|
    requires m.fragmentStart <= |front| + |line| + 36
    ensures Fragment(ReadMetadata(front + (line + START + html + END), m)) == UpToNul(html)
       <==> m.fragmentStart == |front| + |line| + 36
  {
    var text := line + START + html + END;
    var shifted := Metadata(m.baseUrl, 0, m.fragmentStart - |front|, m.fragmentEnd - |front|);
    ReadBehindHeader(front, text, m);
    TaggedUpToNul(html, line);
    ReadTagged(text, shifted, line + START, UpToNul(html), if '\0' in html then [] else END, |html|);
  }

  /** Reading a printed document with its header: the fragment is the html up to its first NUL exactly if the url
      hides no fragment comment behind an html tag. */
  lemma PrintThenReadExactlyWhen(html: string, url: string)
    requires html != [] && Printable(html, url) && '\0' !in TagLine(url)
    ensures Fragment(Read(Some(HtmlToCFHtml(html, url)))) == UpToNul(html) <==> !HidesFragment(url)
  {
    var cf := HtmlToCFHtml(html, url);
    var m := CFHtmlExtractMetadata(cf, UNSET);
    PrintedOffsets(html, url);
    WrittenBehindTagLine(html, url);
    ReadBehindLine(cf[..m.htmlStart], TagLine(url), html, m);
  }

  /** With a url without html tag nothing is in the way, and the url comes back exactly if it is clean. */
  lemma PrintThenRead(html: string, url: string)
    requires html != [] && Printable(html, url) && !MentionsHtmlTag(url)
    ensures var r := Read(Some(HtmlToCFHtml(html, url)));
            && Fragment(r) == UpToNul(html)
            && (url != [] ==> (r.srcUrl == url <==> CleanUrl(url)))
  {
    PrintThenReadExactlyWhen(html, url);
    PrintedOffsets(html, url);
    if url != [] { UrlRoundTrip(html, url, UNSET); }
  }

  /** A text with neither comments nor offsets, or without html, reads as nothing. */
  lemma PlainTextReadsNothing(cf: string)
    requires |cf| < NPOS
    requires || MarkupStart(cf) == NPOS
             || (Find(cf, "<!--StartFragment", MarkupStart(cf)) == NPOS
                 && (Find(cf, "StartFragment:", 0) == NPOS || Find(cf, "EndFragment:", 0) == NPOS))
    ensures Read(Some(cf)).markup == [] && Fragment(Read(Some(cf))) == []
  {
    NothingExtracted(cf, UNSET);
  }
}
