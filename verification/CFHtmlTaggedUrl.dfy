/** CF_HTML documents whose source url contains an html tag itself: what the parser makes of them, and what
    the clipboard gets (src/core/clipboard_util_win.cpp:85-114, src/core/clipboard_qt.cpp:154-168 and
    293-316). */
module CFHtmlTaggedUrl {
  import opened Wrappers
  import opened StdString
  import opened CFHtml
  import opened CFHtmlRoundTrip
  import opened ClipboardHtml

  const TAG := "<!--StartFragment"

  /** The url from its first html tag on. */
  function TagTail(url: string): string
    requires |url| < NPOS && MentionsHtmlTag(url)
  {
    url[Find(ToLower(url), "<html", 0)..]
  }

  /** A fragment comment behind that tag. */
  predicate HidesFragment(url: string)
    requires |url| < NPOS
  {
    MentionsHtmlTag(url) && Find(TagTail(url), TAG, 0) != NPOS
  }

  // ---- the scan of a text that starts inside the url ----

  lemma TagInTail(tail: string, rest: string, k: nat)
    requires k < |tail| + 2
    ensures At(tail + "\r\n" + rest, TAG, k) <==> At(tail, TAG, k)
  {
    var text := tail + "\r\n" + rest;
    if k + |TAG| <= |tail| {
      assert text[k..k + |TAG|] == tail[k..k + |TAG|];
    } else {
      assert Lacks(TAG, '\r') && Lacks(TAG, '\n');
      Mismatch(text, TAG, k, if k < |tail| then |tail| - k else 0);
    }
  }

  lemma TagBeforeMarkup(tail: string, rest: string)
    requires |tail + "\r\n" + START + rest| < NPOS
    ensures var doc := tail + "\r\n" + START + rest;
            Find(doc, TAG, 0) == if Find(tail, TAG, 0) == NPOS then |tail| + 2 + 16 else Find(tail, TAG, 0)
  {
    var line := tail + "\r\n";
    var doc := line + START + rest;
    AppendTwice(line, START, rest);
    forall k | 0 <= k < |line| ensures At(doc, TAG, k) <==> At(tail, TAG, k) {
      TagInTail(tail, START + rest, k);
    }
    ScanStart(line, rest);
    var j := Find(tail, TAG, 0);
    FindIs(doc, TAG, 0, if j == NPOS then |line| + 16 else j);
  }

  /** The first '>' of the markup is that of its html tag. */
  lemma TagEndInMarkup(front: string, rest: string)
    requires |front + START + rest| < NPOS
    ensures At(front + START + rest, ">", |front| + 5)
  {
    assert (front + START + rest)[|front| + 5] == START[5] == '>';
    AtOneChar(front + START + rest, '>', |front| + 5);
  }

  /** Where the scan of such a text puts the start of the fragment. */
  lemma ScanTail(tail: string, rest: string)
    requires |tail + "\r\n" + START + rest| < NPOS
    ensures var doc := tail + "\r\n" + START + rest;
            var tagStart := Find(doc, TAG, 0);
            && tagStart != NPOS && Find(doc, ">", tagStart) != NPOS
            && (Find(doc, ">", tagStart) == |tail| + 2 + 35 <==> Find(tail, TAG, 0) == NPOS)
            && (Find(tail, TAG, 0) != NPOS ==> Find(doc, ">", tagStart) <= |tail| + 2 + 5)
  {
    var line := tail + "\r\n";
    TagBeforeMarkup(tail, rest);
    ScanStart(line, rest);
    TagEndInMarkup(line, rest);
  }

  /** A text in front of another one shifts what the scan finds. */
  lemma ScanBehind(front: string, text: string, tagStart: nat, tagEnd: nat, before: nat, before': nat)
    requires |front + text| < NPOS
    requires Find(text, TAG, 0) == tagStart != NPOS && Find(text, ">", tagStart) == tagEnd != NPOS
    ensures ExtractFragment(front + text, |front|, before, before').0 == |front| + tagEnd + 1
  {
    FindShift(front, text, TAG, 0);
    FindShift(front, text, ">", tagStart);
    ScannedFragment(front + text, |front|, |front| + tagStart, |front| + tagEnd, before, before');
  }

  // ---- the printed document ----

  /** The document up to the html tag in its url, and from there. */
  lemma TaggedDocument(html: string, url: string) returns (front: string)
    requires Printable(html, url) && MentionsHtmlTag(url)
    ensures var doc := Preamble(html, url) + START + html + END;
            && doc == front + (TagTail(url) + "\r\n" + START + (html + END))
            && MarkupStart(doc) == |front|
            && |front| + |TagTail(url)| + 2 == StartHtmlOffset(url)
  {
    var t, markup := Find(ToLower(url), "<html", 0), START + (html + END);
    var head := PreambleFront(html, url, markup);
    DocumentSplit(html, url);
    MarkupFollows(html + END);
    front := head + url[..t];
    assert url == url[..t] + url[t..];
    SplitUrl(head, url[..t], url[t..], START, html + END);
    TagPosition(html, url, head, markup);
  }

  lemma SplitUrl(head: string, a: string, b: string, c: string, d: string)
    ensures head + ((a + b + "\r\n") + (c + d)) == (head + a) + (b + "\r\n" + c + d)
  {
  }

  lemma TagPosition(html: string, url: string, head: string, markup: string)
    requires |Preamble(html, url) + markup| < NPOS && MentionsHtmlTag(url) && url != []
    requires Find(ToLower(markup), "<html", 0) == 0
    requires |head| == 115 && Preamble(html, url) + markup == head + ((url + "\r\n") + markup)
    ensures MarkupStart(Preamble(html, url) + markup) == 115 + Find(ToLower(url), "<html", 0)
  {
    var line := (url + "\r\n") + markup;
    forall k | 0 <= k < 105 ensures !At(ToLower(Preamble(html, url) + markup), "<html", k) {
      NoTagInHeader(html, url, markup, k);
    }
    NoTagInPrefix(html, url, markup);
    LowerShift(head, line);
    FindBehind(ToLower(head), ToLower(line), "<html");
    FirstTagInLine(url, markup);
  }

  lemma FirstTagInLine(url: string, markup: string)
    requires |url + "\r\n" + markup| < NPOS && MentionsHtmlTag(url)
    ensures Find(ToLower(url + "\r\n" + markup), "<html", 0) == Find(ToLower(url), "<html", 0)
  {
    var t := Find(ToLower(url), "<html", 0);
    forall k | 0 <= k <= t
      ensures At(ToLower(url + "\r\n" + markup), "<html", k) <==> At(ToLower(url), "<html", k)
    {
      TagInUrl(url, markup, k);
    }
    FindIs(ToLower(url + "\r\n" + markup), "<html", 0, t);
  }

  /** The start of the fragment is the printed one exactly if the url hides no fragment comment behind an
      html tag; otherwise it lies before the html tag of the markup ends. */
  lemma FragmentStartExactlyWhen(html: string, url: string, before: Metadata)
    requires html != [] && Printable(html, url)
    ensures var m := CFHtmlExtractMetadata(HtmlToCFHtml(html, url), before);
            && (m.fragmentStart == StartFragmentOffset(url) <==> !HidesFragment(url))
            && (HidesFragment(url) ==> m.fragmentStart <= StartHtmlOffset(url) + 6)
  {
    if !MentionsHtmlTag(url) {
      RoundTrip(html, url, before);
    } else {
      TaggedFragment(html, url, before);
    }
  }

  lemma TaggedFragment(html: string, url: string, before: Metadata)
    requires html != [] && Printable(html, url) && MentionsHtmlTag(url)
    ensures var m := CFHtmlExtractMetadata(HtmlToCFHtml(html, url), before);
            && (m.fragmentStart == StartFragmentOffset(url) <==> Find(TagTail(url), TAG, 0) == NPOS)
            && (Find(TagTail(url), TAG, 0) != NPOS ==> m.fragmentStart <= StartHtmlOffset(url) + 6)
  {
    var front := TaggedDocument(html, url);
    var text := TagTail(url) + "\r\n" + START + (html + END);
    ScanTail(TagTail(url), html + END);
    var tagStart := Find(text, TAG, 0);
    ScanBehind(front, text, tagStart, Find(text, ">", tagStart), before.fragmentStart, before.fragmentEnd);
  }

  // ---- what the clipboard gets ----

  /** What WriteHTML leaves on the clipboard. */
  function Written(html: string, url: string): string
    requires |url| < NPOS
  {
    if MentionsHtmlTag(url) then TagTail(url) + "\r\n" + START + html + END else START + html + END
  }

  lemma WrittenIs(html: string, url: string)
    requires html != [] && Printable(html, url)
    ensures var cf := HtmlToCFHtml(html, url);
            MarkupStart(cf) <= |cf| && cf[MarkupStart(cf)..] == Written(html, url)
  {
    if MentionsHtmlTag(url) {
      var front := TaggedDocument(html, url);
      var text := TagTail(url) + "\r\n" + START + (html + END);
      AppendTwice(TagTail(url) + "\r\n" + START, html, END);
      assert (front + text)[|front|..] == text;
    } else {
      HtmlStart(html, url);
      DocumentSplit(html, url);
      var b := Preamble(html, url);
      assert (b + (START + html + END))[|b|..] == START + html + END;
    }
  }

  lemma TailStartsWithTag(url: string, rest: string)
    requires |url| < NPOS && MentionsHtmlTag(url) && |TagTail(url) + rest| < NPOS
    ensures MarkupStart(TagTail(url) + rest) == 0
  {
    var t, tail := Find(ToLower(url), "<html", 0), TagTail(url);
    assert ToLower(tail) == ToLower(url)[t..];
    LowerShift(tail, rest);
    assert (ToLower(tail) + ToLower(rest))[0..5] == ToLower(url)[t..t + 5];
    FindIs(ToLower(tail + rest), "<html", 0, 0);
  }

  /** The written text scanned again. */
  lemma TaggedMetadata(html: string, url: string)
    requires |url| < NPOS && MentionsHtmlTag(url) && |Written(html, url)| < NPOS
    ensures var m := CFHtmlExtractMetadata(Written(html, url), UNSET);
            var start := |TagTail(url)| + 2 + 36;
            && m.htmlStart == 0 && m.fragmentEnd == start + |html|
            && (m.fragmentStart == start <==> Find(TagTail(url), TAG, 0) == NPOS)
            && (Find(TagTail(url), TAG, 0) != NPOS ==> m.fragmentStart <= start - 30)
  {
    var tail := TagTail(url);
    AppendTwice(tail + "\r\n" + START, html, END);
    TailText(tail, html + END);
    TailStartsWithTag(url, "\r\n" + START + (html + END));
    TailFragment(tail, html);
  }

  lemma TailFragment(tail: string, html: string)
    requires |tail + "\r\n" + START + html + END| < NPOS
    ensures var f := ExtractFragment(tail + "\r\n" + START + html + END, 0, NPOS, NPOS);
            var start := |tail| + 2 + 36;
            && f.1 == start + |html|
            && (f.0 == start <==> Find(tail, TAG, 0) == NPOS)
            && (Find(tail, TAG, 0) != NPOS ==> f.0 <= start - 30)
  {
    var line := tail + "\r\n";
    var text := line + START + html + END;
    AppendTwice(line + START, html, END);
    FragmentScan(line, html);
    ScanTail(tail, html + END);
    FragmentFrom(text, |line|, |line| + 36 + |html|, 0, UNSET);
    var tagStart := Find(text, TAG, 0);
    ScannedFragment(text, 0, tagStart, Find(text, ">", tagStart), NPOS, NPOS);
  }

  lemma TailText(tail: string, rest: string)
    ensures tail + "\r\n" + START + rest == tail + ("\r\n" + START + rest)
  {
  }

  lemma NoNulInTail(url: string)
    requires |url| < NPOS && MentionsHtmlTag(url) && '\0' !in url
    ensures '\0' !in TagTail(url) + "\r\n"
  {
  }

  lemma TaggedUpToNul(html: string, line: string)
    requires '\0' !in line
    ensures UpToNul(line + START + html + END) == (line + START) + (UpToNul(html) + if '\0' in html then [] else END)
  {
    NoNulInMarkup();
    CutAtNul(line + START, html, END);
  }

  lemma CutAtNul(start: string, html: string, end: string)
    requires '\0' !in start && UpToNul(end) == end
    ensures UpToNul(start + html + end) == start + (UpToNul(html) + if '\0' in html then [] else end)
  {
    AppendTwice(start, html, end);
    NulBehind(start, html + end);
    NulBehind(html, end);
    assert UpToNul(html) + [] == UpToNul(html);
    assert '\0' !in html ==> UpToNul(html) == html;
  }

  /** Reading back what was written with any source url without NUL: the fragment is the html up to its first
      NUL exactly if the url hides no fragment comment behind an html tag. */
  lemma WriteThenReadExactlyWhen(html: string, url: string)
    requires |url| < NPOS && '\0' !in url && |Written(html, url)| < NPOS
    ensures Fragment(Read(Some(Written(html, url)))) == UpToNul(html) <==> !HidesFragment(url)
  {
    if MentionsHtmlTag(url) {
      var line := TagTail(url) + "\r\n";
      var m := CFHtmlExtractMetadata(Written(html, url), UNSET);
      TaggedMetadata(html, url);
      NoNulInTail(url);
      TaggedUpToNul(html, line);
      ReadTagged(Written(html, url), m, line + START, UpToNul(html), if '\0' in html then [] else END, |html|);
    } else {
      WriteThenRead(html);
    }
  }

  lemma ReadTagged(text: string, m: Metadata, start: string, cut: string, rest: string, length: nat)
    requires |UpToNul(text)| < NPOS && UpToNul(text) == start + (cut + rest) && |cut| <= length
    requires rest != [] ==> |cut| == length
    requires m.htmlStart == 0 && m.fragmentEnd == |start| + length < NPOS
    requires m.fragmentStart == |start| || m.fragmentStart < |start|
    ensures Fragment(ReadMetadata(text, m)) == cut <==> m.fragmentStart == |start|
  {
    if m.fragmentStart == |start| {
      ReadMarkup(text, m, start, cut, rest);
    } else {
      ReadFromZero(text, m);
      assert |Fragment(ReadMetadata(text, m))| > |cut|;
    }
  }
}
