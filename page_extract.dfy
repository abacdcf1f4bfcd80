/**
 * The extraction rules of `scrapePage` (scripts/scrape-website.js): a failed
 * fetch gives no page; otherwise the page yields its link set, a title, its
 * main text with white space collapsed and trimmed and cut to 5000
 * characters, and its first ten non-blank h1-h3 headings.
 *
 * The HTML parser is not modelled: a `Document` holds what its selectors
 * report, after the non-content elements are removed (title, first h1, main
 * and body text, heading texts) or before that (the anchors).
 */
module PageExtract {
  import opened Wrappers
  import opened JsStrings
  import opened LinkFilter

  /** Characters of cleaned text kept in a record. */
  const ContentLimit: nat := 5000
  /** Headings kept in a record. */
  const MaxHeadings: nat := 10

  datatype Document = Document(
    anchors: seq<Anchor>,        // every a[href], as found before any element is removed
    titleText: string,           // text of the title element
    firstH1Text: string,         // text of the first h1, "" when there is none
    mainText: Option<string>,    // text of the main element, None when the page has none
    bodyText: string,            // text of the body element
    headingTexts: seq<string>)   // texts of the h1, h2 and h3 elements in document order

  /** What the fetch of one URL gives: a thrown error, a non-ok response, or a parsed page. */
  datatype FetchOutcome = Threw | NotOk(status: int) | Ok(doc: Document)

  /** One page of the knowledge base (its timestamp is not modelled). */
  datatype PageRecord = PageRecord(url: string, title: string, content: string, headings: seq<string>)

  /** What `scrapePage` returns on success: the record and the page's link set. */
  datatype ScrapedPage = ScrapedPage(record: PageRecord, links: seq<Path>)

  /** Every white-space character is a plain space. */
  predicate PlainSpaces(s: string)
  {
    forall i :: 0 <= i < |s| ==> IsJsSpace(s[i]) ==> s[i] == ' '
  }

  /** No two white-space characters are adjacent. */
  predicate NoDoubleSpace(s: string)
  {
    forall i :: 0 <= i < |s| - 1 ==> !(IsJsSpace(s[i]) && IsJsSpace(s[i + 1]))
  }

  /** `.replace(/\s+/g, ' ')`: every maximal run of white space becomes one space. */
  function CollapseWhitespace(s: string): (r: string)
    ensures PlainSpaces(r) && NoDoubleSpace(r)
    ensures r == [] <==> s == []
    ensures s != [] ==> r[0] == (if IsJsSpace(s[0]) then ' ' else s[0])
    decreases |s|
  {
    if s == [] then []
    else if IsJsSpace(s[0]) then
      var rest := TrimStart(s);
      assert rest != s;
      [' '] + CollapseWhitespace(rest)
    else [s[0]] + CollapseWhitespace(s[1..])
  }

  /** `s` with its leading run of newlines removed. */
  function DropNewlines(s: string): (r: string)
    ensures |r| <= |s|
  {
    if s != [] && s[0] == '\n' then DropNewlines(s[1..]) else s
  }

  /** `.replace(/\n+/g, '\n')`: every maximal run of newlines becomes one newline. */
  function SquashNewlines(s: string): string
    decreases |s|
  {
    if s == [] then []
    else if s[0] == '\n' then ['\n'] + SquashNewlines(DropNewlines(s[1..]))
    else [s[0]] + SquashNewlines(s[1..])
  }

  /** The cleaning chain of `scrapePage`: collapse white space, squash newlines, trim. */
  function CleanText(s: string): string
  {
    Trim(SquashNewlines(CollapseWhitespace(s)))
  }

  /** The text `scrapePage` cleans: the main element's if the page has one, else the body's. */
  function MainText(doc: Document): string
  {
    match doc.mainText
    case Some(text) => text
    case None => doc.bodyText
  }

  /** The trimmed title, or the trimmed first h1 when the title is blank. */
  function Title(doc: Document): string
  {
    var title := Trim(doc.titleText);
    if title != "" then title else Trim(doc.firstH1Text)
  }

  /** Every heading text, trimmed. */
  function TrimEach(texts: seq<string>): seq<string>
  {
    seq(|texts|, i requires 0 <= i < |texts| => Trim(texts[i]))
  }

  /** The strings that are not empty, in order. */
  function KeepNonEmpty(ts: seq<string>): (r: seq<string>)
    ensures |r| <= |ts|
  {
    if ts == [] then []
    else
      var front := KeepNonEmpty(ts[..|ts| - 1]);
      var t := ts[|ts| - 1];
      if t != "" then front + [t] else front
  }

  /** The trimmed heading texts that are not blank, in document order. */
  function NonBlankHeadings(texts: seq<string>): (r: seq<string>)
    ensures |r| <= |texts|
  {
    KeepNonEmpty(TrimEach(texts))
  }

  /** Every kept string is a non-empty element of the input. */
  lemma {:induction false} KeepNonEmptyFrom(ts: seq<string>)
    ensures forall t :: t in KeepNonEmpty(ts) ==> t != "" && t in ts
  {
    if ts != [] {
      KeepNonEmptyFrom(ts[..|ts| - 1]);
      assert forall t :: t in ts[..|ts| - 1] ==> t in ts;
    }
  }

  /** Nothing is dropped when no string is empty. */
  lemma {:induction false} KeepNonEmptyAll(ts: seq<string>)
    requires forall i :: 0 <= i < |ts| ==> ts[i] != ""
    ensures KeepNonEmpty(ts) == ts
  {
    if ts != [] {
      KeepNonEmptyAll(ts[..|ts| - 1]);
      assert ts[..|ts| - 1] + [ts[|ts| - 1]] == ts;
    }
  }

  /** Every kept heading is non-empty and already trimmed. */
  lemma NonBlankHeadingsTrimmed(texts: seq<string>)
    ensures forall h :: h in NonBlankHeadings(texts) ==> h != "" && Trim(h) == h
  {
    var ts := TrimEach(texts);
    KeepNonEmptyFrom(ts);
    forall h | h in NonBlankHeadings(texts)
      ensures h != "" && Trim(h) == h
    {
      var i :| 0 <= i < |ts| && ts[i] == h;
      TrimIdempotent(texts[i]);
    }
  }

  /** What `scrapePage` returns for a URL whose fetch had the given outcome. */
  function PageResult(url: string, pageHost: string, outcome: FetchOutcome): Option<ScrapedPage>
  {
    match outcome
    case Threw => None
    case NotOk(_) => None
    case Ok(doc) =>
      var record := PageRecord(url, Title(doc), TakePrefix(CleanText(MainText(doc)), ContentLimit),
                               TakePrefix(NonBlankHeadings(doc.headingTexts), MaxHeadings));
      Some(ScrapedPage(record, AcceptedLinks(doc.anchors, pageHost)))
  }

  /** The heading loop of `scrapePage`: pushes each trimmed, non-blank heading text. */
  method ExtractHeadings(texts: seq<string>) returns (headings: seq<string>)
    ensures headings == NonBlankHeadings(texts)
    ensures forall h :: h in headings ==> h != "" && Trim(h) == h
  {
    ghost var trimmed := TrimEach(texts);
    headings := [];
    for i := 0 to |texts|
      invariant headings == KeepNonEmpty(trimmed[..i])
    {
      assert trimmed[..i + 1][..i] == trimmed[..i];
      var text := Trim(texts[i]);
      if text != "" {
        headings := headings + [text];
      }
    }
    assert trimmed[..|texts|] == trimmed;
    NonBlankHeadingsTrimmed(texts);
  }

  /** The record-building part of `scrapePage`, for a page that was fetched and parsed. */
  method BuildRecord(url: string, doc: Document) returns (record: PageRecord)
    ensures record == PageRecord(url, Title(doc), TakePrefix(CleanText(MainText(doc)), ContentLimit),
                                 TakePrefix(NonBlankHeadings(doc.headingTexts), MaxHeadings))
    ensures |record.content| <= ContentLimit
    ensures |record.headings| <= MaxHeadings
  {
    var title := Trim(doc.titleText);
    if title == "" {
      title := Trim(doc.firstH1Text);
    }
    var mainContent := if doc.mainText.Some? then doc.mainText.value else doc.bodyText;
    var cleanText := CleanText(mainContent);
    var headings := ExtractHeadings(doc.headingTexts);
    var content := TakePrefix(cleanText, ContentLimit);
    var kept := TakePrefix(headings, MaxHeadings);
    record := PageRecord(url, title, content, kept);
  }

  /** `scrapePage` for the URL `url` of a page on host `pageHost`. */
  method ScrapePage(url: string, pageHost: string, outcome: FetchOutcome) returns (page: Option<ScrapedPage>)
    ensures page == PageResult(url, pageHost, outcome)
    ensures page.Some? <==> outcome.Ok?
  {
    match outcome {
      case Threw =>
        page := None;
      case NotOk(_) =>
        page := None;
      case Ok(doc) =>
        var links := ExtractLinks(doc.anchors, pageHost);
        var record := BuildRecord(url, doc);
        page := Some(ScrapedPage(record, links));
    }
  }

  /** Squashing newlines changes nothing in a string without newlines. */
  lemma {:induction false} SquashWithoutNewline(s: string)
    requires '\n' !in s
    ensures SquashNewlines(s) == s
    decreases |s|
  {
    if s != [] {
      assert s[0] != '\n';
      SquashWithoutNewline(s[1..]);
      assert [s[0]] + s[1..] == s;
    }
  }

  /** White-space shape is inherited by every slice. */
  lemma SliceKeepsShape(s: string, i: nat, j: nat)
    requires i <= j <= |s|
    requires PlainSpaces(s) && NoDoubleSpace(s)
    ensures PlainSpaces(s[i..j]) && NoDoubleSpace(s[i..j])
  {
    assert forall k :: 0 <= k < j - i ==> s[i..j][k] == s[i + k];
  }

  /** A string whose only white space is plain spaces has no newline. */
  lemma PlainSpacesNoNewline(s: string)
    requires PlainSpaces(s)
    ensures '\n' !in s
  {
    forall i | 0 <= i < |s| ensures s[i] != '\n' {
      if s[i] == '\n' {
        assert IsJsSpace(s[i]);
      }
    }
  }

  /** The shape of cleaned text. */
  predicate IsClean(r: string)
  {
    && (r == [] || (!IsJsSpace(r[0]) && !IsJsSpace(r[|r| - 1])))
    && PlainSpaces(r) && NoDoubleSpace(r) && '\n' !in r
  }

  /** The newline squash of the cleaning chain is a no-op: no newline survives the collapse. */
  lemma SquashAfterCollapse(raw: string)
    ensures SquashNewlines(CollapseWhitespace(raw)) == CollapseWhitespace(raw)
  {
    PlainSpacesNoNewline(CollapseWhitespace(raw));
    SquashWithoutNewline(CollapseWhitespace(raw));
  }

  /** Cleaned text has no white space at either end. */
  lemma CleanTextTrimmed(raw: string)
    ensures var r := CleanText(raw); r == [] || (!IsJsSpace(r[0]) && !IsJsSpace(r[|r| - 1]))
  {
    var squashed := SquashNewlines(CollapseWhitespace(raw));
    assert CleanText(raw) == Trim(squashed);
  }

  /** Cleaned text has no white space but single plain spaces. */
  lemma CleanTextCollapsed(raw: string)
    ensures PlainSpaces(CleanText(raw)) && NoDoubleSpace(CleanText(raw))
  {
    SquashAfterCollapse(raw);
    TrimKeepsShape(CollapseWhitespace(raw));
  }

  /** Trimming keeps the white-space shape of a collapsed string. */
  lemma TrimKeepsShape(c: string)
    requires PlainSpaces(c) && NoDoubleSpace(c)
    ensures PlainSpaces(Trim(c)) && NoDoubleSpace(Trim(c))
  {
    var k := TrimIsSlice(c);
    SliceKeepsShape(c, k, k + |Trim(c)|);
  }

  /**
   * Cleaned text has no white space at either end, no two adjacent white-space
   * characters, no white space other than plain spaces, and so no newline.
   */
  lemma CleanTextShape(raw: string)
    ensures IsClean(CleanText(raw))
  {
    CleanTextTrimmed(raw);
    CleanTextCollapsed(raw);
    PlainSpacesNoNewline(CleanText(raw));
  }

  /** The characters of `s` that are not white space, in order. */
  function NonSpace(s: string): string
  {
    if s == [] then [] else (if IsJsSpace(s[0]) then [] else [s[0]]) + NonSpace(s[1..])
  }

  lemma {:induction false} NonSpaceConcat(a: string, b: string)
    ensures NonSpace(a + b) == NonSpace(a) + NonSpace(b)
  {
    if a == [] {
      assert a + b == b;
    } else {
      assert (a + b)[0] == a[0];
      assert (a + b)[1..] == a[1..] + b;
      NonSpaceConcat(a[1..], b);
    }
  }

  lemma {:induction false} NonSpaceOfSpace(s: string)
    requires AllSpace(s)
    ensures NonSpace(s) == []
  {
    if s != [] {
      NonSpaceOfSpace(s[1..]);
    }
  }

  /** A slice with only white space around it has the same non-space characters as the whole. */
  lemma NonSpaceOfInnerSlice(s: string, i: nat, j: nat)
    requires i <= j <= |s|
    requires AllSpace(s[..i]) && AllSpace(s[j..])
    ensures NonSpace(s[i..j]) == NonSpace(s)
  {
    var front, middle, back := s[..i], s[i..j], s[j..];
    assert s[..j] == front + middle;
    assert s == s[..j] + back;
    NonSpaceConcat(front + middle, back);
    NonSpaceConcat(front, middle);
    NonSpaceOfSpace(front);
    NonSpaceOfSpace(back);
  }

  /** Trimming removes white space only. */
  lemma NonSpaceTrim(s: string)
    ensures NonSpace(Trim(s)) == NonSpace(s)
  {
    var k := TrimIsSlice(s);
    NonSpaceOfInnerSlice(s, k, k + |Trim(s)|);
  }

  /** Leading white space contributes nothing but white space. */
  lemma NonSpaceTrimStart(s: string)
    ensures NonSpace(TrimStart(s)) == NonSpace(s)
  {
    var t := TrimStart(s);
    TrimStartIsSuffix(s);
    assert s == s[..|s| - |t|] + t;
    NonSpaceConcat(s[..|s| - |t|], t);
    TrimStartDropsSpace(s);
    NonSpaceOfSpace(s[..|s| - |t|]);
  }

  /** Collapsing white space keeps every other character, in order. */
  lemma {:induction false} NonSpaceCollapse(s: string)
    ensures NonSpace(CollapseWhitespace(s)) == NonSpace(s)
    decreases |s|
  {
    if s != [] {
      if IsJsSpace(s[0]) {
        var t := TrimStart(s);
        assert t != s;
        NonSpaceCollapse(t);
        NonSpaceConcat([' '], CollapseWhitespace(t));
        NonSpaceTrimStart(s);
      } else {
        NonSpaceCollapse(s[1..]);
        NonSpaceConcat([s[0]], CollapseWhitespace(s[1..]));
      }
    }
  }

  /** Cleaning keeps every character that is not white space, in order. */
  lemma CleanTextKeepsText(raw: string)
    ensures NonSpace(CleanText(raw)) == NonSpace(raw)
  {
    SquashAfterCollapse(raw);
    NonSpaceTrim(CollapseWhitespace(raw));
    NonSpaceCollapse(raw);
  }

  /** A single leading white-space character is all that TrimStart removes. */
  lemma TrimStartOfOneSpace(s: string)
    requires |s| > 0 && IsJsSpace(s[0])
    requires |s| == 1 || !IsJsSpace(s[1])
    ensures TrimStart(s) == s[1..]
  {
    var rest := s[1..];
    assert rest == [] || !IsJsSpace(rest[0]);
    assert TrimStart(rest) == rest;
  }

  /** Collapsing changes nothing in a string whose white space is already single plain spaces. */
  lemma {:induction false} CollapseFixesCollapsed(s: string)
    requires PlainSpaces(s) && NoDoubleSpace(s)
    ensures CollapseWhitespace(s) == s
    decreases |s|
  {
    if s != [] {
      SliceKeepsShape(s, 1, |s|);
      CollapseFixesCollapsed(s[1..]);
      if IsJsSpace(s[0]) {
        TrimStartOfOneSpace(s);
      }
      assert [s[0]] + s[1..] == s;
    }
  }

  /** A run of white space in front of text that does not begin with white space is all TrimStart removes. */
  lemma {:induction false} TrimStartOfRun(w: string, b: string)
    requires AllSpace(w)
    requires b == [] || !IsJsSpace(b[0])
    ensures TrimStart(w + b) == b
  {
    if w == [] {
      assert w + b == b;
    } else {
      assert (w + b)[1..] == w[1..] + b;
      TrimStartOfRun(w[1..], b);
    }
  }

  /** Leading white space of `x` is all TrimStart removes from `x + y` when `x` ends in other text. */
  lemma {:induction false} TrimStartOfConcat(x: string, y: string)
    requires x != [] && !IsJsSpace(x[|x| - 1])
    ensures TrimStart(x + y) == TrimStart(x) + y
  {
    if IsJsSpace(x[0]) {
      assert (x + y)[1..] == x[1..] + y;
      TrimStartOfConcat(x[1..], y);
    }
  }

  /**
   * A white-space run between two pieces of text becomes exactly one space:
   * the pieces are collapsed on their own and joined by a single ' '.
   */
  lemma {:induction false} CollapseJoinsWords(a: string, w: string, b: string)
    requires a == [] || !IsJsSpace(a[|a| - 1])
    requires w != [] && AllSpace(w)
    requires b == [] || !IsJsSpace(b[0])
    ensures CollapseWhitespace(a + w + b) == CollapseWhitespace(a) + " " + CollapseWhitespace(b)
    decreases |a|
  {
    if a == [] {
      assert a + w + b == w + b;
      JoinAfterNothing(w, b);
    } else if IsJsSpace(a[0]) {
      TrimStartKeepsLast(a);
      CollapseJoinsWords(TrimStart(a), w, b);
      JoinAfterSpace(a, w, b);
    } else {
      TailKeepsLast(a);
      CollapseJoinsWords(a[1..], w, b);
      JoinAfterText(a, w, b);
    }
  }

  /** The base case of CollapseJoinsWords: a leading run becomes one space. */
  lemma JoinAfterNothing(w: string, b: string)
    requires w != [] && AllSpace(w)
    requires b == [] || !IsJsSpace(b[0])
    ensures CollapseWhitespace(w + b) == " " + CollapseWhitespace(b)
  {
    var x := w + b;
    TrimStartOfRun(w, b);
    CollapseSpaceHead(x);
  }

  /** TrimStart keeps the last character of a string that does not end in white space. */
  lemma {:induction false} TrimStartKeepsLast(a: string)
    requires a != [] && !IsJsSpace(a[|a| - 1])
    ensures TrimStart(a) != [] && TrimStart(a)[|TrimStart(a)| - 1] == a[|a| - 1]
    decreases |a|
  {
    if IsJsSpace(a[0]) {
      TailKeepsLast(a);
      TrimStartKeepsLast(a[1..]);
    }
  }

  /** Dropping the first character keeps the last one, if any is left. */
  lemma TailKeepsLast(a: string)
    requires a != []
    ensures a[1..] == [] || a[1..][|a[1..]| - 1] == a[|a| - 1]
  {
  }

  /** Splitting off the first character of a three-part concatenation. */
  lemma ConsConcat(a: string, w: string, b: string)
    requires a != []
    ensures (a + w + b)[0] == a[0] && (a + w + b)[1..] == a[1..] + w + b
  {
  }

  lemma Associate(x: string, y: string, z: string)
    ensures x + y + z == x + (y + z)
  {
  }

  /** The step of CollapseJoinsWords for a piece that starts with white space. */
  lemma JoinAfterSpace(a: string, w: string, b: string)
    requires a != [] && IsJsSpace(a[0]) && !IsJsSpace(a[|a| - 1])
    requires w != [] && AllSpace(w)
    requires CollapseWhitespace(TrimStart(a) + w + b) == CollapseWhitespace(TrimStart(a)) + " " + CollapseWhitespace(b)
    ensures CollapseWhitespace(a + w + b) == CollapseWhitespace(a) + " " + CollapseWhitespace(b)
  {
    var t := TrimStart(a);
    var ct, cb := CollapseWhitespace(t), CollapseWhitespace(b);
    ConsConcat(a, w, b);
    CollapseSpaceHead(a + w + b);
    Associate(a, w, b);
    Associate(t, w, b);
    TrimStartOfConcat(a, w + b);
    assert CollapseWhitespace(a + w + b) == " " + (ct + " " + cb);
    Reassociate(" ", ct, " ", cb);
    CollapseSpaceHead(a);
  }

  /** The step of CollapseJoinsWords for a piece that starts with other text. */
  lemma JoinAfterText(a: string, w: string, b: string)
    requires a != [] && !IsJsSpace(a[0])
    requires CollapseWhitespace(a[1..] + w + b) == CollapseWhitespace(a[1..]) + " " + CollapseWhitespace(b)
    ensures CollapseWhitespace(a + w + b) == CollapseWhitespace(a) + " " + CollapseWhitespace(b)
  {
    var rest := a[1..];
    var cr, cb := CollapseWhitespace(rest), CollapseWhitespace(b);
    ConsConcat(a, w, b);
    CollapseTextHead(a + w + b);
    assert CollapseWhitespace(a + w + b) == [a[0]] + (cr + " " + cb);
    Reassociate([a[0]], cr, " ", cb);
    CollapseTextHead(a);
  }

  lemma Reassociate(x: string, y: string, z: string, u: string)
    ensures x + (y + z + u) == x + y + z + u
  {
  }

  /** Collapsing a string that starts with white space: one space, then the rest after the run. */
  lemma CollapseSpaceHead(x: string)
    requires x != [] && IsJsSpace(x[0])
    ensures CollapseWhitespace(x) == " " + CollapseWhitespace(TrimStart(x))
  {
  }

  /** Collapsing a string that starts with other text keeps that character. */
  lemma CollapseTextHead(x: string)
    requires x != [] && !IsJsSpace(x[0])
    ensures CollapseWhitespace(x) == [x[0]] + CollapseWhitespace(x[1..])
  {
  }

  /**
   * Two pieces of cleaned text separated by any run of white space clean to
   * the two pieces joined by exactly one space.
   */
  lemma CleanTextJoinsWords(a: string, w: string, b: string)
    requires a != [] && b != [] && IsClean(a) && IsClean(b)
    requires w != [] && AllSpace(w)
    ensures CleanText(a + w + b) == a + " " + b
  {
    CollapseJoinsWords(a, w, b);
    CollapseFixesCollapsed(a);
    CollapseFixesCollapsed(b);
    SquashAfterCollapse(a + w + b);
    TrimFixesTrimmed(a + " " + b);
  }

  /** Cleaning already cleaned text changes nothing. */
  lemma CleanTextIdempotent(raw: string)
    ensures CleanText(CleanText(raw)) == CleanText(raw)
  {
    var r := CleanText(raw);
    CleanTextShape(raw);
    CollapseFixesCollapsed(r);
    PlainSpacesNoNewline(r);
    SquashWithoutNewline(r);
    TrimFixesTrimmed(r);
  }

  /** When no heading text is blank, every heading is kept, trimmed, in document order. */
  lemma AllHeadingsKept(texts: seq<string>)
    requires forall i :: 0 <= i < |texts| ==> Trim(texts[i]) != ""
    ensures |NonBlankHeadings(texts)| == |texts|
    ensures forall i :: 0 <= i < |texts| ==> NonBlankHeadings(texts)[i] == Trim(texts[i])
  {
    KeepNonEmptyAll(TrimEach(texts));
  }

  /** The heading list of a page grows by the last heading's trimmed text, when that is not blank. */
  lemma NonBlankHeadingsSnoc(texts: seq<string>)
    requires texts != []
    ensures var last := Trim(texts[|texts| - 1]);
            NonBlankHeadings(texts) ==
              NonBlankHeadings(texts[..|texts| - 1]) + (if last != "" then [last] else [])
  {
    assert TrimEach(texts)[..|texts| - 1] == TrimEach(texts[..|texts| - 1]);
  }

  /** Keeping the non-empty strings of two lists one after the other. */
  lemma {:induction false} KeepNonEmptyConcat(x: seq<string>, y: seq<string>)
    ensures KeepNonEmpty(x + y) == KeepNonEmpty(x) + KeepNonEmpty(y)
    decreases |y|
  {
    if y == [] {
      assert x + y == x;
    } else {
      var y' := y[..|y| - 1];
      assert (x + y)[..|x + y| - 1] == x + y';
      assert (x + y)[|x + y| - 1] == y[|y| - 1];
      KeepNonEmptyConcat(x, y');
    }
  }

  /** The headings of two runs of heading elements are those of the first run, then those of the second. */
  lemma NonBlankHeadingsConcat(a: seq<string>, b: seq<string>)
    ensures NonBlankHeadings(a + b) == NonBlankHeadings(a) + NonBlankHeadings(b)
  {
    TrimEachConcat(a, b);
    KeepNonEmptyConcat(TrimEach(a), TrimEach(b));
  }

  lemma TrimEachConcat(a: seq<string>, b: seq<string>)
    ensures TrimEach(a + b) == TrimEach(a) + TrimEach(b)
  {
    var whole, parts := TrimEach(a + b), TrimEach(a) + TrimEach(b);
    forall i | 0 <= i < |whole|
      ensures whole[i] == parts[i]
    {
      if i < |a| {
        assert (a + b)[i] == a[i];
      } else {
        assert (a + b)[i] == b[i - |a|];
      }
    }
  }

  /** A blank heading text, wherever it stands, is dropped without trace. */
  lemma BlankHeadingDropped(before: seq<string>, blank: string, after: seq<string>)
    requires AllSpace(blank)
    ensures NonBlankHeadings(before + [blank] + after) == NonBlankHeadings(before + after)
  {
    TrimEmptyIffBlank(blank);
    assert TrimEach([blank]) == [""];
    NonBlankHeadingsConcat(before + [blank], after);
    NonBlankHeadingsConcat(before, [blank]);
    NonBlankHeadingsConcat(before, after);
  }

  /** Every prefix of the heading list is the heading list of some first run of heading elements. */
  lemma {:induction false} HeadingPrefixFromTexts(texts: seq<string>, n: nat) returns (k: nat)
    requires n <= |NonBlankHeadings(texts)|
    ensures k <= |texts| && NonBlankHeadings(texts[..k]) == NonBlankHeadings(texts)[..n]
    decreases |texts|
  {
    var all := NonBlankHeadings(texts);
    if n == |all| {
      k := |texts|;
      assert texts[..k] == texts;
    } else {
      var front := texts[..|texts| - 1];
      NonBlankHeadingsSnoc(texts);
      var kept := NonBlankHeadings(front);
      var last := Trim(texts[|texts| - 1]);
      k := HeadingPrefixFromTexts(front, n);
      PrefixOfPrefix(texts, |texts| - 1, k);
      PrefixOfConcat(kept, if last != "" then [last] else [], n);
    }
  }

  lemma PrefixOfPrefix<T>(s: seq<T>, m: nat, k: nat)
    requires k <= m <= |s|
    ensures s[..m][..k] == s[..k]
  {
  }

  lemma PrefixOfConcat<T>(x: seq<T>, y: seq<T>, n: nat)
    requires n <= |x|
    ensures (x + y)[..n] == x[..n]
  {
  }

  /**
   * A page with more than ten non-blank headings keeps exactly ten: the
   * headings of the shortest run of heading elements, from the first, that
   * has ten non-blank ones, trimmed, in document order.
   */
  lemma FirstTenHeadings(texts: seq<string>)
    requires |NonBlankHeadings(texts)| > MaxHeadings
    ensures |TakePrefix(NonBlankHeadings(texts), MaxHeadings)| == MaxHeadings
    ensures TakePrefix(NonBlankHeadings(texts), MaxHeadings) == NonBlankHeadings(texts)[..MaxHeadings]
    ensures exists k :: 0 <= k <= |texts| && TakePrefix(NonBlankHeadings(texts), MaxHeadings) == NonBlankHeadings(texts[..k])
  {
    var k := HeadingPrefixFromTexts(texts, MaxHeadings);
  }

  /** A failed fetch, by a thrown error or a non-ok status, yields no page. */
  lemma FailureYieldsNothing(url: string, pageHost: string, outcome: FetchOutcome)
    ensures PageResult(url, pageHost, outcome) == None <==> (outcome.Threw? || outcome.NotOk?)
  {
  }

  /** The record of a fetched page carries its URL and the page's link set. */
  lemma ScrapedRecordIdentity(url: string, pageHost: string, doc: Document)
    ensures PageResult(url, pageHost, Ok(doc)).Some?
    ensures PageResult(url, pageHost, Ok(doc)).value.record.url == url
    ensures PageResult(url, pageHost, Ok(doc)).value.links == AcceptedLinks(doc.anchors, pageHost)
  {
  }

  /** The title is the trimmed title element, or the trimmed first h1 when that is blank. */
  lemma ScrapedRecordTitle(doc: Document)
    ensures Trim(Title(doc)) == Title(doc)
    ensures Trim(doc.titleText) != "" ==> Title(doc) == Trim(doc.titleText)
    ensures Trim(doc.titleText) == "" ==> Title(doc) == Trim(doc.firstH1Text)
  {
    TrimIdempotent(doc.titleText);
    TrimIdempotent(doc.firstH1Text);
  }

  /**
   * The stored content is the first at most 5000 characters of the cleaned text,
   * exactly 5000 when the cleaned text is longer; it begins with no white space,
   * and has no newline and no two adjacent white-space characters.
   */
  lemma ScrapedRecordContent(raw: string)
    ensures var content := TakePrefix(CleanText(raw), ContentLimit);
      && |content| <= ContentLimit
      && content == CleanText(raw)[..|content|]
      && (|CleanText(raw)| > ContentLimit ==> |content| == ContentLimit)
      && (|CleanText(raw)| <= ContentLimit ==> content == CleanText(raw))
      && (content == [] || !IsJsSpace(content[0]))
      && PlainSpaces(content) && NoDoubleSpace(content) && '\n' !in content
  {
    var clean := CleanText(raw);
    var content := TakePrefix(clean, ContentLimit);
    CleanTextShape(raw);
    SliceKeepsShape(clean, 0, |content|);
    assert clean[0..|content|] == content;
    PlainSpacesNoNewline(content);
  }

  /** At most ten headings are stored, each non-blank and trimmed. */
  lemma ScrapedRecordHeadings(texts: seq<string>)
    ensures |TakePrefix(NonBlankHeadings(texts), MaxHeadings)| <= MaxHeadings
    ensures forall h :: h in TakePrefix(NonBlankHeadings(texts), MaxHeadings) ==> h != "" && Trim(h) == h
  {
    var all := NonBlankHeadings(texts);
    var kept := TakePrefix(all, MaxHeadings);
    NonBlankHeadingsTrimmed(texts);
    forall h | h in kept ensures h in all {
      var i :| 0 <= i < |kept| && kept[i] == h;
      assert all[i] == h;
    }
  }
}
