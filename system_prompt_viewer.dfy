/**
 * The system prompt viewer (components/systempromptviewer.tsx): the loaded
 * knowledge base flattened into one text block per page, the full system
 * prompt that embeds it, and the rough token estimate shown beside it.
 */
module SystemPromptViewer {
  import opened Wrappers
  import opened JsStrings
  import opened PageExtract

  /**
   * The knowledge-base module as the viewer sees it: absent (`null`), or an
   * object whose `pages` field may be missing.
   */
  datatype LoadedKnowledgeBase = LoadedKnowledgeBase(pages: Option<seq<PageRecord>>)

  const NoKnowledgeBase: string := "No knowledge base loaded"
  const BlockSeparator: string := "\n\n"

  /**
   * The template for one page, which is six lines joined by line feeds: an
   * empty line, then the PAGE, URL, CONTENT and HEADINGS lines, then `---`.
   */
  function BlockLines(page: PageRecord): seq<string>
  {
    ["", "PAGE: " + page.title, "URL: " + page.url, "CONTENT: " + page.content,
     "HEADINGS: " + Join(page.headings, ", "), "---"]
  }

  function PageBlock(page: PageRecord): string
  {
    Join(BlockLines(page), "\n")
  }

  function PageBlocks(pages: seq<PageRecord>): (r: seq<string>)
    ensures |r| == |pages|
  {
    seq(|pages|, i requires 0 <= i < |pages| => PageBlock(pages[i]))
  }

  /** `formatKnowledgeBase`: the page blocks joined by blank lines, or a notice. */
  function FormatKnowledgeBase(kb: Option<LoadedKnowledgeBase>): string
  {
    if kb.None? || kb.value.pages.None? then NoKnowledgeBase
    else Join(PageBlocks(kb.value.pages.value), BlockSeparator)
  }

  /** Without a knowledge base, or without its `pages` field, the notice is shown. */
  lemma FormatWithoutPages(kb: Option<LoadedKnowledgeBase>)
    requires kb.None? || kb.value.pages.None?
    ensures FormatKnowledgeBase(kb) == NoKnowledgeBase
  {
  }

  /** An empty page list is present (an empty array is truthy) and formats to the empty string. */
  lemma FormatNoPages()
    ensures FormatKnowledgeBase(Some(LoadedKnowledgeBase(Some([])))) == ""
  {
  }

  /** One page formats to its block alone. */
  lemma FormatOnePage(page: PageRecord)
    ensures FormatKnowledgeBase(Some(LoadedKnowledgeBase(Some([page])))) == PageBlock(page)
  {
  }

  /** Blocks come in page order: one page more appends a blank line and its block. */
  lemma FormatAppendPage(pages: seq<PageRecord>, page: PageRecord)
    requires |pages| > 0
    ensures FormatKnowledgeBase(Some(LoadedKnowledgeBase(Some(pages + [page])))) ==
            FormatKnowledgeBase(Some(LoadedKnowledgeBase(Some(pages)))) + BlockSeparator + PageBlock(page)
  {
    assert PageBlocks(pages + [page]) == PageBlocks(pages) + [PageBlock(page)];
    JoinSnoc(PageBlocks(pages), BlockSeparator, PageBlock(page));
  }

  /** A field that may be printed on one line: it holds no line feed. */
  predicate OneLine(s: string)
  {
    '\n' !in s
  }

  /** When no field holds a line feed, a block splits into exactly its six lines. */
  lemma PageBlockLines(page: PageRecord)
    requires OneLine(page.title) && OneLine(page.url) && OneLine(page.content)
    requires forall i :: 0 <= i < |page.headings| ==> OneLine(page.headings[i])
    ensures Split(PageBlock(page), '\n') ==
      ["", "PAGE: " + page.title, "URL: " + page.url, "CONTENT: " + page.content,
       "HEADINGS: " + Join(page.headings, ", "), "---"]
  {
    JoinAvoids(page.headings, ", ", '\n');
    var lines := BlockLines(page);
    assert forall i :: 0 <= i < |lines| ==> '\n' !in lines[i];
    SplitJoin(lines, '\n');
  }

  lemma ConcatEnds(a: string, b: string, c: string)
    ensures StartsWith(a + b + c, a)
    ensures EndsWith(a + b + c, b + c)
  {
    assert (a + b + c)[..|a|] == a;
    assert (a + b + c)[|a + b + c| - |b + c|..] == b + c;
  }

  /** The block with its joins written out. */
  lemma PageBlockUnfolded(page: PageRecord)
    ensures var lines := BlockLines(page);
      PageBlock(page) == "" + "\n" + (lines[1] + "\n" + (lines[2] + "\n" + (lines[3] + "\n" + (lines[4] + "\n" + "---"))))
  {
    var lines := BlockLines(page);
    assert lines[1..][1..] == lines[2..];
    assert lines[2..][1..] == lines[3..];
    assert lines[3..][1..] == lines[4..];
    assert lines[4..][1..] == lines[5..];
    assert |lines[5..]| == 1 && lines[5..][0] == "---";
    assert Join(lines[5..], "\n") == "---";
    assert Join(lines[4..], "\n") == lines[4] + "\n" + "---";
    assert Join(lines[3..], "\n") == lines[3] + "\n" + Join(lines[4..], "\n");
    assert Join(lines[2..], "\n") == lines[2] + "\n" + Join(lines[3..], "\n");
    assert Join(lines[1..], "\n") == lines[1] + "\n" + Join(lines[2..], "\n");
  }

  /** The block starts with a line feed and the PAGE line. */
  lemma PageBlockStart(page: PageRecord)
    ensures StartsWith(PageBlock(page), "\nPAGE: ")
  {
    var lines := BlockLines(page);
    PageBlockUnfolded(page);
    var rest := lines[2] + "\n" + (lines[3] + "\n" + (lines[4] + "\n" + "---"));
    assert PageBlock(page) == "\n" + "PAGE: " + (page.title + "\n" + rest);
    ConcatEnds("\nPAGE: ", page.title + "\n" + rest, "");
  }

  /** A page without headings gets a `HEADINGS: ` line with nothing after it. */
  lemma NoHeadingsLine(page: PageRecord)
    requires page.headings == []
    ensures EndsWith(PageBlock(page), "\nHEADINGS: \n---")
  {
    var lines := BlockLines(page);
    PageBlockUnfolded(page);
    var last := lines[4] + "\n" + "---";
    assert "\n" + last == "\nHEADINGS: \n---";
    var z := lines[3] + "\n" + last;
    ConcatEnds(lines[3], "\n", last);
    var y := lines[2] + "\n" + z;
    EndsWithAppend(lines[2] + "\n", z, "\n" + last);
    var x := lines[1] + "\n" + y;
    EndsWithAppend(lines[1] + "\n", y, "\n" + last);
    EndsWithAppend("" + "\n", x, "\n" + last);
  }

  /** A suffix of `b` is a suffix of `a + b`. */
  lemma EndsWithAppend(a: string, b: string, suffix: string)
    requires EndsWith(b, suffix)
    ensures EndsWith(a + b, suffix)
  {
    assert (a + b)[|a + b| - |suffix|..] == b[|b| - |suffix|..];
  }

  /** The instructions that open the system prompt (lines 49 to 79 of the template). */
  const Instructions: string :=
    @"You are a helpful AI website assistant for the Central Florida Animal Reserve (CFLAR), a non-profit big cat reserve in St. Cloud, FL.

IMPORTANT INSTRUCTIONS:
1. Provide detailed, helpful answers based on the knowledge base below
2. When relevant, include specific URLs for actions users might want to take
3. Be warm, educational, and enthusiastic about big cat conservation
4. If you don't know something, admit it and suggest visiting the website. Do not make up information.

BRAND VOICE & TERMINOLOGY GUIDELINES:
- The space where our animals reside are called enclosures or yards NEVER cages.
- We provide enrichment for the animals NEVER play with the animals.
- We train husbandry behaviors NEVER teach tricks.
- Our residents exhibit natural behaviors but NEVER do tricks and NEVER are expected to perform.
- Hands on encounters are rare and performed for veterinary purposes examinations NEVER petting.
- We work with positive reinforcement NEVER negative reinforcement.
- We refer to our facility as a reserve NEVER a sanctuary, rescue, or zoo.
- Note: Sanctuary, as a concept became specific in the state of Florida secondary to specific laws.  See 68A-6.006. Sanctuaries; Retired Performing Wildlife for definitions
- We rehome cats in need but NEVER rescue.
- The population of animals as a group are referred to as residents NEVER as a collection.  A single animal at the reserve is called a resident.
- We utilize pronouns to refer to our animals residents as a reflection of biological sex but NEVER refer to them as objects (i.e.: ""it"")
- Note: the use of pronouns for humans is outside the scope of our mission and therefore do not take a stance on the use of pronouns related to humans.
- We are a volunteer driven organization NEVER ""all volunteer"" or 100% volunteer.
- We provide guided tours or scheduled visitation but are NEVER open to the public.
- We support animal welfare but NEVER animal rights.
- We advocate for legislation that enables us to fulfill our mission but NEVER lobby on behalf of a political party.
- We do not currently allow breeding at our facility but NEVER refer to breeding as evil.
- We are in favor of appropriate homes for animals that cannot be in the wild but NEVER take a for/against stance on ""captivity"".
- We avoid realistic animal print as part of decoration, clothing, or merchandise.
- The collective of people working on behalf of the organization is known as TeamCFAR


"

  const KnowledgeBaseHeader: string := "KNOWLEDGE BASE:\n"

  /** What follows the knowledge base: the quick reference links and the closing request. */
  const PromptTail: string :=
    @"

QUICK REFERENCE LINKS:
- Donate: https://cflar.dream.press/get-involved/donate/
- Book a Tour: https://cflar.dream.press/visit/tours/
- Volunteer: https://cflar.dream.press/get-involved/volunteer/
- About Us: https://cflar.dream.press/about
- Contact: https://cflar.dream.press/contact-us/

Answer the user's questions naturally and include relevant links when appropriate."

  /** `getFullSystemPrompt`. */
  function FullSystemPrompt(kb: Option<LoadedKnowledgeBase>): string
  {
    Instructions + KnowledgeBaseHeader + FormatKnowledgeBase(kb) + PromptTail
  }

  /** The pieces of a four-part concatenation, recovered by slicing. */
  lemma SlicesOfConcat(a: string, h: string, f: string, t: string)
    ensures (a + h + f + t)[..|a| + |h|] == a + h
    ensures (a + h + f + t)[|a| + |h|..|a| + |h| + |f|] == f
    ensures (a + h + f + t)[|a| + |h| + |f|..] == t
  {
  }

  /** The formatted knowledge base appears verbatim right after `KNOWLEDGE BASE:` and its line feed. */
  lemma PromptEmbedsKnowledgeBase(kb: Option<LoadedKnowledgeBase>)
    ensures var prompt := FullSystemPrompt(kb);
      var start := |Instructions| + |KnowledgeBaseHeader|;
      var formatted := FormatKnowledgeBase(kb);
      && start + |formatted| <= |prompt|
      && prompt[..start] == Instructions + KnowledgeBaseHeader
      && prompt[start..start + |formatted|] == formatted
      && prompt[start + |formatted|..] == PromptTail
  {
    SlicesOfConcat(Instructions, KnowledgeBaseHeader, FormatKnowledgeBase(kb), PromptTail);
  }

  /** `Math.ceil(characterCount / 4)`. */
  function TokenEstimate(characterCount: nat): (r: nat)
    ensures 4 * r >= characterCount
    ensures 4 * r < characterCount + 4
  {
    (characterCount + 3) / 4
  }

  /** Those two bounds pin the estimate down: it is the least count of four-character groups covering the text. */
  lemma TokenEstimateUnique(characterCount: nat, t: nat)
    requires 4 * t >= characterCount && 4 * t < characterCount + 4
    ensures t == TokenEstimate(characterCount)
  {
  }

  /** The estimate shown for the prompt, from its character count. */
  function PromptTokenEstimate(kb: Option<LoadedKnowledgeBase>): (r: nat)
    ensures 4 * r >= |FullSystemPrompt(kb)| && 4 * r < |FullSystemPrompt(kb)| + 4
  {
    TokenEstimate(|FullSystemPrompt(kb)|)
  }
}
