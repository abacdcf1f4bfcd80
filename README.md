# CFLAR chatbot: crawler, chat widget and system prompt in Dafny

This project models the logic behind the CFLAR (Central Florida Animal
Reserve) chatbot and proves properties of it.

- **The site crawler** (`scripts/scrape-website.js`). `extractLinks`
  normalises and filters the links of a page into a set of paths. `scrapePage`
  turns a fetched page into a record: a title, cleaned content cut to 5000
  characters, and at most ten headings. A failed fetch gives no record.
  `scrapeWebsite` crawls the site breadth-first from `/`, visits at most 100
  pages, and builds the knowledge-base document.
- **The chat widget** (`components/ChatWidget.tsx`):
  - removing asterisks from replies;
  - rewriting `[text](url)` into an HTML anchor;
  - folding the `data: ` lines of a server-sent-event stream into the reply
    text;
  - the canned fallback answers;
  - the widget's message list, with the guards on sending.
- **The system prompt viewer** (`components/systempromptviewer.tsx`):
  - flattening the knowledge base into text blocks;
  - embedding them in the system prompt;
  - the token estimate.

Modules:
- `Wrappers`: `Option`.
- `JsStrings`: the JavaScript string operations the code relies on:
  - the `\s` / `trim` white-space class and trimming;
  - `startsWith` and `endsWith`;
  - ASCII case folding for the `i` regex flag;
  - `split` on one character and `Array.prototype.join`;
  - `substring` and `slice` from index 0.
- `LinkFilter`: `extractLinks` and its path filter.
- `PageExtract`: `scrapePage`.
- `Crawler`: the crawl loop, as a step function `Step`, its iteration `Run`, and the method `ScrapeWebsite`.
- `Chat`: the chat widget. The class `Chat.ChatWidget` holds the component's state: `isOpen`, `messages`, `inputValue`, `isLoading`.
- `SystemPromptViewer`: the prompt viewer.

External effects become parameters:
- The crawler's network fetch is an oracle `fetch: string -> FetchOutcome`: thrown, not ok, or ok with a parsed `Document`.
- `Document` holds what the cheerio selectors report: the anchors, the title text, the first h1 text, the main or body text, and the h1-h3 texts.
- `new URL(href, page)` is the `resolved` field of an `Anchor`: `None` when the constructor would throw, otherwise the hostname and pathname.
- The chat request is a `Response`:
  - `Failed`: the fetch threw or was not ok;
  - `Streamed(chunks, aborted)`: the decoded chunks in arrival order, and whether something later threw.
- `JSON.parse` is an oracle `parse: string -> Payload`.

The crawler's module-level state (the `toVisit` and `visited` sets and the
`knowledgeBase` array) is held in `CrawlState` and in the locals of `ScrapeWebsite`:
- a JavaScript `Set` that is iterated in insertion order (`toVisit`, the link set) is a `seq` without duplicates;
- `visited`, whose order is never observed, is a `set`.

## Model

| member | source | states |
|---|---|---|
| JsStrings.Trim | scripts/scrape-website.js:90 | `trim`: drops the leading and trailing white-space runs; the result neither starts nor ends with white space and is no longer than the input (TrimIsSlice and TrimIdempotent state the rest) |
| JsStrings.Split | components/ChatWidget.tsx:109 | `split` on one character: always at least one piece (JoinSplit, SplitJoin and SplitPiecesHaveNoSeparator state the round trips) |
| JsStrings.Join | components/systempromptviewer.tsx:41-43 | `Array.prototype.join`: the parts with the separator between neighbours; its round trips with Split are JoinSplit and SplitJoin |
| JsStrings.TrimEmptyIffBlank | scripts/scrape-website.js:95-96 | a string trims to "" exactly when all its characters are white space |
| JsStrings.TrimIsSlice | components/ChatWidget.tsx:70 | `trim` returns the part of its input between a leading and a trailing white-space run |
| JsStrings.TrimIdempotent | scripts/scrape-website.js:90 | trimming twice is the same as trimming once |
| JsStrings.ContainsCIAt | scripts/scrape-website.js:48-49 | an unanchored case-insensitive regex search succeeds exactly when the pattern matches at some position |
| JsStrings.JoinSplit | components/ChatWidget.tsx:109 | joining the pieces of `split('\n')` with the separator gives back the chunk |
| JsStrings.SplitPiecesHaveNoSeparator | components/ChatWidget.tsx:109 | no piece of a split contains the separator |
| JsStrings.SplitJoin | components/systempromptviewer.tsx:37-42 | splitting a join of parts that do not contain the separator gives back the parts |
| LinkFilter.NormalizePath | scripts/scrape-website.js:41-43 | a path other than `/` that ends in `/` loses exactly that one slash; `/` and every path not ending in `/` are unchanged |
| LinkFilter.NormalizeKeepsRooted | scripts/scrape-website.js:38-43 | a path starting with `/` still starts with `/` after normalisation |
| LinkFilter.IsAcceptedPath | scripts/scrape-website.js:47-49 | the three regex filters: no blocked extension, no internal WordPress segment, no blog post or date path; AcceptedByShape, ImagesDropped, AdminDropped and BlogPostDropped state which paths pass |
| LinkFilter.LinkOf | scripts/scrape-website.js:28-51 | the path one anchor contributes: none for an empty href, an unparsable URL, another host or a filtered path; AcceptedLinksMember and AcceptedLinksAreAccepted state the set it builds |
| LinkFilter.TrailingSlashIsOneKey | scripts/scrape-website.js:41-43 | `p/` and `p` normalise to the same key `p` |
| LinkFilter.DoubleSlashKeepsOne | scripts/scrape-website.js:41-43 | only one trailing slash is stripped (`/a//` gives `/a/`) |
| LinkFilter.AcceptedLinksNoDuplicates | scripts/scrape-website.js:25-50 | the link collection is a set: each path appears once |
| LinkFilter.AcceptedLinksMember | scripts/scrape-website.js:27-56 | a path is in the link set exactly when some anchor yields it (non-empty href, URL parses, same host, normalised path accepted) |
| LinkFilter.AcceptedLinksRooted | scripts/scrape-website.js:38-50 | when every anchor's resolved pathname starts with `/`, so does every collected path, so `BaseUrl + path` is a URL on the site |
| LinkFilter.AcceptedLinksAreAccepted | scripts/scrape-website.js:29-50 | every collected path passes the filters and comes from a same-host anchor with a non-empty href that parsed as a URL |
| LinkFilter.ExtractLinks | scripts/scrape-website.js:24-59 | the method's result is the filtered link set in first-occurrence order, without duplicates, holding exactly the paths some anchor yields |
| LinkFilter.AcceptedByShape | scripts/scrape-website.js:47-49 | a path without `.`, without `/w` or `/f`, and without a `/b` or `/digit` that leaves room for a post or date passes all three filters |
| LinkFilter.BlogListingKept | scripts/scrape-website.js:46-49 | `/blog` is accepted |
| LinkFilter.BlogPostDropped | scripts/scrape-website.js:46-49 | `/blog/my-post-title` is rejected, case-insensitively (`/BLOG/My-Post`) |
| LinkFilter.BlockedSuffixes | scripts/scrape-website.js:47 | each of the ten extensions `pdf jpg jpeg png gif zip xml json css js`, with its dot, is one of the suffixes the extension filter tests |
| LinkFilter.ImagesDropped | scripts/scrape-website.js:47 | every path ending, in any letter case, in `.` and one of the ten blocked extensions is rejected |
| LinkFilter.BlockedExtensionExamples | scripts/scrape-website.js:47 | `/assets/logo.png` and `/IMAGES/PHOTO.JPEG` are rejected |
| LinkFilter.AdminDropped | scripts/scrape-website.js:48 | a `/wp-admin` path is rejected |
| LinkFilter.NormalizationExamples | scripts/scrape-website.js:41-43 | `/blog/` and `/2024/05/` lose their trailing slash; `/2024/05/some-post` is unchanged |
| LinkFilter.DateArchiveKeptAfterStripping | scripts/scrape-website.js:41-49 | `/2024/05/` is kept: the date regex is tested after the slash is stripped |
| LinkFilter.DatedPostDropped | scripts/scrape-website.js:41-49 | `/2024/05/some-post` is rejected |
| PageExtract.CollapseWhitespace | scripts/scrape-website.js:88 | every white-space character left is a plain space, no two are adjacent, and the result is empty only when the input is |
| PageExtract.CollapseJoinsWords | scripts/scrape-website.js:88 | a white-space run between a piece that does not end in white space and one that does not start with it becomes exactly one space, and the pieces are collapsed on their own |
| PageExtract.CleanText | scripts/scrape-website.js:86-90 | the cleaning chain: collapse white space, squash newlines, trim; CleanTextShape, CleanTextKeepsText, CleanTextJoinsWords and CleanTextIdempotent state what it gives |
| PageExtract.CleanTextJoinsWords | scripts/scrape-website.js:86-90 | two cleaned pieces separated by any non-empty white-space run clean to the pieces joined by one space |
| PageExtract.SquashAfterCollapse | scripts/scrape-website.js:88-89 | after white space is collapsed, squashing newlines changes nothing |
| PageExtract.CleanTextShape | scripts/scrape-website.js:87-90 | the cleaned text has no white space at either end, no two adjacent white-space characters, only plain spaces and no newline |
| PageExtract.CleanTextKeepsText | scripts/scrape-website.js:87-90 | cleaning keeps every non-white-space character, in order |
| PageExtract.CleanTextIdempotent | scripts/scrape-website.js:87-90 | cleaning cleaned text changes nothing |
| PageExtract.NonBlankHeadingsTrimmed | scripts/scrape-website.js:93-97 | every kept heading is non-empty and trimmed |
| PageExtract.ExtractHeadings | scripts/scrape-website.js:93-97 | the loop's result is the trimmed non-blank heading texts in document order, each non-empty and trimmed |
| PageExtract.AllHeadingsKept | scripts/scrape-website.js:93-97 | when no heading is blank, every heading is kept, trimmed, in order |
| PageExtract.NonBlankHeadingsSnoc | scripts/scrape-website.js:94-97 | one more heading element adds its trimmed text at the end when that is not blank, and nothing otherwise |
| PageExtract.NonBlankHeadingsConcat | scripts/scrape-website.js:94-97 | the headings of two runs of heading elements are those of the first run followed by those of the second |
| PageExtract.BlankHeadingDropped | scripts/scrape-website.js:96 | a blank heading anywhere in the page adds nothing and takes no place |
| PageExtract.FirstTenHeadings | scripts/scrape-website.js:93-105 | with more than ten non-blank headings, blank or not elsewhere, exactly ten are kept: the first ten non-blank ones, which are the headings of some first run of heading elements |
| PageExtract.ScrapedRecordHeadings | scripts/scrape-website.js:93-105 | the record holds at most ten headings, each non-empty and trimmed |
| PageExtract.Title | scripts/scrape-website.js:81 | the trimmed title text, or the trimmed first h1 when that is empty; ScrapedRecordTitle states it of the record |
| PageExtract.ScrapedRecordTitle | scripts/scrape-website.js:81 | the title is the trimmed title text, or the trimmed first h1 when that is empty |
| PageExtract.ScrapedRecordContent | scripts/scrape-website.js:87-104 | the content is a prefix of the cleaned text of at most 5000 characters, exactly 5000 when the cleaned text is longer, and all of it otherwise; it keeps the cleaned shape |
| PageExtract.ScrapedRecordIdentity | scripts/scrape-website.js:101-108 | an ok fetch gives a record for the URL asked for, with the page's link set |
| PageExtract.PageResult | scripts/scrape-website.js:61-113 | what `scrapePage` returns for one fetch outcome; FailureYieldsNothing, ScrapedRecordIdentity, ScrapedRecordContent and ScrapedRecordHeadings state its cases |
| PageExtract.FailureYieldsNothing | scripts/scrape-website.js:61-113 | the result is null exactly when the fetch threw or the response was not ok |
| PageExtract.BuildRecord | scripts/scrape-website.js:78-105 | the record built from a parsed page has the title, the cleaned content cut to 5000 characters and the first ten non-blank headings; its content and headings stay within those limits |
| PageExtract.ScrapePage | scripts/scrape-website.js:61-113 | the method returns the page result, and returns a page exactly when the fetch succeeded |
| Crawler.Enqueue | scripts/scrape-website.js:137-141 | the pending paths after a page's links are queued; EnqueueFrontier and EnqueueOnlyNew state what it adds |
| Crawler.Step | scripts/scrape-website.js:120-142 | one iteration of the crawl loop; StepKeepsInv, StepIsFifo, FailedFetchSkipped and StepFetches state it |
| Crawler.Run | scripts/scrape-website.js:120-146 | the crawl loop iterated until the queue is empty or 100 paths are visited; RunKeepsInv and CrawlInvariants state where it ends |
| Crawler.EnqueueFrontier | scripts/scrape-website.js:137-141 | enqueueing keeps the pending paths as a FIFO prefix; it adds only links that were neither visited nor already pending, adds each once, and adds every unvisited link |
| Crawler.EnqueueLinks | scripts/scrape-website.js:137-141 | the inner loop queues exactly what the enqueue function describes: each link neither visited nor already pending, appended in order |
| Crawler.EnqueueOnlyNew | scripts/scrape-website.js:138-139 | a newly queued path is one of the page's links and is not visited |
| Crawler.StepKeepsInv | scripts/scrape-website.js:120-142 | one iteration keeps the invariant: queue without duplicates and disjoint from visited, at most 100 visited, no more pages than visited paths, each page url the base URL plus a visited path, page urls distinct |
| Crawler.StepIsFifo | scripts/scrape-website.js:121-134 | one iteration takes the oldest pending path, marks it visited, keeps the rest of the queue in order, and appends at most one record, for that path's URL |
| Crawler.FailedFetchSkipped | scripts/scrape-website.js:127-131 | when the page cannot be scraped, the path is marked visited and nothing is recorded or queued |
| Crawler.StepFetches | scripts/scrape-website.js:127-141 | when the page is scraped, its record is appended and its accepted links are queued |
| Crawler.RunKeepsInv | scripts/scrape-website.js:120-146 | the loop ends with the invariant intact and its condition false, and earlier records stay a prefix of the final ones |
| Crawler.CrawlInvariants | scripts/scrape-website.js:17-146 | from `/`, the crawl ends with the invariant, at most as many pages as visited paths, at most 100 visited, and either an empty queue or the page budget used up |
| Crawler.HomeFailureGivesNoPages | scripts/scrape-website.js:120-146 | when `/` cannot be fetched, the crawl records nothing and visits only `/` |
| Crawler.HomeLinks | scripts/scrape-website.js:41-50 | an about link with a trailing slash is kept as `/about`, and a blog-post link is dropped |
| Crawler.TwoPageSite | scripts/scrape-website.js:120-146 | on a home page linking to `/about/` and a blog post, with the about page linking back home, the crawl records exactly home and then about, and visits exactly those two |
| Crawler.ScrapeWebsite | scripts/scrape-website.js:115-165 | the loop's pages are those of the crawl function; the output has base URL `https://cflar.dream.press` and `pageCount` equal to the number of pages, at most 100, with distinct urls |
| Chat.RemoveAsterisks | components/ChatWidget.tsx:23-25 | the result has no `*` and is no longer than the input |
| Chat.RemoveAsterisksConcat | components/ChatWidget.tsx:23-25 | removal works piece by piece, so the other characters keep their order |
| Chat.RemoveAsterisksCounts | components/ChatWidget.tsx:23-25 | every character other than `*` occurs as often as in the input |
| Chat.RemoveAsterisksKeepsPlain | components/ChatWidget.tsx:23-25 | text without `*` is unchanged |
| Chat.RemoveAsterisksIdempotent | components/ChatWidget.tsx:23-25 | removing twice is the same as removing once |
| Chat.RenderMessageContent | components/ChatWidget.tsx:60-67 | `renderMessageContent`: each markdown link becomes an anchor, everything else is kept; RenderLink, RenderWithoutLink, RenderPlainPrefix and RenderOneLink state it |
| Chat.MatchLink | components/ChatWidget.tsx:62 | a match of `\[([^\]]+)\]\(([^)]+)\)` splits the input into a non-empty text without `]`, a non-empty url without `)`, and the rest |
| Chat.MatchLinkComplete | components/ChatWidget.tsx:62 | every `[text](url)` with such a text and url is matched, and gives back that text, url and rest |
| Chat.RenderLink | components/ChatWidget.tsx:60-67 | a markdown link at the front becomes the anchor `<a href="url" target="_blank" rel="noopener noreferrer" class="cflar-chat-link">text</a>`, and the rest is rendered after it |
| Chat.RenderWithoutLink | components/ChatWidget.tsx:60-67 | content in which no position starts a link is returned unchanged |
| Chat.RenderWithoutBracket | components/ChatWidget.tsx:60-67 | content without `[` is returned unchanged |
| Chat.RenderPlainPrefix | components/ChatWidget.tsx:60-67 | text without `[` before the rest passes through unchanged |
| Chat.RenderOneLink | components/ChatWidget.tsx:60-67 | a message with one link and plain text around it renders to the same text with only the link replaced by its anchor |
| Chat.DataPayload | components/ChatWidget.tsx:112-114 | a line has a payload exactly when it starts with `data: `, and the payload is the line without those six characters |
| Chat.LinesContent | components/ChatWidget.tsx:111-136 | the text the line loop of one chunk adds; LinesContentFrom, NonDataLineIgnored, LinesAfterDoneIgnored and BadPayloadSwallowed state it |
| Chat.StreamContent | components/ChatWidget.tsx:103-138 | the text the read loop accumulates over all chunks; StreamContentConcat and DoneEndsOnlyItsChunk state it |
| Chat.LinesContentFrom | components/ChatWidget.tsx:111-136 | in the line loop, a non-data line is skipped, `[DONE]` ends the chunk, and any other payload contributes its content before the following lines |
| Chat.NonDataLineIgnored | components/ChatWidget.tsx:112 | lines that do not start with `data: ` contribute nothing |
| Chat.LinesAfterDoneIgnored | components/ChatWidget.tsx:115 | lines after a `[DONE]` line in the same chunk contribute nothing |
| Chat.DoneEndsOnlyItsChunk | components/ChatWidget.tsx:104-115 | a chunk's content, `[DONE]` or not, is followed by the content of the later chunks |
| Chat.StreamContentConcat | components/ChatWidget.tsx:97-121 | the stream's content is the concatenation of the chunks' contents in arrival order |
| Chat.BadPayloadSwallowed | components/ChatWidget.tsx:117-135 | a payload that is not JSON, or carries an error, does not stop the lines after it from being read |
| Chat.ErrorFlagIrrelevant | components/ChatWidget.tsx:132-135 | the accumulated text depends only on the payloads' content, not on their error fields |
| Chat.GetMockResponse | components/ChatWidget.tsx:440-453 | the canned answer for a question, with the apology for every other string; MockResponseCases states it |
| Chat.GetMockResponseAsWritten | components/ChatWidget.tsx:440-453 | the same lookup with JavaScript's inherited object keys; MockResponseAsWrittenNotString and MockResponseAsWrittenAgrees compare it with the corrected one |
| Chat.MockResponseCases | components/ChatWidget.tsx:440-453 | each of the three quick-action questions gets its canned answer; the apology is returned exactly for every other string |
| Chat.MockResponseAsWrittenNotString | components/ChatWidget.tsx:441-452 | looking up `toString` in the object literal as written returns a function, not a string |
| Chat.MockResponseAsWrittenAgrees | components/ChatWidget.tsx:441-452 | for every key that is not inherited from `Object.prototype`, the lookup as written agrees with the corrected one |
| Chat.CanSend | components/ChatWidget.tsx:70 | the send guard: the input is not blank and no request is pending; CanSendIffTrimmed states it with `trim` |
| Chat.CanSendIffTrimmed | components/ChatWidget.tsx:70 | sending is allowed exactly when the trimmed input is non-empty and nothing is loading |
| Chat.IsBlank | components/ChatWidget.tsx:70 | the method reports blank exactly when every character of the input is white space |
| Chat.ExchangeShape | components/ChatWidget.tsx:77-150 | an exchange keeps the earlier messages and adds the user message and then the reply: the fallback answer on failure; otherwise the streamed text without asterisks, followed by the fallback answer when the stream broke off |
| Chat.ChatWidget.constructor | components/ChatWidget.tsx:13-17 | the widget starts closed, empty, with no input and not loading |
| Chat.ChatWidget.Open | components/ChatWidget.tsx:47-57 | opening shows the welcome message when there are no messages yet, and leaves other messages alone |
| Chat.ChatWidget.ReadChunk | components/ChatWidget.tsx:109-136 | the line loop appends the chunk's content to the accumulated text and shows the result without asterisks at the message index |
| Chat.ChatWidget.StreamReply | components/ChatWidget.tsx:103-138 | after the read loop, the message at the index is the whole stream's content without asterisks; nothing else changes |
| Chat.ChatWidget.Reply | components/ChatWidget.tsx:92-150 | the reply step leaves exactly the messages the exchange function describes |
| Chat.ChatWidget.HandleSendMessage | components/ChatWidget.tsx:69-154 | a blank input or a pending request changes nothing; otherwise the messages become the exchange, and the input is cleared and loading is off at the end |
| Chat.ChatWidget.HandleKeyPress | components/ChatWidget.tsx:156-161 | Enter without Shift sends when the send guard allows it; anything else changes nothing |
| Chat.ChatWidget.SendQuickAction | components/ChatWidget.tsx:163-243 | only a pending request blocks a quick action; the input is left alone, and otherwise the messages become the exchange for that question |
| SystemPromptViewer.FormatKnowledgeBase | components/systempromptviewer.tsx:31-44 | `formatKnowledgeBase`; FormatWithoutPages, FormatNoPages, FormatOnePage, FormatAppendPage and PageBlockLines state it |
| SystemPromptViewer.FullSystemPrompt | components/systempromptviewer.tsx:46-91 | `getFullSystemPrompt`: the instructions, `KNOWLEDGE BASE:` and a newline, the formatted knowledge base, and the tail `PromptTail` (a blank line, the five quick-reference links, a blank line and the closing sentence); PromptEmbedsKnowledgeBase states it |
| SystemPromptViewer.FormatWithoutPages | components/systempromptviewer.tsx:32-34 | without a knowledge base, or without pages, the text is exactly `No knowledge base loaded` |
| SystemPromptViewer.FormatNoPages | components/systempromptviewer.tsx:36-43 | an empty page list formats to "" |
| SystemPromptViewer.FormatOnePage | components/systempromptviewer.tsx:36-43 | one page formats to its block alone |
| SystemPromptViewer.FormatAppendPage | components/systempromptviewer.tsx:36-43 | one block per page, in page order, with blocks separated by a blank line |
| SystemPromptViewer.PageBlockLines | components/systempromptviewer.tsx:37-42 | for one-line fields, a block's lines are: empty, `PAGE: title`, `URL: url`, `CONTENT: content`, `HEADINGS: ` with the headings joined by `, `, and `---` |
| SystemPromptViewer.PageBlockStart | components/systempromptviewer.tsx:37-38 | every block starts with a newline and `PAGE: ` |
| SystemPromptViewer.NoHeadingsLine | components/systempromptviewer.tsx:41-42 | with no headings, the block ends in `HEADINGS: ` with nothing after it, and then `---` |
| SystemPromptViewer.PromptEmbedsKnowledgeBase | components/systempromptviewer.tsx:46-91 | the prompt is the instructions, then `KNOWLEDGE BASE:` and a newline, then the formatted knowledge base verbatim, then the quick-reference tail |
| SystemPromptViewer.TokenEstimate | components/systempromptviewer.tsx:101 | `ceil(n/4)`: four times the estimate is at least n and less than n + 4 |
| SystemPromptViewer.TokenEstimateUnique | components/systempromptviewer.tsx:101 | those two bounds determine the estimate |
| SystemPromptViewer.PromptTokenEstimate | components/systempromptviewer.tsx:99-101 | the estimate for the prompt bounds its length in the same way |

## Left out

- File writing, directory creation, logging and the 500 ms delay between requests (scripts/scrape-website.js:145-170). They are I/O and do not change the result.
- The `scrapedAt` and `lastUpdated` timestamps. They depend on the clock, so the records and the output document leave them out.
- JSON serialisation of the output file.
- Crawler.ScrapeWebsite: the `visited.has(path)` skip (scripts/scrape-website.js:125) is modelled as an assertion that it cannot happen. A path is never both pending and visited.
- HTML parsing and the removal of script, style, nav, header, footer, iframe and noscript elements (cheerio). A `Document` holds the texts the selectors would report.
- WHATWG URL resolution. An anchor carries its resolved hostname and pathname, or `None` when `new URL` would throw.
- String lengths count Unicode scalar values, not UTF-16 code units. This agrees with the source for text in the Basic Multilingual Plane. For other text, the 5000-character cut and the prompt length can differ.
- Chat.ChatWidget.HandleSendMessage: states the widget's state after the request ends. Concurrency is not modelled: the loading flag while the request is pending, React's batching of state updates, and a second send racing the first.
- Chat.ChatWidget.HandleSendMessage / Chat.Exchange: the fallback reply after a failed request uses the corrected lookup `GetMockResponse`. For a question such as `toString` or `constructor`, the source appends the inherited function and rendering it throws (see "## Findings"); the model appends the apology. The same holds for Chat.ChatWidget.Reply, Chat.ChatWidget.SendQuickAction and Chat.ExchangeShape.
- Chat.ChatWidget.Reply: requires the index to be the position where the assistant message is added. In the source this always holds, because the index is computed as `messages.length + 1` before the user message is added.
- A `JSON.parse` result whose `content` is not a string. The payload model has string content, with "" standing for a falsy value.
- A response without a body (`reader` null). It is modelled as a stream with no chunks.
- `TextDecoder` streaming and lines split across chunk boundaries. Each chunk is split on its own, as the source does.
- Scrolling, animation, minimising, the clipboard and the 2 s copied flag. These are presentation.
- The API endpoint choice. It depends on the host name, and the request is a parameter.

## Findings

| source | as written | input that shows it | evidently intended | confidence | as-written member | corrected member |
|---|---|---|---|---|---|---|
| components/ChatWidget.tsx:441-452 | `mockResponses[question] \|\| apology` looks the question up in a plain object literal, so keys inherited from `Object.prototype` are found | the question `toString` (or `constructor`, `__proto__`, ...) is looked up as a function and returned instead of the apology; rendering it at components/ChatWidget.tsx:362 then calls `.replace` on a non-string | the apology for every string other than the three quick-action questions | not executed | Chat.MockResponseAsWrittenNotString | Chat.MockResponseCases |

The date filter is applied after the trailing slash is stripped. So a
month-archive link such as `/2024/05/` is kept as `/2024/05`, while a dated
post is dropped (`LinkFilter.DateArchiveKeptAfterStripping`,
`LinkFilter.DatedPostDropped`). The model follows the code here; it is not
listed as a finding.
