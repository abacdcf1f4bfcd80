/**
 * The logic of the chat widget (components/ChatWidget.tsx): the asterisk
 * cleanup applied to replies, the markdown-link rewriting done before a
 * message is shown, the folding of a server-sent-event stream into the reply
 * text, the canned fallback answers, and the message list kept by the widget
 * with the guards on sending.
 *
 * Strings are sequences of Unicode scalar values; the network response and
 * `JSON.parse` are parameters (a `Response` value and a `parse` oracle).
 */
module Chat {
  import opened Wrappers
  import opened JsStrings

  // ---------------------------------------------------------------------
  // removeAsterisks
  // ---------------------------------------------------------------------

  /** `text.replace(/\*\/g, '')`: every `*` removed, everything else kept in order. */
  function RemoveAsterisks(text: string): (r: string)
    ensures '*' !in r
    ensures |r| <= |text|
  {
    if text == [] then []
    else (if text[0] == '*' then [] else [text[0]]) + RemoveAsterisks(text[1..])
  }

  /** Removal works piecewise, so it deletes exactly the asterisks and keeps the order of the rest. */
  lemma {:induction false} RemoveAsterisksConcat(a: string, b: string)
    ensures RemoveAsterisks(a + b) == RemoveAsterisks(a) + RemoveAsterisks(b)
  {
    if a == [] {
      assert a + b == b;
    } else {
      assert (a + b)[0] == a[0];
      assert (a + b)[1..] == a[1..] + b;
      RemoveAsterisksConcat(a[1..], b);
    }
  }

  /** Text without asterisks is left as it is. */
  lemma {:induction false} RemoveAsterisksKeepsPlain(text: string)
    requires '*' !in text
    ensures RemoveAsterisks(text) == text
  {
    if text != [] {
      assert text[0] != '*';
      RemoveAsterisksKeepsPlain(text[1..]);
    }
  }

  /** Every character other than `*` occurs in the result exactly as often as in the input. */
  lemma {:induction false} RemoveAsterisksCounts(text: string, c: char)
    ensures multiset(RemoveAsterisks(text))[c] == if c == '*' then 0 else multiset(text)[c]
  {
    if text != [] {
      RemoveAsterisksCounts(text[1..], c);
      assert text == [text[0]] + text[1..];
    }
  }

  lemma RemoveAsterisksIdempotent(text: string)
    ensures RemoveAsterisks(RemoveAsterisks(text)) == RemoveAsterisks(text)
  {
    RemoveAsterisksKeepsPlain(RemoveAsterisks(text));
  }

  // ---------------------------------------------------------------------
  // renderMessageContent
  // ---------------------------------------------------------------------

  /** The position of the first `c` in `s`, if any. */
  function FirstIndex(s: string, c: char): (r: Option<nat>)
    ensures r.Some? ==> r.value < |s| && s[r.value] == c && c !in s[..r.value]
    ensures r.None? ==> c !in s
  {
    if s == [] then None
    else if s[0] == c then Some(0)
    else
      match FirstIndex(s[1..], c)
      case None => None
      case Some(k) =>
        assert s[..k + 1] == [s[0]] + s[1..][..k];
        Some(k + 1)
  }

  lemma FirstIndexAfter(a: string, c: char, b: string)
    requires c !in a
    ensures FirstIndex(a + [c] + b, c) == Some(|a|)
  {
    var s := a + [c] + b;
    assert s[|a|] == c;
    assert forall i :: 0 <= i < |a| ==> s[i] == a[i];
    assert s[..|a|] == a;
  }

  /** The text group `[^\]]+` and the URL group `[^)]+` of the link pattern. */
  predicate IsLinkText(t: string)
  {
    |t| > 0 && ']' !in t
  }

  predicate IsLinkUrl(u: string)
  {
    |u| > 0 && ')' !in u
  }

  function MarkdownLink(text: string, url: string): string
  {
    "[" + text + "](" + url + ")"
  }

  /** A link written out character group by character group. */
  lemma LinkAssembly(text: string, url: string, rest: string)
    ensures [ '[' ] + text + [ ']' ] + ([ '(' ] + url + [ ')' ] + rest) == MarkdownLink(text, url) + rest
  {
    assert "[" == [ '[' ] && "](" == [ ']', '(' ] && ")" == [ ')' ];
  }

  /** A group and what follows its closing delimiter. */
  datatype GroupMatch = GroupMatch(group: string, rest: string)

  /**
   * `open`, then one or more characters other than `close`, then `close`, at
   * the start of `s`: the group ends at the first `close`.
   */
  function MatchGroup(s: string, open: char, close: char): (r: Option<GroupMatch>)
    ensures r.Some? ==> |r.value.group| > 0 && close !in r.value.group
    ensures r.Some? ==> s == [open] + r.value.group + [close] + r.value.rest
  {
    if |s| == 0 || s[0] != open then None
    else
      match FirstIndex(s[1..], close)
      case None => None
      case Some(j) =>
        if j == 0 then None
        else
          assert s == [open] + s[1..][..j] + [close] + s[j + 2..] by {
            assert s[1..] == s[1..][..j] + [close] + s[j + 2..];
          }
          Some(GroupMatch(s[1..][..j], s[j + 2..]))
  }

  lemma MatchGroupComplete(open: char, group: string, close: char, rest: string)
    requires |group| > 0 && close !in group
    ensures MatchGroup([open] + group + [close] + rest, open, close) == Some(GroupMatch(group, rest))
  {
    var s := [open] + group + [close] + rest;
    assert s[1..] == group + [close] + rest;
    FirstIndexAfter(group, close, rest);
    assert s[1..][..|group|] == group;
    assert s[|group| + 2..] == rest;
  }

  datatype LinkMatch = LinkMatch(text: string, url: string, rest: string)

  /**
   * The pattern `\[([^\]]+)\]\(([^)]+)\)` tried at the start of `s`. Since the
   * text group cannot contain `]` and the URL group cannot contain `)`, the
   * groups end at the first `]` and the first `)` after them.
   */
  function MatchLink(s: string): (r: Option<LinkMatch>)
    ensures r.Some? ==> IsLinkText(r.value.text) && IsLinkUrl(r.value.url)
    ensures r.Some? ==> s == MarkdownLink(r.value.text, r.value.url) + r.value.rest
  {
    match MatchGroup(s, '[', ']')
    case None => None
    case Some(t) =>
      match MatchGroup(t.rest, '(', ')')
      case None => None
      case Some(u) =>
        LinkAssembly(t.group, u.group, u.rest);
        Some(LinkMatch(t.group, u.group, u.rest))
  }

  /** Every occurrence of the pattern at the start is found, with its groups. */
  lemma MatchLinkComplete(text: string, url: string, rest: string)
    requires IsLinkText(text) && IsLinkUrl(url)
    ensures MatchLink(MarkdownLink(text, url) + rest) == Some(LinkMatch(text, url, rest))
  {
    var after := [ '(' ] + url + [ ')' ] + rest;
    LinkAssembly(text, url, rest);
    MatchGroupComplete('[', text, ']', after);
    MatchGroupComplete('(', url, ')', rest);
  }

  /** The HTML the replacement string produces, `$1` being the text and `$2` the URL. */
  function AnchorHtml(text: string, url: string): string
  {
    "<a href=\"" + url + "\" target=\"_blank\" rel=\"noopener noreferrer\" class=\"cflar-chat-link\">" + text + "</a>"
  }

  /** The global replace: scanning left to right, each match is rewritten and scanning resumes after it. */
  function RenderMessageContent(content: string): string
    decreases |content|
  {
    if content == [] then []
    else if content[0] != '[' then [content[0]] + RenderMessageContent(content[1..])
    else
      match MatchLink(content)
      case Some(m) => AnchorHtml(m.text, m.url) + RenderMessageContent(m.rest)
      case None => [content[0]] + RenderMessageContent(content[1..])
  }

  /** Content in which the pattern matches nowhere is returned unchanged. */
  lemma {:induction false} RenderWithoutLink(content: string)
    requires forall i :: 0 <= i < |content| ==> MatchLink(content[i..]).None?
    ensures RenderMessageContent(content) == content
  {
    if content != [] {
      assert content[0..] == content;
      forall i | 0 <= i < |content[1..]| ensures MatchLink(content[1..][i..]).None? {
        assert content[1..][i..] == content[i + 1..];
      }
      RenderWithoutLink(content[1..]);
    }
  }

  /** In particular, content without a `[` is returned unchanged. */
  lemma RenderWithoutBracket(content: string)
    requires '[' !in content
    ensures RenderMessageContent(content) == content
  {
    forall i | 0 <= i < |content| ensures MatchLink(content[i..]).None? {
      assert content[i..][0] == content[i];
    }
    RenderWithoutLink(content);
  }

  /** A link at the start becomes an anchor, and rendering carries on after it. */
  lemma RenderLink(text: string, url: string, rest: string)
    requires IsLinkText(text) && IsLinkUrl(url)
    ensures RenderMessageContent(MarkdownLink(text, url) + rest) == AnchorHtml(text, url) + RenderMessageContent(rest)
  {
    MatchLinkComplete(text, url, rest);
  }

  lemma ConsAppend(x: string, y: string)
    requires |x| > 0
    ensures [x[0]] + (x[1..] + y) == x + y
  {
    assert [x[0]] + x[1..] == x;
  }

  /** A character other than `[` is copied. */
  lemma RenderPlainChar(content: string)
    requires |content| > 0 && content[0] != '['
    ensures RenderMessageContent(content) == [content[0]] + RenderMessageContent(content[1..])
  {
  }

  /** Text before the first `[` is copied as it is. */
  lemma {:induction false} RenderPlainPrefix(plain: string, rest: string)
    requires '[' !in plain
    ensures RenderMessageContent(plain + rest) == plain + RenderMessageContent(rest)
  {
    if plain == [] {
      assert plain + rest == rest;
    } else {
      var s := plain + rest;
      assert s[0] == plain[0];
      assert s[1..] == plain[1..] + rest;
      RenderPlainChar(s);
      RenderPlainPrefix(plain[1..], rest);
      ConsAppend(plain, RenderMessageContent(rest));
    }
  }

  /** A single link between plain text: exactly that link becomes an anchor. */
  lemma RenderOneLink(before: string, text: string, url: string, after: string)
    requires '[' !in before && '[' !in after
    requires IsLinkText(text) && IsLinkUrl(url)
    ensures RenderMessageContent(before + MarkdownLink(text, url) + after) == before + AnchorHtml(text, url) + after
  {
    assert before + MarkdownLink(text, url) + after == before + (MarkdownLink(text, url) + after);
    RenderPlainPrefix(before, MarkdownLink(text, url) + after);
    RenderLink(text, url, after);
    RenderWithoutBracket(after);
  }

  // ---------------------------------------------------------------------
  // The event stream
  // ---------------------------------------------------------------------

  /** The result of `JSON.parse` on a payload: invalid JSON, or an object whose `content` and `error` are read. */
  datatype Payload = Invalid | Json(content: string, error: bool)

  const DataPrefix: string := "data: "
  const Done: string := "[DONE]"

  /** The payload of a `data: ` line (`line.slice(6)`); other lines carry none. */
  function DataPayload(line: string): (r: Option<string>)
    ensures r.Some? <==> StartsWith(line, DataPrefix)
    ensures r.Some? ==> line == DataPrefix + r.value
  {
    if StartsWith(line, DataPrefix) then Some(line[|DataPrefix|..]) else None
  }

  /** What a parsed payload adds to the reply: its `content` when truthy, else nothing. */
  function PayloadContent(p: Payload): string
  {
    match p
    case Invalid => ""
    case Json(content, _) => content
  }

  /** The text one chunk's lines add, up to a `[DONE]` payload. */
  function LinesContent(lines: seq<string>, parse: string -> Payload): string
  {
    if lines == [] then ""
    else
      match DataPayload(lines[0])
      case None => LinesContent(lines[1..], parse)
      case Some(data) =>
        if data == Done then "" else PayloadContent(parse(data)) + LinesContent(lines[1..], parse)
  }

  /** `LinesContent` from line `i` on, one line at a time. */
  lemma LinesContentFrom(lines: seq<string>, i: nat, parse: string -> Payload)
    requires i < |lines|
    ensures !StartsWith(lines[i], DataPrefix) ==> LinesContent(lines[i..], parse) == LinesContent(lines[i + 1..], parse)
    ensures StartsWith(lines[i], DataPrefix) && lines[i][|DataPrefix|..] == Done ==> LinesContent(lines[i..], parse) == ""
    ensures StartsWith(lines[i], DataPrefix) && lines[i][|DataPrefix|..] != Done ==>
              LinesContent(lines[i..], parse) == PayloadContent(parse(lines[i][|DataPrefix|..])) + LinesContent(lines[i + 1..], parse)
  {
    assert lines[i..][0] == lines[i];
    assert lines[i..][1..] == lines[i + 1..];
  }

  function ChunkContent(chunk: string, parse: string -> Payload): string
  {
    LinesContent(Split(chunk, '\n'), parse)
  }

  /** The accumulated reply after the given chunks, in arrival order. */
  function StreamContent(chunks: seq<string>, parse: string -> Payload): string
  {
    if chunks == [] then ""
    else StreamContent(chunks[..|chunks| - 1], parse) + ChunkContent(chunks[|chunks| - 1], parse)
  }

  /** The accumulated text is the concatenation of the payload contents, chunk by chunk. */
  lemma {:induction false} StreamContentConcat(a: seq<string>, b: seq<string>, parse: string -> Payload)
    ensures StreamContent(a + b, parse) == StreamContent(a, parse) + StreamContent(b, parse)
    decreases |b|
  {
    if b == [] {
      assert a + b == a;
    } else {
      var front, last := b[..|b| - 1], b[|b| - 1];
      assert (a + b)[..|a + b| - 1] == a + front;
      assert (a + b)[|a + b| - 1] == last;
      StreamContentConcat(a, front, parse);
      var x, y, z := StreamContent(a, parse), StreamContent(front, parse), ChunkContent(last, parse);
      assert StreamContent(a + b, parse) == (x + y) + z;
      assert StreamContent(b, parse) == y + z;
      assert (x + y) + z == x + (y + z);
    }
  }

  /** A `[DONE]` payload ends its own chunk only: chunks after it still count. */
  lemma DoneEndsOnlyItsChunk(a: seq<string>, chunk: string, b: seq<string>, parse: string -> Payload)
    ensures StreamContent(a + [chunk] + b, parse) == StreamContent(a, parse) + ChunkContent(chunk, parse) + StreamContent(b, parse)
  {
    StreamContentConcat(a + [chunk], b, parse);
    assert (a + [chunk])[..|a + [chunk]| - 1] == a;
  }

  /** Within a chunk, nothing after a `[DONE]` payload counts. */
  lemma {:induction false} LinesAfterDoneIgnored(before: seq<string>, after: seq<string>, parse: string -> Payload)
    ensures LinesContent(before + [DataPrefix + Done] + after, parse) ==
            LinesContent(before + [DataPrefix + Done], parse)
  {
    if before == [] {
      assert ([] + [DataPrefix + Done] + after)[1..] == after;
      assert [] + [DataPrefix + Done] + after == [DataPrefix + Done] + after;
      assert (DataPrefix + Done)[|DataPrefix|..] == Done;
    } else {
      assert (before + [DataPrefix + Done] + after)[1..] == before[1..] + [DataPrefix + Done] + after;
      assert (before + [DataPrefix + Done])[1..] == before[1..] + [DataPrefix + Done];
      LinesAfterDoneIgnored(before[1..], after, parse);
    }
  }

  /** Lines that are not `data: ` lines add nothing. */
  lemma NonDataLineIgnored(line: string, rest: seq<string>, parse: string -> Payload)
    requires !StartsWith(line, DataPrefix)
    ensures LinesContent([line] + rest, parse) == LinesContent(rest, parse)
  {
    assert ([line] + rest)[1..] == rest;
  }

  /**
   * Invalid JSON and a payload with an `error` field do not stop the stream: the
   * payload adds its content (if any) and the following lines still count.
   */
  lemma BadPayloadSwallowed(data: string, rest: seq<string>, parse: string -> Payload)
    requires data != Done
    requires parse(data).Invalid? || parse(data).error
    ensures LinesContent([DataPrefix + data] + rest, parse) == PayloadContent(parse(data)) + LinesContent(rest, parse)
  {
    assert ([DataPrefix + data] + rest)[1..] == rest;
    assert (DataPrefix + data)[|DataPrefix|..] == data;
  }

  /** The `error` field never changes the reply. */
  lemma {:induction false} ErrorFlagIrrelevant(lines: seq<string>, parse: string -> Payload, parse2: string -> Payload)
    requires forall d :: PayloadContent(parse(d)) == PayloadContent(parse2(d))
    ensures LinesContent(lines, parse) == LinesContent(lines, parse2)
  {
    if lines != [] {
      ErrorFlagIrrelevant(lines[1..], parse, parse2);
    }
  }

  // ---------------------------------------------------------------------
  // getMockResponse
  // ---------------------------------------------------------------------

  const HoursQuestion: string := "What are your hours?"
  const VolunteerQuestion: string := "How can I volunteer?"
  const EventsQuestion: string := "Tell me about upcoming events"

  const HoursAnswer: string :=
    "Visit the [Tours page](https://cflar.dream.press/visit/tours) to see our hours and book a tour!"
  const VolunteerAnswer: string :=
    "Check out our [Volunteer page](https://cflar.dream.press/get-involved/volunteer) to learn about opportunities."
  const EventsAnswer: string :=
    "See all upcoming events on our [Events page](https://cflar.dream.press/events). We have exciting activities planned!"
  const Apology: string :=
    "I'm sorry, I don't have a specific answer for that. Please visit the [CFLAR website](https://cflar.dream.press) for more information."

  /** The three quick-action buttons, in order. */
  const QuickQuestions: seq<string> := [HoursQuestion, VolunteerQuestion, EventsQuestion]

  /** The own properties of the `mockResponses` object literal. */
  const MockResponses: map<string, string> :=
    map[HoursQuestion := HoursAnswer, VolunteerQuestion := VolunteerAnswer, EventsQuestion := EventsAnswer]

  /** The canned fallback answer: the one for a quick-action question, else the apology. */
  function GetMockResponse(question: string): string
  {
    if question in MockResponses then MockResponses[question] else Apology
  }

  /** Each quick action has its own canned answer; every other string gets the apology. */
  lemma MockResponseCases(question: string)
    ensures question == HoursQuestion ==> GetMockResponse(question) == HoursAnswer
    ensures question == VolunteerQuestion ==> GetMockResponse(question) == VolunteerAnswer
    ensures question == EventsQuestion ==> GetMockResponse(question) == EventsAnswer
    ensures GetMockResponse(question) != Apology <==> question in QuickQuestions
  {
    assert HoursAnswer != Apology && VolunteerAnswer != Apology && EventsAnswer != Apology by {
      assert |HoursAnswer| != |Apology|;
      assert |VolunteerAnswer| != |Apology|;
      assert |EventsAnswer| != |Apology|;
    }
  }

  /** A JavaScript value as far as the lookup can produce one. */
  datatype JsValue = JsString(s: string) | JsFunction(name: string) | JsObject | Undefined

  /** The properties every object literal inherits from `Object.prototype`. */
  const ObjectPrototypeMethods: set<string> := {
    "constructor", "hasOwnProperty", "isPrototypeOf", "propertyIsEnumerable",
    "toLocaleString", "toString", "valueOf",
    "__defineGetter__", "__defineSetter__", "__lookupGetter__", "__lookupSetter__"
  }

  /** `mockResponses[question]` on the object literal, inherited properties included. */
  function LookupAsWritten(question: string): JsValue
  {
    if question in MockResponses then JsString(MockResponses[question])
    else if question == "__proto__" then JsObject
    else if question in ObjectPrototypeMethods then JsFunction(question)
    else Undefined
  }

  predicate Truthy(v: JsValue)
  {
    match v
    case JsString(s) => s != ""
    case JsFunction(_) => true
    case JsObject => true
    case Undefined => false
  }

  /** `mockResponses[question] || apology`, as the source writes it. */
  function GetMockResponseAsWritten(question: string): JsValue
  {
    var found := LookupAsWritten(question);
    if Truthy(found) then found else JsString(Apology)
  }

  /** A user who types `toString` gets a function, not a string, back as the fallback answer. */
  lemma MockResponseAsWrittenNotString()
    ensures GetMockResponseAsWritten("toString") == JsFunction("toString")
    ensures !GetMockResponseAsWritten("toString").JsString?
  {
    assert "toString" !in MockResponses by {
      assert "toString" != HoursQuestion && "toString" != VolunteerQuestion && "toString" != EventsQuestion;
    }
  }

  /** Apart from the inherited property names, the lookup as written gives the corrected answer. */
  lemma MockResponseAsWrittenAgrees(question: string)
    requires question !in ObjectPrototypeMethods && question != "__proto__"
    ensures GetMockResponseAsWritten(question) == JsString(GetMockResponse(question))
  {
  }

  // ---------------------------------------------------------------------
  // The widget's messages and the send guards
  // ---------------------------------------------------------------------

  datatype Role = User | Assistant
  datatype Message = Message(role: Role, content: string)

  const Welcome: string :=
    "Hi! \U{1F43E} Welcome to CFAR - the Central Florida Animal Reserve. I'm an AI helper, here to answer questions about our big cat reserve, visiting, tours, residents, and more. How can I help you today?"

  /**
   * How the chat request ends: it fails before any stream is read (the fetch
   * throws or the status is not ok), or the body is read as the given chunks,
   * `aborted` meaning a read threw after them. An absent body is a stream of
   * no chunks.
   */
  datatype Response = Failed | Streamed(chunks: seq<string>, aborted: bool)

  /** `!inputValue.trim() || isLoading` is false: the input is not blank and nothing is loading. */
  predicate CanSend(input: string, loading: bool)
  {
    !AllSpace(input) && !loading
  }

  /** The guard as the source writes it: sending is refused exactly when the trimmed input is empty or a request is loading. */
  lemma CanSendIffTrimmed(input: string, loading: bool)
    ensures CanSend(input, loading) <==> Trim(input) != "" && !loading
  {
    TrimEmptyIffBlank(input);
  }

  /** `!inputValue.trim()`. */
  method IsBlank(input: string) returns (blank: bool)
    ensures blank <==> AllSpace(input)
  {
    TrimEmptyIffBlank(input);
    blank := Trim(input) == "";
  }

  /** The messages after the reply to `question`, appended to `prev`. */
  function Replied(prev: seq<Message>, question: string, response: Response, parse: string -> Payload): seq<Message>
  {
    match response
    case Failed => prev + [Message(Assistant, GetMockResponse(question))]
    case Streamed(chunks, aborted) =>
      var shown := prev + [Message(Assistant, RemoveAsterisks(StreamContent(chunks, parse)))];
      if aborted then shown + [Message(Assistant, GetMockResponse(question))] else shown
  }

  /** The messages after the user asks `question` and the reply arrives. */
  function Exchange(prev: seq<Message>, question: string, response: Response, parse: string -> Payload): seq<Message>
  {
    Replied(prev + [Message(User, question)], question, response, parse)
  }

  /**
   * An exchange keeps the earlier messages, adds the question, then adds the
   * streamed reply without asterisks, or the canned answer when the request
   * failed (after the partial reply when the stream broke off).
   */
  lemma ExchangeShape(prev: seq<Message>, question: string, response: Response, parse: string -> Payload)
    ensures var r := Exchange(prev, question, response, parse);
      && |prev| + 2 <= |r| <= |prev| + 3
      && r[..|prev|] == prev
      && r[|prev|] == Message(User, question)
      && r[|prev| + 1].role == Assistant
      && (response.Failed? ==> |r| == |prev| + 2 && r[|prev| + 1].content == GetMockResponse(question))
      && (response.Streamed? ==> r[|prev| + 1].content == RemoveAsterisks(StreamContent(response.chunks, parse))
                                 && '*' !in r[|prev| + 1].content)
      && (|r| == |prev| + 3 <==> response.Streamed? && response.aborted)
      && (|r| == |prev| + 3 ==> r[|prev| + 2] == Message(Assistant, GetMockResponse(question)))
  {
    var r := Exchange(prev, question, response, parse);
    assert r[..|prev|] == prev;
  }

  /** The widget's state: open or closed, the message list, the input box and the loading flag. */
  class ChatWidget {
    var isOpen: bool
    var messages: seq<Message>
    var inputValue: string
    var isLoading: bool

    constructor ()
      ensures !isOpen && messages == [] && inputValue == "" && !isLoading
    {
      isOpen := false;
      messages := [];
      inputValue := "";
      isLoading := false;
    }

    /** Opening the widget shows the welcome message when there are no messages yet. */
    method Open()
      modifies this
      ensures isOpen
      ensures messages == if old(messages) == [] then [Message(Assistant, Welcome)] else old(messages)
      ensures inputValue == old(inputValue) && isLoading == old(isLoading)
    {
      isOpen := true;
      if |messages| == 0 {
        messages := [Message(Assistant, Welcome)];
      }
    }

    /**
     * The read loop: folds the chunks' payloads into the accumulated text and,
     * each time it grows, shows it without asterisks at `messageIndex`.
     */
    method StreamReply(chunks: seq<string>, parse: string -> Payload, messageIndex: nat)
      requires messageIndex < |messages| && messages[messageIndex] == Message(Assistant, "")
      modifies this
      ensures messages == old(messages)[messageIndex := Message(Assistant, RemoveAsterisks(StreamContent(chunks, parse)))]
      ensures isOpen == old(isOpen) && inputValue == old(inputValue) && isLoading == old(isLoading)
    {
      var accumulatedContent := "";
      for c := 0 to |chunks|
        invariant accumulatedContent == StreamContent(chunks[..c], parse)
        invariant messages == old(messages)[messageIndex := Message(Assistant, RemoveAsterisks(accumulatedContent))]
        invariant isOpen == old(isOpen) && inputValue == old(inputValue) && isLoading == old(isLoading)
      {
        assert chunks[..c + 1][..c] == chunks[..c];
        accumulatedContent := ReadChunk(Split(chunks[c], '\n'), parse, messageIndex, accumulatedContent);
      }
      assert chunks[..|chunks|] == chunks;
    }

    /**
     * The loop over one chunk's lines: skips lines that are not `data: ` lines,
     * stops at `[DONE]`, and adds each payload's content to `accumulated`.
     */
    method ReadChunk(lines: seq<string>, parse: string -> Payload, messageIndex: nat, accumulated: string)
      returns (accumulatedContent: string)
      requires messageIndex < |messages| && messages[messageIndex] == Message(Assistant, RemoveAsterisks(accumulated))
      modifies this
      ensures accumulatedContent == accumulated + LinesContent(lines, parse)
      ensures messages == old(messages)[messageIndex := Message(Assistant, RemoveAsterisks(accumulatedContent))]
      ensures isOpen == old(isOpen) && inputValue == old(inputValue) && isLoading == old(isLoading)
    {
      accumulatedContent := accumulated;
      var i := 0;
      while i < |lines|
        invariant 0 <= i <= |lines|
        invariant accumulatedContent + LinesContent(lines[i..], parse) == accumulated + LinesContent(lines, parse)
        invariant messages == old(messages)[messageIndex := Message(Assistant, RemoveAsterisks(accumulatedContent))]
        invariant isOpen == old(isOpen) && inputValue == old(inputValue) && isLoading == old(isLoading)
      {
        var line := lines[i];
        LinesContentFrom(lines, i, parse);
        ghost var later := LinesContent(lines[i + 1..], parse);
        i := i + 1;
        if !StartsWith(line, DataPrefix) {
          continue;
        }
        var data := line[|DataPrefix|..];
        if data == Done {
          break;
        }
        var parsed := parse(data);
        if parsed.Json? && parsed.content != "" {
          assert accumulatedContent + parsed.content + later == accumulatedContent + (parsed.content + later);
          accumulatedContent := accumulatedContent + parsed.content;
          messages := messages[messageIndex := Message(Assistant, RemoveAsterisks(accumulatedContent))];
        } else {
          assert PayloadContent(parsed) + later == later;
        }
        // An `error` field is thrown here and swallowed by the surrounding catch.
      }
      assert lines[|lines|..] == [];
    }

    /**
     * The body of the try/catch shared by both send paths: `messageIndex` is the
     * length the list had before the question plus one, that is the position
     * of the reply.
     */
    method Reply(question: string, messageIndex: nat, response: Response, parse: string -> Payload)
      requires messageIndex == |messages|
      modifies this
      ensures messages == Replied(old(messages), question, response, parse)
      ensures isOpen == old(isOpen) && inputValue == old(inputValue) && isLoading == old(isLoading)
    {
      match response
      case Failed =>
        messages := messages + [Message(Assistant, GetMockResponse(question))];
      case Streamed(chunks, aborted) =>
        messages := messages + [Message(Assistant, "")];
        StreamReply(chunks, parse, messageIndex);
        if aborted {
          messages := messages + [Message(Assistant, GetMockResponse(question))];
        }
    }

    /** `handleSendMessage`: refused for a blank input or while loading; otherwise sends the input. */
    method HandleSendMessage(response: Response, parse: string -> Payload)
      modifies this
      ensures if CanSend(old(inputValue), old(isLoading))
              then messages == Exchange(old(messages), old(inputValue), response, parse) && inputValue == "" && !isLoading
              else messages == old(messages) && inputValue == old(inputValue) && isLoading == old(isLoading)
      ensures isOpen == old(isOpen)
    {
      var blank := IsBlank(inputValue);
      if blank || isLoading {
        return;
      }
      var userMessage := Message(User, inputValue);
      var messageIndex := |messages| + 1;
      messages := messages + [userMessage];
      inputValue := "";
      isLoading := true;
      Reply(userMessage.content, messageIndex, response, parse);
      assert messages == Exchange(old(messages), old(inputValue), response, parse);
      isLoading := false;
    }

    /** `handleKeyPress`: Enter without Shift sends. */
    method HandleKeyPress(key: string, shiftKey: bool, response: Response, parse: string -> Payload)
      modifies this
      ensures if key == "Enter" && !shiftKey && CanSend(old(inputValue), old(isLoading))
              then messages == Exchange(old(messages), old(inputValue), response, parse) && inputValue == "" && !isLoading
              else messages == old(messages) && inputValue == old(inputValue) && isLoading == old(isLoading)
      ensures isOpen == old(isOpen)
    {
      if key == "Enter" && !shiftKey {
        HandleSendMessage(response, parse);
      }
    }

    /** `sendQuickAction`: refused only while loading; the input box is left alone. */
    method SendQuickAction(question: string, response: Response, parse: string -> Payload)
      modifies this
      ensures old(isLoading) ==> messages == old(messages) && isLoading
      ensures !old(isLoading) ==> messages == Exchange(old(messages), question, response, parse) && !isLoading
      ensures inputValue == old(inputValue) && isOpen == old(isOpen)
    {
      if isLoading {
        return;
      }
      var userMessage := Message(User, question);
      var messageIndex := |messages| + 1;
      messages := messages + [userMessage];
      isLoading := true;
      Reply(userMessage.content, messageIndex, response, parse);
      isLoading := false;
    }
  }
}
