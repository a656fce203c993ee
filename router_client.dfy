/** The generation client (`LLMRouter` in src/llm/router_client.py): the request it
    sends, the status gate it applies to the response, and the cleanup of the returned
    text (reasoning-tag stripping, then the two-phase `_format_markdown`).  The HTTP
    exchange itself is a parameter, `Backend`, from the request to what came back. */
module RouterClient {
  import opened Wrappers
  import opened Errors
  import opened Text

  /** The configured model identifier and base URL (`OllamaConfig`). */
  datatype Config = Config(model: string, baseUrl: string)

  /** The `options` object of the request body.  The two sampling parameters are
      carried as the decimal constants the source writes; nothing computes with them. */
  datatype GenerationOptions = GenerationOptions(numPredict: int, temperature: real, topP: real)

  /** The JSON body posted to the backend. */
  datatype RequestBody = RequestBody(model: string, prompt: string, stream: bool, options: GenerationOptions)

  /** One POST: the URL, the body and the timeout in seconds. */
  datatype HttpCall = HttpCall(url: string, body: RequestBody, timeoutSeconds: real)

  /** A response as the client reads it: the status, the raw text (kept for the error),
      and the `response` member of the decoded JSON body when it has one. */
  datatype HttpResponse = HttpResponse(status: int, text: string, responseField: Option<string>)

  /** What one POST produced: a response, or a transport failure (timeout, refused connection). */
  datatype Exchange = Responded(response: HttpResponse) | TransportFailed(detail: string)

  type Backend = HttpCall -> Exchange

  /** `{"message": {"content": ...}}`, the value `generate` returns. */
  datatype Message = Message(content: string)
  datatype Reply = Reply(message: Message)

  const OpenTag := "<think>"
  const CloseTag := "</think>"

  // ---------------------------------------------------------------- request

  /** The POST that `generate(prompt)` makes. */
  function BuildCall(config: Config, prompt: string): (call: HttpCall)
    ensures call.url == config.baseUrl + "/api/generate"
    ensures call.body.model == config.model && call.body.prompt == prompt
    ensures !call.body.stream && call.body.options.numPredict == 2048
    ensures call.body.options.temperature == 0.7 && call.body.options.topP == 0.9
    ensures call.timeoutSeconds == 120.0
  {
    HttpCall(config.baseUrl + "/api/generate",
             RequestBody(config.model, prompt, false, GenerationOptions(2048, 0.7, 0.9)),
             120.0)
  }

  // ---------------------------------------------------------------- reasoning tags

  /** Lines 36-37: when the text holds `<think>`, keep what follows the last `</think>`
      (all of it when there is none), stripped of surrounding whitespace. */
  function StripThink(content: string): string {
    if Contains(content, OpenTag) then Strip(Last(Split(content, CloseTag))) else content
  }

  lemma CloseTagUnbordered()
    ensures Unbordered(CloseTag)
  {
    var t := CloseTag;
    forall k | 0 < k < |t|
      ensures t[k..] != t[..|t| - k]
    {
      assert t[k..][|t| - k - 1] == '>';
      assert t[..|t| - k][|t| - k - 1] == t[|t| - k - 1] != '>';
    }
  }

  /** Text without `<think>` passes through unchanged. */
  lemma StripThinkUntagged(content: string)
    requires !Contains(content, OpenTag)
    ensures StripThink(content) == content
  {
  }

  /** Text with `<think>` whose last `</think>` starts at `k` becomes the text after that
      `</think>`, stripped; the result holds no `</think>`. */
  lemma StripThinkAfterLastClose(content: string, k: int)
    requires Contains(content, OpenTag)
    requires OccursAt(content, CloseTag, k)
    requires forall i :: k < i ==> !OccursAt(content, CloseTag, i)
    ensures StripThink(content) == Strip(content[k + |CloseTag|..])
    ensures !Contains(StripThink(content), CloseTag)
  {
    var rest := content[k + |CloseTag|..];
    LastPieceIsRest(content, k);
    assert StripThink(content) == Strip(rest);
    StrippedRestHasNoClose(content, k);
  }

  lemma LastPieceIsRest(content: string, k: int)
    requires OccursAt(content, CloseTag, k)
    requires forall i :: k < i ==> !OccursAt(content, CloseTag, i)
    ensures Last(Split(content, CloseTag)) == content[k + |CloseTag|..]
  {
    CloseTagUnbordered();
    AfterLastOccurrence(content, CloseTag, k);
  }

  lemma StrippedRestHasNoClose(content: string, k: int)
    requires OccursAt(content, CloseTag, k)
    requires forall i :: k < i ==> !OccursAt(content, CloseTag, i)
    ensures !Contains(Strip(content[k + |CloseTag|..]), CloseTag)
  {
    var rest := content[k + |CloseTag|..];
    LastPieceIsRest(content, k);
    LastPieceOfSplit(content, CloseTag);
    assert !Contains(rest, CloseTag);
    var r := Strip(rest);
    var a := |rest| - |TrimStart(rest)|;
    StripFacts(rest);
    assert a + |r| <= |rest| && r == rest[a..a + |r|];
    SliceKeepsAbsence(rest, CloseTag, a, a + |r|);
  }

  /** Text with `<think>` but no `</think>` is only stripped, and keeps its `<think>`. */
  lemma StripThinkUnclosed(content: string)
    requires Contains(content, OpenTag) && !Contains(content, CloseTag)
    ensures StripThink(content) == Strip(content)
    ensures Contains(StripThink(content), OpenTag)
  {
    LastPieceOfSplit(content, CloseTag);
    var i :| 0 <= i <= |content| - |OpenTag| && OccursAt(content, OpenTag, i);
    StripKeepsOccurrence(content, OpenTag, i);
  }

  /** A reasoning block followed by an answer without `<` leaves the stripped answer. */
  lemma StripThinkBlock(plan: string, answer: string)
    requires forall i :: 0 <= i < |answer| ==> answer[i] != '<'
    ensures StripThink(OpenTag + plan + CloseTag + answer) == Strip(answer)
  {
    var content := OpenTag + plan + CloseTag + answer;
    var k := |OpenTag| + |plan|;
    assert content[..|OpenTag|] == OpenTag;
    assert OccursAt(content, OpenTag, 0);
    assert content[k..k + |CloseTag|] == CloseTag;
    assert content[k + |CloseTag|..] == answer;
    forall i | k < i
      ensures !OccursAt(content, CloseTag, i)
    {
      if i + |CloseTag| <= |content| {
        assert content[i..i + |CloseTag|][0] == content[i];
        if i < k + |CloseTag| {
          assert content[i] == CloseTag[i - k];
        } else {
          assert content[i] == answer[i - k - |CloseTag|];
        }
      }
    }
    StripThinkAfterLastClose(content, k);
  }

  /** The reasoning block of a typical reply disappears entirely. */
  lemma StripThinkExample()
    ensures StripThink("<think>reasoning here</think>KEEP THIS") == "KEEP THIS"
  {
    assert "<think>reasoning here</think>KEEP THIS" == OpenTag + "reasoning here" + CloseTag + "KEEP THIS";
    StripThinkBlock("reasoning here", "KEEP THIS");
  }


  /** A reasoning block followed by a padded word leaves the word. */
  lemma ThinkingAnswerStripped()
    ensures StripThink("<think>plan</think> OK ") == "OK"
  {
    assert "<think>plan</think> OK " == OpenTag + "plan" + CloseTag + (" " + "OK" + " ");
    StripThinkBlock("plan", " " + "OK" + " ");
    StripPadded("OK");
  }

  // ---------------------------------------------------------------- _format_markdown

  /** Line 55, `' '.join(content.split())`. */
  function Collapse(content: string): string {
    Join(" ", Words(content))
  }

  /** Lines 61-64 for one line: a line starting with `#` gets a preceding newline. */
  function MarkHeader(line: string): string {
    if |line| > 0 && line[0] == '#' then "\n" + line else line
  }

  /** What `_format_markdown` returns.  Phase one leaves no newline, so phase two sees one
      line; FormatMarkdown, which runs both phases as written, is proved to agree. */
  function Formatted(content: string): string {
    MarkHeader(Collapse(content))
  }

  /** Collapsing keeps the words of the text, in order, and leaves only single spaces
      between them; it is empty exactly for an all-whitespace text. */
  lemma CollapseFacts(content: string)
    ensures SingleSpaced(Collapse(content))
    ensures Words(Collapse(content)) == Words(content)
    ensures Collapse(content) == "" <==> AllSpace(content)
  {
    JoinWordsSingleSpaced(Words(content));
    WordsOfJoin(Words(content));
    WordsEmptyIff(content);
  }

  lemma SingleSpacedHasNoNewline(c: string)
    requires SingleSpaced(c)
    ensures !Contains(c, "\n")
  {
    forall i | 0 <= i <= |c| - 1
      ensures !OccursAt(c, "\n", i)
    {
      assert c[i..i + 1][0] == c[i];
    }
  }

  /** Lines 52-66 as written: collapse, split on newlines, prefix header lines, join. */
  method FormatMarkdown(content: string) returns (formatted: string)
    ensures formatted == Formatted(content)
  {
    var collapsed := Collapse(content);
    var lines := Split(collapsed, "\n");
    var formattedLines: seq<string> := [];
    for k := 0 to |lines|
      invariant |formattedLines| == k
      invariant forall j :: 0 <= j < k ==> formattedLines[j] == MarkHeader(lines[j])
    {
      var line := lines[k];
      if |line| > 0 && line[0] == '#' {
        formattedLines := formattedLines + ["\n" + line];
      } else {
        formattedLines := formattedLines + [line];
      }
    }
    formatted := Join("\n", formattedLines);
    CollapseFacts(content);
    SingleSpacedHasNoNewline(collapsed);
    LastPieceOfSplit(collapsed, "\n");
  }

  /** The formatted text has no tab and no two spaces in a row; its only possible
      newline is a leading one, present exactly when the collapsed text starts with `#`. */
  lemma FormattedShape(content: string)
    ensures var c := Collapse(content); var r := Formatted(content);
      && (forall i :: 0 <= i < |r| ==> r[i] != '\t')
      && (forall i :: 0 < i < |r| && r[i] == ' ' ==> r[i - 1] != ' ')
      && (forall i :: 0 <= i < |r| && r[i] == '\n' ==> i == 0)
      && ((|r| > 0 && r[0] == '\n') <==> (|c| > 0 && c[0] == '#'))
  {
    var c := Collapse(content);
    CollapseFacts(content);
    if |c| > 0 && c[0] == '#' {
      var r := "\n" + c;
      forall i | 0 < i < |r|
        ensures r[i] == c[i - 1]
      {
      }
    }
  }

  /** Formatting keeps the sequence of words of its input. */
  lemma FormattedWords(content: string)
    ensures Words(Formatted(content)) == Words(content)
  {
    var c := Collapse(content);
    CollapseFacts(content);
    if |c| > 0 && c[0] == '#' {
      assert ("\n" + c)[1..] == c;
    }
  }

  /** Formatting an already formatted text changes nothing. */
  lemma FormattedIdempotent(content: string)
    ensures Formatted(Formatted(content)) == Formatted(content)
  {
    FormattedWords(content);
  }

  /** A header line and the line after it end up on one line: the newline between them
      is collapsed away, and only a leading newline is added. */
  lemma FormattedHeaderThenText(hash: string, heading: string, text: string)
    requires IsWord(hash) && hash[0] == '#' && IsWord(heading) && IsWord(text)
    ensures Formatted(hash + " " + heading + "\n" + text) == "\n" + hash + " " + heading + " " + text
  {
    HeaderLinesWords(hash, heading, text);
    JoinThree(hash, heading, text);
  }

  lemma HeaderLinesWords(hash: string, heading: string, text: string)
    requires IsWord(hash) && IsWord(heading) && IsWord(text)
    ensures Words(hash + " " + heading + "\n" + text) == [hash, heading, text]
  {
    var t := text + "";
    var n := ['\n'] + t;
    var h := heading + n;
    var sp := [' '] + h;
    assert n == "\n" + text;
    assert h == heading + "\n" + text;
    assert sp == " " + heading + "\n" + text;
    assert hash + " " + heading + "\n" + text == hash + sp;
    WordsCons(text, "");
    WordsSkip('\n', t);
    WordsCons(heading, n);
    WordsSkip(' ', h);
    WordsCons(hash, sp);
  }

  lemma JoinThree(a: string, b: string, c: string)
    ensures Join(" ", [a, b, c]) == a + " " + b + " " + c
  {
    assert [a, b, c][1..] == [b, c] && [b, c][1..] == [c];
    assert Join(" ", [b, c]) == b + " " + c;
  }

  /** A single word not starting with `#` is its own formatting; one starting with `#`
      gets a newline in front (FormattedShape). */
  lemma WordFormatted(w: string)
    requires IsWord(w) && w[0] != '#'
    ensures Formatted(w) == w
  {
    WordsCons(w, "");
    assert w + "" == w;
    assert Join(" ", [w]) == w;
  }

  /** The word `OK` is its own formatting. */
  lemma OkFormatted()
    ensures Formatted("OK") == "OK"
  {
    WordFormatted("OK");
  }

  /** Formatting gives the empty text exactly for an all-whitespace input. */
  lemma FormattedBlank(content: string)
    ensures Formatted(content) == "" <==> AllSpace(content)
  {
    CollapseFacts(content);
  }

  // ---------------------------------------------------------------- generate

  /** httpx's `raise_for_status()`: raises for every status outside 200..299. */
  function RaiseForStatus(response: HttpResponse): Result<HttpResponse, Error> {
    if 200 <= response.status < 300 then Success(response)
    else Failure(HttpStatusError(response.status, response.text))
  }

  /** Lines 28-30: only a status other than 200 is handed to `raise_for_status()`. */
  function CheckStatus(response: HttpResponse): Result<HttpResponse, Error> {
    if response.status != 200 then RaiseForStatus(response) else Success(response)
  }

  /** Lines 28-42 once the exchange is over: the status gate, the `response` member with
      `''` as default, tag stripping, formatting, and the reply wrapping. */
  function Respond(exchange: Exchange): Result<Reply, Error> {
    match exchange
    case TransportFailed(detail) => Failure(TransportError(detail))
    case Responded(response) =>
      var checked :- CheckStatus(response);
      var content := checked.responseField.GetOr("");
      Success(Reply(Message(Formatted(StripThink(content)))))
  }

  /** `generate(prompt)`: one exchange with the backend, then Respond. */
  function Generate(config: Config, backend: Backend, prompt: string): Result<Reply, Error> {
    Respond(backend(BuildCall(config, prompt)))
  }

  /** The client as the chain sees it: a function from prompt to reply. */
  function Client(config: Config, backend: Backend): string -> Result<Reply, Error> {
    (prompt: string) => Generate(config, backend, prompt)
  }

  /** A call fails with the transport error or, for a status outside 2xx, with the status
      and raw body; it succeeds exactly for a 2xx response. */
  lemma GenerateStatusGate(config: Config, backend: Backend, prompt: string)
    ensures var exchange := backend(BuildCall(config, prompt)); var r := Generate(config, backend, prompt);
      && (exchange.TransportFailed? ==> r == Failure(TransportError(exchange.detail)))
      && (exchange.Responded? ==> (r.Success? <==> 200 <= exchange.response.status < 300))
      && (exchange.Responded? && !(200 <= exchange.response.status < 300) ==>
            r == Failure(HttpStatusError(exchange.response.status, exchange.response.text)))
  {
  }

  lemma AllSpaceHasNoTag(content: string)
    requires AllSpace(content)
    ensures !Contains(content, OpenTag)
  {
    forall i | 0 <= i <= |content| - |OpenTag|
      ensures !OccursAt(content, OpenTag, i)
    {
      assert content[i..i + |OpenTag|][0] == content[i];
    }
  }

  /** A 2xx response with no `response` member, or an all-whitespace one, yields the empty content. */
  lemma GenerateBlankResponse(config: Config, backend: Backend, prompt: string)
    requires backend(BuildCall(config, prompt)).Responded?
    requires var response := backend(BuildCall(config, prompt)).response;
      200 <= response.status < 300 && (response.responseField.None? || AllSpace(response.responseField.value))
    ensures Generate(config, backend, prompt) == Success(Reply(Message("")))
  {
    var field := backend(BuildCall(config, prompt)).response.responseField;
    var content := field.GetOr("");
    AllSpaceHasNoTag(content);
    FormattedBlank(content);
  }

  /** Every content a call returns is already in formatted shape: formatting it again
      changes nothing, and it keeps the words of the stripped backend text. */
  lemma GenerateContentFormatted(config: Config, backend: Backend, prompt: string)
    requires Generate(config, backend, prompt).Success?
    ensures var content := Generate(config, backend, prompt).value.message.content;
      && Formatted(content) == content
      && Words(content) == Words(StripThink(backend(BuildCall(config, prompt)).response.responseField.GetOr("")))
  {
    var raw := StripThink(backend(BuildCall(config, prompt)).response.responseField.GetOr(""));
    FormattedIdempotent(raw);
    FormattedWords(raw);
  }
}
