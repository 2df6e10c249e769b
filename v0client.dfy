/** `callV0API` of app/api/generate/route.ts: the chat-completion request sent to the v0 API, the
    classification of an unsuccessful HTTP status, the reading of the server-sent event stream
    into the generated code, and the removal of a Markdown code fence around that code.

    The network is a parameter: the transport answer (no answer at all, or a status, its text
    and a body that is either missing or a stream of decoded text chunks that may break off).
    So is JSON: `parse` maps the text after `data: ` to the `choices[0].delta.content` it holds,
    or to None when the text is not JSON or has no such field. */
module V0Client {
  import opened Wrappers
  import opened Text

  // ---------------------------------------------------------------------------------------
  // The request

  const Endpoint := "https://api.v0.dev/v1/chat/completions"
  const LargeModel := "v0-1.5-lg"
  const MediumModel := "v0-1.5-md"
  const MaxTokens := 4096

  /** The body of the POST request. The temperature (0.2) and `stream: true` never vary. A
      reference image turns the user message into a text part plus an `image_url` part. */
  datatype ChatRequest = ChatRequest(authorization: string, model: string, systemPrompt: string,
                                     userText: string, image: Option<string>, maxTokens: nat)

  /** An empty reference image is falsy and counts as no image. */
  function BuildRequest(apiKey: string, systemPrompt: string, userPrompt: string,
                        referenceImage: Option<string>): (r: ChatRequest)
    ensures r.authorization == "Bearer " + apiKey
    ensures r.systemPrompt == systemPrompt && r.userText == userPrompt && r.maxTokens == 4096
    ensures r.image.Some? <==> referenceImage.Some? && referenceImage.value != ""
    ensures r.image.Some? ==> r.image == referenceImage
    ensures r.model == (if r.image.Some? then LargeModel else MediumModel)
  {
    var image := if referenceImage.Some? && referenceImage.value != "" then referenceImage else None;
    ChatRequest("Bearer " + apiKey, if image.Some? then LargeModel else MediumModel,
                systemPrompt, userPrompt, image, MaxTokens)
  }

  // ---------------------------------------------------------------------------------------
  // The answer

  datatype Body = NoBody | Stream(chunks: seq<string>, broken: bool)

  /** What `fetch` yields: a failure to reach the server, or a response. `broken` says that
      reading the stream threw after the chunks listed. */
  datatype Transport = NetworkFailure | Response(status: int, statusText: string, body: Body)

  datatype ApiResult = Success(code: string) | Failure(error: string)

  type DeltaParser = string -> Option<string>

  const ClientErrorPrefix := "클라이언트 오류 ("
  const ClientErrorMiddle := "): 요청을 확인해주세요. "
  const ServerErrorPrefix := "서버 오류 ("
  const ServerErrorMiddle := "): v0 API가 일시적으로 사용할 수 없습니다. "
  const NoReaderError := "스트리밍 응답을 읽을 수 없습니다."
  const EmptyCodeError := "v0 API에서 코드를 생성하지 못했습니다."
  const NetworkError := "네트워크 오류: v0 API 호출에 실패했습니다."

  /** `response.ok`. */
  predicate IsOk(status: int) { 200 <= status < 300 }

  predicate IsClientError(status: int) { 400 <= status < 500 }

  /** The message for a response that is not ok: a 4xx status is blamed on the request, every
      other status on the server. Both quote the status and end with the status text. */
  function StatusError(status: int, statusText: string): (r: string)
    ensures IsClientError(status) ==>
      StartsAt(r, 0, ClientErrorPrefix + Decimal(status) + ClientErrorMiddle)
    ensures !IsClientError(status) ==>
      StartsAt(r, 0, ServerErrorPrefix + Decimal(status) + ServerErrorMiddle)
    ensures EndsWith(r, statusText)
  {
    var head := if IsClientError(status) then ClientErrorPrefix + Decimal(status) + ClientErrorMiddle
                else ServerErrorPrefix + Decimal(status) + ServerErrorMiddle;
    PrefixOfConcat(head, statusText);
    SuffixOfConcat(head, statusText);
    head + statusText
  }

  /** The two kinds of status message never coincide: the first character tells them apart. */
  lemma StatusErrorKinds(status: int, statusText: string)
    ensures StatusError(status, statusText)[0] == (if IsClientError(status) then '클' else '서')
  {
    var r := StatusError(status, statusText);
    if IsClientError(status) {
      assert r[..|ClientErrorPrefix|][0] == ClientErrorPrefix[0];
    } else {
      assert r[..|ServerErrorPrefix|][0] == ServerErrorPrefix[0];
    }
  }

  // ---------------------------------------------------------------------------------------
  // Server-sent events

  const DataPrefix := "data: "
  const DoneMarker := "[DONE]"

  /** The code one line of the stream contributes. Blank lines are filtered out; a `data: `
      line adds the delta its JSON carries; the `[DONE]` marker, unparsable JSON, a missing
      or empty delta and every other line add nothing. */
  function LineText(line: string, parse: DeltaParser): (r: string)
    ensures r != "" ==> StartsAt(line, 0, DataPrefix) && line[6..] != DoneMarker
    ensures r != "" ==> parse(line[6..]) == Some(r)
  {
    if Trim(line) == "" then ""
    else if !StartsAt(line, 0, DataPrefix) then ""
    else
      var data := line[6..];
      if data == DoneMarker then ""
      else match parse(data)
        case Some(delta) => delta
        case None => ""
  }

  function LinesText(lines: seq<string>, parse: DeltaParser): string {
    if |lines| == 0 then "" else LineText(lines[0], parse) + LinesText(lines[1..], parse)
  }

  lemma {:induction false} LinesTextAppend(a: seq<string>, b: seq<string>, parse: DeltaParser)
    ensures LinesText(a + b, parse) == LinesText(a, parse) + LinesText(b, parse)
  {
    if |a| == 0 {
      assert a + b == b;
      assert LinesText(a, parse) == "";
    } else {
      var head := LineText(a[0], parse);
      assert (a + b)[0] == a[0] && (a + b)[1..] == a[1..] + b;
      LinesTextAppend(a[1..], b, parse);
      AppendAssoc(head, LinesText(a[1..], parse), LinesText(b, parse));
    }
  }

  /** The stream as the source reads it: every chunk is split into lines on its own, so a line
      that two chunks share is read as two separate lines. */
  function PerChunkText(chunks: seq<string>, parse: DeltaParser): (r: string)
    ensures |chunks| == 1 ==> r == StreamText(chunks, parse)
  {
    if |chunks| == 0 then ""
    else
      var own := LinesText(Split(chunks[0], '\n'), parse);
      if |chunks| == 1 then
        assert chunks[1..] == [] && Concat(chunks[1..]) == "";
        assert Concat(chunks) == chunks[0] + "" == chunks[0];
        own + PerChunkText(chunks[1..], parse)
      else own + PerChunkText(chunks[1..], parse)
  }

  /** The stream as the event protocol means it: the lines of the whole text received, wherever
      the chunk boundaries fall. */
  function StreamText(chunks: seq<string>, parse: DeltaParser): string {
    LinesText(Split(Concat(chunks), '\n'), parse)
  }

  /** A chunk whose last character is a newline. */
  predicate NewlineEnded(c: string) {
    |c| > 0 && c[|c| - 1] == '\n'
  }

  /** A chunk ending with a newline: its own lines, and the lines of it followed by more text,
      are its complete lines followed by those of the text after it. */
  lemma NewlineChunk(c: string, more: string, parse: DeltaParser)
    requires NewlineEnded(c)
    ensures var front := Split(c[..|c| - 1], '\n');
      LinesText(Split(c, '\n'), parse) == LinesText(front, parse)
      && Split(c + more, '\n') == front + Split(more, '\n')
  {
    var z := c[..|c| - 1];
    var front := Split(z, '\n');
    assert c == z + ['\n'];
    SplitTrailingSep(z, '\n');
    assert LinesText(Split(c, '\n'), parse) == LinesText(front, parse) by {
      LinesTextAppend(front, [""], parse);
      assert LinesText([""], parse) == "" by { assert [""][1..] == []; }
    }
    var p := Split(c, '\n');
    assert p[..|p| - 1] == front && p[|p| - 1] == "";
    SplitAppend(c, more, '\n');
    assert "" + more == more;
  }

  /** When every chunk ends with a newline, no line is shared between chunks and the source's
      per-chunk reading agrees with the protocol. */
  lemma {:induction false} PerChunkAgreesOnLineBoundaries(chunks: seq<string>, parse: DeltaParser)
    requires forall k :: 0 <= k < |chunks| ==> NewlineEnded(chunks[k])
    ensures PerChunkText(chunks, parse) == StreamText(chunks, parse)
  {
    if |chunks| > 0 {
      var c, rest := chunks[0], chunks[1..];
      var front, back := Split(c[..|c| - 1], '\n'), Split(Concat(rest), '\n');
      NewlineChunk(c, Concat(rest), parse);
      assert forall k :: 0 <= k < |rest| ==> rest[k] == chunks[k + 1];
      PerChunkAgreesOnLineBoundaries(rest, parse);
      LinesTextAppend(front, back, parse);
    } else {
      SplitWithoutSep(Concat(chunks), '\n');
      assert LinesText([""], parse) == "" by { assert [""][1..] == []; }
    }
  }

  /** A single complete event line yields exactly its delta. */
  lemma SingleEvent(data: string, delta: string, parse: DeltaParser)
    requires '\n' !in data && data != DoneMarker && parse(data) == Some(delta)
    ensures StreamText([DataPrefix + data + "\n"], parse) == delta
  {
    var line := DataPrefix + data;
    assert Concat([line + "\n"]) == line + "\n";
    assert '\n' !in line by {
      assert forall k :: 0 <= k < |line| ==> line[k] == (if k < 6 then DataPrefix[k] else data[k - 6]);
    }
    SplitWithoutSep(line, '\n');
    SplitTrailingSep(line, '\n');
    assert Split(line + "\n", '\n') == [line, ""];
    PrefixOfConcat(DataPrefix, data);
    assert line[6..] == data;
    assert !IsSpace(line[0]);
    assert LineText(line, parse) == delta;
    assert LinesText([""], parse) == "" by { assert [""][1..] == []; }
    assert [line, ""][1..] == [""];
  }

  /** A `data:` line whose JSON does not parse adds nothing. */
  lemma UnparsableLineAddsNothing(a: string, parse: DeltaParser)
    requires '\n' !in a && parse(a) == None
    ensures LinesText(Split(DataPrefix + a, '\n'), parse) == ""
  {
    var first := DataPrefix + a;
    assert '\n' !in first by {
      assert forall k :: 0 <= k < |first| ==> first[k] == (if k < 6 then DataPrefix[k] else a[k - 6]);
    }
    SplitWithoutSep(first, '\n');
    PrefixOfConcat(DataPrefix, a);
    assert first[6..] == a;
    assert [first][1..] == [];
  }

  /** A complete line that is not a `data:` line adds nothing. */
  lemma OtherLineAddsNothing(b: string, parse: DeltaParser)
    requires '\n' !in b && !StartsAt(b, 0, DataPrefix)
    ensures LinesText(Split(b + "\n", '\n'), parse) == ""
  {
    SplitWithoutSep(b, '\n');
    SplitTrailingSep(b, '\n');
    assert Split(b + "\n", '\n') == [b, ""];
    assert LinesText([""], parse) == "" by { assert [""][1..] == []; }
    assert [b, ""][1..] == [""];
  }

  lemma TwoChunkPerChunkText(x: string, y: string, parse: DeltaParser)
    ensures PerChunkText([x, y], parse)
      == LinesText(Split(x, '\n'), parse) + LinesText(Split(y, '\n'), parse)
  {
    var ly := LinesText(Split(y, '\n'), parse);
    assert [y][1..] == [];
    assert PerChunkText([y], parse) == ly + "";
    assert ly + "" == ly;
    assert [x, y][1..] == [y];
  }

  lemma TwoChunkConcat(x: string, y: string)
    ensures Concat([x, y]) == x + y
  {
    assert [y][1..] == [];
    assert Concat([y]) == y + "";
    assert y + "" == y;
    assert [x, y][1..] == [y];
  }

  /** The two halves of a line, read as one text, give the event's delta. */
  lemma RejoinedEvent(a: string, b: string, delta: string, parse: DeltaParser)
    requires '\n' !in a && '\n' !in b && a + b != DoneMarker && parse(a + b) == Some(delta)
    ensures StreamText([DataPrefix + a, b + "\n"], parse) == delta
  {
    var ab := a + b;
    assert '\n' !in ab by {
      assert forall k :: 0 <= k < |ab| ==> ab[k] == (if k < |a| then a[k] else b[k - |a|]);
    }
    SingleEvent(ab, delta, parse);
    TwoChunkConcat(DataPrefix + a, b + "\n");
    assert Concat([DataPrefix + ab + "\n"]) == DataPrefix + ab + "\n" + "";
    assert (DataPrefix + a) + (b + "\n") == DataPrefix + ab + "\n" + "" by {
      AppendAssoc(DataPrefix + a, b, "\n");
      AppendAssoc(DataPrefix, a, b);
      assert DataPrefix + ab + "\n" + "" == DataPrefix + ab + "\n";
    }
  }

  /** An event whose line is cut in two by a chunk boundary is lost by the per-chunk reading:
      the first half is not JSON and the second half does not start with `data: `. Read as the
      protocol means it, the same text gives the delta. */
  lemma SplitEventLost(a: string, b: string, delta: string, parse: DeltaParser)
    requires '\n' !in a && '\n' !in b && a + b != DoneMarker
    requires parse(a) == None && parse(a + b) == Some(delta) && delta != ""
    requires !StartsAt(b, 0, DataPrefix)
    ensures PerChunkText([DataPrefix + a, b + "\n"], parse) == ""
    ensures StreamText([DataPrefix + a, b + "\n"], parse) == delta
  {
    UnparsableLineAddsNothing(a, parse);
    OtherLineAddsNothing(b, parse);
    TwoChunkPerChunkText(DataPrefix + a, b + "\n", parse);
    RejoinedEvent(a, b, delta, parse);
  }

  /** One more chunk continues the pending last line and may complete some lines. */
  lemma NextChunkLines(chunks: seq<string>, n: nat, done: seq<string>, pending: string)
    requires n < |chunks|
    requires Split(Concat(chunks[..n]), '\n') == done + [pending]
    ensures var lines := Split(pending + chunks[n], '\n');
      Split(Concat(chunks[..n + 1]), '\n') == (done + lines[..|lines| - 1]) + [lines[|lines| - 1]]
  {
    var x := Concat(chunks[..n]);
    var lines := Split(pending + chunks[n], '\n');
    assert Concat(chunks[..n + 1]) == x + chunks[n] by {
      assert chunks[..n + 1] == chunks[..n] + [chunks[n]];
      ConcatAppend(chunks[..n], [chunks[n]]);
      assert [chunks[n]][1..] == [];
    }
    var p := Split(x, '\n');
    assert p[..|p| - 1] == done && p[|p| - 1] == pending;
    SplitAppend(x, chunks[n], '\n');
    LastSplitOff(lines);
    assert done + lines == (done + lines[..|lines| - 1]) + [lines[|lines| - 1]];
  }

  /** One chunk read: its complete lines extend the lines read so far, and the text after its
      last newline is what is pending. */
  lemma StreamStep(chunks: seq<string>, n: nat, done: seq<string>, pending: string, parse: DeltaParser)
    requires n < |chunks|
    requires Split(Concat(chunks[..n]), '\n') == done + [pending]
    ensures var lines := Split(pending + chunks[n], '\n');
      var front := lines[..|lines| - 1];
      Split(Concat(chunks[..n + 1]), '\n') == (done + front) + [lines[|lines| - 1]]
      && LinesText(done + front, parse) == LinesText(done, parse) + LinesText(front, parse)
  {
    var lines := Split(pending + chunks[n], '\n');
    NextChunkLines(chunks, n, done, pending);
    LinesTextAppend(done, lines[..|lines| - 1], parse);
  }

  /** Before the first chunk, nothing is complete and nothing is pending. */
  lemma StreamStart(chunks: seq<string>)
    ensures Split(Concat(chunks[..0]), '\n') == [] + [""]
  {
    assert chunks[..0] == [];
    SplitWithoutSep("", '\n');
  }

  /** After the last chunk, the pending text is the last line of the whole text. */
  lemma StreamEnd(chunks: seq<string>, n: nat, done: seq<string>, pending: string, parse: DeltaParser)
    requires n == |chunks|
    requires Split(Concat(chunks[..n]), '\n') == done + [pending]
    ensures StreamText(chunks, parse) == LinesText(done, parse) + LineText(pending, parse)
  {
    assert chunks[..n] == chunks;
    LinesTextAppend(done, [pending], parse);
    assert [pending][1..] == [];
  }

  /** One more line read adds its own code. */
  lemma LinesTextSnoc(lines: seq<string>, j: nat, parse: DeltaParser)
    requires j < |lines|
    ensures LinesText(lines[..j + 1], parse) == LinesText(lines[..j], parse) + LineText(lines[j], parse)
  {
    assert lines[..j + 1] == lines[..j] + [lines[j]];
    LinesTextAppend(lines[..j], [lines[j]], parse);
    assert [lines[j]][1..] == [];
  }

  /** The code a run of complete lines contributes, line by line. */
  method ReadLines(lines: seq<string>, parse: DeltaParser) returns (text: string)
    ensures text == LinesText(lines, parse)
  {
    text := "";
    var j := 0;
    while j < |lines|
      invariant j <= |lines|
      invariant text == LinesText(lines[..j], parse)
    {
      LinesTextSnoc(lines, j, parse);
      text := text + LineText(lines[j], parse);
      j := j + 1;
    }
    assert lines[..j] == lines;
  }

  /** Reading the stream the way the protocol means it: text after the last newline of a chunk is
      kept and continued by the next chunk, and what is left at the end is read as a last line. */
  method ReadStream(chunks: seq<string>, parse: DeltaParser) returns (code: string)
    ensures code == StreamText(chunks, parse)
  {
    code := "";
    var pending := "";
    ghost var done: seq<string> := [];
    var n := 0;
    StreamStart(chunks);
    while n < |chunks|
      invariant n <= |chunks|
      invariant Split(Concat(chunks[..n]), '\n') == done + [pending]
      invariant code == LinesText(done, parse)
    {
      var lines := Split(pending + chunks[n], '\n');
      var front := lines[..|lines| - 1];
      var complete := ReadLines(front, parse);
      StreamStep(chunks, n, done, pending, parse);
      code := code + complete;
      done := done + front;
      pending := lines[|lines| - 1];
      n := n + 1;
    }
    StreamEnd(chunks, n, done, pending, parse);
    code := code + LineText(pending, parse);
  }

  // ---------------------------------------------------------------------------------------
  // Markdown fences

  const Fence := "```"
  const FenceLanguages: seq<string> := ["tsx", "typescript", "ts", "jsx", "javascript", "js"]

  /** The first of the alternatives that s starts with, or "" when none does. */
  function FirstPrefix(s: string, alternatives: seq<string>): (r: string)
    ensures r == "" || r in alternatives
    ensures StartsAt(s, 0, r)
  {
    if |alternatives| == 0 then ""
    else if StartsAt(s, 0, alternatives[0]) then alternatives[0]
    else FirstPrefix(s, alternatives[1..])
  }

  /** Where the opening fence `^```(?:tsx|typescript|ts|jsx|javascript|js)?\n?` ends: the
      alternatives are tried in order and the first that fits is kept. */
  function OpenFenceEnd(t: string): (e: nat)
    requires StartsAt(t, 0, Fence)
    ensures 3 <= e <= |t|
  {
    var language := FirstPrefix(t[3..], FenceLanguages);
    var a := 3 + |language|;
    if a < |t| && t[a] == '\n' then a + 1 else a
  }

  /** Where the closing fence `\n?```$` starts: at the newline before a final fence when there
      is one, else at the final fence, else nowhere (the end). */
  function CloseFenceStart(u: string): (e: nat)
    ensures e <= |u|
    ensures EndsWith(u, "\n```") ==> e == |u| - 4
    ensures !EndsWith(u, "\n```") && EndsWith(u, Fence) ==> e == |u| - 3
    ensures !EndsWith(u, Fence) ==> e == |u|
  {
    if EndsWith(u, "\n```") then |u| - 4 else if EndsWith(u, Fence) then |u| - 3 else |u|
  }

  /** The cleaning of the generated code: trimmed, and when it starts with a fence, the opening
      and closing fences removed and the rest trimmed again. */
  function StripFence(code: string): (r: string)
    ensures |r| > 0 ==> !IsSpace(r[0]) && !IsSpace(r[|r| - 1])
    ensures !StartsAt(Trim(code), 0, Fence) ==> r == Trim(code)
    ensures |r| <= |Trim(code)|
  {
    var t := Trim(code);
    if !StartsAt(t, 0, Fence) then t
    else
      var u := t[OpenFenceEnd(t)..];
      Trim(u[..CloseFenceStart(u)])
  }

  lemma {:induction false} FirstPrefixIs(s: string, alternatives: seq<string>, k: nat)
    requires k < |alternatives| && StartsAt(s, 0, alternatives[k])
    requires forall j :: 0 <= j < k ==> !StartsAt(s, 0, alternatives[j])
    ensures FirstPrefix(s, alternatives) == alternatives[k]
  {
    if k > 0 {
      FirstPrefixIs(s, alternatives[1..], k - 1);
    }
  }

  /** Each fence language, followed by the line break, is recognised as that language; a bare
      fence followed by the line break has none. */
  lemma FenceLanguageRecognised(language: string, rest: string)
    requires language == "" || language in FenceLanguages
    ensures FirstPrefix(language + "\n" + rest, FenceLanguages) == language
  {
    var s := language + "\n" + rest;
    assert s[|language|] == '\n';
    assert s[..|language|] == language;
    var L := FenceLanguages;
    if language == "" {
      assert s[0] == '\n';
      assert forall j :: 0 <= j < |L| ==> !StartsAt(s, 0, L[j]);
    } else if language == "tsx" {
      FirstPrefixIs(s, L, 0);
    } else if language == "typescript" {
      assert s[1] == 'y';
      FirstPrefixIs(s, L, 1);
    } else if language == "ts" {
      assert s[1] == 's' && s[2] == '\n';
      FirstPrefixIs(s, L, 2);
    } else if language == "jsx" {
      assert s[0] == 'j';
      FirstPrefixIs(s, L, 3);
    } else if language == "javascript" {
      assert s[0] == 'j' && s[1] == 'a';
      FirstPrefixIs(s, L, 4);
    } else {
      assert language == "js";
      assert s[0] == 'j' && s[1] == 's' && s[2] == '\n';
      FirstPrefixIs(s, L, 5);
    }
  }

  /** The opening fence, its language and its line break are removed together. */
  lemma OpenFenceOfFenced(language: string, rest: string)
    requires language == "" || language in FenceLanguages
    ensures StartsAt(Fence + (language + "\n" + rest), 0, Fence)
    ensures OpenFenceEnd(Fence + (language + "\n" + rest)) == 4 + |language|
    ensures (Fence + (language + "\n" + rest))[4 + |language|..] == rest
  {
    var tail := language + "\n" + rest;
    var s := Fence + tail;
    PrefixOfConcat(Fence, tail);
    SuffixOfConcat(Fence, tail);
    FenceLanguageRecognised(language, rest);
    assert s[3 + |language|] == tail[|language|] == '\n';
    assert s[4 + |language|..] == tail[|language| + 1..];
    assert tail[|language| + 1..] == rest;
  }

  /** Code wrapped in a fence: three backticks, the language tag, a line break, the code, a line
      break and three backticks. */
  function Fenced(language: string, body: string): (r: string)
    ensures StartsAt(r, 0, Fence) && EndsWith(r, "\n" + Fence)
  {
    var rest := body + ("\n" + Fence);
    var r := Fence + (language + "\n" + rest);
    PrefixOfConcat(Fence, language + "\n" + rest);
    SuffixOfConcat(body, "\n" + Fence);
    assert r[|r| - 4..] == rest[|rest| - 4..];
    r
  }

  /** Fencing code and cleaning it again gives back the code, trimmed, for every language tag
      the opening pattern knows and for a bare fence. */
  lemma StripFenceOfFenced(language: string, body: string)
    requires language == "" || language in FenceLanguages
    ensures StripFence(Fenced(language, body)) == Trim(body)
  {
    var rest := body + ("\n" + Fence);
    var s := Fenced(language, body);
    assert s[0] == '`';
    assert s[|s| - 1] == '`';
    TrimOfTrimmed(s);
    OpenFenceOfFenced(language, rest);
    var u := s[OpenFenceEnd(s)..];
    assert u == rest;
    CloseFenceAfter(body);
  }

  lemma CloseFenceAfter(body: string)
    ensures CloseFenceStart(body + ("\n" + Fence)) == |body|
    ensures (body + ("\n" + Fence))[..|body|] == body
  {
    SuffixOfConcat(body, "\n" + Fence);
    PrefixOfConcat(body, "\n" + Fence);
  }

  /** A lone fence is cleaned down to nothing: a successful call can deliver empty code. */
  lemma LoneFenceIsEmpty()
    ensures StripFence(Fence) == ""
  {
    TrimOfTrimmed(Fence);
    assert FirstPrefix(""[..], FenceLanguages) == "";
  }

  // ---------------------------------------------------------------------------------------
  // The call

  /** The outcome of one call: the first failure on the way (no answer, a status that is not
      ok, no body, a stream that breaks, no code) or the cleaned code. */
  function Outcome(answer: Transport, parse: DeltaParser): (r: ApiResult)
    ensures r.Success? <==>
      answer.Response? && IsOk(answer.status) && answer.body.Stream? && !answer.body.broken
      && StreamText(answer.body.chunks, parse) != ""
    ensures r.Success? ==> r.code == StripFence(StreamText(answer.body.chunks, parse))
    ensures r == Failure(NetworkError) <==>
      answer.NetworkFailure? || (answer.Response? && IsOk(answer.status) && answer.body.Stream?
                                 && answer.body.broken)
    ensures answer.Response? && !IsOk(answer.status) ==>
      r == Failure(StatusError(answer.status, answer.statusText))
    ensures r == Failure(NoReaderError) <==>
      answer.Response? && IsOk(answer.status) && answer.body.NoBody?
    ensures r == Failure(EmptyCodeError) <==>
      answer.Response? && IsOk(answer.status) && answer.body.Stream? && !answer.body.broken
      && StreamText(answer.body.chunks, parse) == ""
  {
    match answer
    case NetworkFailure => Failure(NetworkError)
    case Response(status, statusText, body) =>
      if !IsOk(status) then
        StatusErrorKinds(status, statusText);
        Failure(StatusError(status, statusText))
      else match body
        case NoBody => Failure(NoReaderError)
        case Stream(chunks, broken) =>
          if broken then Failure(NetworkError)
          else
            var code := StreamText(chunks, parse);
            if code == "" then Failure(EmptyCodeError) else Success(StripFence(code))
  }

  /** `callV0API`: the request is what the answer replies to; its reading follows Outcome. */
  method CallV0Api(answer: Transport, parse: DeltaParser) returns (r: ApiResult)
    ensures r == Outcome(answer, parse)
  {
    match answer
    case NetworkFailure =>
      r := Failure(NetworkError);
    case Response(status, statusText, body) =>
      if !IsOk(status) {
        r := Failure(StatusError(status, statusText));
      } else if body.NoBody? {
        r := Failure(NoReaderError);
      } else if body.broken {
        r := Failure(NetworkError);
      } else {
        var code := ReadStream(body.chunks, parse);
        if code == "" {
          r := Failure(EmptyCodeError);
        } else {
          r := Success(StripFence(code));
        }
      }
  }
}
