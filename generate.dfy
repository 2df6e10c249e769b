/** The POST handler of app/api/generate/route.ts: the request checks, the generation record,
    the system and user prompts, at most two calls to the v0 API with validation of the returned
    code in between, and the JSON response.

    The database is a `GenerationStore` whose records are a sequence indexed by id. The
    environment (the API key variable, the design-token file, the network and the JSON parser
    of the stream) is a parameter. */
module GenerateRoute {
  import opened Wrappers
  import opened Text
  import opened Patterns
  import opened PromptTemplates
  import TailwindProcessor
  import V0Client
  import CodeGuard

  // ---------------------------------------------------------------------------------------
  // validateGeneratedCode: the lenient validator the route applies

  const ReasonNoComponent := "Code must include a React component function"

  /** `^default\s+function\s+\w+` under the multiline flag, at i. */
  predicate DefaultFunctionAt(s: string, i: nat) {
    AtLineStart(s, i) && StartsAt(s, i, "default")
    && var a := SkipSpaces(s, i + 7);
       a > i + 7 && StartsAt(s, a, "function")
       && var b := SkipSpaces(s, a + 8);
          b > a + 8 && b < |s| && IsWordChar(s[b])
  }

  /** `function\s+\w+\s*\(` at i. The word run is maximal: a shorter one would leave a word
      character where `\s*\(` must match. */
  predicate FunctionComponentAt(s: string, i: nat) {
    StartsAt(s, i, "function")
    && var a := SkipSpaces(s, i + 8);
       a > i + 8
       && var w := Span(s, a, IsWordChar);
          w > a && SkipSpaces(s, w) < |s| && s[SkipSpaces(s, w)] == '('
  }

  predicate HasDefaultFunction(s: string) { exists i :: 0 <= i <= |s| && DefaultFunctionAt(s, i) }

  predicate HasFunctionComponent(s: string) {
    exists i :: 0 <= i <= |s| && FunctionComponentAt(s, i)
  }

  /** Some function shape the route accepts as a component. */
  predicate HasComponent(s: string) {
    HasExportDefaultFunction(s) || HasDefaultFunction(s) || HasFunctionComponent(s)
  }

  function ValidateGeneratedCode(code: string): (r: Verdict)
    ensures r.Valid? <==>
      HasComponent(code) && !HasScriptTag(code) && !CodeGuard.HasDangerousHtml(code)
    ensures r == Invalid(ReasonNoComponent) <==> !HasComponent(code)
    ensures r == Invalid(CodeGuard.ReasonScript) <==> HasComponent(code) && HasScriptTag(code)
    ensures r == Invalid(CodeGuard.ReasonDangerous) <==>
      HasComponent(code) && !HasScriptTag(code) && CodeGuard.HasDangerousHtml(code)
  {
    if !HasComponent(code) then Invalid(ReasonNoComponent)
    else if HasScriptTag(code) then Invalid(CodeGuard.ReasonScript)
    else if CodeGuard.HasDangerousHtml(code) then Invalid(CodeGuard.ReasonDangerous)
    else Valid
  }

  /** Every code the stricter validator of the test suite accepts, the route accepts too. */
  lemma StricterGuardImpliesRoute(code: string)
    requires CodeGuard.Validate(code) == Valid
    ensures ValidateGeneratedCode(code) == Valid
  {
  }

  const BareFunction := "function A() {}"

  lemma BareFunctionShape()
    ensures FunctionComponentAt(BareFunction, 0)
  {
    var s := BareFunction;
    assert StartsAt(s, 0, "function");
    SpaceRunEnd(s, 8, 9);
    assert Span(s, 9, IsWordChar) == 10 by {
      assert IsWordChar(s[9]) && !IsWordChar(s[10]);
    }
    SpaceRunEnd(s, 10, 10);
  }

  lemma BareFunctionHasNoMarkup()
    ensures !HasScriptTag(BareFunction) && !CodeGuard.HasDangerousHtml(BareFunction)
  {
    assert '<' !in BareFunction && 'g' !in BareFunction;
    ScriptTagNeedsAngle(BareFunction);
    AbsentCharExcludes(BareFunction, "dangerouslySetInnerHTML", 'g');
  }

  /** The route is strictly more lenient: a function without `export default` passes the route
      and fails the test suite's validator. */
  lemma RouteAcceptsBareFunction()
    ensures ValidateGeneratedCode(BareFunction) == Valid
    ensures CodeGuard.Validate(BareFunction).Invalid?
  {
    BareFunctionShape();
    BareFunctionHasNoMarkup();
    assert 'x' !in BareFunction;
    AbsentCharExcludes(BareFunction, "export", 'x');
    CodeGuard.BareFunctionRejected(BareFunction);
  }

  // ---------------------------------------------------------------------------------------
  // The store

  datatype Status = Pending | Completed | Failed

  datatype Generation = Generation(id: nat, prompt: string, style: string, code: string,
                                   css: Option<string>, status: Status)

  /** The generation table: the record with id k sits at index k. */
  class GenerationStore {
    var records: seq<Generation>

    ghost predicate Valid()
      reads this
    {
      forall k :: 0 <= k < |records| ==> records[k].id == k
    }

    constructor()
      ensures records == [] && Valid()
    {
      records := [];
    }

    /** `createGeneration`: a pending record with empty code and no CSS, under the next id. */
    method Create(prompt: string, style: string) returns (id: nat)
      requires Valid()
      modifies this
      ensures id == |old(records)|
      ensures records == old(records) + [Generation(id, prompt, style, "", None, Pending)]
      ensures Valid()
    {
      id := |records|;
      records := records + [Generation(id, prompt, style, "", None, Pending)];
    }

    /** `db.generation.update`: the fields given are replaced, the others kept. */
    method Update(id: nat, code: Option<string>, css: Option<Option<string>>, status: Status)
      requires Valid() && id < |records|
      modifies this
      ensures records == old(records)[id := Patch(old(records)[id], code, css, status)]
      ensures Valid()
    {
      records := records[id := Patch(records[id], code, css, status)];
    }
  }

  /** A record with some of its fields replaced. */
  function Patch(g: Generation, code: Option<string>, css: Option<Option<string>>, status: Status)
    : (r: Generation)
    ensures r.id == g.id && r.prompt == g.prompt && r.style == g.style && r.status == status
    ensures r.code == code.GetOr(g.code) && r.css == css.GetOr(g.css)
  {
    g.(code := code.GetOr(g.code), css := css.GetOr(g.css), status := status)
  }

  // ---------------------------------------------------------------------------------------
  // Requests, environment, responses

  /** The body of the request: unparsable JSON, or its fields. A prompt that is missing or not
      a string is None; `style` is None when it is missing. */
  datatype Request =
    | MalformedJson
    | Fields(prompt: Option<string>, style: Option<string>, template: Option<TemplateType>,
             referenceImage: Option<string>)

  /** The server's surroundings: the `V0_API_KEY` variable, the token file, the network (which
      may answer each attempt differently) and the stream's JSON parser. */
  datatype Env = Env(apiKey: Option<string>, tokens: DesignTokens,
                     api: (nat, V0Client.ChatRequest) -> V0Client.Transport,
                     parse: V0Client.DeltaParser)

  datatype Response =
    | JsonError(status: nat, error: string)
    | ValidationFailure(error: string, details: string)
    | Generated(id: nat, code: string, css: string, attempts: nat, template: TemplateType)
  {
    function HttpStatus(): nat {
      match this
      case JsonError(status, _) => status
      case ValidationFailure(_, _) => 422
      case Generated(_, _, _, _, _) => 200
    }
  }

  const MalformedJsonError := "잘못된 JSON 형식입니다."
  const InvalidPromptError := "유효한 프롬프트가 필요합니다."
  const InvalidImageError := "유효하지 않은 이미지 형식입니다. data URL이어야 합니다."
  const MissingKeyError := "V0_API_KEY가 설정되지 않았습니다. .env.local 파일을 확인해주세요."
  const GenerationFailedError := "코드 생성에 실패했습니다."
  const PlaceholderKey := "your_v0_api_key_here"
  const ImagePrefix := "data:image/"
  const MaxAttempts := 2

  /** `Math.round(length * 3 / 4 / 1024)`: the decoded size of a base64 text in kilobytes,
      rounded half up. */
  function ImageSizeKB(length: nat): (kb: nat)
    ensures 4096 * kb <= 3 * length + 2048 < 4096 * (kb + 1)
  {
    (3 * length + 2048) / 4096
  }

  /** `length * 3 / 4 / 1024 > 5000`, in integers. */
  predicate ImageTooLarge(length: nat) { 3 * length > 5000 * 4096 }

  function ImageTooLargeError(length: nat): string {
    "이미지가 너무 큽니다 (" + Decimal(ImageSizeKB(length)) + "KB). 최대 5MB까지 가능합니다."
  }

  /** A request that passed the checks, with its defaults filled in. */
  datatype Input = Input(prompt: string, style: string, template: TemplateType,
                         image: Option<string>, apiKey: string)

  predicate ValidPrompt(prompt: Option<string>) { prompt.Some? && Trim(prompt.value) != "" }

  /** A truthy reference image. */
  predicate HasImage(image: Option<string>) { image.Some? && image.value != "" }

  predicate UsableKey(apiKey: Option<string>) {
    apiKey.Some? && apiKey.value != "" && apiKey.value != PlaceholderKey
  }

  /** The checks before anything is stored, in the source's order: JSON, prompt, image format,
      image size, API key. */
  function CheckInput(request: Request, apiKey: Option<string>): (r: Result<Input, Response>)
    ensures request.MalformedJson? ==> r == Err(JsonError(400, MalformedJsonError))
    ensures request.Fields? && !ValidPrompt(request.prompt) ==>
      r == Err(JsonError(400, InvalidPromptError))
    ensures r.Err? && r.error != JsonError(400, MalformedJsonError)
            && r.error != JsonError(400, InvalidPromptError) ==>
      request.Fields? && ValidPrompt(request.prompt)
    ensures r.Err? ==> r.error.JsonError? && r.error.status in {400, 500}
    ensures r.Err? && r.error.status == 500 <==>
      request.Fields? && ValidPrompt(request.prompt) && !UsableKey(apiKey)
      && (HasImage(request.referenceImage) ==>
            StartsAt(request.referenceImage.value, 0, ImagePrefix)
            && !ImageTooLarge(|request.referenceImage.value|))
    ensures r.Ok? <==>
      request.Fields? && ValidPrompt(request.prompt) && UsableKey(apiKey)
      && (HasImage(request.referenceImage) ==>
            StartsAt(request.referenceImage.value, 0, ImagePrefix)
            && !ImageTooLarge(|request.referenceImage.value|))
    ensures r.Ok? ==>
      && r.value.prompt == request.prompt.value
      && r.value.style == request.style.GetOr("default")
      && r.value.template == (if request.template.Some? then request.template.value
                              else DetectTemplateType(request.prompt.value))
      && (r.value.image.Some? <==> HasImage(request.referenceImage))
      && (r.value.image.Some? ==> r.value.image == request.referenceImage)
      && r.value.apiKey == apiKey.value
  {
    match request
    case MalformedJson => Err(JsonError(400, MalformedJsonError))
    case Fields(prompt, style, template, referenceImage) =>
      if !ValidPrompt(prompt) then Err(JsonError(400, InvalidPromptError))
      else if HasImage(referenceImage) && !StartsAt(referenceImage.value, 0, ImagePrefix) then
        Err(JsonError(400, InvalidImageError))
      else if HasImage(referenceImage) && ImageTooLarge(|referenceImage.value|) then
        Err(JsonError(400, ImageTooLargeError(|referenceImage.value|)))
      else if !UsableKey(apiKey) then Err(JsonError(500, MissingKeyError))
      else
        var t := if template.Some? then template.value else DetectTemplateType(prompt.value);
        Ok(Input(prompt.value, style.GetOr("default"), t,
                 if HasImage(referenceImage) then referenceImage else None, apiKey.value))
  }

  // ---------------------------------------------------------------------------------------
  // Prompts

  const VisionInstructions := "\n\n🎨 VISION MODE - IMAGE REFERENCE:\nThe user has provided a reference image. Your task:\n1. Carefully analyze the image's design, layout, colors, UI patterns, and visual hierarchy\n2. Create a similar component using React and Tailwind CSS\n3. Match the visual style, spacing, typography, and structure as closely as possible\n4. Follow all the rules above (no imports, whitelisted Tailwind classes only, etc.)\n5. If the image shows a specific UI pattern (card, form, navigation, etc.), replicate that pattern\n\nIMPORTANT: Focus on visual similarity while maintaining code quality and accessibility."

  const ImageRequestOpen := "[참조 이미지 기반 요청]\n\n"
  const ImageRequestClose := "\n\n위 이미지와 비슷한 디자인으로 만들어주세요."

  /** The system prompt, with the vision instructions appended when an image is given. */
  function SystemPrompt(tokens: DesignTokens, image: Option<string>): (r: string)
    ensures StartsAt(r, 0, BuildSystemPrompt(tokens))
    ensures image.None? ==> r == BuildSystemPrompt(tokens)
    ensures image.Some? ==> EndsWith(r, VisionInstructions)
  {
    var base := BuildSystemPrompt(tokens);
    if image.Some? then
      PrefixOfConcat(base, VisionInstructions);
      SuffixOfConcat(base, VisionInstructions);
      base + VisionInstructions
    else
      StartsAtSelf(base);
      base
  }

  /** The user prompt of an attempt: the template prompt with the last validation reason, and on
      the first attempt with an image, wrapped in the image-request lines. */
  function AttemptPrompt(input: Input, attempt: nat, lastReason: Option<string>): (r: string)
    ensures input.image.Some? && attempt == 1 ==>
      r == Enclose(ImageRequestOpen, BuildUserPrompt(input.prompt, input.template, lastReason),
                   ImageRequestClose)
    ensures !(input.image.Some? && attempt == 1) ==>
      r == BuildUserPrompt(input.prompt, input.template, lastReason)
  {
    var userPrompt := BuildUserPrompt(input.prompt, input.template, lastReason);
    if input.image.Some? && attempt == 1 then Enclose(ImageRequestOpen, userPrompt, ImageRequestClose)
    else userPrompt
  }

  function AttemptRequest(input: Input, systemPrompt: string, attempt: nat,
                          lastReason: Option<string>): V0Client.ChatRequest
  {
    V0Client.BuildRequest(input.apiKey, systemPrompt, AttemptPrompt(input, attempt, lastReason),
                          input.image)
  }

  // ---------------------------------------------------------------------------------------
  // The retry loop

  /** How the loop ends: the API fails, the code of some attempt passes validation, or the last
      attempt's code fails it too. */
  datatype LoopEnd =
    | ApiFailed(error: string)
    | Accepted(code: string, attempts: nat)
    | Exhausted(code: string, reason: string)

  /** Attempts from `attempt` on, after a previous attempt failed validation for `lastReason`. */
  function Attempts(input: Input, env: Env, systemPrompt: string, attempt: nat,
                    lastReason: Option<string>): (r: LoopEnd)
    requires 1 <= attempt <= MaxAttempts
    ensures r.Accepted? ==> attempt <= r.attempts <= MaxAttempts
    ensures r.Accepted? ==> ValidateGeneratedCode(r.code) == Valid
    ensures r.Exhausted? ==> ValidateGeneratedCode(r.code) == Invalid(r.reason)
    decreases MaxAttempts - attempt
  {
    var request := AttemptRequest(input, systemPrompt, attempt, lastReason);
    match V0Client.Outcome(env.api(attempt, request), env.parse)
    case Failure(error) => ApiFailed(error)
    case Success(code) =>
      match ValidateGeneratedCode(code)
      case Valid => Accepted(code, attempt)
      case Invalid(reason) =>
        if attempt >= MaxAttempts then Exhausted(code, reason)
        else Attempts(input, env, systemPrompt, attempt + 1, Some(reason))
  }

  const ValidationFailedPrefix := "코드 검증 실패: "
  const ValidationFailedSuffix := ". 최대 재시도 횟수를 초과했습니다."

  /** `result.error || "코드 생성에 실패했습니다."`. */
  function ApiErrorMessage(error: string): (r: string)
    ensures r != ""
    ensures error != "" ==> r == error
  {
    if error != "" then error else GenerationFailedError
  }

  datatype Handled = Handled(response: Response, records: seq<Generation>)

  /** The work after the checks: a pending record under the next id, then the loop, then the
      record and the response that the loop's end calls for. */
  function Conclude(records: seq<Generation>, input: Input, end: LoopEnd): (h: Handled)
    ensures |h.records| == |records| + 1 && h.records[..|records|] == records
    ensures var g := h.records[|records|];
      && g.id == |records| && g.prompt == input.prompt && g.style == input.style && g.css.None?
      && (h.response.Generated? <==> g.status == Completed)
      && (h.response.Generated? ==>
            end.Accepted? && g.code == h.response.code == end.code && h.response.id == g.id
            && h.response.template == input.template)
      && (h.response.JsonError? <==> end.ApiFailed?)
      && (h.response.JsonError? ==> g.status == Failed && g.code == "" && h.response.status == 500)
      && (h.response.ValidationFailure? ==>
            end.Exhausted? && g.status == Failed && g.code == end.code
            && h.response.details == end.reason
            && h.response.error == ValidationFailedPrefix + end.reason + ValidationFailedSuffix)
  {
    var id := |records|;
    var created := records + [Generation(id, input.prompt, input.style, "", None, Pending)];
    assert created[..id] == records;
    match end
    case ApiFailed(error) =>
      Handled(JsonError(500, ApiErrorMessage(error)),
              created[id := Patch(created[id], None, None, Failed)])
    case Exhausted(code, reason) =>
      Handled(ValidationFailure(ValidationFailedPrefix + reason + ValidationFailedSuffix, reason),
              created[id := Patch(created[id], Some(code), None, Failed)])
    case Accepted(code, attempts) =>
      var css := TailwindProcessor.GenerateTailwindCss(code);
      Handled(Generated(id, code, css, attempts, input.template),
              created[id := Patch(created[id], Some(code), Some(if css == "" then None else Some(css)),
                                  Completed)])
  }

  /** The whole request: the response and the table afterwards. */
  function Handle(records: seq<Generation>, request: Request, env: Env): (h: Handled)
    ensures CheckInput(request, env.apiKey).Err? <==> h.records == records
    ensures CheckInput(request, env.apiKey).Ok? ==>
      |h.records| == |records| + 1 && h.records[..|records|] == records
  {
    match CheckInput(request, env.apiKey)
    case Err(response) => Handled(response, records)
    case Ok(input) =>
      Conclude(records, input, Attempts(input, env, SystemPrompt(env.tokens, input.image), 1, None))
  }

  /** A request that passes the checks is concluded by the loop that starts at attempt 1. */
  lemma HandleChecked(records: seq<Generation>, request: Request, env: Env, input: Input)
    requires CheckInput(request, env.apiKey) == Ok(input)
    ensures Handle(records, request, env)
      == Conclude(records, input, Attempts(input, env, SystemPrompt(env.tokens, input.image), 1, None))
  {
  }

  /** `POST /api/generate`. */
  method Post(store: GenerationStore, request: Request, env: Env) returns (response: Response)
    requires store.Valid()
    modifies store
    ensures Handled(response, store.records) == Handle(old(store.records), request, env)
    ensures store.Valid()
  {
    var checked := CheckInput(request, env.apiKey);
    if checked.Err? {
      return checked.error;
    }
    HandleChecked(store.records, request, env, checked.value);
    response := Generate(store, checked.value, env);
  }

  function PendingRecord(id: nat, input: Input): Generation {
    Generation(id, input.prompt, input.style, "", None, Pending)
  }

  /** How the record created for the request ends, for each end of the loop. */
  lemma ConcludeCases(records: seq<Generation>, input: Input, end: LoopEnd)
    ensures var id := |records|;
      var created := records + [PendingRecord(id, input)];
      Conclude(records, input, end) == match end
        case ApiFailed(error) =>
          Handled(JsonError(500, ApiErrorMessage(error)), created[id := Patch(created[id], None, None, Failed)])
        case Exhausted(code, reason) =>
          Handled(ValidationFailure(ValidationFailedPrefix + reason + ValidationFailedSuffix, reason),
                  created[id := Patch(created[id], Some(code), None, Failed)])
        case Accepted(code, attempts) =>
          Handled(Generated(id, code, "", attempts, input.template),
                  created[id := Patch(created[id], Some(code), Some(None), Completed)])
  {
  }

  /** One attempt: build the prompt and the request, call the API, read the answer. */
  method Attempt(input: Input, env: Env, systemPrompt: string, attempt: nat,
                 lastReason: Option<string>) returns (result: V0Client.ApiResult)
    ensures result == V0Client.Outcome(env.api(attempt, AttemptRequest(input, systemPrompt, attempt, lastReason)),
                                       env.parse)
  {
    var userPrompt := AttemptPrompt(input, attempt, lastReason);
    var answer := env.api(attempt, V0Client.BuildRequest(input.apiKey, systemPrompt, userPrompt, input.image));
    result := V0Client.CallV0Api(answer, env.parse);
  }

  /** What the loop does with the outcome of one attempt. */
  lemma AttemptsStep(input: Input, env: Env, systemPrompt: string, attempt: nat,
                     lastReason: Option<string>, result: V0Client.ApiResult)
    requires 1 <= attempt <= MaxAttempts
    requires result == V0Client.Outcome(env.api(attempt, AttemptRequest(input, systemPrompt, attempt, lastReason)),
                                        env.parse)
    ensures var end := Attempts(input, env, systemPrompt, attempt, lastReason);
      && (result.Failure? ==> end == ApiFailed(result.error))
      && (result.Success? && ValidateGeneratedCode(result.code).Valid? ==>
            end == Accepted(result.code, attempt))
      && (result.Success? && ValidateGeneratedCode(result.code).Invalid? && attempt >= MaxAttempts ==>
            end == Exhausted(result.code, ValidateGeneratedCode(result.code).reason))
      && (result.Success? && ValidateGeneratedCode(result.code).Invalid? && attempt < MaxAttempts ==>
            end == Attempts(input, env, systemPrompt, attempt + 1,
                            Some(ValidateGeneratedCode(result.code).reason)))
  {
  }

  /** The loop of up to two attempts: an API failure ends it at once, valid code ends it with
      the code, and invalid code either goes back to the model with the reason or, on the
      last attempt, ends it with that reason. */
  method RunAttempts(input: Input, env: Env, systemPrompt: string) returns (end: LoopEnd)
    ensures end == Attempts(input, env, systemPrompt, 1, None)
  {
    var attempts := 0;
    var lastReason: Option<string> := None;
    while attempts < MaxAttempts
      invariant 0 <= attempts < MaxAttempts
      invariant Attempts(input, env, systemPrompt, 1, None)
             == Attempts(input, env, systemPrompt, attempts + 1, lastReason)
    {
      attempts := attempts + 1;
      var finished, reason := AttemptOnce(input, env, systemPrompt, attempts, lastReason);
      if finished.Some? {
        return finished.value;
      }
      lastReason := reason;
    }
    assert false;
  }

  /** The body of the loop for one attempt: either the loop ends here, or the attempt was not
      the last, its code was invalid, and the loop goes on with the reason. */
  method AttemptOnce(input: Input, env: Env, systemPrompt: string, attempt: nat,
                     lastReason: Option<string>)
    returns (finished: Option<LoopEnd>, reason: Option<string>)
    requires 1 <= attempt <= MaxAttempts
    ensures finished.Some? ==> finished.value == Attempts(input, env, systemPrompt, attempt, lastReason)
    ensures finished.None? ==>
      attempt < MaxAttempts && reason.Some?
      && Attempts(input, env, systemPrompt, attempt, lastReason)
         == Attempts(input, env, systemPrompt, attempt + 1, reason)
  {
    var result := Attempt(input, env, systemPrompt, attempt, lastReason);
    AttemptsStep(input, env, systemPrompt, attempt, lastReason, result);
    if result.Failure? {
      return Some(ApiFailed(result.error)), None;
    }
    var validation := ValidateGeneratedCode(result.code);
    if validation.Valid? {
      return Some(Accepted(result.code, attempt)), None;
    }
    if attempt >= MaxAttempts {
      return Some(Exhausted(result.code, validation.reason)), None;
    }
    return None, Some(validation.reason);
  }

  /** Everything after the checks: the pending record, the loop, then the record's final state
      and the answer. */
  method Generate(store: GenerationStore, input: Input, env: Env) returns (response: Response)
    requires store.Valid()
    modifies store
    ensures Handled(response, store.records)
      == Conclude(old(store.records), input,
                  Attempts(input, env, SystemPrompt(env.tokens, input.image), 1, None))
    ensures store.Valid()
  {
    ghost var before := store.records;
    var id := store.Create(input.prompt, input.style);
    var systemPrompt := SystemPrompt(env.tokens, input.image);
    var end := RunAttempts(input, env, systemPrompt);
    ConcludeCases(before, input, end);
    match end
    case ApiFailed(error) =>
      store.Update(id, None, None, Failed);
      response := JsonError(500, ApiErrorMessage(error));
    case Exhausted(code, reason) =>
      store.Update(id, Some(code), None, Failed);
      response := ValidationFailure(ValidationFailedPrefix + reason + ValidationFailedSuffix, reason);
    case Accepted(code, attempts) =>
      var css := TailwindProcessor.GenerateTailwindCss(code);
      store.Update(id, Some(code), Some(if css == "" then None else Some(css)), Completed);
      response := Generated(id, code, css, attempts, input.template);
  }

  // ---------------------------------------------------------------------------------------
  // What a request can do

  /** A request rejected by the checks stores nothing and gets a 400 or, for a missing API key,
      a 500. */
  lemma RejectedInputStoresNothing(records: seq<Generation>, request: Request, env: Env)
    requires CheckInput(request, env.apiKey).Err?
    ensures Handle(records, request, env).records == records
    ensures Handle(records, request, env).response.HttpStatus() in {400, 500}
  {
  }

  /** Code that reaches the client passed the route's validation: it holds a component and
      neither a script tag nor `dangerouslySetInnerHTML`, after one or two calls, and the
      record keeps it as completed. */
  lemma GeneratedCodeIsValidated(records: seq<Generation>, request: Request, env: Env)
    ensures var h := Handle(records, request, env);
      h.response.Generated? ==>
        && HasComponent(h.response.code) && !HasScriptTag(h.response.code)
        && !CodeGuard.HasDangerousHtml(h.response.code)
        && 1 <= h.response.attempts <= MaxAttempts && h.response.css == ""
        && h.response.id == |records| && h.records[|records|].status == Completed
  {
    match CheckInput(request, env.apiKey)
    case Err(_) =>
    case Ok(input) =>
      HandleChecked(records, request, env, input);
      ConcludeCases(records, input, Attempts(input, env, SystemPrompt(env.tokens, input.image), 1, None));
  }

  /** A 422 answer carries the reason the last code failed validation, one of the route's three
      reasons, and the record of a failed validation keeps that code. */
  lemma ValidationFailureQuotesReason(records: seq<Generation>, request: Request, env: Env)
    ensures var h := Handle(records, request, env);
      h.response.ValidationFailure? ==>
        && h.response.details in {ReasonNoComponent, CodeGuard.ReasonScript, CodeGuard.ReasonDangerous}
        && ValidateGeneratedCode(h.records[|records|].code) == Invalid(h.response.details)
  {
    match CheckInput(request, env.apiKey)
    case Err(_) =>
    case Ok(input) =>
      var end := Attempts(input, env, SystemPrompt(env.tokens, input.image), 1, None);
      HandleChecked(records, request, env, input);
      ConcludeCases(records, input, end);
      if end.Exhausted? {
        var code := end.code;
        if !HasComponent(code) {
        } else if HasScriptTag(code) {
        } else {
          assert CodeGuard.HasDangerousHtml(code);
        }
      }
  }

  /** The second attempt happens only after the first returned code that failed validation; its
      prompt ends with the fix request naming that failure, and it never carries the image
      wrapping. */
  lemma RetryNamesTheFailure(input: Input, env: Env, systemPrompt: string)
    requires var first := V0Client.Outcome(env.api(1, AttemptRequest(input, systemPrompt, 1, None)), env.parse);
      first.Success? && ValidateGeneratedCode(first.code).Invalid?
    ensures var first := V0Client.Outcome(env.api(1, AttemptRequest(input, systemPrompt, 1, None)), env.parse);
      var reason := ValidateGeneratedCode(first.code).reason;
      && Attempts(input, env, systemPrompt, 1, None) == Attempts(input, env, systemPrompt, 2, Some(reason))
      && EndsWith(AttemptPrompt(input, 2, Some(reason)), PromptTemplates.FixRequiredPrefix + reason)
      && AttemptPrompt(input, 2, Some(reason)) == BuildUserPrompt(input.prompt, input.template, Some(reason))
  {
    var first := V0Client.Outcome(env.api(1, AttemptRequest(input, systemPrompt, 1, None)), env.parse);
    var reason := ValidateGeneratedCode(first.code).reason;
    assert reason != "";
  }
}
