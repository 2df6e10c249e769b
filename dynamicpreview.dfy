/** components/DynamicPreview.tsx: the in-page preview. Five state fields gate the compile
    step; the compile step turns the generated code into a component or an error message;
    rendering picks one of four screens; an error boundary isolates runtime failures of the
    mounted component. Babel's transform and the evaluation of the transpiled code are
    oracles passed in as functions. */
module DynamicPreview {
  import opened Wrappers
  import opened Text
  import opened Scan
  import opened Patterns
  import opened TypeScriptUtils
  import SandboxHost

  // ---------------------------------------------------------------------------------------
  // Export stripping: the three `replace` calls of the compile step

  /** `^word\s+` under the multiline flag: the end of the match at i. */
  function LineKeywordEnd(s: string, i: nat, word: string): (r: Option<nat>)
    ensures r.Some? ==> AtLineStart(s, i) && StartsAt(s, i, word) && i < r.value <= |s|
  {
    if AtLineStart(s, i) && StartsAt(s, i, word) && i + |word| < |s| && IsSpace(s[i + |word|])
    then Some(SkipSpaces(s, i + |word|))
    else None
  }

  /** `/^word\s+/gm` as a deleting matcher. */
  function LineKeyword(word: string): Matcher {
    (s: string, i: nat) =>
      match LineKeywordEnd(s, i, word)
      case Some(e) => Some(Match(e, ""))
      case None => None
  }

  /** `code.replace(/^word\s+/gm, '')`. */
  function StripLineKeyword(code: string, word: string): (r: string)
    ensures |r| <= |code|
  {
    DeletingReplaceShrinks(code, LineKeyword(word), 0);
    ReplaceAll(code, LineKeyword(word), 0)
  }

  /** The cleaning chain: every `export default ` goes, then each `export ` at the start of a
      line, then each `default ` at the start of a line. Cleaning only ever deletes. */
  function CleanCode(code: string): (r: string)
    ensures |r| <= |code|
  {
    StripLineKeyword(StripLineKeyword(RemoveExportDefault(code), "export"), "default")
  }

  /** A text that differs from a literal k characters after j does not hold it at j. */
  lemma MismatchAt(s: string, j: nat, lit: string, k: nat)
    requires j + k < |s| && k < |lit| && s[j + k] != lit[k]
    ensures !StartsAt(s, j, lit)
  {
    if j + |lit| <= |s| {
      assert s[j..][k] == s[j + k];
    }
  }

  /** A literal occurs nowhere in p + rest from index `from` on, when it does not occur in
      rest and each position of p before the join differs from it in its first or second
      character. */
  lemma AbsentAcrossJoin(p: string, rest: string, lit: string, from: nat)
    requires |lit| >= 2 && !Contains(rest, lit)
    requires forall j :: from <= j < |p| ==>
      p[j] != lit[0] || (j + 1 < |p| && p[j + 1] != lit[1])
    ensures forall j :: from <= j <= |p + rest| ==> !StartsAt(p + rest, j, lit)
  {
    var s := p + rest;
    forall j | from <= j <= |s|
      ensures !StartsAt(s, j, lit)
    {
      if j < |p| {
        if p[j] != lit[0] {
          MismatchAt(s, j, lit, 0);
        } else {
          assert j + 1 < |p| && p[j + 1] != lit[1];
          assert s[j + 1] == p[j + 1];
          MismatchAt(s, j, lit, 1);
        }
      } else {
        assert s[j..] == rest[j - |p|..];
        assert !StartsAt(rest, j - |p|, lit);
      }
    }
  }

  /** Without the word, the line-keyword pass changes nothing. */
  lemma StripWithoutWord(code: string, word: string)
    requires forall j :: 0 <= j <= |code| ==> !StartsAt(code, j, word)
    ensures StripLineKeyword(code, word) == code
  {
    ReplaceAllWithoutHit(code, LineKeyword(word), 0);
  }

  /** Code in which neither `export` nor `default` occurs is left as it is. */
  lemma CleanUntouched(code: string)
    requires !Contains(code, "export") && !Contains(code, "default")
    ensures CleanCode(code) == code
  {
    ExportFreeUntouched(code);
    StripWithoutWord(code, "export");
    StripWithoutWord(code, "default");
  }

  /** A leading `word ` goes, and a rest that holds neither keyword is kept as it is. */
  lemma LeadingWordStripped(word: string, rest: string)
    requires |word| > 0 && !Contains(rest, word)
    requires |rest| > 0 && !IsSpace(rest[0])
    ensures StripLineKeyword(word + " " + rest, word) == rest
  {
    var s := word + " " + rest;
    var m := LineKeyword(word);
    assert s[..|word|] == word;
    SpaceRunEnd(s, |word|, |word| + 1);
    assert LineKeywordEnd(s, 0, word) == Some(|word| + 1);
    forall j | |word| + 1 <= j < |s|
      ensures !Hit(m, s, j)
    {
      assert s[j..] == rest[j - |word| - 1..];
      assert !StartsAt(rest, j - |word| - 1, word);
      assert !StartsAt(s, j, word);
    }
    ReplaceAllWithoutHit(s, m, |word| + 1);
    assert s[|word| + 1..] == rest;
  }

  /** The three shapes the generated code starts with, `export default `, `export ` and
      `default `, are each removed, whatever the keyword-free rest of the code. */
  lemma LeadingExportDefaultCleaned(rest: string)
    requires !Contains(rest, "export") && !Contains(rest, "default")
    requires |rest| > 0 && !IsSpace(rest[0])
    ensures CleanCode("export default " + rest) == rest
  {
    ExportDefaultPrefixRemoved(rest);
    StripWithoutWord(rest, "export");
    StripWithoutWord(rest, "default");
  }

  lemma LeadingExportCleaned(rest: string)
    requires !Contains(rest, "export") && !Contains(rest, "default")
    requires |rest| > 0 && !IsSpace(rest[0])
    ensures CleanCode("export " + rest) == rest
  {
    var e := "export " + rest;
    assert e == "export" + " " + rest;
    AbsentAcrossJoin("export ", rest, "export", 1);
    AbsentAcrossJoin("export ", rest, "default", 0);
    assert ExportDefaultEnd(e, 0).None? by {
      SpaceRunEnd(e, 6, 7);
    }
    ReplaceAllWithoutHit(e, ExportDefault, 0);
    assert e[0..] == e;
    LeadingWordStripped("export", rest);
    StripWithoutWord(rest, "default");
  }

  lemma LeadingDefaultCleaned(rest: string)
    requires !Contains(rest, "export") && !Contains(rest, "default")
    requires |rest| > 0 && !IsSpace(rest[0])
    ensures CleanCode("default " + rest) == rest
  {
    var d := "default " + rest;
    assert d == "default" + " " + rest;
    AbsentAcrossJoin("default ", rest, "export", 0);
    ExportFreeUntouched(d);
    StripWithoutWord(d, "export");
    LeadingWordStripped("default", rest);
  }

  // ---------------------------------------------------------------------------------------
  // The compile step

  /** What evaluating the transpiled code yields: a function (identified by a number), or
      some other value. */
  datatype Value = FunctionValue(id: nat) | OtherValue

  /** A thrown value: an `Error` with its message, or anything else. */
  datatype Thrown = ErrorObject(message: string) | NonError

  const NoComponent: string :=
    "컴포넌트를 찾을 수 없습니다. export default function ComponentName() 형식으로 작성해주세요."
  const BabelFailurePrefix: string := "코드 변환 중 오류가 발생했습니다.\n\n"
  const RegenerateHint: string :=
    "\n\n힌트: 생성된 코드에 문법 오류가 있을 수 있습니다. 이 컴포넌트를 삭제하고 다시 생성해보세요."
  const NotFunction: string := "생성된 컴포넌트가 함수가 아닙니다."
  const UnknownError: string := "알 수 없는 오류가 발생했습니다."
  const BabelUnavailable: string := "Babel을 로드할 수 없습니다."

  /** The message for a failed transpilation: it carries Babel's own message and ends with
      the hint to regenerate the component. */
  function BabelFailure(babelMessage: string): (r: string)
    ensures |r| == |BabelFailurePrefix| + |babelMessage| + |RegenerateHint|
    ensures StartsAt(r, 0, BabelFailurePrefix) && EndsWith(r, RegenerateHint)
    ensures r[|BabelFailurePrefix|..|r| - |RegenerateHint|] == babelMessage
  {
    Enclose(BabelFailurePrefix, babelMessage, RegenerateHint)
  }

  /** `err instanceof Error ? err.message : "..."` in the compile step's catch. */
  function CaughtMessage(t: Thrown): string {
    match t
    case ErrorObject(m) => m
    case NonError => UnknownError
  }

  const PreludeOpen: string :=
    "\n\"use strict\";\n"
    + "const { useState, useEffect, useRef, useCallback, useMemo, Fragment, createElement } = React;\n"
    + "const tokens = window.tokens;\n"

  /** The body given to `new Function("React", ...)`: the hooks and tokens taken from scope,
      the transpiled code, and a `return` of the component's name. */
  function FinalCode(babelCode: string, name: string): (r: string)
    ensures |r| == |PreludeOpen| + |babelCode| + |name| + 10
    ensures StartsAt(r, 0, PreludeOpen)
    ensures r[|PreludeOpen|..|PreludeOpen| + |babelCode|] == babelCode
    ensures EndsWith(r, "\nreturn " + name + ";\n")
  {
    Enclose(PreludeOpen, babelCode, "\nreturn " + name + ";\n")
  }

  /** Every check of the compile step passes: the code is a non-empty string, a name can be
      extracted, Babel transpiles the cleaned code, and evaluating the result gives a
      function. */
  predicate Compiles(code: SandboxHost.CodeProp, transform: string -> Result<string, string>,
                     run: string -> Result<Value, Thrown>)
  {
    && SandboxHost.ValidCode(code)
    && ExtractComponentName(code.s).Some?
    && transform(CleanCode(code.s)).Ok?
    && var js := FinalCode(transform(CleanCode(code.s)).value, ExtractComponentName(code.s).value);
       run(js).Ok? && run(js).value.FunctionValue?
  }

  /** The outcome of the compile step's `try`/`catch`: the component, or the message of the
      first check that fails. */
  function Compile(code: SandboxHost.CodeProp, transform: string -> Result<string, string>,
                   run: string -> Result<Value, Thrown>): (r: Result<nat, string>)
    ensures r.Ok? <==> Compiles(code, transform, run)
    ensures r.Ok? ==>
      run(FinalCode(transform(CleanCode(code.s)).value, ExtractComponentName(code.s).value))
        == Ok(FunctionValue(r.value))
    ensures !SandboxHost.ValidCode(code) ==> r == Err(SandboxHost.InvalidCode)
  {
    if !SandboxHost.ValidCode(code) then Err(SandboxHost.InvalidCode)
    else
      match ExtractComponentName(code.s)
      case None => Err(NoComponent)
      case Some(name) =>
        match transform(CleanCode(code.s))
        case Err(m) => Err(BabelFailure(m))
        case Ok(babelCode) =>
          match run(FinalCode(babelCode, name))
          case Err(t) => Err(CaughtMessage(t))
          case Ok(OtherValue) => Err(NotFunction)
          case Ok(FunctionValue(h)) => Ok(h)
  }

  /** The checks run in a fixed order: a failing check decides the message whatever the later
      steps would do. */
  lemma FailureOrder(code: SandboxHost.CodeProp,
                     t1: string -> Result<string, string>, r1: string -> Result<Value, Thrown>,
                     t2: string -> Result<string, string>, r2: string -> Result<Value, Thrown>)
    ensures !SandboxHost.ValidCode(code) ==> Compile(code, t1, r1) == Compile(code, t2, r2)
    ensures SandboxHost.ValidCode(code) && ExtractComponentName(code.s).None? ==>
      Compile(code, t1, r1) == Err(NoComponent)
    ensures (SandboxHost.ValidCode(code) && ExtractComponentName(code.s).Some?
             && t1(CleanCode(code.s)).Err?) ==>
      Compile(code, t1, r1) == Err(BabelFailure(t1(CleanCode(code.s)).error))
      && (t2(CleanCode(code.s)) == t1(CleanCode(code.s)) ==> Compile(code, t2, r2) == Compile(code, t1, r1))
  {
  }

  // ---------------------------------------------------------------------------------------
  // Rendering

  /** The four screens, in the order the render checks them. */
  datatype Screen = Spinner | ErrorPanel(message: string) | Placeholder | Mounted(component: nat)

  /** A JavaScript truthy string: present and non-empty. */
  predicate Truthy(x: Option<string>) {
    x.Some? && x.value != ""
  }

  /** Loading first, then a truthy error, then a missing component, then the component. */
  function Select(isLoading: bool, error: Option<string>, component: Option<nat>): (v: Screen)
    ensures v.Spinner? <==> isLoading
    ensures v.ErrorPanel? <==> !isLoading && Truthy(error)
    ensures v.ErrorPanel? ==> v.message == error.value
    ensures v.Mounted? <==> !isLoading && !Truthy(error) && component.Some?
    ensures v.Mounted? ==> v.component == component.value
  {
    if isLoading then Spinner
    else if Truthy(error) then ErrorPanel(error.value)
    else if component.None? then Placeholder
    else Mounted(component.value)
  }

  /** What a completed compile step shows: the component it made, or the panel with its
      message (an empty message, possible only from an `Error` thrown with no message, leaves
      the placeholder). */
  function ScreenOf(r: Result<nat, string>): Screen {
    match r
    case Ok(h) => Mounted(h)
    case Err(m) => if m != "" then ErrorPanel(m) else Placeholder
  }

  /** A prop that is not usable code shows the invalid-code panel; code that compiles is
      mounted. */
  lemma InvalidOrMounted(code: SandboxHost.CodeProp, transform: string -> Result<string, string>,
                         run: string -> Result<Value, Thrown>)
    ensures !SandboxHost.ValidCode(code) ==>
      ScreenOf(Compile(code, transform, run)) == ErrorPanel(SandboxHost.InvalidCode)
    ensures Compiles(code, transform, run) ==> ScreenOf(Compile(code, transform, run)).Mounted?
  {
    assert |SandboxHost.InvalidCode| > 0;
  }

  // ---------------------------------------------------------------------------------------
  // The component's state

  class Preview {
    var component: Option<nat>
    var error: Option<string>
    var isLoading: bool
    var babelLoaded: bool
    var cssInjected: bool

    /** The five `useState` initial values. */
    constructor()
      ensures component == None && error == None && isLoading
      ensures !babelLoaded && !cssInjected
    {
      component := None;
      error := None;
      isLoading := true;
      babelLoaded := false;
      cssInjected := false;
    }

    /** The screen the component renders from its state. */
    function Screen(): Screen
      reads this
    {
      Select(isLoading, error, component)
    }

    /** The Tailwind effect: on the server, when the CDN script is already present, and when
        the injected script loads or fails to load, it ends by setting `cssInjected`. */
    method CssSettled()
      modifies this
      ensures cssInjected
      ensures component == old(component) && error == old(error)
      ensures isLoading == old(isLoading) && babelLoaded == old(babelLoaded)
    {
      cssInjected := true;
    }

    /** The Babel effect when `window.Babel` is already there, or the injected script's
        `onload`. */
    method BabelReady()
      modifies this
      ensures babelLoaded
      ensures component == old(component) && error == old(error)
      ensures isLoading == old(isLoading) && cssInjected == old(cssInjected)
    {
      babelLoaded := true;
    }

    /** The injected Babel script's `onerror`: an error, and loading over. Babel stays
        unloaded, so the compile step never runs and the error panel stays up. */
    method BabelLoadFailed()
      modifies this
      ensures error == Some(BabelUnavailable) && !isLoading
      ensures component == old(component)
      ensures babelLoaded == old(babelLoaded) && cssInjected == old(cssInjected)
      ensures Screen() == ErrorPanel(BabelUnavailable)
    {
      error := Some(BabelUnavailable);
      isLoading := false;
    }

    /** The compile effect, run whenever `code`, `babelLoaded` or `cssInjected` changes. It
        does nothing until both loads are done; then it resets the state, runs the checks in
        order and ends with loading over and exactly one of error and component set. */
    method CompileEffect(code: SandboxHost.CodeProp, transform: string -> Result<string, string>,
                         run: string -> Result<Value, Thrown>)
      modifies this
      ensures babelLoaded == old(babelLoaded) && cssInjected == old(cssInjected)
      ensures !(old(babelLoaded) && old(cssInjected)) ==>
        component == old(component) && error == old(error) && isLoading == old(isLoading)
      ensures old(babelLoaded) && old(cssInjected) ==>
        !isLoading && (error.Some? != component.Some?)
        && match Compile(code, transform, run)
           case Ok(h) => component == Some(h)
           case Err(m) => error == Some(m)
      ensures old(babelLoaded) && old(cssInjected) ==>
        Screen() == ScreenOf(Compile(code, transform, run))
    {
      if !babelLoaded || !cssInjected {
        return;
      }
      isLoading := true;
      error := None;
      component := None;

      var thrown: Option<string> := None;
      if !SandboxHost.ValidCode(code) {
        thrown := Some(SandboxHost.InvalidCode);
      } else {
        var name := ExtractComponentName(code.s);
        if name.None? {
          thrown := Some(NoComponent);
        } else {
          var cleaned := CleanCode(code.s);
          var transpiled := transform(cleaned);
          if transpiled.Err? {
            thrown := Some(BabelFailure(transpiled.error));
          } else {
            var made := run(FinalCode(transpiled.value, name.value));
            if made.Err? {
              thrown := Some(CaughtMessage(made.error));
            } else if made.value.OtherValue? {
              thrown := Some(NotFunction);
            } else {
              component := Some(made.value.id);
              error := None;
            }
          }
        }
      }
      if thrown.Some? {
        error := thrown;
        component := None;
      }
      isLoading := false;
    }
  }

  // ---------------------------------------------------------------------------------------
  // ErrorBoundary

  /** `{ hasError, error }`. */
  datatype BoundaryState = BoundaryState(hasError: bool, error: Option<Thrown>)

  /** What the boundary renders: its children, or the runtime-error panel with a message. */
  datatype BoundaryView = Children | RuntimePanel(message: string)

  /** `getDerivedStateFromError`: the failed state, holding the error. */
  function DerivedStateFromError(e: Thrown): (s: BoundaryState)
    ensures s.hasError && s.error == Some(e)
  {
    BoundaryState(true, Some(e))
  }

  /** `error?.message || "..."`: the error's message when it is a non-empty string, the
      unknown-error text otherwise. */
  function PanelMessage(e: Option<Thrown>): (m: string)
    ensures m != ""
    ensures e.Some? && e.value.ErrorObject? && e.value.message != "" ==> m == e.value.message
  {
    match e
    case Some(ErrorObject(msg)) => if msg != "" then msg else UnknownError
    case _ => UnknownError
  }

  class ErrorBoundary {
    var state: BoundaryState

    constructor()
      ensures state == BoundaryState(false, None)
    {
      state := BoundaryState(false, None);
    }

    /** A child threw while rendering: the state moves to failed, and there is no way back. */
    method Catch(e: Thrown)
      modifies this
      ensures state == DerivedStateFromError(e)
    {
      state := DerivedStateFromError(e);
    }

    /** The children render exactly when nothing has been caught; otherwise the panel shows a
        non-empty message. */
    function Render(): (v: BoundaryView)
      reads this
      ensures v.Children? <==> !state.hasError
      ensures v.RuntimePanel? ==> v.message == PanelMessage(state.error) && v.message != ""
    {
      if state.hasError then RuntimePanel(PanelMessage(state.error)) else Children
    }
  }
}
