/** The stricter code validator of tests/code-guard.test.ts: six regular-expression checks tried in
    a fixed order, the first one that fails deciding the reason. It is kept apart from the
    validator the generation route uses (module GenerateRoute), which is more lenient. */
module CodeGuard {
  import opened Text
  import opened Wrappers
  import opened Patterns

  const ReasonExternalUrl := "External image or link URLs are not allowed"
  const ReasonNetwork := "Network requests are not allowed"
  const ReasonDangerous := "dangerouslySetInnerHTML is not allowed"
  const ReasonDynamicCode := "Dynamic code execution is not allowed"
  const ReasonScript := "Script tags are not allowed"
  const ReasonNoExport := "Code must include '" + "export default" + " function ComponentName()'"

  /** `(?:src|href)=["'](?:https?:\/\/|\/\/)` at i. */
  predicate ExternalUrlAt(s: string, i: nat) {
    exists attr | attr in ["src=", "href="] ::
      StartsAt(s, i, attr) && i + |attr| < |s| && IsQuote(s[i + |attr|])
      && (StartsAt(s, i + |attr| + 1, "http://") || StartsAt(s, i + |attr| + 1, "https://")
          || StartsAt(s, i + |attr| + 1, "//"))
  }

  /** `\b(?:fetch|axios|XMLHttpRequest)\b` at i. */
  predicate NetworkCallAt(s: string, i: nat) {
    i <= |s| && WordBoundary(s, i)
    && exists w | w in ["fetch", "axios", "XMLHttpRequest"] ::
         StartsAt(s, i, w) && WordBoundary(s, i + |w|)
  }

  /** `\b(?:eval|Function)\s*\(` at i. */
  predicate DynamicCodeAt(s: string, i: nat) {
    i <= |s| && WordBoundary(s, i)
    && exists w | w in ["eval", "Function"] ::
         StartsAt(s, i, w) && SkipSpaces(s, i + |w|) < |s| && s[SkipSpaces(s, i + |w|)] == '('
  }

  predicate HasExternalUrl(s: string) { exists i :: 0 <= i <= |s| && ExternalUrlAt(s, i) }

  predicate HasNetworkCall(s: string) { exists i :: 0 <= i <= |s| && NetworkCallAt(s, i) }

  predicate HasDangerousHtml(s: string) { Contains(s, "dangerouslySetInnerHTML") }

  predicate HasDynamicCode(s: string) { exists i :: 0 <= i <= |s| && DynamicCodeAt(s, i) }

  /** The test file's `validateGeneratedCode`. */
  function Validate(code: string): (r: Verdict)
    ensures r.Valid? <==>
      !HasExternalUrl(code) && !HasNetworkCall(code) && !HasDangerousHtml(code)
      && !HasDynamicCode(code) && !HasScriptTag(code) && HasExportDefaultFunction(code)
    ensures r == Invalid(ReasonExternalUrl) <==> HasExternalUrl(code)
    ensures r == Invalid(ReasonNetwork) <==> !HasExternalUrl(code) && HasNetworkCall(code)
    ensures r == Invalid(ReasonDangerous) <==>
      !HasExternalUrl(code) && !HasNetworkCall(code) && HasDangerousHtml(code)
    ensures r == Invalid(ReasonDynamicCode) <==>
      !HasExternalUrl(code) && !HasNetworkCall(code) && !HasDangerousHtml(code)
      && HasDynamicCode(code)
    ensures r == Invalid(ReasonScript) <==>
      !HasExternalUrl(code) && !HasNetworkCall(code) && !HasDangerousHtml(code)
      && !HasDynamicCode(code) && HasScriptTag(code)
    ensures r == Invalid(ReasonNoExport) <==>
      !HasExternalUrl(code) && !HasNetworkCall(code) && !HasDangerousHtml(code)
      && !HasDynamicCode(code) && !HasScriptTag(code) && !HasExportDefaultFunction(code)
  {
    if HasExternalUrl(code) then Invalid(ReasonExternalUrl)
    else if HasNetworkCall(code) then Invalid(ReasonNetwork)
    else if HasDangerousHtml(code) then Invalid(ReasonDangerous)
    else if HasDynamicCode(code) then Invalid(ReasonDynamicCode)
    else if HasScriptTag(code) then Invalid(ReasonScript)
    else if !HasExportDefaultFunction(code) then Invalid(ReasonNoExport)
    else Valid
  }

  /** The empty string is rejected, for want of an exported component. */
  lemma EmptyCodeRejected()
    ensures Validate("") == Invalid(ReasonNoExport)
  {
    NoExportNoDefaultFunction("");
    ScriptTagNeedsAngle("");
    assert !HasDangerousHtml("") by { AbsentCharExcludes("", "dangerouslySetInnerHTML", 'd'); }
  }

  /** A URL counts only when it is the value of a `src=` or `href=` attribute: one that sits in
      a comment or in text cannot trigger the first check. */
  lemma ExternalUrlNeedsAttribute(s: string)
    requires !Contains(s, "src=") && !Contains(s, "href=")
    ensures !HasExternalUrl(s)
  {
    forall i | 0 <= i <= |s|
      ensures !ExternalUrlAt(s, i)
    {
      assert !StartsAt(s, i, "src=") && !StartsAt(s, i, "href=");
    }
  }

  /** Code holding both `dangerouslySetInnerHTML` and a `<script>` literal, and nothing the
      earlier checks catch, is reported for `dangerouslySetInnerHTML`: the script check comes
      later. */
  lemma DangerousHtmlReportedBeforeScript(code: string)
    requires !Contains(code, "src=") && !Contains(code, "href=") && !HasNetworkCall(code)
    requires HasDangerousHtml(code) && HasScriptTag(code)
    ensures Validate(code) == Invalid(ReasonDangerous)
  {
    ExternalUrlNeedsAttribute(code);
  }

  /** A plain `function MyComponent()` without the word `export` is rejected, and once the
      security checks pass the reason names `export default`. */
  lemma BareFunctionRejected(code: string)
    requires !Contains(code, "export")
    ensures Validate(code).Invalid?
    ensures Validate(code).Invalid? && Validate(code).reason != ReasonNoExport ==>
      HasExternalUrl(code) || HasNetworkCall(code) || HasDangerousHtml(code)
      || HasDynamicCode(code) || HasScriptTag(code)
  {
    NoExportNoDefaultFunction(code);
  }

  // The missing-export reason quotes `export default`.
  lemma ReasonNamesExportDefault()
    ensures Contains(ReasonNoExport, "export default")
  {
    Framing("Code must include '", "export default", " function ComponentName()'");
    assert StartsAt(ReasonNoExport, 19, "export default");
  }

  /** The network check fires only on one of its three words. */
  lemma NetworkCallNeedsWord(s: string)
    requires !Contains(s, "fetch") && !Contains(s, "axios") && !Contains(s, "XMLHttpRequest")
    ensures !HasNetworkCall(s)
  {
    forall i | 0 <= i <= |s|
      ensures !NetworkCallAt(s, i)
    {
      assert !StartsAt(s, i, "fetch") && !StartsAt(s, i, "axios")
        && !StartsAt(s, i, "XMLHttpRequest");
    }
  }

  /** The dynamic-code check fires only on `eval` or `Function`. */
  lemma DynamicCodeNeedsWord(s: string)
    requires !Contains(s, "eval") && !Contains(s, "Function")
    ensures !HasDynamicCode(s)
  {
    forall i | 0 <= i <= |s|
      ensures !DynamicCodeAt(s, i)
    {
      assert !StartsAt(s, i, "eval") && !StartsAt(s, i, "Function");
    }
  }

  const MinimalComponent := ExportHead + "A() {}"

  lemma MinimalComponentHasNoUrl()
    ensures !HasExternalUrl(MinimalComponent)
  {
    AbsentCharExcludes(MinimalComponent, "src=", '=');
    AbsentCharExcludes(MinimalComponent, "href=", '=');
    ExternalUrlNeedsAttribute(MinimalComponent);
  }

  /** Text without an `h`, an `s` or an `X` cannot hold any of the three network words. */
  lemma NetworkCallNeedsLetters(s: string)
    requires 'h' !in s && 's' !in s && 'X' !in s
    ensures !HasNetworkCall(s)
  {
    AbsentCharExcludes(s, "fetch", 'h');
    AbsentCharExcludes(s, "axios", 's');
    AbsentCharExcludes(s, "XMLHttpRequest", 'X');
    NetworkCallNeedsWord(s);
  }

  lemma MinimalComponentHasNoNetworkCall()
    ensures !HasNetworkCall(MinimalComponent)
  {
    assert 'h' !in MinimalComponent;
    assert 's' !in MinimalComponent;
    assert 'X' !in MinimalComponent;
    NetworkCallNeedsLetters(MinimalComponent);
  }

  lemma MinimalComponentHasNoDynamicCode()
    ensures !HasDynamicCode(MinimalComponent)
  {
    AbsentCharExcludes(MinimalComponent, "eval", 'v');
    AbsentCharExcludes(MinimalComponent, "Function", 'F');
    DynamicCodeNeedsWord(MinimalComponent);
  }

  lemma MinimalComponentHasNoMarkupHazard()
    ensures !HasDangerousHtml(MinimalComponent) && !HasScriptTag(MinimalComponent)
  {
    assert 'g' !in MinimalComponent && '<' !in MinimalComponent;
    AbsentCharExcludes(MinimalComponent, "dangerouslySetInnerHTML", 'g');
    ScriptTagNeedsAngle(MinimalComponent);
  }

  lemma MinimalComponentClean()
    ensures !HasExternalUrl(MinimalComponent) && !HasNetworkCall(MinimalComponent)
    ensures !HasDangerousHtml(MinimalComponent) && !HasDynamicCode(MinimalComponent)
    ensures !HasScriptTag(MinimalComponent)
  {
    MinimalComponentHasNoUrl();
    MinimalComponentHasNoNetworkCall();
    MinimalComponentHasNoMarkupHazard();
    MinimalComponentHasNoDynamicCode();
  }

  const ExportHead := "export default function "

  /** `export default function ` followed by a name is matched up to the name. */
  lemma ExportHeadMatched(rest: string)
    requires |rest| > 0 && !IsSpace(rest[0])
    ensures ExportDefaultFunctionEnd(ExportHead + rest, 0) == Some(|ExportHead|)
  {
    var code := ExportHead + rest;
    assert code[..24] == ExportHead;
    assert code[24] == rest[0];
    SpaceRunEnd(code, 6, 7);
    SpaceRunEnd(code, 14, 15);
    SpaceRunEnd(code, 23, 24);
    assert StartsAt(code, 0, "export") && StartsAt(code, 7, "default");
    assert StartsAt(code, 15, "function");
    ExportDefaultFunctionEndIs(code, 0, 7, 15, 24);
  }

  lemma MinimalComponentExportEnd()
    ensures ExportDefaultFunctionEnd(MinimalComponent, 0) == Some(24)
  {
    ExportHeadMatched("A() {}");
  }

  /** A short component in the shape of the accepted test cases is valid. */
  lemma MinimalComponentAccepted()
    ensures Validate(MinimalComponent) == Valid
  {
    MinimalComponentClean();
    MinimalComponentExportEnd();
    assert ExportDefaultFunctionNameAt(MinimalComponent, 0);
  }
}
