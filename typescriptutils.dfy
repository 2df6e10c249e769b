/** lib/typescript-utils.ts: the regular-expression pipeline that turns a TypeScript component
    into plain JavaScript, and the three-tier search for the component's name. */
module TypeScriptUtils {
  import opened Wrappers
  import opened Text
  import opened Scan
  import opened Patterns

  // ---------------------------------------------------------------------------------------
  // /export\s+default\s+/g  ->  ""

  /** Every `export default ` the scan meets is deleted. */
  function RemoveExportDefault(code: string): (r: string)
    ensures |r| <= |code|
  {
    DeletingReplaceShrinks(code, ExportDefault, 0);
    ReplaceAll(code, ExportDefault, 0)
  }

  /** Text without the word `export` is left alone. */
  lemma ExportFreeUntouched(code: string)
    requires !Contains(code, "export")
    ensures RemoveExportDefault(code) == code
  {
    forall j | 0 <= j < |code|
      ensures !Hit(ExportDefault, code, j)
    {
      assert !StartsAt(code, j, "export");
    }
    ReplaceAllWithoutHit(code, ExportDefault, 0);
  }

  /** A leading `export default ` goes, and what follows it is kept as it was. */
  lemma ExportDefaultPrefixRemoved(rest: string)
    requires !Contains(rest, "export") && (|rest| > 0 ==> !IsSpace(rest[0]))
    ensures RemoveExportDefault("export default " + rest) == rest
  {
    var s := "export default " + rest;
    assert StartsAt(s, 0, "export") && StartsAt(s, 7, "default");
    SpaceRunEnd(s, 6, 7);
    SpaceRunEnd(s, 14, 15);
    assert ExportDefaultEnd(s, 0) == Some(15);
    forall j | 15 <= j < |s|
      ensures !Hit(ExportDefault, s, j)
    {
      if StartsAt(s, j, "export") {
        assert s[j..] == rest[j - 15..];
        assert StartsAt(rest, j - 15, "export");
      }
    }
    ReplaceAllWithoutHit(s, ExportDefault, 15);
    assert s[15..] == rest;
  }

  // ---------------------------------------------------------------------------------------
  // /function\s+(\w+)\s*\(([^)]*)\)/g  with a callback that drops parameter types

  /** `,`, `=` and `)`: the characters a parameter type cannot run into. */
  predicate IsTypeStop(c: char) { c == '=' || c == ',' || c == ')' }

  predicate NotTypeStop(c: char) { !IsTypeStop(c) }

  /** `:\s*[^=,)]+(?=\s*[,=)]|$)` at c. The greedy run stops at the first stop character or at
      the end of the text, where the lookahead always holds; it needs one character at least. */
  function TypeAnnotation(p: string, c: nat): (r: Option<Match>)
    ensures r.Some? ==> c < |p| && p[c] == ':' && c + 1 < r.value.end <= |p|
    ensures r.Some? ==> r.value.replacement == ""
    ensures r.Some? ==> forall k :: c < k < r.value.end ==> !IsTypeStop(p[k])
    ensures r.Some? ==> r.value.end == |p| || IsTypeStop(p[r.value.end])
  {
    if c < |p| && p[c] == ':' then
      var e := Span(p, c + 1, NotTypeStop);
      if e > c + 1 then Some(Match(e, "")) else None
    else None
  }

  /** `param.replace(/:\s*[^=,)]+(?=\s*[,=)]|$)/, '')`: the first annotation goes. */
  function StripParamType(p: string): string {
    ReplaceFirst(p, TypeAnnotation)
  }

  /** A parameter `name: Type`, possibly followed by its default, loses the type and keeps the
      default. */
  lemma ParamTypeRemoved(name: string, typ: string, rest: string)
    requires ':' !in name
    requires |typ| > 0 && forall k :: 0 <= k < |typ| ==> !IsTypeStop(typ[k])
    requires rest == "" || IsTypeStop(rest[0])
    ensures StripParamType(name + ":" + typ + rest) == name + rest
  {
    var p := name + ":" + typ + rest;
    var c := |name|;
    var e := c + 1 + |typ|;
    forall j | 0 <= j < c
      ensures !Hit(TypeAnnotation, p, j)
    {
      assert p[j] == name[j] && name[j] in name;
    }
    assert forall k :: c < k < e ==> p[k] == typ[k - c - 1];
    assert e < |p| ==> p[e] == rest[0];
    SpanIs(p, c + 1, NotTypeStop, e);
    FirstHitIs(p, TypeAnnotation, 0, c);
    assert p[..c] == name && p[e..] == rest;
  }

  function CleanParam(p: string): string {
    Trim(StripParamType(p))
  }

  function MapClean(ps: seq<string>): (r: seq<string>)
    ensures |r| == |ps| && forall k :: 0 <= k < |ps| ==> r[k] == CleanParam(ps[k])
  {
    if |ps| == 0 then [] else [CleanParam(ps[0])] + MapClean(ps[1..])
  }

  /** `.filter((p) => p)`: the empty strings go. */
  function NonEmpty(ps: seq<string>): (r: seq<string>)
    ensures forall k :: 0 <= k < |r| ==> r[k] != ""
    ensures |r| <= |ps|
  {
    if |ps| == 0 then []
    else if ps[0] == "" then NonEmpty(ps[1..])
    else [ps[0]] + NonEmpty(ps[1..])
  }

  /** The callback's new parameter list. */
  function CleanParams(params: string): string {
    Join(NonEmpty(MapClean(Split(params, ','))), ", ")
  }

  /** `function ${funcName}(${cleanedParams})`. */
  function RebuiltHead(name: string, params: string): (r: string)
    ensures StartsAt(r, 0, "function ")
  {
    var r := "function " + name + "(" + CleanParams(params) + ")";
    assert r[..9] == "function ";
    r
  }

  /** The replacer callback of the pass: the whole match, the function name and the parameter
      list in, the new head out. */
  function HeadCallback(whole: string, name: string, params: string): (r: string)
    ensures Trim(params) == "" ==> r == whole
    ensures Trim(params) != "" ==> r == RebuiltHead(name, params)
  {
    if Trim(params) == "" then whole else RebuiltHead(name, params)
  }

  /** Where the pieces of `function\s+(\w+)\s*\(([^)]*)\)` lie when it matches at i: the
      name runs from a to n, and the parameter list from just after the opening parenthesis
      at p to the first closing one. */
  datatype HeadShape = HeadShape(a: nat, n: nat, p: nat, close: nat)

  function FunctionHead(s: string, i: nat): (r: Option<HeadShape>)
    ensures r.Some? ==> StartsAt(s, i, "function") && i + 8 < r.value.a < r.value.n <= r.value.p
    ensures r.Some? ==> r.value.p < r.value.close < |s| && s[r.value.p] == '(' && s[r.value.close] == ')'
    ensures r.Some? ==> forall k :: r.value.p < k < r.value.close ==> s[k] != ')'
  {
    if !StartsAt(s, i, "function") then None
    else
      var a := SkipSpaces(s, i + 8);
      var n := Span(s, a, IsWordChar);
      if a == i + 8 || n == a then None
      else
        var p := SkipSpaces(s, n);
        if p == |s| || s[p] != '(' then None
        else
          var close := IndexOfChar(s, ')', p + 1);
          if close == |s| then None else Some(HeadShape(a, n, p, close))
  }

  /** The head `function name(params)` at i, returned by the callback: unchanged when the list
      is blank, otherwise rebuilt around the cleaned parameters. */
  function FunctionParams(s: string, i: nat): Option<Match> {
    match FunctionHead(s, i)
    case None => None
    case Some(h) => Some(HeadMatch(s, i, h))
  }

  /** A match of the pass starts with `function`, ends just after a closing parenthesis, and
      hands back the whole match or a rebuilt head. */
  lemma FunctionParamsShape(s: string, i: nat)
    requires FunctionParams(s, i).Some?
    ensures var m := FunctionParams(s, i).value;
      StartsAt(s, i, "function") && i + 8 < m.end <= |s| && s[m.end - 1] == ')'
      && (m.replacement == s[i..m.end] || StartsAt(m.replacement, 0, "function "))
  {
    var h := FunctionHead(s, i).value;
    var m := HeadMatch(s, i, h);
    assert FunctionParams(s, i).value == m;
    assert m.end - 1 == h.close;
    HeadMatchReplacement(s, i, h);
  }

  // The match of a head hands back the whole match or a rebuilt head.
  lemma HeadMatchReplacement(s: string, i: nat, h: HeadShape)
    requires i <= h.a <= h.n <= h.p < h.close < |s|
    ensures var m := HeadMatch(s, i, h);
      m.replacement == s[i..h.close + 1] || StartsAt(m.replacement, 0, "function ")
  {
  }

  /** The match a head shape gives: it ends just after the closing parenthesis and its
      replacement is what the callback returns for the matched pieces. */
  function HeadMatch(s: string, i: nat, h: HeadShape): (r: Match)
    requires i <= h.a <= h.n <= h.p < h.close < |s|
    ensures r.end == h.close + 1
    ensures r.replacement == HeadCallback(s[i..h.close + 1], s[h.a..h.n], s[h.p + 1..h.close])
  {
    Match(h.close + 1, HeadCallback(s[i..h.close + 1], s[h.a..h.n], s[h.p + 1..h.close]))
  }

  lemma FunctionHeadIs(s: string, i: nat, a: nat, n: nat, p: nat, close: nat)
    requires StartsAt(s, i, "function") && i + 8 < a && SkipSpaces(s, i + 8) == a
    requires a < n && Span(s, a, IsWordChar) == n && SkipSpaces(s, n) == p
    requires p < close < |s| && s[p] == '(' && IndexOfChar(s, ')', p + 1) == close
    ensures FunctionHead(s, i) == Some(HeadShape(a, n, p, close))
  {
  }

  lemma FunctionParamsOfHead(s: string, i: nat, h: HeadShape)
    requires FunctionHead(s, i) == Some(h)
    ensures FunctionParams(s, i) == Some(HeadMatch(s, i, h))
  {
  }

  /** A single typed parameter cleans to its bare name. */
  lemma CleanTypedParam(param: string, typ: string)
    requires |param| > 0 && !IsSpace(param[0]) && !IsSpace(param[|param| - 1])
    requires ':' !in param && ',' !in param
    requires |typ| > 0 && forall k :: 0 <= k < |typ| ==> !IsTypeStop(typ[k])
    ensures CleanParams(param + ":" + typ) == param
  {
    var params := param + ":" + typ;
    assert ',' !in params;
    SplitWithoutSep(params, ',');
    ParamTypeRemoved(param, typ, "");
    assert params + "" == params && param + "" == param;
    TrimOfTrimmed(param);
    assert CleanParam(params) == param;
    assert MapClean([params]) == [param];
    assert NonEmpty([param]) == [param];
  }

  /** Where the pieces of a head with a plain name and a parameter list free of `)` lie. */
  lemma PlainHeadShape(name: string, params: string)
    requires |name| > 0 && forall k :: 0 <= k < |name| ==> IsWordChar(name[k])
    requires ')' !in params
    ensures var s := "function " + name + "(" + params + ")";
      FunctionHead(s, 0) == Some(HeadShape(9, 9 + |name|, 9 + |name|, |s| - 1))
  {
    var s := "function " + name + "(" + params + ")";
    var n := 9 + |name|;
    assert s[9..n] == name;
    assert StartsAt(s, 0, "function");
    SpaceRunEnd(s, 8, 9);
    SpanIs(s, 9, IsWordChar, n);
    assert s[n] == '(';
    SpaceRunEnd(s, n, n);
    assert forall k :: n + 1 <= k < |s| - 1 ==> s[k] == params[k - n - 1];
    IndexOfCharIs(s, ')', n + 1, |s| - 1);
    FunctionHeadIs(s, 0, 9, n, n, |s| - 1);
  }

  /** The callback turns a single typed parameter into its bare name. */
  lemma TypedParamCallback(whole: string, name: string, param: string, typ: string)
    requires |param| > 0 && !IsSpace(param[0]) && !IsSpace(param[|param| - 1])
    requires ':' !in param && ',' !in param
    requires |typ| > 0 && forall k :: 0 <= k < |typ| ==> !IsTypeStop(typ[k])
    ensures HeadCallback(whole, name, param + ":" + typ) == "function " + name + "(" + param + ")"
  {
    var params := param + ":" + typ;
    assert Trim(params) != "" by { assert !IsSpace(params[0]); }
    CleanTypedParam(param, typ);
  }

  /** A one-parameter head: the parameter keeps its name and loses its type. */
  lemma TypedParameterHead(name: string, param: string, typ: string)
    requires |name| > 0 && forall k :: 0 <= k < |name| ==> IsWordChar(name[k])
    requires |param| > 0 && !IsSpace(param[0]) && !IsSpace(param[|param| - 1])
    requires ':' !in param && ',' !in param && ')' !in param
    requires |typ| > 0 && forall k :: 0 <= k < |typ| ==> !IsTypeStop(typ[k])
    ensures var s := "function " + name + "(" + param + ":" + typ + ")";
      FunctionParams(s, 0) == Some(Match(|s|, "function " + name + "(" + param + ")"))
  {
    var params := param + ":" + typ;
    var s := "function " + name + "(" + params + ")";
    var n := 9 + |name|;
    var h := HeadShape(9, n, n, |s| - 1);
    assert s == "function " + name + "(" + param + ":" + typ + ")";
    assert s[0..|s|] == s && s[9..n] == name && s[n + 1..|s| - 1] == params;
    assert ')' !in params;
    PlainHeadShape(name, params);
    FunctionParamsOfHead(s, 0, h);
    TypedParamCallback(s, name, param, typ);
    var m := HeadMatch(s, 0, h);
    assert m.replacement == "function " + name + "(" + param + ")";
    assert m == Match(|s|, m.replacement);
  }

  // ---------------------------------------------------------------------------------------
  // /\b(readonly|public|private|protected)\s+/g  ->  ""

  const Modifiers: seq<string> := ["readonly", "public", "private", "protected"]

  /** A modifier word after a word boundary, and the whole whitespace run behind it. */
  function AccessModifier(s: string, i: nat): (r: Option<Match>)
    ensures r.Some? ==> i <= |s| && WordBoundary(s, i) && r.value.replacement == ""
    ensures r.Some? ==> exists w :: w in Modifiers && StartsAt(s, i, w)
                          && i + |w| < r.value.end == SkipSpaces(s, i + |w|)
  {
    if i > |s| || !WordBoundary(s, i) then None
    else
      match FirstWordAt(s, i, Modifiers)
      case None => None
      case Some(w) =>
        var e := SkipSpaces(s, i + |w|);
        if e == i + |w| then None else Some(Match(e, ""))
  }

  /** No modifier is a prefix of another, so at most one of them starts at any position. */
  lemma ModifiersDistinct(s: string, i: nat, v: string, w: string)
    requires v in Modifiers && w in Modifiers && StartsAt(s, i, v) && StartsAt(s, i, w)
    ensures v == w
  {
    assert v[0] == s[i] == w[0] && v[1] == s[i + 1] == w[1] && v[2] == s[i + 2] == w[2];
  }

  function RemoveModifiers(code: string): (r: string)
    ensures |r| <= |code|
  {
    DeletingReplaceShrinks(code, AccessModifier, 0);
    ReplaceAll(code, AccessModifier, 0)
  }

  /** A leading modifier and its whitespace are dropped; text holding no modifier word after it
      is kept. */
  lemma ModifierDropped(k: nat, gap: string, rest: string)
    requires k < |Modifiers|
    requires |gap| > 0 && forall j :: 0 <= j < |gap| ==> IsSpace(gap[j])
    requires |rest| > 0 ==> !IsSpace(rest[0])
    requires forall w :: w in Modifiers ==> !Contains(rest, w)
    ensures RemoveModifiers(Modifiers[k] + gap + rest) == rest
  {
    var s := Modifiers[k] + gap + rest;
    var off := |Modifiers[k]| + |gap|;
    LeadingModifier(Modifiers[k], gap, rest);
    ModifierAt(s, Modifiers[k], off);
    NoModifierAfter(s, off);
    ReplaceAllWithoutHit(s, AccessModifier, off);
  }

  // The blanks after a word run up to the rest of the text.
  lemma LeadingModifier(w: string, gap: string, rest: string)
    requires |gap| > 0 && forall j :: 0 <= j < |gap| ==> IsSpace(gap[j])
    requires |rest| > 0 ==> !IsSpace(rest[0])
    ensures var s := w + gap + rest;
      StartsAt(s, 0, w) && SkipSpaces(s, |w|) == |w| + |gap| && s[|w| + |gap|..] == rest
  {
    var s := w + gap + rest;
    var off := |w| + |gap|;
    Framing(w, gap, rest);
    assert forall j :: |w| <= j < off ==> IsSpace(s[j]) by {
      assert forall j :: |w| <= j < off ==> s[j] == gap[j - |w|];
    }
    assert off < |s| ==> s[off] == rest[0];
    SpaceRunEnd(s, |w|, off);
  }

  // A modifier word at the start of the text, with blanks behind it up to off, is a match.
  lemma ModifierAt(s: string, w: string, off: nat)
    requires w in Modifiers && StartsAt(s, 0, w)
    requires |w| < off <= |s| && SkipSpaces(s, |w|) == off
    ensures AccessModifier(s, 0) == Some(Match(off, ""))
  {
    assert IsWordChar(s[0]) by { assert s[0] == w[0]; }
    var found := FirstWordAt(s, 0, Modifiers);
    ModifiersDistinct(s, 0, found.value, w);
  }

  // Text after off that holds no modifier word gives the pass no match.
  lemma NoModifierAfter(s: string, off: nat)
    requires off <= |s|
    requires forall w :: w in Modifiers ==> !Contains(s[off..], w)
    ensures forall j :: off <= j < |s| ==> !Hit(AccessModifier, s, j)
  {
    forall j | off <= j < |s|
      ensures !Hit(AccessModifier, s, j)
    {
      forall v | v in Modifiers
        ensures !StartsAt(s, j, v)
      {
        assert s[j..] == s[off..][j - off..];
        assert !StartsAt(s[off..], j - off, v);
      }
    }
  }

  // ---------------------------------------------------------------------------------------
  // /\n\n\n+/g  ->  "\n\n"

  predicate IsNewline(c: char) { c == '\n' }

  function ExtraBlankLines(s: string, i: nat): Option<Match> {
    if StartsAt(s, i, "\n\n\n") then Some(Match(Span(s, i, IsNewline), "\n\n")) else None
  }

  /** No three newlines in a row. */
  predicate NoTripleNewline(t: string) {
    forall k :: 0 <= k < |t| - 2 ==> !(t[k] == '\n' && t[k + 1] == '\n' && t[k + 2] == '\n')
  }

  lemma TripleNewlineAt(s: string, i: nat)
    ensures i + 2 < |s| && s[i] == '\n' && s[i + 1] == '\n' && s[i + 2] == '\n' ==>
      StartsAt(s, i, "\n\n\n")
  {
    if i + 2 < |s| {
      assert s[i..][..3] == [s[i], s[i + 1], s[i + 2]];
    }
  }

  /** The collapsing pass leaves no three newlines in a row, and its output begins with the
      same two characters as the remaining input. */
  lemma {:induction false} BlankLinesCollapsed(s: string, i: nat)
    requires i <= |s|
    ensures var r := ReplaceAll(s, ExtraBlankLines, i);
      && NoTripleNewline(r)
      && (|r| > 0 ==> i < |s| && r[0] == s[i])
      && (|r| > 1 ==> i + 1 < |s| && r[1] == s[i + 1])
    decreases |s| - i
  {
    if i < |s| {
      var r := ReplaceAll(s, ExtraBlankLines, i);
      if Hit(ExtraBlankLines, s, i) {
        var e := Span(s, i, IsNewline);
        BlankLinesCollapsed(s, e);
        var rest := ReplaceAll(s, ExtraBlankLines, e);
        assert r == "\n\n" + rest;
        assert |rest| > 0 ==> rest[0] != '\n';
        assert s[i] == '\n' && s[i + 1] == '\n';
        assert forall k :: 2 <= k < |r| ==> r[k] == rest[k - 2];
      } else {
        BlankLinesCollapsed(s, i + 1);
        var rest := ReplaceAll(s, ExtraBlankLines, i + 1);
        assert r == [s[i]] + rest;
        TripleNewlineAt(s, i);
        assert forall k :: 1 <= k < |r| ==> r[k] == rest[k - 1];
      }
    }
  }

  lemma TrimKeepsNoTriple(t: string)
    requires NoTripleNewline(t)
    ensures NoTripleNewline(Trim(t))
  {
    var a := TrimStartIndex(t);
    var r := Trim(t);
    assert forall k :: 0 <= k < |r| ==> r[k] == t[a + k];
  }

  // ---------------------------------------------------------------------------------------
  // removeTypeScript

  /** The passes of `removeTypeScript` whose expressions rest on lookahead or lazy block
      matching, taken as given: `declarations` removes `interface` and `type` definitions
      (lines 22-26), `annotations` rewrites arrow parameters, typed declarations, return types
      and `as` casts (lines 50-80). */
  datatype TypePasses = TypePasses(declarations: string -> string, annotations: string -> string)

  /** `removeTypeScript(code)`, step by step. */
  function RemoveTypeScript(code: string, passes: TypePasses): (r: string)
    ensures |r| > 0 ==> !IsSpace(r[0]) && !IsSpace(r[|r| - 1])
    ensures NoTripleNewline(r)
  {
    var noImports := RemoveImportLines(code);
    var noExport := RemoveExportDefault(noImports);
    var noDeclarations := passes.declarations(noExport);
    var plainHeads := ReplaceAll(noDeclarations, FunctionParams, 0);
    var noAnnotations := passes.annotations(plainHeads);
    var noModifiers := RemoveModifiers(noAnnotations);
    var noLeading := StripLeadingBlankLines(noModifiers);
    var collapsed := ReplaceAll(noLeading, ExtraBlankLines, 0);
    BlankLinesCollapsed(noLeading, 0);
    TrimKeepsNoTriple(collapsed);
    Trim(collapsed)
  }

  // ---------------------------------------------------------------------------------------
  // extractComponentName

  /** `[a-zA-Z_$][\w$]*`. */
  predicate IsIdentifier(n: string) {
    |n| > 0 && IsIdentStart(n[0]) && forall k :: 1 <= k < |n| ==> IsIdentChar(n[k])
  }

  /** The identifier that starts at a, if one does; it runs as far as the greedy `[\w$]*`. */
  function IdentifierEnd(s: string, a: nat): (e: nat)
    requires a < |s| && IsIdentStart(s[a])
    ensures a < e <= |s| && IsIdentifier(s[a..e])
    ensures e < |s| ==> !IsIdentChar(s[e])
  {
    var e := Span(s, a + 1, IsIdentChar);
    assert forall k :: 1 <= k < e - a ==> s[a..e][k] == s[a + k];
    e
  }

  /** `export\s+default\s+function\s+([a-zA-Z_$][\w$]*)` at i; the replacement is the name. */
  function ExportedName(s: string, i: nat): (r: Option<Match>)
    ensures r.Some? ==> i < r.value.end <= |s| && IsIdentifier(r.value.replacement)
    ensures r.Some? ==> StartsAt(s, i, "export")
  {
    match ExportDefaultFunctionEnd(s, i)
    case None => None
    case Some(c) =>
      if c < |s| && IsIdentStart(s[c]) then
        var e := IdentifierEnd(s, c);
        Some(Match(e, s[c..e]))
      else None
  }

  /** `function\s+([a-zA-Z_$][\w$]*)\s*\(` at i. */
  function DeclaredName(s: string, i: nat): (r: Option<Match>)
    ensures r.Some? ==> i < r.value.end <= |s| && IsIdentifier(r.value.replacement)
    ensures r.Some? ==> StartsAt(s, i, "function") && s[r.value.end - 1] == '('
  {
    if !StartsAt(s, i, "function") then None
    else
      var a := SkipSpaces(s, i + 8);
      if a == i + 8 || a == |s| || !IsIdentStart(s[a]) then None
      else
        var e := IdentifierEnd(s, a);
        var p := SkipSpaces(s, e);
        if p < |s| && s[p] == '(' then Some(Match(p + 1, s[a..e])) else None
  }

  const Declarators: seq<string> := ["const", "let", "var"]

  /** `(?:const|let|var)\s+([a-zA-Z_$][\w$]*)\s*=` at i (no word boundary before the
      keyword). */
  function BoundName(s: string, i: nat): (r: Option<Match>)
    ensures r.Some? ==> i < r.value.end <= |s| && IsIdentifier(r.value.replacement)
    ensures r.Some? ==> s[r.value.end - 1] == '='
    ensures r.Some? ==> exists w :: w in Declarators && StartsAt(s, i, w)
  {
    match FirstWordAt(s, i, Declarators)
    case None => None
    case Some(w) =>
      var a := SkipSpaces(s, i + |w|);
      if a == i + |w| || a == |s| || !IsIdentStart(s[a]) then None
      else
        var e := IdentifierEnd(s, a);
        var p := SkipSpaces(s, e);
        if p < |s| && s[p] == '=' then Some(Match(p + 1, s[a..e])) else None
  }

  /** The pattern matches somewhere in s. */
  predicate Occurs(m: Matcher, s: string) {
    exists k :: 0 <= k < |s| && Hit(m, s, k)
  }

  /** n is what the leftmost match of m in s captures. */
  predicate LeftmostCapture(m: Matcher, s: string, n: string) {
    exists k :: 0 <= k < |s| && Hit(m, s, k) && (forall j :: 0 <= j < k ==> !Hit(m, s, j))
                && m(s, k).value.replacement == n
  }

  function FirstCapture(s: string, m: Matcher): (r: Option<string>)
    ensures r.Some? <==> Occurs(m, s)
    ensures r.Some? ==> LeftmostCapture(m, s, r.value)
  {
    match FirstHit(s, m, 0)
    case None => None
    case Some(k) => Some(m(s, k).value.replacement)
  }

  /** `extractComponentName(code)`: the exported function's name, else the first declared
      function's, else the first bound variable's, else null. */
  function ExtractComponentName(code: string): (r: Option<string>)
    ensures r.Some? ==> IsIdentifier(r.value)
    ensures r.None? <==>
      !Occurs(ExportedName, code) && !Occurs(DeclaredName, code) && !Occurs(BoundName, code)
    ensures Occurs(ExportedName, code) ==> r.Some? && LeftmostCapture(ExportedName, code, r.value)
    ensures !Occurs(ExportedName, code) && Occurs(DeclaredName, code) ==>
      r.Some? && LeftmostCapture(DeclaredName, code, r.value)
    ensures !Occurs(ExportedName, code) && !Occurs(DeclaredName, code) && Occurs(BoundName, code) ==>
      r.Some? && LeftmostCapture(BoundName, code, r.value)
  {
    match FirstCapture(code, ExportedName)
    case Some(n) => Some(n)
    case None =>
      match FirstCapture(code, DeclaredName)
      case Some(n) => Some(n)
      case None => FirstCapture(code, BoundName)
  }
}
