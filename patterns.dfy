/** Regular expressions that several source files share, as matchers:
    `export\s+default\s+` (lib/typescript-utils.ts, components/DynamicPreview.tsx),
    `export\s+default\s+function\s+` (lib/sandbox-template.ts, and with `\w+` after it in
    app/api/generate/route.ts and tests/code-guard.test.ts), the two multiline import-line
    expressions and `^\s*\n+` (lib/typescript-utils.ts, lib/sandbox-template.ts). */
module Patterns {
  import opened Wrappers
  import opened Text
  import opened Scan

  predicate AllSpace(s: string, i: nat, j: nat)
    requires i <= j <= |s|
  {
    forall k :: i <= k < j ==> IsSpace(s[k])
  }

  /** `^` under the multiline flag. */
  predicate AtLineStart(s: string, i: nat) {
    i <= |s| && (i == 0 || IsLineTerminator(s[i - 1]))
  }

  /** `$` under the multiline flag. */
  predicate AtLineEnd(s: string, i: nat) {
    i <= |s| && (i == |s| || IsLineTerminator(s[i]))
  }

  // ---------------------------------------------------------------------------------------
  // export\s+default\s+

  /** The text s[i..e] spells `export`, whitespace, `default`, whitespace, and the trailing
      whitespace run is maximal, as the greedy `\s+` makes it. */
  ghost predicate IsExportDefaultSpan(s: string, i: nat, e: nat)
    requires i <= e <= |s|
  {
    && StartsAt(s, i, "export")
    && (exists a {:trigger StartsAt(s, a, "default")} ::
          i + 6 < a && a + 7 < e && StartsAt(s, a, "default")
          && AllSpace(s, i + 6, a) && AllSpace(s, a + 7, e))
    && (e < |s| ==> !IsSpace(s[e]))
  }

  function ExportDefaultEnd(s: string, i: nat): (r: Option<nat>)
    ensures r.Some? ==> i < r.value <= |s| && IsExportDefaultSpan(s, i, r.value)
  {
    if !StartsAt(s, i, "export") then None
    else
      var a := SkipSpaces(s, i + 6);
      if a == i + 6 || !StartsAt(s, a, "default") then None
      else
        var b := SkipSpaces(s, a + 7);
        if b == a + 7 then None else Some(b)
  }

  /** The matcher misses nothing: whenever the text at i has the shape of the expression, the
      matcher reports that very match. With the ensures above, the two coincide. */
  lemma ExportDefaultEndComplete(s: string, i: nat, e: nat)
    requires i <= e <= |s| && IsExportDefaultSpan(s, i, e)
    ensures ExportDefaultEnd(s, i) == Some(e)
  {
    var a :| i + 6 < a && a + 7 < e && StartsAt(s, a, "default")
              && AllSpace(s, i + 6, a) && AllSpace(s, a + 7, e);
    WordStartsWithLetter(s, a, "default");
    SpaceRunEnd(s, i + 6, a);
    SpaceRunEnd(s, a + 7, e);
    ExportDefaultEndIs(s, i, a, e);
  }

  // The matcher follows the two words and the whitespace runs after them to the end b.
  lemma ExportDefaultEndIs(s: string, i: nat, a: nat, b: nat)
    requires StartsAt(s, i, "export") && i + 6 < a && SkipSpaces(s, i + 6) == a
    requires StartsAt(s, a, "default") && a + 7 < b && SkipSpaces(s, a + 7) == b
    ensures ExportDefaultEnd(s, i) == Some(b)
  {
  }

  /** A word that starts at a is not preceded there by blanks: its first character is a letter. */
  lemma WordStartsWithLetter(s: string, a: nat, w: string)
    requires StartsAt(s, a, w) && |w| > 0 && 'a' <= w[0] <= 'z'
    ensures a < |s| && !IsSpace(s[a])
  {
    assert s[a..][0] == w[0];
  }

  /** `export\s+default\s+` as a deleting matcher. */
  function ExportDefault(s: string, i: nat): Option<Match> {
    match ExportDefaultEnd(s, i)
    case Some(e) => Some(Match(e, ""))
    case None => None
  }

  // The matcher follows the words and the whitespace runs between them to the end c.
  lemma ExportDefaultFunctionEndIs(s: string, i: nat, a: nat, b: nat, c: nat)
    requires StartsAt(s, i, "export") && i + 6 < a && SkipSpaces(s, i + 6) == a
    requires StartsAt(s, a, "default") && a + 7 < b && SkipSpaces(s, a + 7) == b
    requires StartsAt(s, b, "function") && b + 8 < c && SkipSpaces(s, b + 8) == c
    ensures ExportDefaultFunctionEnd(s, i) == Some(c)
  {
    assert ExportDefaultEnd(s, i) == Some(b);
  }

  /** `export\s+default\s+function\s+`: the end of the match at i. */
  function ExportDefaultFunctionEnd(s: string, i: nat): (r: Option<nat>)
    ensures r.Some? ==> i < r.value <= |s| && StartsAt(s, i, "export")
    ensures r.Some? ==> r.value == |s| || !IsSpace(s[r.value])
  {
    match ExportDefaultEnd(s, i)
    case None => None
    case Some(b) =>
      if !StartsAt(s, b, "function") then None
      else
        var c := SkipSpaces(s, b + 8);
        if c == b + 8 then None else Some(c)
  }

  /** `export\s+default\s+function\s+\w+` occurs at i. */
  predicate ExportDefaultFunctionNameAt(s: string, i: nat) {
    var r := ExportDefaultFunctionEnd(s, i);
    r.Some? && r.value < |s| && IsWordChar(s[r.value])
  }

  /** `export\s+default\s+function\s+\w+` occurs somewhere in s. */
  predicate HasExportDefaultFunction(s: string) {
    exists i :: 0 <= i <= |s| && ExportDefaultFunctionNameAt(s, i)
  }

  /** Without the word `export` there is no `export default function Name`. */
  lemma NoExportNoDefaultFunction(s: string)
    requires !Contains(s, "export")
    ensures !HasExportDefaultFunction(s)
  {
    forall i | 0 <= i <= |s|
      ensures !ExportDefaultFunctionNameAt(s, i)
    {
      assert !StartsAt(s, i, "export");
    }
  }

  // ---------------------------------------------------------------------------------------
  // /<script/i

  predicate ScriptTagAt(s: string, i: nat) {
    StartsAtIgnoreCase(s, i, "<script")
  }

  predicate HasScriptTag(s: string) {
    exists i :: 0 <= i <= |s| && ScriptTagAt(s, i)
  }

  /** `<` has no case, so a script tag needs a literal `<`. */
  lemma ScriptTagNeedsAngle(s: string)
    requires '<' !in s
    ensures !HasScriptTag(s)
  {
    forall i | 0 <= i <= |s|
      ensures !ScriptTagAt(s, i)
    {
      if i < |s| {
        assert s[i] in s;
        if i + 7 <= |s| {
          assert ToLower(s[i..i + 7])[0] == LowerChar(s[i]);
        }
      }
    }
  }

  /** The `{ valid, reason? }` result of both code validators: a valid result has no reason. */
  datatype Verdict = Valid | Invalid(reason: string)

  // ---------------------------------------------------------------------------------------
  // ^import\s+.*?from\s+['"].*?['"];?\s*$   and   ^import\s+['"].*?['"];?\s*$   (flags g, m)

  /** The tail `.*?['"];?\s*$` after an opening quote at f. The lazy `.*?` cannot leave the
      line, and `;?\s*$` forces the closing quote to be the last non-blank character of the line
      (or to be followed only by `;`). The greedy `\s*` then runs over the trailing blanks and
      any blank lines that follow, and `$` pulls it back to just before the last line
      terminator it crossed (or leaves it at the end of s). */
  function QuotedLineTailEnd(s: string, f: nat): (r: Option<nat>)
    requires f < |s|
    ensures r.Some? ==> f < r.value <= |s| && AtLineEnd(s, r.value)
    ensures r.Some? ==> forall k :: f < k < r.value ==> (IsSpace(s[k]) || NotLineTerminator(s[k]))
  {
    var e := LineEnd(s, f + 1);
    var t := SpanBack(s, f + 1, e, IsSpace);
    if t == f + 1 then None
    else
      var last := t - 1;
      if !(IsQuote(s[last]) || (s[last] == ';' && last - 1 > f && IsQuote(s[last - 1]))) then None
      else
        var w := SkipSpaces(s, t);
        if w == |s| then Some(|s|)
        else
          assert e < |s| && t <= e < w;
          var k := SpanBack(s, t, w, NotLineTerminator);
          assert k > e;
          Some(k - 1)
  }

  /** `.*?from\s+['"]` followed by the quoted tail, where the lazy `.*?` starts at k and may not
      pass the end of the line, le. The first "from" (left to right) for which the rest matches
      decides the match. */
  function FromClauseEnd(s: string, k: nat, le: nat): (r: Option<nat>)
    requires k <= le <= |s|
    ensures r.Some? ==> k < r.value <= |s| && AtLineEnd(s, r.value)
    decreases le - k
  {
    if k == le then None
    else if StartsAt(s, k, "from") && k + 4 < |s| && IsSpace(s[k + 4])
         && SkipSpaces(s, k + 4) < |s| && IsQuote(s[SkipSpaces(s, k + 4)])
         && QuotedLineTailEnd(s, SkipSpaces(s, k + 4)).Some?
    then QuotedLineTailEnd(s, SkipSpaces(s, k + 4))
    else FromClauseEnd(s, k + 1, le)
  }

  /** `^import\s+.*?from\s+['"].*?['"];?\s*$` at i. The greedy `\s+` after `import` may cross
      line breaks; the lazy `.*?` then searches the line where that run ends. */
  function ImportFromEnd(s: string, i: nat): (r: Option<nat>)
    ensures r.Some? ==> AtLineStart(s, i) && StartsAt(s, i, "import")
    ensures r.Some? ==> i < r.value <= |s| && AtLineEnd(s, r.value)
  {
    if !(AtLineStart(s, i) && StartsAt(s, i, "import") && i + 6 < |s| && IsSpace(s[i + 6])) then None
    else
      var b := SkipSpaces(s, i + 6);
      FromClauseEnd(s, b, LineEnd(s, b))
  }

  /** `^import\s+['"].*?['"];?\s*$` at i (a side-effect import). */
  function ImportBareEnd(s: string, i: nat): (r: Option<nat>)
    ensures r.Some? ==> AtLineStart(s, i) && StartsAt(s, i, "import")
    ensures r.Some? ==> i < r.value <= |s| && AtLineEnd(s, r.value)
  {
    if !(AtLineStart(s, i) && StartsAt(s, i, "import") && i + 6 < |s| && IsSpace(s[i + 6])) then None
    else
      var f := SkipSpaces(s, i + 6);
      if f < |s| && IsQuote(s[f]) then QuotedLineTailEnd(s, f) else None
  }

  function ImportFromLine(s: string, i: nat): Option<Match> {
    match ImportFromEnd(s, i)
    case Some(e) => Some(Match(e, ""))
    case None => None
  }

  function ImportBareLine(s: string, i: nat): Option<Match> {
    match ImportBareEnd(s, i)
    case Some(e) => Some(Match(e, ""))
    case None => None
  }

  /** The two import-removing replacements, in the order both files apply them. Every deleted
      span starts at the beginning of a line with `import` and stops at the end of a line. */
  function RemoveImportLines(code: string): (r: string)
    ensures |r| <= |code|
  {
    var afterFrom := ReplaceAll(code, ImportFromLine, 0);
    DeletingReplaceShrinks(code, ImportFromLine, 0);
    DeletingReplaceShrinks(afterFrom, ImportBareLine, 0);
    ReplaceAll(afterFrom, ImportBareLine, 0)
  }

  /** Code in which `import` never occurs keeps every character. */
  lemma ImportFreeUntouched(code: string)
    requires forall i: nat :: !StartsAt(code, i, "import")
    ensures RemoveImportLines(code) == code
  {
    NoImportNoHit(code, 0);
    ReplaceAllWithoutHit(code, ImportFromLine, 0);
    assert code[0..] == code;
    ReplaceAllWithoutHit(code, ImportBareLine, 0);
  }

  /** A first line that the `from` form matches, up to e, with no other `import` in the code,
      is removed exactly: what remains is the code from e on. */
  lemma LeadingImportRemoved(code: string, e: nat)
    requires ImportFromEnd(code, 0) == Some(e)
    requires forall i: nat :: 0 < i ==> !StartsAt(code, i, "import")
    ensures RemoveImportLines(code) == code[e..]
  {
    FromPassRemovesFirst(code, e);
    NoImportInRest(code, e);
    BarePassKeeps(code[e..]);
  }

  // The `from` pass deletes the first line and keeps the rest.
  lemma FromPassRemovesFirst(code: string, e: nat)
    requires ImportFromEnd(code, 0) == Some(e)
    requires forall i: nat :: 0 < i ==> !StartsAt(code, i, "import")
    ensures e <= |code| && ReplaceAll(code, ImportFromLine, 0) == code[e..]
  {
    ReplaceAllReplaces(code, ImportFromLine, 0);
    NoImportNoHit(code, e);
    ReplaceAllWithoutHit(code, ImportFromLine, e);
  }

  // What follows the first line holds no `import`.
  lemma NoImportInRest(code: string, e: nat)
    requires 0 < e <= |code|
    requires forall i: nat :: 0 < i ==> !StartsAt(code, i, "import")
    ensures forall i: nat :: !StartsAt(code[e..], i, "import")
  {
    var t := code[e..];
    forall i: nat
      ensures !StartsAt(t, i, "import")
    {
      if i <= |t| {
        assert t[i..] == code[e + i..];
        assert !StartsAt(code, e + i, "import");
      }
    }
  }

  // The side-effect pass keeps import-free text.
  lemma BarePassKeeps(t: string)
    requires forall i: nat :: !StartsAt(t, i, "import")
    ensures ReplaceAll(t, ImportBareLine, 0) == t
  {
    NoImportNoHit(t, 0);
    ReplaceAllWithoutHit(t, ImportBareLine, 0);
    assert t[0..] == t;
  }

  // Without `import` from i on, neither import expression matches there.
  lemma NoImportNoHit(code: string, i: nat)
    requires i <= |code|
    requires forall k: nat :: i <= k ==> !StartsAt(code, k, "import")
    ensures forall j :: i <= j < |code| ==> !Hit(ImportFromLine, code, j) && !Hit(ImportBareLine, code, j)
  {
    forall j | i <= j < |code|
      ensures !Hit(ImportFromLine, code, j) && !Hit(ImportBareLine, code, j)
    {
      assert !StartsAt(code, j, "import");
    }
  }

  // ---------------------------------------------------------------------------------------
  // ^\s*\n+   (no flags: only at the very start)

  /** The greedy `\s*` gives back characters until `\n+` can start, so the match ends just after
      the last newline of the leading whitespace. */
  function LeadingBlankLinesEnd(s: string): (r: Option<nat>)
    ensures r.Some? ==> 0 < r.value <= |s| && s[r.value - 1] == '\n' && AllSpace(s, 0, r.value)
    ensures r.Some? ==> forall k :: r.value <= k < TrimStartIndex(s) ==> s[k] != '\n'
    ensures r.None? ==> forall k :: 0 <= k < TrimStartIndex(s) ==> s[k] != '\n'
  {
    var w := SkipSpaces(s, 0);
    var k := SpanBack(s, 0, w, c => c != '\n');
    if k == 0 then None else Some(k)
  }

  /** `s.replace(/^\s*\n+/, '')`: drops the blank lines before the first line with content; the
      result starts with that line's own indentation and holds no newline before its content. */
  function StripLeadingBlankLines(s: string): (r: string)
    ensures |r| <= |s| && r == s[|s| - |r|..]
    ensures AllSpace(s, 0, |s| - |r|)
    ensures forall k :: 0 <= k < TrimStartIndex(r) ==> r[k] != '\n'
    ensures |r| < |s| ==> s[|s| - |r| - 1] == '\n'
  {
    match LeadingBlankLinesEnd(s)
    case None => s
    case Some(e) =>
      TrimStartOfSuffix(s, e);
      s[e..]
  }

  /** The cut is the only one of its kind: any blank prefix that is empty or ends in a newline,
      and leaves no newline before the content, is the one the expression removes. */
  lemma BlankLineCutUnique(s: string, c: nat)
    requires c <= |s| && AllSpace(s, 0, c) && (c > 0 ==> s[c - 1] == '\n')
    requires forall k :: 0 <= k < TrimStartIndex(s[c..]) ==> s[c..][k] != '\n'
    ensures StripLeadingBlankLines(s) == s[c..]
  {
    var r := StripLeadingBlankLines(s);
    var e := |s| - |r|;
    CutNotAfter(s, c, e);
    CutNotAfter(s, e, c);
  }

  // A blank prefix ending in a newline cannot reach past a cut that leaves no newline before
  // the content.
  lemma CutNotAfter(s: string, c: nat, e: nat)
    requires c <= |s| && AllSpace(s, 0, c) && (c > 0 ==> s[c - 1] == '\n')
    requires e <= |s| && AllSpace(s, 0, e)
    requires forall k :: 0 <= k < TrimStartIndex(s[e..]) ==> s[e..][k] != '\n'
    ensures c <= e
  {
    SpaceRunWithinTrim(s, c);
    SpaceRunWithinTrim(s, e);
    TrimStartOfSuffix(s, e);
    if e < c {
      assert false;
    }
  }

  // A blank prefix lies within the leading whitespace.
  lemma SpaceRunWithinTrim(s: string, c: nat)
    requires c <= |s| && AllSpace(s, 0, c)
    ensures c <= TrimStartIndex(s)
  {
    if TrimStartIndex(s) < c {
      assert false;
    }
  }
}
