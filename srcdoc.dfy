/** lib/sandbox-template.ts: the two documents the sandbox frame is given, `buildSrcDoc` for a
    component and `buildErrorSrcDoc` for an error message. The component's code travels inside
    a JavaScript template literal in the page, so this module also models how a template
    literal's text is read back (its "cooked" value). */
module SandboxDocuments {
  import opened Wrappers
  import opened Text
  import opened Scan
  import opened Patterns
  import opened SandboxTemplate

  // ---------------------------------------------------------------------------------------
  // The page's parts

  /** The text the design tokens contribute (tokens.json is not part of this model): the style
      sheet of the component page, the JSON of the `window.tokens` assignment, the in-page
      script that follows the embedded code (it evaluates it, finds the component and renders
      it or an error view in the tokens' colours), and the style sheet of the error page. */
  datatype Theme = Theme(pageStyle: string, tokensJson: string, runner: string, errorStyle: string)

  /** The component page's Content-Security-Policy: nothing by default; scripts, styles and
      connections from the page's own origin; inline and evaluated scripts for Babel; images
      also from data URLs and the web. */
  const PageDirectives: seq<string> := [
    "default-src 'none'",
    "script-src 'self' 'unsafe-inline' 'unsafe-eval'",
    "style-src 'self' 'unsafe-inline'",
    "img-src 'self' data: https: http:",
    "connect-src 'self'"
  ]

  /** The error page's policy: no script source at all. */
  const ErrorDirectives: seq<string> := [
    "default-src 'none'",
    "style-src 'unsafe-inline'",
    "connect-src 'self'"
  ]

  /** React, ReactDOM and Babel, served by the application itself. */
  const VendorScripts: seq<string> := [
    "/vendor/react.production.min.js",
    "/vendor/react-dom.production.min.js",
    "/vendor/babel-standalone.min.js"
  ]

  function CspMeta(directives: seq<string>): string {
    "<meta http-equiv=\"Content-Security-Policy\" content=\"" + Join(directives, "; ") + "\">\n"
  }

  function ScriptTags(sources: seq<string>): string {
    if |sources| == 0 then ""
    else "<script src=\"" + sources[0] + "\"></script>\n" + ScriptTags(sources[1..])
  }

  const DocStart: string :=
    "<!DOCTYPE html>\n<html lang=\"ko\">\n<head>\n<meta charset=\"UTF-8\">\n"
    + "<meta name=\"viewport\" content=\"width=device-width, initial-scale=1.0\">\n"

  /** The page up to the declaration of `codeWithoutExport`: the policy, the vendor scripts,
      the themed style sheet, the root element, and the start of the Babel script with its
      hooks and the `window.tokens` assignment. */
  function PageStart(theme: Theme): string {
    DocStart + CspMeta(PageDirectives) + PageStartRest(theme)
  }

  function PageStartRest(theme: Theme): string {
    "<title>Component Preview</title>\n"
    + ScriptTags(VendorScripts) + "<style>" + theme.pageStyle + "</style>\n</head>\n<body>\n"
    + "<div id=\"root\"></div>\n<script type=\"text/babel\" data-presets=\"react,typescript\">\n"
    + "const { useState, useEffect, useRef, useCallback, useMemo } = React;\n"
    + "window.tokens = " + theme.tokensJson + ";\n"
    + "const codeWithoutExport = "
  }

  /** Everything before the component's code, up to the backtick that opens the template
      literal. */
  function PageHead(theme: Theme): string {
    PageStart(theme) + "`"
  }

  /** Everything after the component's code, from the backtick that closes the literal. */
  function PageTail(theme: Theme): string {
    "`" + ";\n" + theme.runner + "</script>\n</body>\n</html>"
  }

  lemma TailOpensWithBacktick(theme: Theme)
    ensures |PageTail(theme)| > 0 && PageTail(theme)[0] == '`'
  {
    var rest := ";\n" + theme.runner + "</script>\n</body>\n</html>";
    assert PageTail(theme) == "`" + rest;
  }

  // ---------------------------------------------------------------------------------------
  // Reading a template literal back

  /** The value of a template literal whose text starts at i, and the position of the backtick
      that closes it. */
  datatype Cooked = Cooked(value: string, close: nat)

  function Prepend(c: char, r: Option<Cooked>): Option<Cooked> {
    match r
    case None => None
    case Some(k) => Some(Cooked([c] + k.value, k.close))
  }

  /** The escapes `\b \f \n \r \t \v` and the characters they stand for. */
  function SimpleEscape(e: char): Option<char> {
    if e == 'b' then Some('\U{0008}')
    else if e == 'f' then Some('\U{000C}')
    else if e == 'n' then Some('\n')
    else if e == 'r' then Some('\r')
    else if e == 't' then Some('\t')
    else if e == 'v' then Some('\U{000B}')
    else None
  }

  /** Section 13.2.8.6 of ECMA-262 (the template value of a template literal without
      substitutions), read from i up to the closing backtick. A `${` makes the literal one
      with a substitution, and an escape the section rejects makes it a syntax error: both
      give None, as do `\x` and `\u` escapes, which this model does not decode. A line
      continuation contributes nothing; a carriage return, alone or before a line feed, reads
      as a line feed. */
  function CookTemplate(t: string, i: nat): (r: Option<Cooked>)
    ensures r.Some? ==> i <= r.value.close < |t| && t[r.value.close] == '`'
    decreases |t| - i
  {
    if i >= |t| then None
    else if t[i] == '`' then Some(Cooked([], i))
    else if t[i] == '$' && i + 1 < |t| && t[i + 1] == '{' then None
    else if t[i] == '\r' then
      Prepend('\n', CookTemplate(t, if i + 1 < |t| && t[i + 1] == '\n' then i + 2 else i + 1))
    else if t[i] != '\\' then Prepend(t[i], CookTemplate(t, i + 1))
    else if i + 1 >= |t| then None
    else
      var e := t[i + 1];
      if e == '\n' || e == '\U{2028}' || e == '\U{2029}' then CookTemplate(t, i + 2)
      else if e == '\r' then CookTemplate(t, if i + 2 < |t| && t[i + 2] == '\n' then i + 3 else i + 2)
      else if SimpleEscape(e).Some? then Prepend(SimpleEscape(e).value, CookTemplate(t, i + 2))
      else if e == '0' && !(i + 2 < |t| && IsDigit(t[i + 2])) then
        Prepend('\U{0000}', CookTemplate(t, i + 2))
      else if IsDigit(e) || e == 'x' || e == 'u' then None
      else Prepend(e, CookTemplate(t, i + 2))
  }

  // ---------------------------------------------------------------------------------------
  // Embedding the code

  /** `/export\s+default\s+function\s+/g -> 'window.'`: the component becomes a global. */
  function WindowExport(s: string, i: nat): Option<Match> {
    match ExportDefaultFunctionEnd(s, i)
    case None => None
    case Some(e) => Some(Match(e, "window."))
  }

  /** Code without the word `export` is embedded as it is. */
  function ExposeComponent(code: string): (r: string)
    ensures !Contains(code, "export") ==> r == code
  {
    if Contains(code, "export") then ReplaceAll(code, WindowExport, 0)
    else
      NoExportNoHit(code);
      ReplaceAllWithoutHit(code, WindowExport, 0);
      ReplaceAll(code, WindowExport, 0)
  }

  /** `export default function Name…` becomes `window.Name…`, the rest kept as it was. */
  lemma ExportedFunctionExposed(rest: string)
    requires !Contains(rest, "export") && |rest| > 0 && !IsSpace(rest[0])
    ensures ExposeComponent("export default function " + rest) == "window." + rest
  {
    var s := "export default function " + rest;
    ExportPrefixMatched(rest);
    NoExportAfter(s, 24, rest);
    ReplaceAllReplaces(s, WindowExport, 0);
    ReplaceAllWithoutHit(s, WindowExport, 24);
    assert s[24..] == rest;
  }

  lemma ExportPrefixMatched(rest: string)
    requires |rest| > 0 && !IsSpace(rest[0])
    ensures WindowExport("export default function " + rest, 0) == Some(Match(24, "window."))
  {
    var s := "export default function " + rest;
    assert StartsAt(s, 0, "export") && StartsAt(s, 7, "default") && StartsAt(s, 15, "function");
    SingleSpaceAt(s, 6);
    SingleSpaceAt(s, 14);
    SingleSpaceAt(s, 23);
  }

  /** Where s continues with a text free of `export`, the rewrite finds nothing more. */
  lemma NoExportAfter(s: string, k: nat, rest: string)
    requires k <= |s| && s[k..] == rest && !Contains(rest, "export")
    ensures forall j :: k <= j < |s| ==> !Hit(WindowExport, s, j)
  {
    forall j | k <= j < |s|
      ensures !Hit(WindowExport, s, j)
    {
      if StartsAt(s, j, "export") {
        assert s[j..] == rest[j - k..];
        assert StartsAt(rest, j - k, "export");
      }
    }
  }

  /** Where the word `export` does not occur, the rewrite finds no match. */
  lemma NoExportNoHit(code: string)
    requires !Contains(code, "export")
    ensures forall j :: 0 <= j < |code| ==> !Hit(WindowExport, code, j)
  {
    forall j | 0 <= j < |code|
      ensures !Hit(WindowExport, code, j)
    {
      assert !StartsAt(code, j, "export");
    }
  }

  /** The source's escaping, `/`/g -> '\\`'`, applied before the export rewrite. */
  function Backtick(s: string, i: nat): Option<Match> {
    if i < |s| && s[i] == '`' then Some(Match(i + 1, "\\`")) else None
  }

  /** The escaping touches backticks only: code without one is embedded as the export rewrite
      alone would embed it. */
  function EmbedAsWritten(code: string): (r: string)
    ensures (forall k :: 0 <= k < |code| ==> code[k] != '`') ==> r == ExposeComponent(code)
  {
    if forall k :: 0 <= k < |code| ==> code[k] != '`' then
      BacktickFreeUnescaped(code);
      ExposeComponent(ReplaceAll(code, Backtick, 0))
    else ExposeComponent(ReplaceAll(code, Backtick, 0))
  }

  lemma BacktickFreeUnescaped(code: string)
    requires forall k :: 0 <= k < |code| ==> code[k] != '`'
    ensures ReplaceAll(code, Backtick, 0) == code
  {
    ReplaceAllWithoutHit(code, Backtick, 0);
    assert code[0..] == code;
  }

  /** A backslash in the code (inside a string literal, say) is read back as an escape: the
      code `"\n"` (backslash, n) reaches the page as a line break. */
  lemma BackslashEscapeCooked()
    ensures EmbedAsWritten("\\n") == "\\n"
    ensures CookTemplate(EmbedAsWritten("\\n") + "`", 0) == Some(Cooked("\n", 2))
  {
    var s := "\\n";
    forall j | 0 <= j < |s|
      ensures !Hit(Backtick, s, j) && !Hit(WindowExport, s, j)
    {
      assert !StartsAt(s, j, "export");
    }
    ReplaceAllWithoutHit(s, Backtick, 0);
    ReplaceAllWithoutHit(s, WindowExport, 0);
    var t := s + "`";
    assert t[0] == '\\' && t[1] == 'n' && t[2] == '`';
    assert CookTemplate(t, 2) == Some(Cooked([], 2));
    assert SimpleEscape('n') == Some('\n');
    assert CookTemplate(t, 0) == Prepend('\n', CookTemplate(t, 2));
    assert ['\n'] + [] == "\n";
    assert EmbedAsWritten(s) + "`" == t;
  }

  /** A template literal in the code (`${...}`) is not escaped: the page's literal gets a
      substitution of its own, evaluated in the page, instead of holding the code's text. */
  lemma SubstitutionNotLiteral()
    ensures EmbedAsWritten("${a}") == "${a}"
    ensures CookTemplate(EmbedAsWritten("${a}") + "`", 0).None?
  {
    var s := "${a}";
    forall j | 0 <= j < |s|
      ensures !Hit(Backtick, s, j) && !Hit(WindowExport, s, j)
    {
      assert !StartsAt(s, j, "export");
    }
    ReplaceAllWithoutHit(s, Backtick, 0);
    ReplaceAllWithoutHit(s, WindowExport, 0);
    var t := s + "`";
    assert t[0] == '$' && t[1] == '{';
  }

  /** The escape a character needs inside a template literal: the backslash, the backtick,
      the dollar sign (which could start `${`) and the carriage return (which would be read
      as a line feed). */
  function EscapeChar(c: char): (r: string)
    ensures 1 <= |r| <= 2
  {
    if c == '\\' then "\\\\"
    else if c == '`' then "\\`"
    else if c == '$' then "\\$"
    else if c == '\r' then "\\r"
    else [c]
  }

  function EscapeTemplate(x: string): (r: string)
    ensures |r| >= |x|
  {
    if x == [] then [] else EscapeChar(x[0]) + EscapeTemplate(x[1..])
  }

  /** The embedding the page needs: the export rewrite, then escaping for the literal. */
  function EmbedCode(code: string): string {
    EscapeTemplate(ExposeComponent(code))
  }

  /** One escaped character reads back as itself. */
  lemma CookChar(t: string, i: nat, c: char)
    requires StartsAt(t, i, EscapeChar(c)) && i + |EscapeChar(c)| < |t|
    ensures CookTemplate(t, i) == Prepend(c, CookTemplate(t, i + |EscapeChar(c)|))
  {
    var e := EscapeChar(c);
    assert t[i] == e[0];
    if |e| == 2 {
      assert t[i + 1] == e[1];
    }
  }

  /** An escaped text followed by a backtick reads back as the text, and the literal closes at
      that backtick. */
  lemma {:induction false} CookEscaped(t: string, i: nat, x: string)
    requires StartsAt(t, i, EscapeTemplate(x)) && i + |EscapeTemplate(x)| < |t|
    requires t[i + |EscapeTemplate(x)|] == '`'
    ensures CookTemplate(t, i) == Some(Cooked(x, i + |EscapeTemplate(x)|))
    decreases |x|
  {
    if x == [] {
      CookClosing(t, i);
    } else {
      var e := EscapeChar(x[0]);
      var rest := EscapeTemplate(x[1..]);
      var close := i + |EscapeTemplate(x)|;
      assert EscapeTemplate(x) == e + rest;
      StartsAtConcat(t, i, e, rest);
      CookEscaped(t, i + |e|, x[1..]);
      CookChar(t, i, x[0]);
      ChainCooked(t, i, i + |e|, x, close);
    }
  }

  // The first character read, then the rest of the value up to the close.
  lemma ChainCooked(t: string, i: nat, j: nat, x: string, close: nat)
    requires |x| > 0 && CookTemplate(t, j) == Some(Cooked(x[1..], close))
    requires CookTemplate(t, i) == Prepend(x[0], CookTemplate(t, j))
    ensures CookTemplate(t, i) == Some(Cooked(x, close))
  {
    PrependHead(x, close);
  }

  // A backtick closes the literal with nothing read.
  lemma CookClosing(t: string, i: nat)
    requires i < |t| && t[i] == '`'
    ensures CookTemplate(t, i) == Some(Cooked([], i))
  {
  }

  // A character read before the rest of a literal is the first character of its value.
  lemma PrependHead(x: string, close: nat)
    requires |x| > 0
    ensures Prepend(x[0], Some(Cooked(x[1..], close))) == Some(Cooked(x, close))
  {
    assert [x[0]] + x[1..] == x;
  }

  lemma StartsAtConcat(t: string, i: nat, a: string, b: string)
    requires StartsAt(t, i, a + b)
    ensures StartsAt(t, i, a) && StartsAt(t, i + |a|, b)
  {
    assert t[i..][..|a|] == (a + b)[..|a|] == a;
    assert t[i + |a|..][..|b|] == t[i..][|a|..|a| + |b|] == (a + b)[|a|..] == b;
  }

  /** Code without backslashes, dollar signs or carriage returns needs only its backticks
      escaped: there the source's escaping and the full one agree. */
  lemma {:induction false} BacktickEscapeSuffices(x: string, i: nat)
    requires i <= |x| && forall k :: i <= k < |x| ==> x[k] != '\\' && x[k] != '$' && x[k] != '\r'
    ensures ReplaceAll(x, Backtick, i) == EscapeTemplate(x[i..])
    decreases |x| - i
  {
    if i < |x| {
      BacktickEscapeSuffices(x, i + 1);
      assert x[i..][1..] == x[i + 1..];
      if x[i] == '`' {
        ReplaceAllReplaces(x, Backtick, i);
      } else {
        ReplaceAllCopies(x, Backtick, i);
      }
    }
  }

  /** A character a template literal reads as itself without escaping. */
  predicate LiteralSafe(c: char) {
    c != '\\' && c != '`' && c != '$' && c != '\r'
  }

  predicate PlainForLiteral(x: string) {
    forall k :: 0 <= k < |x| ==> LiteralSafe(x[k])
  }

  /** Text without characters a template literal treats specially needs no escaping. */
  lemma {:induction false} PlainUnescaped(x: string)
    requires PlainForLiteral(x)
    ensures EscapeTemplate(x) == x
    decreases |x|
  {
    if x != [] {
      PlainUnescaped(x[1..]);
      assert x == [x[0]] + x[1..];
    }
  }

  /** The export rewrite adds only `window.`, so it keeps text plain. */
  lemma ExposeKeepsPlain(x: string)
    requires PlainForLiteral(x)
    ensures PlainForLiteral(ExposeComponent(x))
  {
    forall j | 0 <= j < |x| && Hit(WindowExport, x, j)
      ensures PlainForLiteral(WindowExport(x, j).value.replacement)
    {
      assert WindowExport(x, j).value.replacement == "window.";
      WindowIsPlain();
    }
    ReplaceAllKeeps(x, WindowExport, 0, LiteralSafe);
    assert ExposeComponent(x) == ReplaceAll(x, WindowExport, 0);
  }

  lemma WindowIsPlain()
    ensures PlainForLiteral("window.")
  {
  }

  // ---------------------------------------------------------------------------------------
  // buildSrcDoc

  /** doc opens with head and ends with tail. */
  predicate Framed(doc: string, head: string, tail: string) {
    StartsAt(doc, 0, head) && EndsWith(doc, tail)
  }

  /** doc opens with head and ends with tail, and the template literal read from the end of
      head holds exactly x and closes where tail starts. */
  predicate ReadsBack(doc: string, head: string, tail: string, x: string) {
    StartsAt(doc, 0, head) && EndsWith(doc, tail)
    && CookTemplate(doc, |head|) == Some(Cooked(x, |doc| - |tail|))
  }

  /** The code, rewritten and escaped, between a head and a tail that opens with the closing
      backtick: the literal, read from the end of the head, holds exactly the rewritten code
      and closes at the tail. */
  function EmbedInPage(head: string, code: string, tail: string): (doc: string)
    requires |tail| > 0 && tail[0] == '`'
    ensures ReadsBack(doc, head, tail, ExposeComponent(code))
  {
    var x := ExposeComponent(code);
    EscapedBetween(head, x, tail);
    head + EscapeTemplate(x) + tail
  }

  /** Any text, escaped and framed by a tail that opens with a backtick, reads back as
      itself. */
  lemma EscapedBetween(head: string, x: string, tail: string)
    requires |tail| > 0 && tail[0] == '`'
    ensures ReadsBack(head + EscapeTemplate(x) + tail, head, tail, x)
  {
    var e := EscapeTemplate(x);
    FrameParts(head, e, tail);
    EscapedReadsBack(head + e + tail, head, tail, x);
  }

  // The read-back of a text already known to hold the escaped body between head and tail.
  lemma EscapedReadsBack(doc: string, head: string, tail: string, x: string)
    requires StartsAt(doc, 0, head) && EndsWith(doc, tail) && |tail| > 0 && tail[0] == '`'
    requires StartsAt(doc, |head|, EscapeTemplate(x))
    requires |head| + |EscapeTemplate(x)| == |doc| - |tail|
    requires doc[|head| + |EscapeTemplate(x)|] == tail[0]
    ensures ReadsBack(doc, head, tail, x)
  {
    CookEscaped(doc, |head|, x);
  }

  // Where the head, the body and the tail of a framed text sit.
  lemma FrameParts(head: string, body: string, tail: string)
    requires |tail| > 0
    ensures var doc := head + body + tail;
      StartsAt(doc, 0, head) && EndsWith(doc, tail) && StartsAt(doc, |head|, body)
      && |head| + |body| < |doc| && doc[|head| + |body|] == tail[0]
  {
    var doc := head + body + tail;
    Framing(head, body, tail);
    assert doc[0..] == doc;
    assert doc[|head| + |body|..][0] == tail[0];
  }

  /** buildSrcDoc. Read by the page's script, the literal `codeWithoutExport` holds exactly the
      normalized code with its default export turned into a global, and closes at the backtick
      that starts the tail. */
  function BuildSrcDoc(code: string, theme: Theme): (doc: string)
    ensures ReadsBack(doc, PageHead(theme), PageTail(theme), ExposeComponent(NormalizeCode(code)))
  {
    TailOpensWithBacktick(theme);
    EmbedInPage(PageHead(theme), NormalizeCode(code), PageTail(theme))
  }

  /** buildSrcDoc as the source writes it: backticks escaped, then the export rewrite. */
  function BuildSrcDocAsWritten(code: string, theme: Theme): (doc: string)
    ensures Framed(doc, PageHead(theme), PageTail(theme))
  {
    Enclose(PageHead(theme), EmbedAsWritten(NormalizeCode(code)), PageTail(theme))
  }

  /** On normalized code with no backslash, backtick, `$` or carriage return, the page as
      written and the page with full escaping are the same text, so the as-written page's
      literal also reads back as the code with its export exposed. */
  lemma AsWrittenAgrees(code: string, theme: Theme)
    requires PlainForLiteral(NormalizeCode(code))
    ensures BuildSrcDocAsWritten(code, theme) == BuildSrcDoc(code, theme)
  {
    var x := NormalizeCode(code);
    forall j | 0 <= j < |x|
      ensures !Hit(Backtick, x, j)
    {
      assert LiteralSafe(x[j]);
    }
    ReplaceAllWithoutHit(x, Backtick, 0);
    assert x[0..] == x;
    ExposeKeepsPlain(x);
    PlainUnescaped(ExposeComponent(x));
  }

  /** Whatever the code, the component page declares the fixed five-directive policy right
      after its opening lines. */
  lemma PagePolicyFixed(code: string, theme: Theme)
    ensures StartsAt(BuildSrcDoc(code, theme), |DocStart|, CspMeta(PageDirectives))
  {
    var f := SourceFrame(theme);
    PageHeadPolicy(theme);
    EmbeddedAfterHead(f.head, NormalizeCode(code), f.tail);
    PolicyAfterStart(DocStart, CspMeta(PageDirectives), f.head, BuildSrcDoc(code, theme));
  }

  // The component page's head opens with the start and the policy.
  lemma PageHeadPolicy(theme: Theme)
    ensures DocStart + CspMeta(PageDirectives) <= PageHead(theme)
  {
    var front := DocStart + CspMeta(PageDirectives);
    Framing(front, PageStartRest(theme), "`");
  }

  // A page built around a head opens with it.
  lemma EmbeddedAfterHead(head: string, code: string, tail: string)
    requires |tail| > 0 && tail[0] == '`'
    ensures head <= EmbedInPage(head, code, tail)
  {
    var doc := EmbedInPage(head, code, tail);
    assert StartsAt(doc, 0, head);
    assert doc[0..] == doc;
  }

  // What follows a start in a head follows it in every text the head opens.
  lemma PolicyAfterStart(start: string, policy: string, head: string, doc: string)
    requires start + policy <= head && head <= doc
    ensures StartsAt(doc, |start|, policy)
  {
    PrefixTransitive(start + policy, head, doc);
    PrefixAfter(start, policy, doc);
  }

  /** The fixed text of a page around the part that varies: everything before it and
      everything after it. Both depend only on the design tokens. */
  datatype Frame = Frame(head: string, tail: string)

  /** The component page around the code: its tail opens with the literal's closing
      backtick. */
  function SourceFrame(theme: Theme): (f: Frame)
    ensures |f.tail| > 0 && f.tail[0] == '`'
  {
    TailOpensWithBacktick(theme);
    Frame(PageHead(theme), PageTail(theme))
  }

  // ---------------------------------------------------------------------------------------
  // buildErrorSrcDoc

  /** `.replace(/</g, "&lt;").replace(/>/g, "&gt;")`. The first replacement's text holds no
      `>`, so the two passes come to one pass over the characters. */
  function EscapeAngles(x: string): (r: string)
    ensures '<' !in r && '>' !in r
  {
    if x == [] then []
    else
      var h := if x[0] == '<' then "&lt;" else if x[0] == '>' then "&gt;" else [x[0]];
      var r := EscapeAngles(x[1..]);
      assert forall k :: 0 <= k < |h + r| ==> (h + r)[k] in h || (h + r)[k] in r;
      h + r
  }

  /** The reading of the two entities back. */
  function DecodeAngles(y: string): string
    decreases |y|
  {
    if y == [] then []
    else if StartsAt(y, 0, "&lt;") then "<" + DecodeAngles(y[4..])
    else if StartsAt(y, 0, "&gt;") then ">" + DecodeAngles(y[4..])
    else [y[0]] + DecodeAngles(y[1..])
  }

  /** A message without `&` is shown as it is. */
  lemma {:induction false} AnglesRoundTrip(x: string)
    requires '&' !in x
    ensures DecodeAngles(EscapeAngles(x)) == x
    decreases |x|
  {
    if x != [] {
      assert x[0] in x && x[0] != '&';
      assert forall k :: 0 <= k < |x[1..]| ==> x[1..][k] in x;
      AnglesRoundTrip(x[1..]);
      DecodeStep(x[0], EscapeAngles(x[1..]));
      assert [x[0]] + x[1..] == x;
    }
  }

  /** Decoding the escape of one character gives the character back. */
  lemma DecodeStep(c: char, r: string)
    requires c != '&'
    ensures var h := if c == '<' then "&lt;" else if c == '>' then "&gt;" else [c];
      DecodeAngles(h + r) == [c] + DecodeAngles(r)
  {
    var h := if c == '<' then "&lt;" else if c == '>' then "&gt;" else [c];
    var y := h + r;
    assert y[|h|..] == r;
    if c == '<' || c == '>' {
      assert y[..4] == h;
      if c == '>' {
        assert y[1] == 'g';
        NotPrefix(y, "&lt;", 1);
      }
    } else {
      assert y[0] == c;
      NotPrefix(y, "&lt;", 0);
      NotPrefix(y, "&gt;", 0);
    }
  }

  /** The error page up to the message: its policy, its style sheet and the opening of the
      `pre` the message is shown in. */
  function ErrorPageRest(theme: Theme): string {
    "<title>Error</title>\n<style>" + theme.errorStyle
    + "</style>\n</head>\n<body>\n<div class=\"error-container\">\n<h2>⚠️ 프리뷰 오류</h2>\n<pre>"
  }

  function ErrorPageHead(theme: Theme): string {
    DocStart + CspMeta(ErrorDirectives) + ErrorPageRest(theme)
  }

  const ErrorPageTail: string := "</pre>\n</div>\n</body>\n</html>"

  /** A text that differs from a literal at position k does not start with it. */
  lemma NotPrefix(d: string, lit: string, k: nat)
    requires k < |d| && k < |lit| && d[k] != lit[k]
    ensures !StartsAt(d, 0, lit)
  {
    if |lit| <= |d| {
      assert d[0..][..|lit|][k] == d[k];
    }
  }

  /** The error page's policy names no script source, and its default source is 'none': the
      page runs no script. */
  lemma ErrorPolicyRunsNoScript()
    ensures forall d :: d in ErrorDirectives ==> !StartsAt(d, 0, "script-src")
    ensures ErrorDirectives[0] == "default-src 'none'"
  {
    NotPrefix(ErrorDirectives[0], "script-src", 0);
    NotPrefix(ErrorDirectives[1], "script-src", 1);
    NotPrefix(ErrorDirectives[2], "script-src", 0);
  }

  /** doc is head, a shown text and tail: the shown text holds no angle bracket and, when the
      message has no `&`, decodes back to the message. */
  predicate ShowsMessage(doc: string, head: string, tail: string, message: string) {
    StartsAt(doc, 0, head) && EndsWith(doc, tail) && |doc| >= |head| + |tail|
    && var m := doc[|head|..|doc| - |tail|];
    '<' !in m && '>' !in m && ('&' !in message ==> DecodeAngles(m) == message)
  }

  /** A message between a head and a tail, its angle brackets escaped: the shown text cannot
      open a tag, and a message without `&` reads back as itself. */
  function ShowMessage(head: string, error: string, tail: string): (doc: string)
    ensures ShowsMessage(doc, head, tail, error)
  {
    var m := EscapeAngles(error);
    var doc := head + m + tail;
    assert doc[..|head|] == head;
    assert doc[|doc| - |tail|..] == tail;
    assert doc[|head|..|doc| - |tail|] == m;
    if '&' !in error then
      AnglesRoundTrip(error);
      doc
    else doc
  }

  /** buildErrorSrcDoc: the error page, with the message shown as above. */
  function BuildErrorSrcDoc(error: string, theme: Theme): (doc: string)
    ensures ShowsMessage(doc, ErrorPageHead(theme), ErrorPageTail, error)
  {
    ShowMessage(ErrorPageHead(theme), error, ErrorPageTail)
  }

  /** Whatever the message, the error page declares its script-free policy right after its
      opening lines. */
  lemma ErrorPolicyFixed(error: string, theme: Theme)
    ensures StartsAt(BuildErrorSrcDoc(error, theme), |DocStart|, CspMeta(ErrorDirectives))
  {
    var f := ErrorFrame(theme);
    assert DocStart + CspMeta(ErrorDirectives) <= f.head;
    MessageAfterHead(f.head, error, f.tail);
    PolicyAfterStart(DocStart, CspMeta(ErrorDirectives), f.head, BuildErrorSrcDoc(error, theme));
  }

  // An error page built around a head opens with it.
  lemma MessageAfterHead(head: string, error: string, tail: string)
    ensures head <= ShowMessage(head, error, tail)
  {
    var doc := ShowMessage(head, error, tail);
    assert StartsAt(doc, 0, head);
    assert doc[0..] == doc;
  }

  /** The error page around the message. */
  function ErrorFrame(theme: Theme): Frame {
    Frame(ErrorPageHead(theme), ErrorPageTail)
  }
}
