/** lib/sandbox-template.ts: `normalizeCode`, the clean-up of generated code before Babel sees
    it in the isolated page, and the two `srcDoc` documents the sandbox host shows. */
module SandboxTemplate {
  import opened Wrappers
  import opened Text
  import opened Scan
  import opened Patterns

  // ---------------------------------------------------------------------------------------
  // /\(([a-zA-Z_$][\w$]*)\s*:\s*([a-zA-Z_$][\w$<>[\]|&\s]*)\)/g, guarded by the callback

  /** `[\w$<>[\]|&\s]`, the characters a type name continues with. */
  predicate IsTypeNameChar(c: char) {
    IsIdentChar(c) || c == '<' || c == '>' || c == '[' || c == ']' || c == '|' || c == '&'
    || IsSpace(c)
  }

  /** `[\w<>[\]|&\s]`, the type class of the arrow, declaration and array patterns: unlike the
      parameter pattern's class above, it has no `$`. */
  predicate IsDeclTypeChar(c: char) {
    IsWordChar(c) || c == '<' || c == '>' || c == '[' || c == ']' || c == '|' || c == '&'
    || IsSpace(c)
  }

  const Primitives: seq<string> :=
    ["string", "number", "boolean", "any", "void", "unknown", "never", "object"]

  /** The callback's test: the annotation starts with a capital, or, trimmed, is one of the
      primitive type keywords. Anything else is taken for the branch of a conditional. */
  predicate LooksLikeType(typeName: string) {
    (|typeName| > 0 && IsUpper(typeName[0])) || Among(Trim(typeName), Primitives)
  }

  /** `words.includes(w)`, one word at a time. */
  predicate Among(w: string, words: seq<string>) {
    |words| > 0 && (words[0] == w || Among(w, words[1..]))
  }

  /** Where the pieces of an annotated name lie: the name ends at n, the annotation runs from t
      to e. */
  datatype Annotated = Annotated(n: nat, t: nat, e: nat)

  /** `(name : type)` at i: the name from i + 1 to n, the type from t to the parenthesis at e.
      Each run is greedy, and giving characters back never helps: a shorter name is followed
      by a name character, a shorter type by a type character, neither of which is `:` or `)`. */
  function ParenAnnotation(s: string, i: nat): (r: Option<Annotated>)
    ensures r.Some? ==> i + 1 < r.value.n < r.value.t < r.value.e < |s|
    ensures r.Some? ==> s[i] == '(' && s[r.value.e] == ')'
  {
    if !(i + 1 < |s| && s[i] == '(' && IsIdentStart(s[i + 1])) then None
    else
      var n := Span(s, i + 2, IsIdentChar);
      var c := SkipSpaces(s, n);
      if c == |s| || s[c] != ':' then None
      else
        var t := SkipSpaces(s, c + 1);
        if t == |s| || !IsIdentStart(s[t]) then None
        else
          var e := Span(s, t + 1, IsTypeNameChar);
          if e == |s| || s[e] != ')' then None else Some(Annotated(n, t, e))
  }

  /** The replacer of lines 34-42: `(name)` for a type, the whole match otherwise. */
  function ParamCallback(whole: string, name: string, typeName: string): string {
    if LooksLikeType(typeName) then "(" + name + ")" else whole
  }

  function ParamMatch(s: string, i: nat, h: Annotated): (r: Match)
    requires i + 1 < h.n < h.t < h.e < |s|
    ensures r.end == h.e + 1
    ensures r.replacement == ParamCallback(s[i..h.e + 1], s[i + 1..h.n], s[h.t..h.e])
  {
    Match(h.e + 1, ParamCallback(s[i..h.e + 1], s[i + 1..h.n], s[h.t..h.e]))
  }

  function TypedParam(s: string, i: nat): Option<Match> {
    match ParenAnnotation(s, i)
    case None => None
    case Some(h) => Some(ParamMatch(s, i, h))
  }

  /** A name the pattern's `[a-zA-Z_$][\w$]*` takes whole. */
  predicate Identifier(w: string) {
    |w| > 0 && IsIdentStart(w[0]) && forall k :: 0 <= k < |w| ==> IsIdentChar(w[k])
  }

  /** A type the pattern takes whole: it starts like a name and goes on in type-name
      characters. */
  predicate TypeWord(w: string) {
    |w| > 0 && IsIdentStart(w[0]) && forall k :: 0 <= k < |w| ==> IsTypeNameChar(w[k])
  }

  /** `(name: type)` with a plain name and a type made of type-name characters is one match,
      from the parenthesis to the parenthesis. */
  lemma ParenAnnotationShape(name: string, typ: string, rest: string)
    requires Identifier(name)
    requires TypeWord(typ)
    ensures var s := "(" + name + ": " + typ + ")" + rest;
      ParenAnnotation(s, 0) == Some(Annotated(1 + |name|, 3 + |name|, 3 + |name| + |typ|))
  {
    var s := "(" + name + ": " + typ + ")" + rest;
    var n := 1 + |name|;
    var e := n + 2 + |typ|;
    assert s[0] == '(' && s[n] == ':' && s[n + 1] == ' ' && s[e] == ')';
    forall j | 1 <= j < n
      ensures IsIdentChar(s[j])
    {
      assert s[j] == name[j - 1];
    }
    forall j | n + 2 <= j < e
      ensures IsTypeNameChar(s[j])
    {
      assert s[j] == typ[j - n - 2];
    }
    assert s[1] == name[0] && s[n + 2] == typ[0];
    ParenRuns(s, n, e);
  }

  // `(name: type)` at the start of s, given character by character.
  lemma ParenRuns(s: string, n: nat, e: nat)
    requires 2 <= n && n + 2 < e < |s|
    requires s[0] == '(' && IsIdentStart(s[1]) && forall j :: 1 <= j < n ==> IsIdentChar(s[j])
    requires s[n] == ':' && s[n + 1] == ' ' && s[e] == ')'
    requires IsIdentStart(s[n + 2]) && forall j :: n + 2 <= j < e ==> IsTypeNameChar(s[j])
    ensures ParenAnnotation(s, 0) == Some(Annotated(n, n + 2, e))
  {
    SpanIs(s, 2, IsIdentChar, n);
    NoSpaceAt(s, n);
    SingleSpaceAt(s, n + 1);
    SpanIs(s, n + 3, IsTypeNameChar, e);
  }

  /** Where the name and the type sit in `(name: type)rest`. */
  lemma ParenSlices(name: string, typ: string, rest: string)
    ensures var s := "(" + name + ": " + typ + ")" + rest;
      3 + |name| + |typ| < |s|
      && s[1..1 + |name|] == name && s[3 + |name|..3 + |name| + |typ|] == typ
  {
    var s := "(" + name + ": " + typ + ")" + rest;
    assert s == "(" + (name + (": " + (typ + (")" + rest))));
  }

  /** s opens with `(name: typ)`: the match is that text, the name ends at n, the type runs from
      t to e. */
  lemma ParenAt(s: string, name: string, typ: string)
    requires Identifier(name) && TypeWord(typ)
    requires StartsAt(s, 0, "(" + name + ": " + typ + ")")
    ensures var h := Annotated(1 + |name|, 3 + |name|, 3 + |name| + |typ|);
      ParenAnnotation(s, 0) == Some(h) && s[h.t..h.e] == typ && s[1..h.n] == name
      && s[..h.e + 1] == "(" + name + ": " + typ + ")"
  {
    var p := "(" + name + ": " + typ + ")";
    var rest := s[|p|..];
    assert s == p + rest;
    ParenAnnotationShape(name, typ, rest);
    ParenSlices(name, typ, rest);
  }

  /** A parameter annotated with a type loses the annotation: `(item: Product)` becomes
      `(item)`, and `(n: number)` becomes `(n)`. */
  lemma ParamTypeStripped(s: string, name: string, typ: string)
    requires Identifier(name) && TypeWord(typ) && LooksLikeType(typ)
    requires StartsAt(s, 0, "(" + name + ": " + typ + ")")
    ensures TypedParam(s, 0) == Some(Match(4 + |name| + |typ|, "(" + name + ")"))
  {
    var h := Annotated(1 + |name|, 3 + |name|, 3 + |name| + |typ|);
    assert ParenAnnotation(s, 0) == Some(h) && s[1..h.n] == name && s[h.t..h.e] == typ by {
      ParenAt(s, name, typ);
    }
    StrippedWhenType(s, h, name, typ);
    assert h.e + 1 == 4 + |name| + |typ|;
  }

  // A match whose annotation is no type is replaced by its own text.
  lemma KeptWhenNotType(s: string, h: Annotated, value: string, text: string)
    requires ParenAnnotation(s, 0) == Some(h)
    requires s[h.t..h.e] == value && !LooksLikeType(value) && s[..h.e + 1] == text
    ensures TypedParam(s, 0) == Some(Match(|text|, text))
  {
    assert s[0..h.e + 1] == s[..h.e + 1];
  }

  // A match whose annotation is a type is replaced by the parenthesised name.
  lemma StrippedWhenType(s: string, h: Annotated, name: string, typ: string)
    requires ParenAnnotation(s, 0) == Some(h)
    requires s[1..h.n] == name && s[h.t..h.e] == typ && LooksLikeType(typ)
    ensures TypedParam(s, 0) == Some(Match(h.e + 1, "(" + name + ")"))
  {
    assert ParamCallback(s[0..h.e + 1], name, typ) == "(" + name + ")";
    assert ParamMatch(s, 0, h) == Match(h.e + 1, "(" + name + ")");
  }

  /** A parenthesised `name: value` whose value neither starts with a capital nor is a type
      keyword is left exactly as it was, so `(ok: fallback)` keeps its colon. */
  lemma NonTypeAnnotationKept(s: string, name: string, value: string)
    requires Identifier(name) && TypeWord(value) && !LooksLikeType(value)
    requires StartsAt(s, 0, "(" + name + ": " + value + ")")
    ensures var text := "(" + name + ": " + value + ")";
      TypedParam(s, 0) == Some(Match(|text|, text))
  {
    var h := Annotated(1 + |name|, 3 + |name|, 3 + |name| + |value|);
    var text := "(" + name + ": " + value + ")";
    assert ParenAnnotation(s, 0) == Some(h) && s[h.t..h.e] == value && s[..h.e + 1] == text by {
      ParenAt(s, name, value);
    }
    KeptWhenNotType(s, h, value, text);
  }

  // ---------------------------------------------------------------------------------------
  // /\b([a-zA-Z_$][\w$]*)\s*:\s*([A-Z][\w<>[\]|&\s]*)\s*=>/g

  /** `name : Type =>` at a word boundary i: the name from i to n, the type from t to e, where
      `=>` follows. The type run takes the blanks before the arrow itself (they are type-name
      characters), and `=` is not one, so the arrow must sit exactly where the run stops. */
  function ArrowAnnotation(s: string, i: nat): (r: Option<Annotated>)
    ensures r.Some? ==> i < r.value.n < r.value.t < r.value.e && r.value.e + 2 <= |s|
    ensures r.Some? ==> IsUpper(s[r.value.t]) && StartsAt(s, r.value.e, "=>")
  {
    if !(i < |s| && WordBoundary(s, i) && IsIdentStart(s[i])) then None
    else
      var n := Span(s, i + 1, IsIdentChar);
      var c := SkipSpaces(s, n);
      if c == |s| || s[c] != ':' then None
      else
        var t := SkipSpaces(s, c + 1);
        if t == |s| || !IsUpper(s[t]) then None
        else
          var e := Span(s, t + 1, IsDeclTypeChar);
          if StartsAt(s, e, "=>") then Some(Annotated(n, t, e)) else None
  }

  /** The replacer of lines 50-57: `name =>` when the type starts with a capital. */
  function ArrowCallback(whole: string, name: string, typeName: string): string {
    if |typeName| > 0 && IsUpper(typeName[0]) then name + " =>" else whole
  }

  function ArrowMatch(s: string, i: nat, h: Annotated): (r: Match)
    requires i < h.n < h.t < h.e && h.e + 2 <= |s|
    ensures r.end == h.e + 2
    ensures r.replacement == ArrowCallback(s[i..h.e + 2], s[i..h.n], s[h.t..h.e])
  {
    Match(h.e + 2, ArrowCallback(s[i..h.e + 2], s[i..h.n], s[h.t..h.e]))
  }

  /** The pass at lines 48-58. The callback's guard always holds, because the pattern itself
      demands a capital: every match becomes `name =>`. */
  function ArrowParam(s: string, i: nat): (r: Option<Match>)
    ensures r.Some? <==> ArrowAnnotation(s, i).Some?
    ensures r.Some? ==> r.value.end == ArrowAnnotation(s, i).value.e + 2
    ensures r.Some? ==> r.value.replacement == s[i..ArrowAnnotation(s, i).value.n] + " =>"
  {
    match ArrowAnnotation(s, i)
    case None => None
    case Some(h) => Some(ArrowMatch(s, i, h))
  }

  // ---------------------------------------------------------------------------------------
  // /\b(const|let|var)\s+(\w+)\s*:\s*([A-Z][\w<>[\]|&\s]*)\s*=/g         ->  '$1 $2 ='
  // /\b(const|let|var)\s+(\w+)\s*:\s*([A-Z][\w<>[\]|&\s]+\[\])\s*=/g     ->  '$1 $2 ='

  const Declarators: seq<string> := ["const", "let", "var"]

  /** An annotated declaration at i: the keyword, the name from b to n, the type from t to the
      end e of the greedy type run. */
  datatype Declaration = Declaration(keyword: string, b: nat, n: nat, t: nat, e: nat)

  function DeclAnnotation(s: string, i: nat): (r: Option<Declaration>)
    ensures r.Some? ==> r.value.keyword in Declarators && StartsAt(s, i, r.value.keyword)
    ensures r.Some? ==> i + |r.value.keyword| < r.value.b < r.value.n < r.value.t < r.value.e <= |s|
    ensures r.Some? ==> IsUpper(s[r.value.t])
  {
    if !(i <= |s| && WordBoundary(s, i)) then None
    else
      match FirstWordAt(s, i, Declarators)
      case None => None
      case Some(keyword) => DeclAfter(s, keyword, i + |keyword|)
  }

  /** The rest of an annotated declaration, after the keyword ending at k. */
  function DeclAfter(s: string, keyword: string, k: nat): (r: Option<Declaration>)
    requires k <= |s|
    ensures r.Some? ==> r.value.keyword == keyword
    ensures r.Some? ==> k < r.value.b < r.value.n < r.value.t < r.value.e <= |s|
    ensures r.Some? ==> IsUpper(s[r.value.t])
  {
    var b := SkipSpaces(s, k);
    if b == k then None
    else
      var n := Span(s, b, IsWordChar);
      if n == b then None
      else
        var c := SkipSpaces(s, n);
        if c == |s| || s[c] != ':' then None
        else
          var t := SkipSpaces(s, c + 1);
          if t == |s| || !IsUpper(s[t]) then None
          else Some(Declaration(keyword, b, n, t, Span(s, t + 1, IsDeclTypeChar)))
  }

  /** `$1 $2 =`: the keyword, one space, the name, ` =`. */
  function DeclMatch(s: string, d: Declaration): (r: Match)
    requires d.b <= d.n <= |s|
    ensures r.end == d.e + 1
    ensures r.replacement == d.keyword + " " + s[d.b..d.n] + " ="
  {
    Match(d.e + 1, d.keyword + " " + s[d.b..d.n] + " =")
  }

  /** The pass at lines 62-65: the type run cannot contain `=`, so `\s*=` matches only where the
      run stops. */
  function TypedDeclaration(s: string, i: nat): Option<Match> {
    match DeclAnnotation(s, i)
    case None => None
    case Some(d) => if d.e < |s| && s[d.e] == '=' then Some(DeclMatch(s, d)) else None
  }

  /** The run of the array pattern must end in `[]` followed by blanks only, and `[]` must leave
      at least one type character after the capital. Backtracking can only stop the run
      where its trailing blanks begin: `]` is not a blank, and `=` is not a type character. */
  predicate EndsInArraySuffix(s: string, d: Declaration)
    requires d.t < d.e <= |s|
  {
    var k := SpanBack(s, d.t, d.e, IsSpace);
    k >= d.t + 4 && s[k - 2] == '[' && s[k - 1] == ']'
  }

  /** The pass at lines 68-71. */
  function ArrayTypedDeclaration(s: string, i: nat): Option<Match> {
    match DeclAnnotation(s, i)
    case None => None
    case Some(d) =>
      if d.e < |s| && s[d.e] == '=' && EndsInArraySuffix(s, d) then Some(DeclMatch(s, d)) else None
  }

  /** Whatever the array pattern matches, the general pattern matches the same way: on its own,
      the second pass rewrites nothing the first would have left. */
  lemma ArrayPassWithinGeneralPass(s: string, i: nat)
    requires ArrayTypedDeclaration(s, i).Some?
    ensures TypedDeclaration(s, i) == ArrayTypedDeclaration(s, i)
  {
  }

  /** The keywords differ in their first letter, so the one that starts the text is the one
      the alternation picks. */
  lemma DeclaratorAt(s: string, k: nat)
    requires k < 3 && StartsAt(s, 0, Declarators[k])
    ensures FirstWordAt(s, 0, Declarators) == Some(Declarators[k])
  {
    assert Declarators[0][0] == 'c' && Declarators[1][0] == 'l' && Declarators[2][0] == 'v';
    assert s[0] == Declarators[k][0];
    if k > 0 {
      assert !StartsAt(s, 0, Declarators[0]);
      assert FirstWordAt(s, 0, Declarators) == FirstWordAt(s, 0, Declarators[1..]);
      if k > 1 {
        assert !StartsAt(s, 0, Declarators[1]);
        assert FirstWordAt(s, 0, Declarators[1..]) == FirstWordAt(s, 0, Declarators[2..]);
      }
    }
  }

  // The character facts of `kw name: Type` followed by the text stop and the rest.
  lemma DeclarationText(kw: string, name: string, typ: string, stop: string, rest: string)
    requires |name| > 0 && forall j :: 0 <= j < |name| ==> IsWordChar(name[j])
    requires |typ| > 0 && IsUpper(typ[0]) && forall j :: 0 <= j < |typ| ==> IsDeclTypeChar(typ[j])
    requires |stop| > 0
    ensures var s := kw + " " + name + ": " + typ + stop + rest;
      var b := |kw| + 1;
      var n := b + |name|;
      var e := n + 2 + |typ|;
      && b < n && n + 2 < e < |s|
      && s[..b - 1] == kw && s[b - 1] == ' ' && s[n] == ':' && s[n + 1] == ' '
      && (forall j :: b <= j < n ==> IsWordChar(s[j]))
      && IsUpper(s[n + 2]) && (forall j :: n + 2 <= j < e ==> IsDeclTypeChar(s[j]))
      && s[e] == stop[0] && s[b..n] == name
  {
    var head := kw + " " + name;
    var tail := ": " + typ + stop + rest;
    var s := kw + " " + name + ": " + typ + stop + rest;
    var b := |kw| + 1;
    var n := b + |name|;
    var e := n + 2 + |typ|;
    assert s == head + tail;
    assert s[..b - 1] == kw by {
      assert s[..b - 1] == head[..b - 1];
    }
    forall j | b <= j < n
      ensures IsWordChar(s[j])
    {
      assert s[j] == head[j] == name[j - b];
    }
    forall j | n + 2 <= j < e
      ensures IsDeclTypeChar(s[j])
    {
      assert s[j] == tail[j - n] == typ[j - n - 2];
    }
    assert s[n + 2] == typ[0];
    assert s[b..n] == head[b..n];
  }

  // The annotation of `kw name: Type` ends at the first character outside the type class.
  lemma DeclAnnotationAt(s: string, k: nat, b: nat, n: nat, e: nat)
    requires k < 3 && b == |Declarators[k]| + 1 && b < n && n + 2 < e < |s|
    requires s[..b - 1] == Declarators[k] && s[b - 1] == ' ' && s[n] == ':' && s[n + 1] == ' '
    requires forall j :: b <= j < n ==> IsWordChar(s[j])
    requires IsUpper(s[n + 2]) && forall j :: n + 2 <= j < e ==> IsDeclTypeChar(s[j])
    requires !IsDeclTypeChar(s[e])
    ensures DeclAnnotation(s, 0) == Some(Declaration(Declarators[k], b, n, n + 2, e))
  {
    var kw := Declarators[k];
    assert FirstWordAt(s, 0, Declarators) == Some(kw) by {
      assert StartsAt(s, 0, kw);
      DeclaratorAt(s, k);
    }
    NameRuns(s, b, n);
    TypeRuns(s, n, e);
    DeclAnnotationIs(s, kw, b, n, n + 2, e);
  }

  // The runs of `kw name:`: one blank, the name, no blank before the colon.
  lemma NameRuns(s: string, b: nat, n: nat)
    requires 1 <= b < n < |s| && s[b - 1] == ' ' && s[n] == ':'
    requires forall j :: b <= j < n ==> IsWordChar(s[j])
    ensures SkipSpaces(s, b - 1) == b && Span(s, b, IsWordChar) == n && SkipSpaces(s, n) == n
  {
    assert !IsSpace(s[b]) by {
      assert IsWordChar(s[b]);
    }
    SingleSpaceAt(s, b - 1);
    SpanIs(s, b, IsWordChar, n);
    NoSpaceAt(s, n);
  }

  // The runs of `: Type`: one blank, then the type up to the first character outside its class.
  lemma TypeRuns(s: string, n: nat, e: nat)
    requires n + 2 < e < |s| && s[n + 1] == ' ' && !IsDeclTypeChar(s[e])
    requires IsUpper(s[n + 2]) && forall j :: n + 2 <= j < e ==> IsDeclTypeChar(s[j])
    ensures SkipSpaces(s, n + 1) == n + 2 && Span(s, n + 3, IsDeclTypeChar) == e
  {
    SingleSpaceAt(s, n + 1);
    SpanIs(s, n + 3, IsDeclTypeChar, e);
  }

  lemma DeclAnnotationIs(s: string, kw: string, b: nat, n: nat, t: nat, e: nat)
    requires FirstWordAt(s, 0, Declarators) == Some(kw)
    requires |kw| < b && SkipSpaces(s, |kw|) == b && b < n && Span(s, b, IsWordChar) == n
    requires n < |s| && SkipSpaces(s, n) == n && s[n] == ':'
    requires SkipSpaces(s, n + 1) == t && t < |s| && IsUpper(s[t]) && Span(s, t + 1, IsDeclTypeChar) == e
    ensures DeclAnnotation(s, 0) == Some(Declaration(kw, b, n, t, e))
  {
    DeclaratorOpensWord(s, kw);
    DeclAfterIs(s, kw, b, n, t, e);
  }

  lemma DeclAfterIs(s: string, kw: string, b: nat, n: nat, t: nat, e: nat)
    requires |kw| < b < n < |s|
    requires SkipSpaces(s, |kw|) == b && Span(s, b, IsWordChar) == n
    requires SkipSpaces(s, n) == n && s[n] == ':'
    requires SkipSpaces(s, n + 1) == t && t < |s| && IsUpper(s[t]) && Span(s, t + 1, IsDeclTypeChar) == e
    ensures DeclAfter(s, kw, |kw|) == Some(Declaration(kw, b, n, t, e))
  {
  }

  // Every declaration keyword starts with a letter, so one at the start is at a word boundary.
  lemma DeclaratorOpensWord(s: string, kw: string)
    requires kw in Declarators && StartsAt(s, 0, kw)
    ensures WordBoundary(s, 0)
  {
    assert s[0] == kw[0];
  }

  /** A capitalised annotation on a declaration is dropped and the keyword kept:
      `let items: Item[] = …` becomes `let items = …`. */
  lemma DeclarationTypeDropped(k: nat, name: string, typ: string, rest: string)
    requires k < 3
    requires |name| > 0 && forall j :: 0 <= j < |name| ==> IsWordChar(name[j])
    requires |typ| > 0 && IsUpper(typ[0]) && forall j :: 0 <= j < |typ| ==> IsDeclTypeChar(typ[j])
    ensures var s := Declarators[k] + " " + name + ": " + typ + "=" + rest;
      TypedDeclaration(s, 0)
      == Some(Match(|Declarators[k]| + |name| + |typ| + 4, Declarators[k] + " " + name + " ="))
  {
    var kw := Declarators[k];
    var s := kw + " " + name + ": " + typ + "=" + rest;
    var b := |kw| + 1;
    var n := b + |name|;
    var e := n + 2 + |typ|;
    DeclarationText(kw, name, typ, "=", rest);
    DeclAnnotationAt(s, k, b, n, e);
    DeclarationMatched(s, Declaration(kw, b, n, n + 2, e));
  }

  /** `$` is outside the declaration patterns' type class: a capitalised type followed by `$`
      is matched by neither pass, so `const x: Foo$ = 1` is left as it is. */
  lemma DollarTypeKeepsDeclaration(k: nat, name: string, typ: string, rest: string)
    requires k < 3
    requires |name| > 0 && forall j :: 0 <= j < |name| ==> IsWordChar(name[j])
    requires |typ| > 0 && IsUpper(typ[0]) && forall j :: 0 <= j < |typ| ==> IsDeclTypeChar(typ[j])
    ensures var s := Declarators[k] + " " + name + ": " + typ + "$" + rest;
      TypedDeclaration(s, 0) == None && ArrayTypedDeclaration(s, 0) == None
  {
    var kw := Declarators[k];
    DeclarationText(kw, name, typ, "$", rest);
    var s := kw + " " + name + ": " + typ + "$" + rest;
    DeclAnnotationAt(s, k, |kw| + 1, |kw| + 1 + |name|, |kw| + 3 + |name| + |typ|);
  }

  // The character facts of `name: Type` followed by the text stop and the rest.
  lemma ArrowText(name: string, typ: string, stop: string, rest: string)
    requires |name| > 0 && IsIdentStart(name[0]) && forall j :: 0 <= j < |name| ==> IsWordChar(name[j])
    requires |typ| > 0 && IsUpper(typ[0]) && forall j :: 0 <= j < |typ| ==> IsDeclTypeChar(typ[j])
    requires |stop| > 0
    ensures var s := name + ": " + typ + stop + rest;
      var n := |name|;
      var e := n + 2 + |typ|;
      && 0 < n && n + 2 < e < |s| && s[n] == ':' && s[n + 1] == ' '
      && IsIdentStart(s[0]) && (forall j :: 0 <= j < n ==> IsWordChar(s[j]))
      && IsUpper(s[n + 2]) && (forall j :: n + 2 <= j < e ==> IsDeclTypeChar(s[j]))
      && s[e] == stop[0]
  {
    var tail := ": " + typ + stop + rest;
    var s := name + tail;
    var n := |name|;
    var e := n + 2 + |typ|;
    forall j | 0 <= j < n
      ensures IsWordChar(s[j])
    {
      assert s[j] == name[j];
    }
    forall j | n + 2 <= j < e
      ensures IsDeclTypeChar(s[j])
    {
      assert s[j] == tail[j - n] == typ[j - n - 2];
    }
    assert s[n + 2] == typ[0];
    assert s[e] == tail[e - n];
  }

  // The arrow pattern at the start of `name: Type` finds the type run ending at e.
  lemma ArrowAnnotationAt(s: string, n: nat, e: nat)
    requires 0 < n && n + 2 < e < |s| && s[n] == ':' && s[n + 1] == ' '
    requires IsIdentStart(s[0]) && forall j :: 0 <= j < n ==> IsWordChar(s[j])
    requires IsUpper(s[n + 2]) && forall j :: n + 2 <= j < e ==> IsDeclTypeChar(s[j])
    requires !IsDeclTypeChar(s[e])
    ensures ArrowAnnotation(s, 0) == if StartsAt(s, e, "=>") then Some(Annotated(n, n + 2, e)) else None
  {
    assert IsWordChar(s[0]);
    SpanIs(s, 1, IsIdentChar, n);
    NoSpaceAt(s, n);
    SingleSpaceAt(s, n + 1);
    SpanIs(s, n + 3, IsDeclTypeChar, e);
  }

  /** A capitalised annotation before the arrow is dropped: `item: Product => …` becomes
      `item => …`. */
  lemma ArrowTypeDropped(name: string, typ: string, rest: string)
    requires |name| > 0 && IsIdentStart(name[0]) && forall j :: 0 <= j < |name| ==> IsWordChar(name[j])
    requires |typ| > 0 && IsUpper(typ[0]) && forall j :: 0 <= j < |typ| ==> IsDeclTypeChar(typ[j])
    ensures ArrowParam(name + ": " + typ + "=>" + rest, 0) == Some(Match(|name| + |typ| + 4, name + " =>"))
  {
    ArrowText(name, typ, "=>", rest);
    var s := name + ": " + typ + "=>" + rest;
    var n := |name|;
    var e := n + 2 + |typ|;
    assert StartsAt(s, e, "=>") by {
      assert s[e..e + 2] == "=>";
    }
    ArrowMatched(s, n, e);
    assert s[..n] == name;
  }

  // Where the arrow follows the type run, the pass rewrites the match to `name =>`.
  lemma ArrowMatched(s: string, n: nat, e: nat)
    requires 0 < n && n + 2 < e < |s| && s[n] == ':' && s[n + 1] == ' '
    requires IsIdentStart(s[0]) && forall j :: 0 <= j < n ==> IsWordChar(s[j])
    requires IsUpper(s[n + 2]) && forall j :: n + 2 <= j < e ==> IsDeclTypeChar(s[j])
    requires StartsAt(s, e, "=>")
    ensures ArrowParam(s, 0) == Some(Match(e + 2, s[..n] + " =>"))
  {
    assert !IsDeclTypeChar(s[e]) by {
      assert s[e] == '=';
    }
    ArrowAnnotationAt(s, n, e);
  }

  /** `$` is outside the arrow pattern's type class: a capitalised type followed by `$` is not
      matched, so `x: Foo$ => 1` is left as it is. */
  lemma DollarTypeKeepsArrow(name: string, typ: string, rest: string)
    requires |name| > 0 && IsIdentStart(name[0]) && forall j :: 0 <= j < |name| ==> IsWordChar(name[j])
    requires |typ| > 0 && IsUpper(typ[0]) && forall j :: 0 <= j < |typ| ==> IsDeclTypeChar(typ[j])
    ensures ArrowParam(name + ": " + typ + "$" + rest, 0) == None
  {
    ArrowText(name, typ, "$", rest);
    var s := name + ": " + typ + "$" + rest;
    var e := |name| + 2 + |typ|;
    ArrowAnnotationAt(s, |name|, e);
    assert !StartsAt(s, e, "=>") by {
      assert s[e] == '$';
    }
  }

  lemma DeclarationMatched(s: string, d: Declaration)
    requires DeclAnnotation(s, 0) == Some(d) && d.e < |s| && s[d.e] == '='
    ensures TypedDeclaration(s, 0) == Some(Match(d.e + 1, d.keyword + " " + s[d.b..d.n] + " ="))
  {
  }

  // ---------------------------------------------------------------------------------------
  // /(interface|type)\s+(\w+)\s*(\{[^}]*\})/g, and inside each body
  // /(\w+\??\s*:\s*[^;\n,{}]+)(\n)/g

  const BlockKeywords: seq<string> := ["interface", "type"]

  /** `[^;\n,{}]`, the characters of a field's value. */
  predicate IsFieldValueChar(c: char) {
    c != ';' && c != '\n' && c != ',' && c != '{' && c != '}'
  }

  /** `\s*[class]+\n` from lo, where the greedy blank run ends at v. A class that takes blanks
      other than the newline lets the engine give blanks back, so it tries each start from v
      down to lo and keeps the first whose value run stops at a newline. The result is the
      position of that newline. */
  function ValueLineEnd(s: string, lo: nat, v: nat, p: char -> bool): (f: Option<nat>)
    requires lo <= v <= |s|
    requires forall k :: lo <= k < v ==> IsSpace(s[k])
    ensures f.Some? ==> lo < f.value < |s| && s[f.value] == '\n'
    ensures f.Some? ==> forall k :: lo <= k < f.value ==> IsSpace(s[k]) || p(s[k])
    decreases v
  {
    var f := Span(s, v, p);
    if v < f < |s| && s[f] == '\n' then Some(f)
    else if v == lo then None
    else ValueLineEnd(s, lo, v - 1, p)
  }

  /** A field `name?: value` at j, up to the newline that ends it. */
  function FieldLineEnd(s: string, j: nat): (f: Option<nat>)
    ensures f.Some? ==> j < f.value < |s| && s[f.value] == '\n' && IsWordChar(s[j])
    ensures f.Some? ==> forall k :: j <= k < f.value ==> s[k] != ';' && s[k] != ','
  {
    if !(j < |s| && IsWordChar(s[j])) then None
    else
      var w := Span(s, j + 1, IsWordChar);
      var q := if w < |s| && s[w] == '?' then w + 1 else w;
      var c := SkipSpaces(s, q);
      if c == |s| || s[c] != ':' then None
      else ValueLineEnd(s, c + 1, SkipSpaces(s, c + 1), IsFieldValueChar)
  }

  /** A field whose trimmed text ends in a bracket, a parenthesis or one of `= > <` is left
      open: it continues on the next line. */
  predicate OpenEnded(field: string) {
    var t := Trim(field);
    |t| > 0 && t[|t| - 1] in "{}[]()=><"
  }

  /** The replacer of lines 82-100. */
  function FieldCallback(whole: string, field: string): string {
    var trimmed := Trim(field);
    if EndsWith(trimmed, ";") || EndsWith(trimmed, ",") then whole
    else if |trimmed| > 0 && trimmed[|trimmed| - 1] in "{}[]()" then whole
    else if |trimmed| > 0 && trimmed[|trimmed| - 1] in "=><" then whole
    else field + ";\n"
  }

  /** The field pattern's value cannot hold `;` or `,`, so the callback's first test never
      fires, and what it does depends only on whether the field is left open. */
  lemma FieldCallbackOutcome(whole: string, field: string)
    requires forall k :: 0 <= k < |field| ==> field[k] != ';' && field[k] != ','
    ensures FieldCallback(whole, field) == if OpenEnded(field) then whole else field + ";\n"
  {
    var t := Trim(field);
    var a := TrimStartIndex(field);
    if |t| > 0 {
      assert t[|t| - 1] == field[a + |t| - 1];
      assert t[|t| - 1..] == [t[|t| - 1]];
    }
  }

  /** What the callback makes of the field line from j to the newline at f: the line as it
      was, or the field, a semicolon and the newline. */
  function FieldMatch(s: string, j: nat, f: nat): (r: Match)
    requires j < f < |s|
    ensures r.end == f + 1
    ensures r.replacement == s[j..f + 1] || r.replacement == s[j..f] + ";\n"
  {
    Match(f + 1, FieldCallback(s[j..f + 1], s[j..f]))
  }

  /** The field pass at lines 79-101. */
  function FieldTerminator(s: string, j: nat): Option<Match> {
    match FieldLineEnd(s, j)
    case None => None
    case Some(f) => Some(FieldMatch(s, j, f))
  }

  /** A field line that is not left open gets a semicolon before its newline, and any other
      field line stays as it is. */
  lemma FieldLineTerminated(s: string, j: nat)
    requires FieldLineEnd(s, j).Some?
    ensures var f := FieldLineEnd(s, j).value;
      FieldTerminator(s, j)
      == Some(Match(f + 1, if OpenEnded(s[j..f]) then s[j..f + 1] else s[j..f] + ";\n"))
  {
    var f := FieldLineEnd(s, j).value;
    FieldTerminatorIs(s, j, f);
    FieldCallbackOnLine(s, j, f);
  }

  lemma FieldTerminatorIs(s: string, j: nat, f: nat)
    requires FieldLineEnd(s, j) == Some(f)
    ensures FieldTerminator(s, j) == Some(Match(f + 1, FieldCallback(s[j..f + 1], s[j..f])))
  {
  }

  lemma FieldCallbackOnLine(s: string, j: nat, f: nat)
    requires j < f < |s|
    requires forall k :: j <= k < f ==> s[k] != ';' && s[k] != ','
    ensures FieldCallback(s[j..f + 1], s[j..f])
      == if OpenEnded(s[j..f]) then s[j..f + 1] else s[j..f] + ";\n"
  {
    var field := s[j..f];
    assert forall k :: 0 <= k < |field| ==> field[k] == s[j + k];
    FieldCallbackOutcome(s[j..f + 1], field);
  }

  /** `keyword name {body}` at i: the name from a to n, the body from the brace at o to the
      first closing brace. No `\b` guards the keyword, so `subtype X {}` matches at `type`. */
  datatype Block = Block(keyword: string, a: nat, n: nat, o: nat, close: nat)

  function BlockAt(s: string, i: nat): (r: Option<Block>)
    ensures r.Some? ==> r.value.keyword in BlockKeywords && StartsAt(s, i, r.value.keyword)
    ensures r.Some? ==> i < r.value.a < r.value.n <= r.value.o < r.value.close < |s|
    ensures r.Some? ==> s[r.value.o] == '{' && s[r.value.close] == '}'
    ensures r.Some? ==> forall k :: r.value.o < k < r.value.close ==> s[k] != '}'
  {
    match FirstWordAt(s, i, BlockKeywords)
    case None => None
    case Some(keyword) =>
      var k := i + |keyword|;
      var a := SkipSpaces(s, k);
      if a == k then None
      else
        var n := Span(s, a, IsWordChar);
        if n == a then None
        else
          var o := SkipSpaces(s, n);
          if o == |s| || s[o] != '{' then None
          else
            var close := IndexOfChar(s, '}', o + 1);
            if close == |s| then None else Some(Block(keyword, a, n, o, close))
  }

  /** The body with every field line passed through the field pass. */
  function FixFields(body: string): string {
    ReplaceAll(body, FieldTerminator, 0)
  }

  function BlockMatch(s: string, b: Block): (r: Match)
    requires b.a <= b.n <= b.o <= b.close < |s|
    ensures r.end == b.close + 1
    ensures r.replacement == b.keyword + " " + s[b.a..b.n] + " " + FixFields(s[b.o..b.close + 1])
  {
    Match(b.close + 1, b.keyword + " " + s[b.a..b.n] + " " + FixFields(s[b.o..b.close + 1]))
  }

  /** The pass at lines 75-105: the declaration is respaced to `keyword name {` and its body's
      field lines are terminated. */
  function TypeBlock(s: string, i: nat): Option<Match> {
    match BlockAt(s, i)
    case None => None
    case Some(b) => Some(BlockMatch(s, b))
  }

  /** t without its semicolons. */
  function DropSemicolons(t: string): (r: string)
    ensures |r| <= |t|
  {
    if t == [] then [] else (if t[0] == ';' then [] else [t[0]]) + DropSemicolons(t[1..])
  }

  lemma {:induction false} DropSemicolonsConcat(a: string, b: string)
    ensures DropSemicolons(a + b) == DropSemicolons(a) + DropSemicolons(b)
    decreases |a|
  {
    if a == [] {
      assert a + b == b;
    } else {
      assert (a + b)[0] == a[0] && (a + b)[1..] == a[1..] + b;
      DropSemicolonsConcat(a[1..], b);
    }
  }

  lemma DropJoin(a: string, x: string, b: string, y: string)
    requires DropSemicolons(x) == DropSemicolons(a) && DropSemicolons(y) == DropSemicolons(b)
    ensures DropSemicolons(x + y) == DropSemicolons(a + b)
  {
    DropSemicolonsConcat(a, b);
    DropSemicolonsConcat(x, y);
  }

  /** The match at j, ending in a newline, is replaced by itself or by its text before the
      newline, a semicolon and the newline. */
  predicate AddsSemicolon(s: string, j: nat, m: Match) {
    j < m.end <= |s| && s[m.end - 1] == '\n'
    && (m.replacement == s[j..m.end] || m.replacement == s[j..m.end - 1] + ";\n")
  }

  /** A global replacement whose every match only adds a semicolon keeps the text apart from
      semicolons, and never shortens it. */
  lemma {:induction false} OnlySemicolonsAdded(s: string, m: Matcher, i: nat)
    requires i <= |s|
    requires forall j :: i <= j < |s| && Hit(m, s, j) ==> AddsSemicolon(s, j, m(s, j).value)
    ensures DropSemicolons(ReplaceAll(s, m, i)) == DropSemicolons(s[i..])
    ensures |ReplaceAll(s, m, i)| >= |s| - i
    decreases |s| - i
  {
    if i < |s| {
      if Hit(m, s, i) {
        OnlySemicolonsAdded(s, m, m(s, i).value.end);
        SemicolonHitStep(s, m, i);
      } else {
        OnlySemicolonsAdded(s, m, i + 1);
        SemicolonCopyStep(s, m, i);
      }
    }
  }

  lemma SemicolonHitStep(s: string, m: Matcher, i: nat)
    requires Hit(m, s, i) && AddsSemicolon(s, i, m(s, i).value)
    requires var e := m(s, i).value.end;
      && DropSemicolons(ReplaceAll(s, m, e)) == DropSemicolons(s[e..])
      && |ReplaceAll(s, m, e)| >= |s| - e
    ensures DropSemicolons(ReplaceAll(s, m, i)) == DropSemicolons(s[i..])
    ensures |ReplaceAll(s, m, i)| >= |s| - i
  {
    var e := m(s, i).value.end;
    var x := m(s, i).value.replacement;
    assert s[i..] == s[i..e] + s[e..];
    ReplaceAllReplaces(s, m, i);
    FieldLineKeepsText(s, i, e, x);
    DropJoin(s[i..e], x, s[e..], ReplaceAll(s, m, e));
  }

  lemma SemicolonCopyStep(s: string, m: Matcher, i: nat)
    requires i < |s| && !Hit(m, s, i)
    requires DropSemicolons(ReplaceAll(s, m, i + 1)) == DropSemicolons(s[i + 1..])
    requires |ReplaceAll(s, m, i + 1)| >= |s| - i - 1
    ensures DropSemicolons(ReplaceAll(s, m, i)) == DropSemicolons(s[i..])
    ensures |ReplaceAll(s, m, i)| >= |s| - i
  {
    assert s[i..] == [s[i]] + s[i + 1..];
    ReplaceAllCopies(s, m, i);
    DropJoin([s[i]], [s[i]], s[i + 1..], ReplaceAll(s, m, i + 1));
  }

  /** The field pass adds semicolons and nothing else: without its semicolons, the fixed body
      is the body without its semicolons, and it is never shorter. */
  lemma FieldsOnlyGainSemicolons(body: string)
    ensures DropSemicolons(FixFields(body)) == DropSemicolons(body)
    ensures |FixFields(body)| >= |body|
  {
    forall j | 0 <= j < |body| && Hit(FieldTerminator, body, j)
      ensures AddsSemicolon(body, j, FieldTerminator(body, j).value)
    {
      FieldStep(body, j);
    }
    OnlySemicolonsAdded(body, FieldTerminator, 0);
    assert body[0..] == body;
  }

  // A match of the field pass at i: the newline ends it at f, and x replaces it.
  lemma FieldStep(s: string, i: nat)
    requires Hit(FieldTerminator, s, i)
    ensures AddsSemicolon(s, i, FieldTerminator(s, i).value)
  {
    var f := FieldLineEnd(s, i).value;
    var m := FieldMatch(s, i, f);
    assert FieldTerminator(s, i).value == m;
  }

  // A line, rewritten with a semicolon before its newline or not, keeps its other text.
  lemma FieldLineKeepsText(s: string, i: nat, e: nat, x: string)
    requires i < e <= |s| && s[e - 1] == '\n'
    requires x == s[i..e] || x == s[i..e - 1] + ";\n"
    ensures DropSemicolons(x) == DropSemicolons(s[i..e]) && |x| >= e - i
  {
    var field := s[i..e - 1];
    SliceSnoc(s, i, e);
    if x != s[i..e] {
      DropSemicolonsConcat(field, "\n");
      DropSemicolonsConcat(field, ";\n");
      assert DropSemicolons(";\n") == DropSemicolons("\n");
    }
  }


  /** The type-block pass at i respaces the head to `keyword name {` and changes its body only
      by adding semicolons. */
  lemma TypeBlockRewrite(s: string, i: nat)
    requires BlockAt(s, i).Some?
    ensures var b := BlockAt(s, i).value;
      var r := TypeBlock(s, i).value.replacement;
      && TypeBlock(s, i).Some? && TypeBlock(s, i).value.end == b.close + 1
      && StartsAt(r, 0, b.keyword + " " + s[b.a..b.n] + " ")
      && DropSemicolons(r)
         == DropSemicolons(b.keyword + " " + s[b.a..b.n] + " ") + DropSemicolons(s[b.o..b.close + 1])
  {
    var b := BlockAt(s, i).value;
    var head := b.keyword + " " + s[b.a..b.n] + " ";
    var body := s[b.o..b.close + 1];
    assert TypeBlock(s, i).value.replacement == head + FixFields(body);
    PrefixOfConcat(head, FixFields(body));
    FieldsOnlyGainSemicolons(body);
    DropSemicolonsConcat(head, FixFields(body));
  }

  // ---------------------------------------------------------------------------------------
  // Neighbouring characters a replacement pass keeps apart

  /** No a is directly followed by b in t. */
  predicate NoPair(t: string, a: char, b: char) {
    forall k :: 0 <= k < |t| - 1 ==> !(t[k] == a && t[k + 1] == b)
  }

  /** Every replacement is non-empty, and starts with b only where the input has b. */
  predicate HeadsKept(s: string, m: Matcher, b: char) {
    forall j :: 0 <= j < |s| && Hit(m, s, j) ==>
      var x := m(s, j).value.replacement;
      |x| > 0 && (x[0] == b ==> s[j] == b)
  }

  /** Every replacement is free of the pair and, when it ends in a, is not followed by b; every
      copied a is not followed by b. */
  predicate PairFreeSteps(s: string, m: Matcher, a: char, b: char) {
    && (forall j :: 0 <= j < |s| && Hit(m, s, j) ==>
          var x := m(s, j);
          NoPair(x.value.replacement, a, b)
          && (|x.value.replacement| > 0 && x.value.replacement[|x.value.replacement| - 1] == a
              ==> x.value.end == |s| || s[x.value.end] != b))
    && (forall k :: 0 <= k < |s| - 1 && !Hit(m, s, k) && s[k] == a ==> s[k + 1] != b)
  }

  /** Then the whole replacement is free of the pair. */
  lemma {:induction false} PairFree(s: string, m: Matcher, a: char, b: char, i: nat)
    requires i <= |s| && HeadsKept(s, m, b) && PairFreeSteps(s, m, a, b)
    ensures var r := ReplaceAll(s, m, i);
      NoPair(r, a, b) && (i < |s| ==> |r| > 0 && (r[0] == b ==> s[i] == b))
    decreases |s| - i
  {
    if i < |s| {
      if Hit(m, s, i) {
        PairFree(s, m, a, b, m(s, i).value.end);
        PairFreeHit(s, m, a, b, i);
      } else {
        PairFree(s, m, a, b, i + 1);
        PairFreeCopy(s, m, a, b, i);
      }
    }
  }

  lemma PairFreeHit(s: string, m: Matcher, a: char, b: char, i: nat)
    requires Hit(m, s, i) && HeadsKept(s, m, b) && PairFreeSteps(s, m, a, b)
    requires var e := m(s, i).value.end; var r := ReplaceAll(s, m, e);
      NoPair(r, a, b) && (e < |s| ==> |r| > 0 && (r[0] == b ==> s[e] == b))
    ensures var r := ReplaceAll(s, m, i); NoPair(r, a, b) && |r| > 0 && (r[0] == b ==> s[i] == b)
  {
    var x := m(s, i).value.replacement;
    var e := m(s, i).value.end;
    ReplaceAllReplaces(s, m, i);
    NoPairConcat(x, ReplaceAll(s, m, e), a, b);
  }

  lemma PairFreeCopy(s: string, m: Matcher, a: char, b: char, i: nat)
    requires i < |s| && !Hit(m, s, i) && PairFreeSteps(s, m, a, b)
    requires var r := ReplaceAll(s, m, i + 1);
      NoPair(r, a, b) && (i + 1 < |s| ==> |r| > 0 && (r[0] == b ==> s[i + 1] == b))
    ensures var r := ReplaceAll(s, m, i); NoPair(r, a, b) && |r| > 0 && r[0] == s[i]
  {
    ReplaceAllCopies(s, m, i);
    NoPairConcat([s[i]], ReplaceAll(s, m, i + 1), a, b);
  }

  lemma NoPairConcat(x: string, y: string, a: char, b: char)
    requires NoPair(x, a, b) && NoPair(y, a, b)
    requires |x| > 0 && |y| > 0 ==> !(x[|x| - 1] == a && y[0] == b)
    ensures NoPair(x + y, a, b) && (|x| > 0 ==> (x + y)[0] == x[0])
  {
    var t := x + y;
    forall k | 0 <= k < |t| - 1
      ensures !(t[k] == a && t[k + 1] == b)
    {
      if k + 1 < |x| {
        assert t[k] == x[k] && t[k + 1] == x[k + 1];
      } else if k + 1 == |x| {
        assert t[k] == x[|x| - 1] && t[k + 1] == y[0];
      } else {
        assert t[k] == y[k - |x|] && t[k + 1] == y[k - |x| + 1];
      }
    }
  }

  // ---------------------------------------------------------------------------------------
  // /;\s*(\{)/g -> ' $1'

  /** A semicolon, blanks (line breaks included), then an opening brace. */
  function SemicolonBrace(s: string, i: nat): Option<Match> {
    if !(i < |s| && s[i] == ';') then None
    else
      var o := SkipSpaces(s, i + 1);
      if o < |s| && s[o] == '{' then Some(Match(o + 1, " {")) else None
  }

  function DropSemicolonBeforeBrace(s: string): string {
    ReplaceAll(s, SemicolonBrace, 0)
  }

  /** After the pass no semicolon is directly followed by an opening brace. */
  lemma SemicolonBraceGone(s: string)
    ensures NoPair(DropSemicolonBeforeBrace(s), ';', '{')
  {
    forall k | 0 <= k < |s| - 1 && !Hit(SemicolonBrace, s, k) && s[k] == ';'
      ensures s[k + 1] != '{'
    {
      if s[k + 1] == '{' {
        NoSpaceAt(s, k + 1);
      }
    }
    PairFree(s, SemicolonBrace, ';', '{', 0);
  }

  // ---------------------------------------------------------------------------------------
  // /;+\s*;+/g -> ';'

  predicate IsSemicolon(c: char) { c == ';' }

  /** `;+\s*;+` at i. When blanks and a second run follow the first run, the match takes both
      runs; otherwise the engine gives back the first run's last semicolon to the second `;+`,
      which needs a first run of at least two. */
  function SemicolonRun(s: string, i: nat): Option<Match> {
    if !(i < |s| && s[i] == ';') then None
    else
      var a := Span(s, i, IsSemicolon);
      var b := SkipSpaces(s, a);
      if b < |s| && s[b] == ';' then Some(Match(Span(s, b, IsSemicolon), ";"))
      else if a - i >= 2 then Some(Match(a, ";"))
      else None
  }

  function CollapseSemicolons(s: string): string {
    ReplaceAll(s, SemicolonRun, 0)
  }

  /** Every collapsed run ends just after a semicolon of the input and is not followed by
      another one; a semicolon the pass copies is not followed by another one. */
  lemma SemicolonRunStep(s: string, i: nat)
    requires i < |s| && s[i] == ';'
    ensures Hit(SemicolonRun, s, i) ==>
      var e := SemicolonRun(s, i).value.end;
      i < e <= |s| && s[e - 1] == ';' && (e < |s| ==> s[e] != ';')
    ensures !Hit(SemicolonRun, s, i) ==> i + 1 == |s| || s[i + 1] != ';'
  {
    var a := Span(s, i, IsSemicolon);
    var b := SkipSpaces(s, a);
    if b < |s| && s[b] == ';' {
      assert a < b;
      var e := Span(s, b, IsSemicolon);
      assert s[e - 1] == ';';
    } else if i + 1 < |s| && s[i + 1] == ';' {
      assert a - i >= 2;
    }
  }

  /** After the pass no semicolon is directly followed by another; a semicolon the input had
      not directly followed by `{` stays so. */
  lemma SemicolonRunsCollapsed(s: string)
    ensures NoPair(CollapseSemicolons(s), ';', ';')
    ensures NoPair(s, ';', '{') ==> NoPair(CollapseSemicolons(s), ';', '{')
  {
    SemicolonRunsEverywhere(s);
    PairFree(s, SemicolonRun, ';', ';', 0);
    if NoPair(s, ';', '{') {
      PairFree(s, SemicolonRun, ';', '{', 0);
    }
  }

  // At every semicolon the pass either takes the whole run or finds no second semicolon.
  lemma SemicolonRunsEverywhere(s: string)
    ensures forall k :: 0 <= k < |s| && s[k] == ';' ==>
      (Hit(SemicolonRun, s, k) ==>
        var e := SemicolonRun(s, k).value.end;
        k < e <= |s| && s[e - 1] == ';' && (e < |s| ==> s[e] != ';'))
      && (!Hit(SemicolonRun, s, k) ==> k + 1 == |s| || s[k + 1] != ';')
  {
    forall k | 0 <= k < |s| && s[k] == ';'
      ensures Hit(SemicolonRun, s, k) ==>
        var e := SemicolonRun(s, k).value.end;
        k < e <= |s| && s[e - 1] == ';' && (e < |s| ==> s[e] != ';')
      ensures !Hit(SemicolonRun, s, k) ==> k + 1 == |s| || s[k + 1] != ';'
    {
      SemicolonRunStep(s, k);
    }
  }

  // ---------------------------------------------------------------------------------------
  // /,\s*;/g -> ','

  function CommaSemicolon(s: string, i: nat): Option<Match> {
    if !(i < |s| && s[i] == ',') then None
    else
      var c := SkipSpaces(s, i + 1);
      if c < |s| && s[c] == ';' then Some(Match(c + 1, ",")) else None
  }

  function DropSemicolonAfterComma(s: string): string {
    ReplaceAll(s, CommaSemicolon, 0)
  }

  /** After the pass no comma is directly followed by a semicolon; given an input without
      doubled semicolons, and without `;{`, the output has none either. */
  lemma CommaSemicolonGone(s: string)
    requires NoPair(s, ';', ';')
    ensures NoPair(DropSemicolonAfterComma(s), ',', ';')
    ensures NoPair(DropSemicolonAfterComma(s), ';', ';')
    ensures NoPair(s, ';', '{') ==> NoPair(DropSemicolonAfterComma(s), ';', '{')
  {
    forall k | 0 <= k < |s| - 1 && !Hit(CommaSemicolon, s, k) && s[k] == ','
      ensures s[k + 1] != ';'
    {
      if s[k + 1] == ';' {
        NoSpaceAt(s, k + 1);
      }
    }
    forall k | 0 <= k < |s| && Hit(CommaSemicolon, s, k)
      ensures var e := CommaSemicolon(s, k).value.end; e == |s| || s[e] != ';'
    {
      var e := CommaSemicolon(s, k).value.end;
      assert s[e - 1] == ';';
    }
    PairFree(s, CommaSemicolon, ',', ';', 0);
    PairFree(s, CommaSemicolon, ';', ';', 0);
    if NoPair(s, ';', '{') {
      PairFree(s, CommaSemicolon, ';', '{', 0);
    }
  }

  // ---------------------------------------------------------------------------------------
  // /^(\s*type\s+\w+\s*=\s*[^;\n{]+)(\n)/gm, guarded by the callback

  /** `[^;\n{]`, the characters an alias's value is made of. */
  predicate IsAliasValueChar(c: char) {
    c != ';' && c != '\n' && c != '{'
  }

  /** `^\s*type\s+\w+\s*=` at i: the position of the `=`. */
  function AliasHeadEnd(s: string, i: nat): (q: Option<nat>)
    ensures q.Some? ==> i < q.value < |s| && s[q.value] == '=' && AtLineStart(s, i)
    ensures q.Some? ==> forall k :: i <= k < q.value ==> s[k] != ';' && s[k] != '{'
  {
    if !AtLineStart(s, i) then None
    else
      var t := SkipSpaces(s, i);
      if !(StartsAt(s, t, "type") && t + 4 < |s| && IsSpace(s[t + 4])) then None
      else
        var w := SkipSpaces(s, t + 4);
        if !(w < |s| && IsWordChar(s[w])) then None
        else
          var n := Span(s, w, IsWordChar);
          var q := SkipSpaces(s, n);
          if !(q < |s| && s[q] == '=') then None
          else
            AliasHeadChars(s, i, t, w, n, q);
            Some(q)
  }

  lemma AliasHeadChars(s: string, i: nat, t: nat, w: nat, n: nat, q: nat)
    requires i <= t && t + 4 <= w <= n <= q <= |s|
    requires forall k :: i <= k < t ==> IsSpace(s[k])
    requires StartsAt(s, t, "type")
    requires forall k :: t + 4 <= k < w ==> IsSpace(s[k])
    requires forall k :: w <= k < n ==> IsWordChar(s[k])
    requires forall k :: n <= k < q ==> IsSpace(s[k])
    ensures forall k :: i <= k < q ==> s[k] != ';' && s[k] != '{'
  {
    TypeKeywordChars(s, t);
  }

  lemma TypeKeywordChars(s: string, t: nat)
    requires StartsAt(s, t, "type")
    ensures forall k :: t <= k < t + 4 ==> s[k] != ';' && s[k] != '{'
  {
    forall k | t <= k < t + 4
      ensures s[k] != ';' && s[k] != '{'
    {
      assert s[t..t + 4][k - t] == s[k];
    }
  }

  /** Where `type Name =` followed by a value ends at a newline starts, at the start of a line:
      the position of that newline. */
  function AliasLineEnd(s: string, i: nat): (f: Option<nat>)
    ensures f.Some? ==> i < f.value < |s| && s[f.value] == '\n' && AtLineStart(s, i)
    ensures f.Some? ==> forall k :: i <= k < f.value ==> s[k] != ';' && s[k] != '{'
  {
    match AliasHeadEnd(s, i)
    case None => None
    case Some(q) =>
      var f := ValueLineEnd(s, q + 1, SkipSpaces(s, q + 1), IsAliasValueChar);
      if f.None? then f
      else
        AliasLineChars(s, i, q, f.value);
        f
  }

  lemma AliasLineChars(s: string, i: nat, q: nat, f: nat)
    requires i <= q < f <= |s| && s[q] == '='
    requires forall k :: i <= k < q ==> s[k] != ';' && s[k] != '{'
    requires forall k :: q + 1 <= k < f ==> IsSpace(s[k]) || IsAliasValueChar(s[k])
    ensures forall k :: i <= k < f ==> s[k] != ';' && s[k] != '{'
  {
  }

  /** The replacer of lines 123-132. */
  function AliasCallback(whole: string, typeDef: string, newline: string): string {
    if EndsWith(Trim(typeDef), ";") then whole
    else if Contains(typeDef, "{") then whole
    else typeDef + ";" + newline
  }

  function TypeAlias(s: string, i: nat): Option<Match> {
    match AliasLineEnd(s, i)
    case None => None
    case Some(f) => Some(Match(f + 1, AliasCallback(s[i..f + 1], s[i..f], "\n")))
  }

  function TerminateTypeAliases(s: string): string {
    ReplaceAll(s, TypeAlias, 0)
  }

  /** The callback's guards never fire: the captured definition cannot hold a semicolon or a
      brace, so every matched alias gets a semicolon before its newline. */
  lemma TypeAliasTerminated(s: string, i: nat)
    requires AliasLineEnd(s, i).Some?
    ensures var f := AliasLineEnd(s, i).value;
      TypeAlias(s, i) == Some(Match(f + 1, s[i..f] + ";" + "\n"))
      && ';' !in s[i..f] && '{' !in s[i..f]
  {
    var f := AliasLineEnd(s, i).value;
    var d := s[i..f];
    assert ';' !in d && '{' !in d;
    AbsentCharExcludes(d, "{", '{');
    if |Trim(d)| > 0 {
      assert Trim(d)[|Trim(d)| - 1] in d;
    }
  }

  /** A terminated alias starts with the character it replaces and ends with its newline; its
      only semicolon is the one added before that newline. */
  lemma AliasHitShape(s: string, i: nat)
    requires Hit(TypeAlias, s, i)
    ensures var x := TypeAlias(s, i).value.replacement;
      && |x| > 0 && x[0] == s[i] && x[|x| - 1] == '\n'
      && NoPair(x, ';', ';') && NoPair(x, ';', '{')
  {
    TypeAliasTerminated(s, i);
    var f := AliasLineEnd(s, i).value;
    assert s[i..f][0] == s[i];
    TerminatedLine(s[i..f]);
  }

  /** A line without semicolons, closed by `;` and its newline. */
  lemma TerminatedLine(d: string)
    requires |d| > 0 && ';' !in d
    ensures var x := d + ";" + "\n";
      && x[0] == d[0] && x[|x| - 1] == '\n'
      && NoPair(x, ';', ';') && NoPair(x, ';', '{')
  {
    var x := d + ";" + "\n";
    assert forall k :: 0 <= k < |d| ==> x[k] == d[k] && d[k] in d;
    assert x[|d|] == ';' && x[|d| + 1] == '\n';
  }

  /** The alias pass brings no semicolon next to another one or next to `{`. */
  lemma AliasPassKeepsPairs(s: string)
    ensures NoPair(s, ';', ';') ==> NoPair(TerminateTypeAliases(s), ';', ';')
    ensures NoPair(s, ';', '{') ==> NoPair(TerminateTypeAliases(s), ';', '{')
  {
    forall j | 0 <= j < |s| && Hit(TypeAlias, s, j)
      ensures var x := TypeAlias(s, j).value.replacement;
        && |x| > 0 && x[0] == s[j] && x[|x| - 1] == '\n'
        && NoPair(x, ';', ';') && NoPair(x, ';', '{')
    {
      AliasHitShape(s, j);
    }
    if NoPair(s, ';', ';') {
      PairFree(s, TypeAlias, ';', ';', 0);
    }
    if NoPair(s, ';', '{') {
      PairFree(s, TypeAlias, ';', '{', 0);
    }
  }

  // ---------------------------------------------------------------------------------------
  // normalizeCode

  /** Type annotations the code generator leaves behind, removed in the source's order:
      parameters in parentheses, bare arrow parameters, then declarations (general, then
      array-typed). */
  function StripAnnotations(s: string): string {
    var params := ReplaceAll(s, TypedParam, 0);
    var arrows := ReplaceAll(params, ArrowParam, 0);
    var decls := ReplaceAll(arrows, TypedDeclaration, 0);
    ReplaceAll(decls, ArrayTypedDeclaration, 0)
  }

  /** normalizeCode: imports and the blank lines they leave at the top go, annotations go,
      interface and type bodies get their field semicolons, and the semicolon clean-ups run.
      No semicolon of the result is directly followed by another or by `{`. */
  function NormalizeCode(code: string): (r: string)
    ensures NoPair(r, ';', ';') && NoPair(r, ';', '{')
  {
    var top := StripLeadingBlankLines(RemoveImportLines(code));
    var blocks := ReplaceAll(StripAnnotations(top), TypeBlock, 0);
    var braced := DropSemicolonBeforeBrace(blocks);
    var collapsed := CollapseSemicolons(braced);
    var commas := DropSemicolonAfterComma(collapsed);
    SemicolonBraceGone(blocks);
    SemicolonRunsCollapsed(braced);
    CommaSemicolonGone(collapsed);
    AliasPassKeepsPairs(commas);
    TerminateTypeAliases(commas)
  }
}
