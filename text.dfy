/** Characters and strings as the JavaScript runtime sees them: the `\s`, `\w` and line-terminator
    classes of its regular expressions, `trim`, `split` on one character, `join`, ASCII case mapping
    and the decimal rendering of an integer. */
module Text {
  import opened Wrappers

  /** JavaScript's `\s`; `String.prototype.trim` strips exactly these characters too. */
  predicate IsSpace(c: char) {
    c == ' ' || c == '\t' || c == '\n' || c == '\r' || c == '\U{000B}' || c == '\U{000C}'
    || c == '\U{00A0}' || c == '\U{1680}' || ('\U{2000}' <= c <= '\U{200A}')
    || c == '\U{2028}' || c == '\U{2029}' || c == '\U{202F}' || c == '\U{205F}'
    || c == '\U{3000}' || c == '\U{FEFF}'
  }

  /** The characters that end a line for `^`, `$` (multiline) and `.`. */
  predicate IsLineTerminator(c: char) {
    c == '\n' || c == '\r' || c == '\U{2028}' || c == '\U{2029}'
  }

  predicate NotLineTerminator(c: char) { !IsLineTerminator(c) }

  predicate IsUpper(c: char) { 'A' <= c <= 'Z' }

  predicate IsLower(c: char) { 'a' <= c <= 'z' }

  predicate IsDigit(c: char) { '0' <= c <= '9' }

  /** JavaScript's `\w`. */
  predicate IsWordChar(c: char) { IsUpper(c) || IsLower(c) || IsDigit(c) || c == '_' }

  /** `[a-zA-Z_$]` and `[\w$]`, the identifier classes the source's patterns use. */
  predicate IsIdentStart(c: char) { IsUpper(c) || IsLower(c) || c == '_' || c == '$' }

  predicate IsIdentChar(c: char) { IsWordChar(c) || c == '$' }

  predicate IsQuote(c: char) { c == '\'' || c == '"' }

  /** A regex word boundary `\b` at position i. */
  predicate WordBoundary(s: string, i: nat)
    requires i <= |s|
  {
    (i > 0 && IsWordChar(s[i - 1])) != (i < |s| && IsWordChar(s[i]))
  }

  function LowerChar(c: char): (d: char)
    ensures !IsUpper(d)
    ensures IsUpper(c) ==> d as int == c as int + 32
    ensures !IsUpper(c) ==> d == c
  {
    if IsUpper(c) then (c as int + 32) as char else c
  }

  function UpperChar(c: char): (d: char)
    ensures !IsLower(d)
    ensures IsLower(c) ==> d as int == c as int - 32
    ensures !IsLower(c) ==> d == c
  {
    if IsLower(c) then (c as int - 32) as char else c
  }

  function ToLower(s: string): (r: string)
    ensures |r| == |s|
    ensures forall k :: 0 <= k < |s| ==> r[k] == LowerChar(s[k])
  {
    seq(|s|, k requires 0 <= k < |s| => LowerChar(s[k]))
  }

  function ToUpper(s: string): (r: string)
    ensures |r| == |s|
    ensures forall k :: 0 <= k < |s| ==> r[k] == UpperChar(s[k])
  {
    seq(|s|, k requires 0 <= k < |s| => UpperChar(s[k]))
  }

  /** `lit` occurs in `s` starting at index i. */
  predicate StartsAt(s: string, i: nat, lit: string) {
    i <= |s| && lit <= s[i..]
  }

  /** `lit` (written in lower case) occurs at i, ignoring ASCII case, as a `/.../i` expression
      over ASCII letters matches. */
  predicate StartsAtIgnoreCase(s: string, i: nat, lit: string) {
    i + |lit| <= |s| && ToLower(s[i..i + |lit|]) == lit
  }

  predicate EndsWith(s: string, lit: string) {
    |lit| <= |s| && s[|s| - |lit|..] == lit
  }

  /** `s.includes(lit)`. */
  predicate Contains(s: string, lit: string) {
    exists i :: 0 <= i <= |s| && StartsAt(s, i, lit)
  }

  lemma StartsAtSelf(s: string)
    ensures StartsAt(s, 0, s)
  {
    assert s[0..] == s;
  }

  lemma PrefixOfConcat(a: string, b: string)
    ensures (a + b)[..|a|] == a && StartsAt(a + b, 0, a)
  {
    assert (a + b)[..|a|] == a;
  }

  lemma SuffixOfConcat(a: string, b: string)
    ensures EndsWith(a + b, b) && (a + b)[|a|..] == b
  {
    assert (a + b)[|a|..] == b;
  }

  /** `open + body + close`: a text wrapped between two others. */
  function Enclose(open: string, body: string, close: string): (r: string)
    ensures |r| == |open| + |body| + |close|
    ensures StartsAt(r, 0, open) && EndsWith(r, close)
    ensures r[|open|..|open| + |body|] == body
  {
    var r := open + body + close;
    assert r[..|open|] == open;
    assert r[|r| - |close|..] == close;
    assert r[|open|..|open| + |body|] == body;
    r
  }

  /** A literal cannot occur where one of its characters never appears. */
  lemma AbsentCharExcludes(s: string, lit: string, c: char)
    requires c in lit && c !in s
    ensures !Contains(s, lit)
  {
    var j :| 0 <= j < |lit| && lit[j] == c;
    forall i | 0 <= i <= |s|
      ensures !StartsAt(s, i, lit)
    {
      if i + j < |s| {
        assert s[i + j] in s;
        assert s[i..][j] == s[i + j];
      }
    }
  }

  /** The end of the longest run of characters satisfying p that starts at i. */
  function Span(s: string, i: nat, p: char -> bool): (j: nat)
    requires i <= |s|
    ensures i <= j <= |s|
    ensures forall k :: i <= k < j ==> p(s[k])
    ensures j < |s| ==> !p(s[j])
    decreases |s| - i
  {
    if i < |s| && p(s[i]) then Span(s, i + 1, p) else i
  }

  /** The start of the longest run of characters satisfying p that ends at j, not going below lo. */
  function SpanBack(s: string, lo: nat, j: nat, p: char -> bool): (k: nat)
    requires lo <= j <= |s|
    ensures lo <= k <= j
    ensures forall m :: k <= m < j ==> p(s[m])
    ensures k > lo ==> !p(s[k - 1])
    decreases j
  {
    if j > lo && p(s[j - 1]) then SpanBack(s, lo, j - 1, p) else j
  }

  /** A run of characters satisfying p from i that stops at j (at a character that fails p, or
      at the end) is what Span finds. */
  lemma SpanIs(s: string, i: nat, p: char -> bool, j: nat)
    requires i <= j <= |s|
    requires forall k :: i <= k < j ==> p(s[k])
    requires j < |s| ==> !p(s[j])
    ensures Span(s, i, p) == j
  {
    var a := Span(s, i, p);
    if a < |s| {
      assert !p(s[a]);
    }
  }

  /** The first of the alternatives `words` (in their order) that occurs at i, as an
      alternation `(?:w1|w2|...)` tries them. */
  function FirstWordAt(s: string, i: nat, words: seq<string>): (r: Option<string>)
    ensures r.Some? ==> r.value in words && StartsAt(s, i, r.value)
    ensures r.None? <==> forall w :: w in words ==> !StartsAt(s, i, w)
  {
    if |words| == 0 then None
    else if StartsAt(s, i, words[0]) then Some(words[0])
    else
      var r := FirstWordAt(s, i, words[1..]);
      assert forall w :: w in words ==> w == words[0] || w in words[1..];
      r
  }

  /** The end of the whitespace run (`\s*`, greedy) starting at i. */
  function SkipSpaces(s: string, i: nat): (j: nat)
    requires i <= |s|
    ensures i <= j <= |s|
    ensures forall k :: i <= k < j ==> IsSpace(s[k])
    ensures j < |s| ==> !IsSpace(s[j])
  {
    Span(s, i, IsSpace)
  }

  /** The end of the line that contains position i: its line terminator, or the end of s. */
  function LineEnd(s: string, i: nat): (j: nat)
    requires i <= |s|
    ensures i <= j <= |s|
    ensures forall k :: i <= k < j ==> !IsLineTerminator(s[k])
    ensures j < |s| ==> IsLineTerminator(s[j])
  {
    Span(s, i, NotLineTerminator)
  }

  /** Position of the first non-space character (|s| when there is none). */
  function TrimStartIndex(s: string): (a: nat)
    ensures a <= |s|
    ensures forall k :: 0 <= k < a ==> IsSpace(s[k])
    ensures a < |s| ==> !IsSpace(s[a])
  {
    SkipSpaces(s, 0)
  }

  /** A whitespace run from lo that stops at j (at a non-space or the end) is what SkipSpaces finds. */
  lemma SpaceRunEnd(s: string, lo: nat, j: nat)
    requires lo <= j <= |s|
    requires forall k :: lo <= k < j ==> IsSpace(s[k])
    requires j < |s| ==> !IsSpace(s[j])
    ensures SkipSpaces(s, lo) == j
  {
    var a := SkipSpaces(s, lo);
    if a < |s| {
      assert !IsSpace(s[a]);
    }
  }

  /** A lone blank before a non-space is a run of one. */
  lemma SingleSpaceAt(s: string, i: nat)
    requires i + 1 < |s| && s[i] == ' ' && !IsSpace(s[i + 1])
    ensures SkipSpaces(s, i) == i + 1
  {
    SpaceRunEnd(s, i, i + 1);
  }

  /** No run starts at a non-space. */
  lemma NoSpaceAt(s: string, i: nat)
    requires i < |s| && !IsSpace(s[i])
    ensures SkipSpaces(s, i) == i
  {
  }

  /** Dropping part of the leading whitespace moves the first non-space character accordingly. */
  lemma TrimStartOfSuffix(s: string, e: nat)
    requires e <= TrimStartIndex(s)
    ensures TrimStartIndex(s[e..]) == TrimStartIndex(s) - e
  {
    var r := s[e..];
    var a := TrimStartIndex(s);
    assert forall k :: 0 <= k < a - e ==> r[k] == s[e + k];
    SpaceRunEnd(r, 0, a - e);
  }

  /** `s.trim()`: the slice of s between its leading and its trailing whitespace. */
  function Trim(s: string): (r: string)
    ensures TrimStartIndex(s) + |r| <= |s|
    ensures r == s[TrimStartIndex(s)..TrimStartIndex(s) + |r|]
    ensures forall k :: TrimStartIndex(s) + |r| <= k < |s| ==> IsSpace(s[k])
    ensures |r| > 0 ==> !IsSpace(r[0]) && !IsSpace(r[|r| - 1])
    ensures r == [] <==> forall k :: 0 <= k < |s| ==> IsSpace(s[k])
  {
    var a := TrimStartIndex(s);
    if a == |s| then ""
    else
      var b := SpanBack(s, a, |s|, IsSpace);
      assert b > a;
      s[a..b]
  }

  lemma {:induction false} TrimOfTrimmed(s: string)
    requires |s| > 0 ==> !IsSpace(s[0]) && !IsSpace(s[|s| - 1])
    ensures Trim(s) == s
  {
    if |s| > 0 {
      assert TrimStartIndex(s) == 0;
    }
  }

  /** A whitespace run inside x that stops before the end of x, or at its end before a non-space
      of y, ends at the same place in x + y. */
  lemma SkipSpacesPrefix(x: string, y: string, j: nat)
    requires j <= |x|
    requires SkipSpaces(x, j) < |x| || |y| == 0 || !IsSpace(y[0])
    ensures SkipSpaces(x + y, j) == SkipSpaces(x, j)
  {
    var e := SkipSpaces(x, j);
    var s := x + y;
    forall k | j <= k < e
      ensures IsSpace(s[k])
    {
      assert s[k] == x[k];
    }
    if e < |s| {
      assert s[e] == if e < |x| then x[e] else y[0];
    }
    SpaceRunEnd(s, j, e);
  }

  /** A whitespace run inside y ends at the same place, shifted, in x + y. */
  lemma SkipSpacesShift(x: string, y: string, j: nat)
    requires j <= |y|
    ensures SkipSpaces(x + y, |x| + j) == |x| + SkipSpaces(y, j)
  {
    var e := SkipSpaces(y, j);
    var s := x + y;
    forall k | |x| + j <= k < |x| + e
      ensures IsSpace(s[k])
    {
      assert s[k] == y[k - |x|];
    }
    if |x| + e < |s| {
      assert s[|x| + e] == y[e];
    }
    SpaceRunEnd(s, |x| + j, |x| + e);
  }

  /** A literal found in either part is found in the two joined. */
  lemma ContainsInJoin(x: string, y: string, lit: string)
    ensures Contains(x, lit) ==> Contains(x + y, lit)
    ensures Contains(y, lit) ==> Contains(x + y, lit)
  {
    if Contains(x, lit) {
      var i :| 0 <= i <= |x| && StartsAt(x, i, lit);
      assert (x + y)[i..] == x[i..] + y;
      assert StartsAt(x + y, i, lit);
    }
    if Contains(y, lit) {
      var i :| 0 <= i <= |y| && StartsAt(y, i, lit);
      assert (x + y)[|x| + i..] == y[i..];
      assert StartsAt(x + y, |x| + i, lit);
    }
  }

  /** Trim keeps s[a..e] when a is where the leading whitespace ends, s[e - 1] is a non-space
      and only whitespace follows it. */
  lemma TrimIs(s: string, a: nat, e: nat)
    requires a < e <= |s| && TrimStartIndex(s) == a && !IsSpace(s[e - 1])
    requires forall k :: e <= k < |s| ==> IsSpace(s[k])
    ensures Trim(s) == s[a..e]
  {
    var r := Trim(s);
    assert a + |r| == e;
  }

  /** Trimming two texts joined by one space, with a non-space on either side of it, trims each
      of them and keeps the space. */
  lemma TrimJoin(x: string, y: string)
    requires |x| > 0 && !IsSpace(x[|x| - 1]) && |y| > 0 && !IsSpace(y[0])
    ensures Trim(x + " " + y) == Trim(x) + " " + Trim(y)
  {
    var u := " " + y;
    var s := x + u;
    assert x + " " + y == s;
    var a := TrimStartIndex(x);
    var e := |x| + 1 + |Trim(y)|;
    assert Trim(x) == x[a..|x|] by {
      TrimIs(x, a, |x|);
    }
    assert TrimStartIndex(s) == a by {
      SkipSpacesPrefix(x, u, 0);
    }
    assert Trim(s) == s[a..e] && u[..e - |x|] == " " + Trim(y) by {
      JoinedTail(x, y);
      TrimIs(s, a, e);
    }
    SliceAcross(x, u, a, e);
    AppendAssoc(Trim(x), " ", Trim(y));
  }

  // After the joining space, the trimmed y ends at its last non-space and whitespace follows.
  lemma JoinedTail(x: string, y: string)
    requires |y| > 0 && !IsSpace(y[0])
    ensures var s := x + (" " + y); var e := |x| + 1 + |Trim(y)|;
      && |x| < e <= |s| && !IsSpace(s[e - 1]) && (" " + y)[..1 + |Trim(y)|] == " " + Trim(y)
      && forall k :: e <= k < |s| ==> IsSpace(s[k])
  {
    var s := x + (" " + y);
    var ty := Trim(y);
    assert TrimStartIndex(y) == 0;
    assert ty[0] == y[0];
    var e := |x| + 1 + |ty|;
    assert s[e - 1] == ty[|ty| - 1];
    assert (" " + y)[..1 + |ty|] == " " + y[..|ty|];
    forall k | e <= k < |s|
      ensures IsSpace(s[k])
    {
      assert s[k] == y[k - |x| - 1];
    }
  }

  /** The first index at or after i that holds c, or |s| when there is none. */
  function IndexOfChar(s: string, c: char, i: nat): (k: nat)
    requires i <= |s|
    ensures i <= k <= |s|
    ensures forall j :: i <= j < k ==> s[j] != c
    ensures k < |s| ==> s[k] == c
    decreases |s| - i
  {
    if i == |s| || s[i] == c then i else IndexOfChar(s, c, i + 1)
  }

  lemma IndexOfCharIs(s: string, c: char, i: nat, k: nat)
    requires i <= k <= |s|
    requires forall j :: i <= j < k ==> s[j] != c
    requires k < |s| ==> s[k] == c
    ensures IndexOfChar(s, c, i) == k
  {
    var a := IndexOfChar(s, c, i);
    assert forall j :: i <= j < k ==> s[j] != c;
  }

  /** `s.split(sep)` for a one-character separator: the pieces between separators, in order,
      always at least one (the empty string splits into [""]). */
  function Split(s: string, sep: char): (parts: seq<string>)
    ensures |parts| >= 1
    ensures forall k :: 0 <= k < |parts| ==> sep !in parts[k]
    decreases |s|
  {
    var k := IndexOfChar(s, sep, 0);
    if k == |s| then [s] else [s[..k]] + Split(s[k + 1..], sep)
  }

  /** Splitting a text with more text appended changes only the last piece: the appended text
      continues it. */
  lemma {:induction false} SplitAppend(x: string, y: string, sep: char)
    ensures var p := Split(x, sep);
      Split(x + y, sep) == p[..|p| - 1] + Split(p[|p| - 1] + y, sep)
    decreases |x|
  {
    var k := IndexOfChar(x, sep, 0);
    if k < |x| {
      var q := Split(x[k + 1..], sep);
      assert Split(x + y, sep) == [x[..k]] + Split(x[k + 1..] + y, sep) by {
        IndexOfCharIs(x + y, sep, 0, k);
        assert (x + y)[..k] == x[..k];
        assert (x + y)[k + 1..] == x[k + 1..] + y;
      }
      SplitAppend(x[k + 1..], y, sep);
      var p := [x[..k]] + q;
      assert Split(x, sep) == p;
      assert p[..|p| - 1] == [x[..k]] + q[..|q| - 1] && p[|p| - 1] == q[|q| - 1];
      AppendAssoc([x[..k]], q[..|q| - 1], Split(q[|q| - 1] + y, sep));
    }
  }

  /** Text without the separator is one piece. */
  lemma SplitWithoutSep(s: string, sep: char)
    requires sep !in s
    ensures Split(s, sep) == [s]
  {
    assert forall j :: 0 <= j < |s| ==> s[j] != sep;
  }

  /** A trailing separator adds one empty piece. */
  lemma SplitTrailingSep(s: string, sep: char)
    ensures Split(s + [sep], sep) == Split(s, sep) + [""]
  {
    var p := Split(s, sep);
    var last := p[|p| - 1];
    SplitAppend(s, [sep], sep);
    assert Split(last + [sep], sep) == [last] + [""] by {
      IndexOfCharIs(last + [sep], sep, 0, |last|);
      assert (last + [sep])[..|last|] == last;
      assert (last + [sep])[|last| + 1..] == "";
    }
    LastSplitOff(p);
    AppendAssoc(p[..|p| - 1], [last], [""]);
  }

  /** `parts.join(sep)`. */
  function Join(parts: seq<string>, sep: string): (r: string)
  {
    if |parts| == 0 then ""
    else if |parts| == 1 then parts[0]
    else parts[0] + sep + Join(parts[1..], sep)
  }

  /** The pieces of a sequence of strings glued together in order. */
  function Concat(parts: seq<string>): (r: string)
  {
    if |parts| == 0 then "" else parts[0] + Concat(parts[1..])
  }

  /** Appending is associative; stated once, generically, so that proofs about particular
      texts need not re-derive it element by element. */
  lemma AppendAssoc<T>(a: seq<T>, b: seq<T>, c: seq<T>)
    ensures a + (b + c) == (a + b) + c
  {
  }

  /** A prefix of a prefix is a prefix. */
  lemma PrefixOfPrefix<T>(r: seq<T>, head: seq<T>, line: seq<T>)
    requires |head| <= |r| && r[..|head|] == head
    requires |line| <= |head| && head[..|line|] == line
    ensures line <= r
  {
    assert r[..|line|] == head[..|line|];
  }

  /** The three parts of a concatenation sit where they were put. */
  lemma Framing<T>(a: seq<T>, b: seq<T>, c: seq<T>)
    ensures a <= a + b + c && b <= (a + b + c)[|a|..] && (a + b + c)[|a| + |b|..] == c
  {
    assert (a + b + c)[|a|..] == b + c;
  }

  /** What follows a known front in a text starts with what follows it in a prefix. */
  lemma PrefixAfter<T>(a: seq<T>, b: seq<T>, s: seq<T>)
    requires a + b <= s
    ensures b <= s[|a|..]
  {
    assert s[|a|..][..|b|] == (a + b)[|a|..];
  }

  /** A prefix of a prefix is a prefix. */
  lemma PrefixTransitive<T>(a: seq<T>, b: seq<T>, s: seq<T>)
    requires a <= b && b <= s
    ensures a <= s
  {
    assert s[..|a|] == b[..|a|];
  }

  /** A slice of x + t that starts inside x and ends inside t. */
  lemma SliceAcross<T>(x: seq<T>, t: seq<T>, a: nat, e: nat)
    requires a <= |x| <= e <= |x| + |t|
    ensures (x + t)[a..e] == x[a..|x|] + t[..e - |x|]
  {
  }

  /** A non-empty sequence is its front followed by its last element. */
  lemma LastSplitOff<T>(xs: seq<T>)
    requires |xs| > 0
    ensures xs == xs[..|xs| - 1] + [xs[|xs| - 1]]
  {
  }

  /** A non-empty slice is the slice one shorter followed by its last character. */
  lemma SliceSnoc<T>(s: seq<T>, i: nat, e: nat)
    requires i < e <= |s|
    ensures s[i..e] == s[i..e - 1] + [s[e - 1]]
  {
  }

  lemma {:induction false} ConcatAppend(a: seq<string>, b: seq<string>)
    ensures Concat(a + b) == Concat(a) + Concat(b)
  {
    if |a| == 0 {
      assert a + b == b;
    } else {
      assert (a + b)[1..] == a[1..] + b;
      ConcatAppend(a[1..], b);
    }
  }

  function DigitChar(d: nat): (c: char)
    requires d < 10
    ensures IsDigit(c)
  {
    ('0' as int + d) as char
  }

  function NatDigits(n: nat): (r: string)
    ensures |r| >= 1
    ensures forall k :: 0 <= k < |r| ==> IsDigit(r[k])
  {
    if n < 10 then [DigitChar(n)] else NatDigits(n / 10) + [DigitChar(n % 10)]
  }

  /** The decimal text JavaScript prints for an integral number. */
  function Decimal(n: int): (r: string)
    ensures |r| >= 1
    ensures n >= 0 ==> forall k :: 0 <= k < |r| ==> IsDigit(r[k])
    ensures n < 0 ==> r[0] == '-'
  {
    if n < 0 then "-" + NatDigits(-n) else NatDigits(n)
  }
}
