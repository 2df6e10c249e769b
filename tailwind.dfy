/** lib/tailwind-processor.ts: the stand-in CSS generator and the CSS minifier. */
module TailwindProcessor {
  import opened Wrappers
  import opened Text
  import opened Scan

  /** `generateTailwindCSS(code)`: styles come from the Tailwind CDN in the browser, so the
      server produces no CSS for any code. */
  function GenerateTailwindCss(code: string): (css: string)
    ensures css == ""
  {
    ""
  }

  // ---------------------------------------------------------------------------------------
  // /\/\*[\s\S]*?\*\//g  ->  ""

  // The first comment closer (star, slash) that starts at or after j.
  function CloseFrom(s: string, j: nat): (r: Option<nat>)
    requires j <= |s|
    ensures r.Some? ==> j <= r.value && StartsAt(s, r.value, "*/")
    ensures r.Some? ==> forall k :: j <= k < r.value ==> !StartsAt(s, k, "*/")
    ensures r.None? ==> forall k :: j <= k <= |s| ==> !StartsAt(s, k, "*/")
    decreases |s| - j
  {
    if StartsAt(s, j, "*/") then Some(j)
    else if j == |s| then None
    else CloseFrom(s, j + 1)
  }

  // A comment at i ends just after the nearest closer that follows the opening slash-star: the
  // lazy `[\s\S]*?` stops at the first closer, so a comment holds no closer before its own.
  function CommentEnd(s: string, i: nat): (r: Option<nat>)
    ensures r.Some? ==> StartsAt(s, i, "/*") && i + 4 <= r.value <= |s|
    ensures r.Some? ==> StartsAt(s, r.value - 2, "*/")
    ensures r.Some? ==> forall k :: i + 2 <= k < r.value - 2 ==> !StartsAt(s, k, "*/")
  {
    if !StartsAt(s, i, "/*") then None
    else
      match CloseFrom(s, i + 2)
      case None => None
      case Some(c) => Some(c + 2)
  }

  function Comment(s: string, i: nat): Option<Match> {
    match CommentEnd(s, i)
    case Some(e) => Some(Match(e, ""))
    case None => None
  }

  // ---------------------------------------------------------------------------------------
  // /\s+/g  ->  " "

  function SpaceRun(s: string, i: nat): Option<Match> {
    if i < |s| && IsSpace(s[i]) then Some(Match(SkipSpaces(s, i), " ")) else None
  }

  // ---------------------------------------------------------------------------------------
  // /\s*([{}:;,])\s*/g  ->  "$1"

  predicate IsCssPunct(c: char) { c == '{' || c == '}' || c == ':' || c == ';' || c == ',' }

  function PunctSpacing(s: string, i: nat): Option<Match> {
    if i > |s| then None
    else
      var j := SkipSpaces(s, i);
      if j < |s| && IsCssPunct(s[j]) then Some(Match(SkipSpaces(s, j + 1), [s[j]])) else None
  }

  /** `optimizeCSS(css)`. */
  function OptimizeCss(css: string): (r: string)
    ensures NoSpaceRuns(r) && TightPunctuation(r)
    ensures |r| > 0 ==> !IsSpace(r[0]) && !IsSpace(r[|r| - 1])
  {
    var noComments := ReplaceAll(css, Comment, 0);
    var collapsed := ReplaceAll(noComments, SpaceRun, 0);
    CollapsedSpaces(noComments, 0);
    var tight := ReplaceAll(collapsed, PunctSpacing, 0);
    TightenedPunctuation(collapsed, 0);
    TrimKeepsShape(tight);
    Trim(tight)
  }

  // ---------------------------------------------------------------------------------------
  // What the minifier guarantees

  /** Every whitespace character is a plain space, and no two whitespace characters touch. */
  predicate NoSpaceRuns(t: string) {
    forall k :: 0 <= k < |t| && IsSpace(t[k]) ==>
      t[k] == ' ' && (k + 1 < |t| ==> !IsSpace(t[k + 1]))
  }

  /** No space sits directly before or after one of `{ } : ; ,`. */
  predicate TightPunctuation(t: string) {
    forall k :: 0 <= k < |t| - 1 ==>
      !(t[k] == ' ' && IsCssPunct(t[k + 1])) && !(IsCssPunct(t[k]) && t[k + 1] == ' ')
  }

  /** The whitespace pass leaves single spaces only, and its output starts with whitespace
      exactly when the remaining input does. */
  lemma {:induction false} CollapsedSpaces(s: string, i: nat)
    requires i <= |s|
    ensures var r := ReplaceAll(s, SpaceRun, i);
      && NoSpaceRuns(r)
      && (|r| == 0 <==> i == |s|)
      && (|r| > 0 ==> (IsSpace(r[0]) <==> IsSpace(s[i])))
    decreases |s| - i
  {
    if i < |s| {
      if Hit(SpaceRun, s, i) {
        var e := SkipSpaces(s, i);
        CollapsedSpaces(s, e);
        var rest := ReplaceAll(s, SpaceRun, e);
        assert ReplaceAll(s, SpaceRun, i) == " " + rest;
        assert |rest| > 0 ==> !IsSpace(rest[0]);
      } else {
        CollapsedSpaces(s, i + 1);
        var rest := ReplaceAll(s, SpaceRun, i + 1);
        assert ReplaceAll(s, SpaceRun, i) == [s[i]] + rest;
      }
    }
  }

  /** Putting one character in front of a single-spaced, tight text keeps it so, as long as the
      new neighbours are allowed to touch. */
  lemma ConsKeepsShape(c: char, rest: string)
    requires NoSpaceRuns(rest) && TightPunctuation(rest)
    requires IsSpace(c) ==> c == ' '
    requires |rest| > 0 ==> !(IsSpace(c) && IsSpace(rest[0]))
    requires |rest| > 0 ==> !(c == ' ' && IsCssPunct(rest[0])) && !(IsCssPunct(c) && rest[0] == ' ')
    ensures NoSpaceRuns([c] + rest) && TightPunctuation([c] + rest)
  {
    var t := [c] + rest;
    assert forall k :: 1 <= k < |t| ==> t[k] == rest[k - 1];
  }

  /** What the punctuation pass promises of its output r from index i of s: single spaces, no
      space beside punctuation, and a first character that follows the input's. */
  predicate TightFrom(s: string, i: nat, r: string)
    requires i <= |s|
  {
    && NoSpaceRuns(r) && TightPunctuation(r)
    && (i < |s| && !IsSpace(s[i]) ==> |r| > 0 && !IsSpace(r[0]))
    && (i < |s| && !IsSpace(s[i]) && !IsCssPunct(s[i]) ==> |r| > 0 && r[0] == s[i])
    && (|r| > 0 && r[0] == ' ' ==> i < |s| && s[i] == ' ' && (i + 1 < |s| ==> !IsCssPunct(s[i + 1])))
  }

  /** The punctuation pass keeps single spaces, leaves no space beside punctuation, and its
      output begins with a non-space when the remaining input does. */
  lemma {:induction false} TightenedPunctuation(s: string, i: nat)
    requires i <= |s| && NoSpaceRuns(s)
    ensures TightFrom(s, i, ReplaceAll(s, PunctSpacing, i))
    decreases |s| - i
  {
    if i < |s| {
      TightenedPunctuation(s, if Hit(PunctSpacing, s, i) then PunctSpacing(s, i).value.end else i + 1);
      TightStep(s, i);
    }
  }

  // One step of the punctuation pass keeps the shape, whether it replaces a match or copies.
  lemma TightStep(s: string, i: nat)
    requires NoSpaceRuns(s) && i < |s|
    requires var next := if Hit(PunctSpacing, s, i) then PunctSpacing(s, i).value.end else i + 1;
      TightFrom(s, next, ReplaceAll(s, PunctSpacing, next))
    ensures TightFrom(s, i, ReplaceAll(s, PunctSpacing, i))
  {
    if Hit(PunctSpacing, s, i) {
      TightAfterHit(s, i);
    } else {
      TightAfterCopy(s, i);
    }
  }

  // A match becomes its mark, which may sit beside anything the rest of the pass gives.
  lemma TightAfterHit(s: string, i: nat)
    requires NoSpaceRuns(s) && Hit(PunctSpacing, s, i)
    requires TightFrom(s, PunctSpacing(s, i).value.end, ReplaceAll(s, PunctSpacing, PunctSpacing(s, i).value.end))
    ensures TightFrom(s, i, ReplaceAll(s, PunctSpacing, i))
  {
    var j := SkipSpaces(s, i);
    var e := SkipSpaces(s, j + 1);
    assert PunctSpacing(s, i) == Some(Match(e, [s[j]]));
    var rest := ReplaceAll(s, PunctSpacing, e);
    ReplaceAllReplaces(s, PunctSpacing, i);
    ConsKeepsShape(s[j], rest);
  }

  // A copied character keeps the shape: a copied space is single and has no mark beside it.
  lemma TightAfterCopy(s: string, i: nat)
    requires NoSpaceRuns(s) && i < |s| && !Hit(PunctSpacing, s, i)
    requires TightFrom(s, i + 1, ReplaceAll(s, PunctSpacing, i + 1))
    ensures TightFrom(s, i, ReplaceAll(s, PunctSpacing, i))
  {
    var j := SkipSpaces(s, i);
    var rest := ReplaceAll(s, PunctSpacing, i + 1);
    ReplaceAllCopies(s, PunctSpacing, i);
    if IsSpace(s[i]) {
      assert i + 1 < |s| ==> !IsSpace(s[i + 1]);
      assert j == i + 1;
    } else {
      assert j == i;
    }
    ConsKeepsShape(s[i], rest);
  }

  /** Trimming a single-spaced, tight text keeps both properties. */
  lemma TrimKeepsShape(t: string)
    requires NoSpaceRuns(t) && TightPunctuation(t)
    ensures NoSpaceRuns(Trim(t)) && TightPunctuation(Trim(t))
  {
    var a := TrimStartIndex(t);
    var r := Trim(t);
    assert forall k :: 0 <= k < |r| ==> r[k] == t[a + k];
  }

  // ---------------------------------------------------------------------------------------
  // What the minifier keeps

  /** The text with every whitespace character left out: what the minifier must not change. */
  function NonBlank(t: string): (r: string)
    ensures |r| <= |t|
    ensures forall k :: 0 <= k < |r| ==> !IsSpace(r[k])
  {
    if |t| == 0 then "" else (if IsSpace(t[0]) then "" else [t[0]]) + NonBlank(t[1..])
  }

  lemma {:induction false} NonBlankAppend(a: string, b: string)
    ensures NonBlank(a + b) == NonBlank(a) + NonBlank(b)
    decreases |a|
  {
    if |a| == 0 {
      assert a + b == b;
    } else {
      assert (a + b)[0] == a[0];
      assert (a + b)[1..] == a[1..] + b;
      NonBlankAppend(a[1..], b);
      var h := if IsSpace(a[0]) then "" else [a[0]];
      assert NonBlank(a + b) == h + (NonBlank(a[1..]) + NonBlank(b));
      assert NonBlank(a) == h + NonBlank(a[1..]);
    }
  }

  lemma {:induction false} NonBlankOfSpaces(t: string)
    requires forall k :: 0 <= k < |t| ==> IsSpace(t[k])
    ensures NonBlank(t) == ""
    decreases |t|
  {
    if |t| > 0 {
      NonBlankOfSpaces(t[1..]);
    }
  }

  // Cutting s at i < j and at j, with only whitespace between, loses nothing but whitespace.
  lemma SkipBlankPrefix(s: string, i: nat, j: nat)
    requires i <= j <= |s| && forall k :: i <= k < j ==> IsSpace(s[k])
    ensures NonBlank(s[i..]) == NonBlank(s[j..])
  {
    assert s[i..] == s[i..j] + s[j..];
    NonBlankAppend(s[i..j], s[j..]);
    NonBlankOfSpaces(s[i..j]);
  }

  // One copied character contributes itself, or nothing when it is whitespace.
  lemma NonBlankCons(s: string, i: nat, rest: string)
    requires i < |s| && NonBlank(rest) == NonBlank(s[i + 1..])
    ensures NonBlank([s[i]] + rest) == NonBlank(s[i..])
  {
    assert s[i..] == [s[i]] + s[i + 1..];
    NonBlankAppend([s[i]], rest);
    NonBlankAppend([s[i]], s[i + 1..]);
  }

  // Where no match starts, the copied character keeps the content.
  lemma CopyKeepsContent(s: string, m: Matcher, i: nat)
    requires i < |s| && !Hit(m, s, i)
    requires NonBlank(ReplaceAll(s, m, i + 1)) == NonBlank(s[i + 1..])
    ensures NonBlank(ReplaceAll(s, m, i)) == NonBlank(s[i..])
  {
    ReplaceAllCopies(s, m, i);
    NonBlankCons(s, i, ReplaceAll(s, m, i + 1));
  }

  // A match whose replacement has the content of the matched text keeps the content.
  lemma HitKeepsContent(s: string, m: Matcher, i: nat)
    requires Hit(m, s, i)
    requires NonBlank(m(s, i).value.replacement) == NonBlank(s[i..m(s, i).value.end])
    requires NonBlank(ReplaceAll(s, m, m(s, i).value.end)) == NonBlank(s[m(s, i).value.end..])
    ensures NonBlank(ReplaceAll(s, m, i)) == NonBlank(s[i..])
  {
    var e := m(s, i).value.end;
    ReplaceAllReplaces(s, m, i);
    NonBlankAppend(m(s, i).value.replacement, ReplaceAll(s, m, e));
    assert s[i..] == s[i..e] + s[e..];
    NonBlankAppend(s[i..e], s[e..]);
  }

  /** The whitespace pass changes whitespace only. */
  lemma {:induction false} SpaceRunsKeepContent(s: string, i: nat)
    requires i <= |s|
    ensures NonBlank(ReplaceAll(s, SpaceRun, i)) == NonBlank(s[i..])
    decreases |s| - i
  {
    if i < |s| {
      if Hit(SpaceRun, s, i) {
        SpaceRunsKeepContent(s, SpaceRun(s, i).value.end);
        SpaceRunContent(s, i);
        HitKeepsContent(s, SpaceRun, i);
      } else {
        SpaceRunsKeepContent(s, i + 1);
        CopyKeepsContent(s, SpaceRun, i);
      }
    }
  }

  // A whitespace run and the single space replacing it both have no content.
  lemma SpaceRunContent(s: string, i: nat)
    requires SpaceRun(s, i).Some? && SpaceRun(s, i).value.end <= |s|
    ensures NonBlank(SpaceRun(s, i).value.replacement) == NonBlank(s[i..SpaceRun(s, i).value.end])
  {
    var e := SkipSpaces(s, i);
    NonBlankOfSpaces(s[i..e]);
    NonBlankOfSpaces(" ");
  }

  /** The punctuation pass changes whitespace only: each match keeps its punctuation mark. */
  lemma {:induction false} PunctSpacingKeepsContent(s: string, i: nat)
    requires i <= |s|
    ensures NonBlank(ReplaceAll(s, PunctSpacing, i)) == NonBlank(s[i..])
    decreases |s| - i
  {
    if i < |s| {
      if Hit(PunctSpacing, s, i) {
        PunctSpacingKeepsContent(s, PunctSpacing(s, i).value.end);
        PunctContent(s, i);
        HitKeepsContent(s, PunctSpacing, i);
      } else {
        PunctSpacingKeepsContent(s, i + 1);
        CopyKeepsContent(s, PunctSpacing, i);
      }
    }
  }

  // A punctuation match holds whitespace around its mark, and is replaced by the mark.
  lemma PunctContent(s: string, i: nat)
    requires PunctSpacing(s, i).Some? && i <= PunctSpacing(s, i).value.end <= |s|
    ensures NonBlank(PunctSpacing(s, i).value.replacement) == NonBlank(s[i..PunctSpacing(s, i).value.end])
  {
    var j := SkipSpaces(s, i);
    var e := SkipSpaces(s, j + 1);
    var t := s[i..e];
    assert t == s[i..j] + ([s[j]] + s[j + 1..e]);
    NonBlankAppend(s[i..j], [s[j]] + s[j + 1..e]);
    NonBlankAppend([s[j]], s[j + 1..e]);
    NonBlankOfSpaces(s[i..j]);
    NonBlankOfSpaces(s[j + 1..e]);
    assert NonBlank([s[j]]) == [s[j]];
  }

  /** `trim` drops whitespace only. */
  lemma TrimKeepsContent(t: string)
    ensures NonBlank(Trim(t)) == NonBlank(t)
  {
    var a := TrimStartIndex(t);
    var r := Trim(t);
    var b := a + |r|;
    assert t[a..] == r + t[b..] by {
      assert t[a..] == t[a..b] + t[b..];
    }
    NonBlankAppend(r, t[b..]);
    NonBlankOfSpaces(t[b..]);
    SkipBlankPrefix(t, 0, a);
    assert t[0..] == t;
  }

  /** Besides the comments, the minifier removes whitespace and nothing else: every other
      character of the CSS survives, in order. */
  lemma OptimizeKeepsContent(css: string)
    ensures NonBlank(OptimizeCss(css)) == NonBlank(ReplaceAll(css, Comment, 0))
  {
    var noComments := ReplaceAll(css, Comment, 0);
    var collapsed := ReplaceAll(noComments, SpaceRun, 0);
    var tight := ReplaceAll(collapsed, PunctSpacing, 0);
    SpaceRunsKeepContent(noComments, 0);
    assert noComments[0..] == noComments;
    PunctSpacingKeepsContent(collapsed, 0);
    assert collapsed[0..] == collapsed;
    TrimKeepsContent(tight);
  }

  // CSS without a comment opener loses nothing to the comment pass.
  lemma CommentFreeUntouched(css: string)
    requires !Contains(css, "/*")
    ensures ReplaceAll(css, Comment, 0) == css
  {
    forall j | 0 <= j < |css|
      ensures !Hit(Comment, css, j)
    {
      assert !StartsAt(css, j, "/*");
    }
    ReplaceAllWithoutHit(css, Comment, 0);
  }

  /** CSS without comments comes out of the minifier with all of its non-blank characters. */
  lemma OptimizeCommentFree(css: string)
    requires !Contains(css, "/*")
    ensures NonBlank(OptimizeCss(css)) == NonBlank(css)
  {
    OptimizeKeepsContent(css);
    CommentFreeUntouched(css);
  }

  // ---------------------------------------------------------------------------------------
  // What the minifier does at a word break

  /** Neither whitespace nor one of the marks the punctuation pass tightens. */
  predicate PlainChar(c: char) { !IsSpace(c) && !IsCssPunct(c) }

  /** The whitespace pass works on x + y as on x and on y apart, when no whitespace run goes
      across the join. */
  lemma SpaceRunSplit(x: string, y: string)
    requires (|x| > 0 && !IsSpace(x[|x| - 1])) || (|y| > 0 && !IsSpace(y[0]))
    ensures ReplaceAll(x + y, SpaceRun, 0) == ReplaceAll(x, SpaceRun, 0) + ReplaceAll(y, SpaceRun, 0)
  {
    var s := x + y;
    assert SameHitsBefore(SpaceRun, s, x) by {
      assert s[..|x|] == x;
      forall j | 0 <= j < |x|
        ensures SpaceRun(s, j) == SpaceRun(x, j)
      {
        assert s[j] == x[j];
        if IsSpace(x[j]) {
          SkipSpacesPrefix(x, y, j);
        }
      }
    }
    assert SameHitsAfter(SpaceRun, s, |x|, y) by {
      assert s[|x|..] == y;
      forall j | 0 <= j < |y|
        ensures SpaceRun(y, j).Some? <==> SpaceRun(s, |x| + j).Some?
        ensures SpaceRun(y, j).Some? ==>
          SpaceRun(s, |x| + j) == Some(Match(|x| + SpaceRun(y, j).value.end, SpaceRun(y, j).value.replacement))
      {
        assert s[|x| + j] == y[j];
        SkipSpacesShift(x, y, j);
      }
    }
    ReplaceAllSplit(SpaceRun, x, y);
  }

  /** The punctuation pass works on x + y as on x and on y apart, when a plain character stands
      on one side of the join. */
  lemma PunctSplit(x: string, y: string)
    requires (|x| > 0 && PlainChar(x[|x| - 1])) || (|y| > 0 && PlainChar(y[0]))
    ensures ReplaceAll(x + y, PunctSpacing, 0) == ReplaceAll(x, PunctSpacing, 0) + ReplaceAll(y, PunctSpacing, 0)
  {
    var s := x + y;
    assert SameHitsBefore(PunctSpacing, s, x) by {
      assert s[..|x|] == x;
      forall j | 0 <= j < |x|
        ensures PunctSpacing(s, j) == PunctSpacing(x, j)
      {
        PunctPrefixAt(x, y, j);
      }
    }
    var m: Matcher := PunctSpacing;
    assert SameHitsAfter(m, s, |x|, y) by {
      assert s[|x|..] == y;
      forall j | 0 <= j < |y|
        ensures Hit(m, s, |x| + j) <==> Hit(m, y, j)
        ensures Hit(m, y, j) ==> m(s, |x| + j) == Some(Match(|x| + m(y, j).value.end, m(y, j).value.replacement))
      {
        PunctShiftAt(x, y, j);
      }
    }
    ReplaceAllSplit(m, x, y);
  }

  // Inside x, the punctuation matcher finds the same match in x + y as in x.
  lemma PunctPrefixAt(x: string, y: string, j: nat)
    requires (|x| > 0 && PlainChar(x[|x| - 1])) || (|y| > 0 && PlainChar(y[0]))
    requires j < |x|
    ensures PunctSpacing(x + y, j) == PunctSpacing(x, j)
  {
    var s := x + y;
    var p := SkipSpaces(x, j);
    SkipSpacesPrefix(x, y, j);
    if p < |x| {
      assert s[p] == x[p];
      if IsCssPunct(x[p]) {
        SkipSpacesPrefix(x, y, p + 1);
      }
    } else if |y| > 0 {
      assert s[p] == y[0];
    }
  }

  // Inside y, the punctuation matcher finds in x + y the match it finds in y, shifted by |x|.
  lemma PunctShiftAt(x: string, y: string, j: nat)
    requires j < |y|
    ensures Hit(PunctSpacing, x + y, |x| + j) <==> Hit(PunctSpacing, y, j)
    ensures Hit(PunctSpacing, y, j) ==>
      PunctSpacing(x + y, |x| + j) == Some(Match(|x| + PunctSpacing(y, j).value.end, PunctSpacing(y, j).value.replacement))
  {
    var s := x + y;
    var p := SkipSpaces(y, j);
    SkipSpacesShift(x, y, j);
    if p < |y| {
      assert s[|x| + p] == y[p];
      if IsCssPunct(y[p]) {
        SkipSpacesShift(x, y, p + 1);
      }
    }
  }

  // A whitespace run alone becomes one space.
  lemma SpaceRunOfBlank(w: string)
    requires |w| > 0 && forall k :: 0 <= k < |w| ==> IsSpace(w[k])
    ensures ReplaceAll(w, SpaceRun, 0) == " "
  {
    SpaceRunEnd(w, 0, |w|);
    ReplaceAllReplaces(w, SpaceRun, 0);
  }

  // A single non-space is left as it is by the whitespace pass, and a single plain character by
  // the punctuation pass; a lone space is left as it is by the punctuation pass.
  lemma SingleCharsKept(c: char)
    ensures !IsSpace(c) ==> ReplaceAll([c], SpaceRun, 0) == [c]
    ensures PlainChar(c) ==> ReplaceAll([c], PunctSpacing, 0) == [c]
    ensures ReplaceAll(" ", PunctSpacing, 0) == " "
  {
    if !IsSpace(c) {
      ReplaceAllCopies([c], SpaceRun, 0);
    }
    if PlainChar(c) {
      ReplaceAllCopies([c], PunctSpacing, 0);
    }
    assert SkipSpaces(" ", 0) == 1;
    ReplaceAllCopies(" ", PunctSpacing, 0);
  }

  // The whitespace pass over a + w + b: the run w between a and b becomes one space.
  lemma SpacePassAtBreak(a: string, w: string, b: string)
    requires |a| > 0 && !IsSpace(a[|a| - 1]) && |b| > 0 && !IsSpace(b[0])
    requires |w| > 0 && forall k :: 0 <= k < |w| ==> IsSpace(w[k])
    ensures ReplaceAll(a + w + b, SpaceRun, 0) == ReplaceAll(a, SpaceRun, 0) + " " + ReplaceAll(b, SpaceRun, 0)
  {
    assert a + w + b == a + (w + b);
    SpaceRunSplit(a, w + b);
    SpaceRunSplit(w, b);
    SpaceRunOfBlank(w);
    AppendAssoc(ReplaceAll(a, SpaceRun, 0), " ", ReplaceAll(b, SpaceRun, 0));
  }

  // The punctuation pass over x + " " + y, with a plain character on each side of the space,
  // keeps the space.
  lemma PunctPassAtBreak(x: string, y: string)
    requires |x| > 0 && PlainChar(x[|x| - 1]) && |y| > 0 && PlainChar(y[0])
    ensures ReplaceAll(x + " " + y, PunctSpacing, 0) == ReplaceAll(x, PunctSpacing, 0) + " " + ReplaceAll(y, PunctSpacing, 0)
  {
    assert x + " " + y == x + (" " + y);
    PunctSplit(x, " " + y);
    PunctSplit(" ", y);
    SingleCharsKept(y[0]);
    AppendAssoc(ReplaceAll(x, PunctSpacing, 0), " ", ReplaceAll(y, PunctSpacing, 0));
  }

  // Both passes keep a plain last character in place.
  lemma PassesKeepLast(x: string)
    requires |x| > 0 && PlainChar(x[|x| - 1])
    ensures var r := ReplaceAll(x, SpaceRun, 0); |r| > 0 && r[|r| - 1] == x[|x| - 1]
    ensures var r := ReplaceAll(x, PunctSpacing, 0); |r| > 0 && r[|r| - 1] == x[|x| - 1]
  {
    var c := x[|x| - 1];
    assert x == x[..|x| - 1] + [c];
    SingleCharsKept(c);
    SpaceRunSplit(x[..|x| - 1], [c]);
    PunctSplit(x[..|x| - 1], [c]);
  }

  // Both passes keep a plain first character in place.
  lemma PassesKeepFirst(y: string)
    requires |y| > 0 && PlainChar(y[0])
    ensures var r := ReplaceAll(y, SpaceRun, 0); |r| > 0 && r[0] == y[0]
    ensures var r := ReplaceAll(y, PunctSpacing, 0); |r| > 0 && r[0] == y[0]
  {
    ReplaceAllCopies(y, SpaceRun, 0);
    assert SkipSpaces(y, 0) == 0;
    ReplaceAllCopies(y, PunctSpacing, 0);
  }

  // Both passes over a + w + b, where a ends and b starts with a plain character: each side is
  // tightened apart, and the two are joined by one space.
  lemma TightAtBreak(a: string, w: string, b: string)
    requires |a| > 0 && PlainChar(a[|a| - 1]) && |b| > 0 && PlainChar(b[0])
    requires |w| > 0 && forall k :: 0 <= k < |w| ==> IsSpace(w[k])
    ensures var ta := ReplaceAll(ReplaceAll(a, SpaceRun, 0), PunctSpacing, 0);
      var tb := ReplaceAll(ReplaceAll(b, SpaceRun, 0), PunctSpacing, 0);
      && ReplaceAll(ReplaceAll(a + w + b, SpaceRun, 0), PunctSpacing, 0) == ta + " " + tb
      && |ta| > 0 && PlainChar(ta[|ta| - 1]) && |tb| > 0 && PlainChar(tb[0])
  {
    var ra := ReplaceAll(a, SpaceRun, 0);
    var rb := ReplaceAll(b, SpaceRun, 0);
    SpacePassAtBreak(a, w, b);
    PassesKeepLast(a);
    PassesKeepFirst(b);
    PunctPassAtBreak(ra, rb);
    PassesKeepLast(ra);
    PassesKeepFirst(rb);
  }

  /** Between two words, a whitespace run comes out of the minifier as one space: the minifier
      works on each side apart and joins the results with a single space, so `margin: 0  auto`
      becomes `margin:0 auto`. */
  lemma OptimizeKeepsSeparator(a: string, w: string, b: string)
    requires |a| > 0 && PlainChar(a[|a| - 1]) && |b| > 0 && PlainChar(b[0])
    requires |w| > 0 && forall k :: 0 <= k < |w| ==> IsSpace(w[k])
    requires !Contains(a + w + b, "/*")
    ensures OptimizeCss(a + w + b) == OptimizeCss(a) + " " + OptimizeCss(b)
  {
    var ta := ReplaceAll(ReplaceAll(a, SpaceRun, 0), PunctSpacing, 0);
    var tb := ReplaceAll(ReplaceAll(b, SpaceRun, 0), PunctSpacing, 0);
    assert OptimizeCss(a) == Trim(ta) && OptimizeCss(b) == Trim(tb) by {
      assert a + w + b == a + (w + b);
      ContainsInJoin(a, w + b, "/*");
      ContainsInJoin(a + w, b, "/*");
      CommentFreeUntouched(a);
      CommentFreeUntouched(b);
    }
    assert OptimizeCss(a + w + b) == Trim(ReplaceAll(ReplaceAll(a + w + b, SpaceRun, 0), PunctSpacing, 0)) by {
      CommentFreeUntouched(a + w + b);
    }
    TightAtBreak(a, w, b);
    TrimJoin(ta, tb);
  }
}
