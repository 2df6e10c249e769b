/** `String.prototype.replace` and `RegExp.prototype.test` for the source's regular expressions.

    A regular expression is represented by its matcher: given the whole subject string and a
    start index, the matcher returns the end of the match that the JavaScript backtracking engine
    finds when it starts exactly there, together with the replacement text (a fixed string, the
    expanded `$1 $2` template, or what a replacer callback returns). Scanning for the leftmost
    match and continuing after each match is then the same for every expression. */
module Scan {
  import opened Wrappers

  datatype Match = Match(end: nat, replacement: string)

  type Matcher = (string, nat) -> Option<Match>

  /** The matcher finds a non-empty match inside s at i. */
  predicate Hit(m: Matcher, s: string, i: nat) {
    i < |s| && m(s, i).Some? && i < m(s, i).value.end <= |s|
  }

  /** `s.replace(/re/g, ...)`, applied to the part of s from index i on. */
  function ReplaceAll(s: string, m: Matcher, i: nat): (r: string)
    requires i <= |s|
    decreases |s| - i
  {
    if i == |s| then ""
    else if Hit(m, s, i) then m(s, i).value.replacement + ReplaceAll(s, m, m(s, i).value.end)
    else [s[i]] + ReplaceAll(s, m, i + 1)
  }

  /** One step of a global replacement where no match starts: the character is copied. */
  lemma ReplaceAllCopies(s: string, m: Matcher, i: nat)
    requires i < |s| && !Hit(m, s, i)
    ensures ReplaceAll(s, m, i) == [s[i]] + ReplaceAll(s, m, i + 1)
  {
  }

  /** One step of a global replacement where a match starts: its replacement is emitted. */
  lemma ReplaceAllReplaces(s: string, m: Matcher, i: nat)
    requires Hit(m, s, i)
    ensures ReplaceAll(s, m, i) == m(s, i).value.replacement + ReplaceAll(s, m, m(s, i).value.end)
  {
  }

  /** Where the leftmost match at or after i starts. */
  function FirstHit(s: string, m: Matcher, i: nat): (r: Option<nat>)
    requires i <= |s|
    ensures r.Some? ==> i <= r.value < |s| && Hit(m, s, r.value)
    ensures r.Some? ==> forall j :: i <= j < r.value ==> !Hit(m, s, j)
    ensures r.None? ==> forall j :: i <= j < |s| ==> !Hit(m, s, j)
    decreases |s| - i
  {
    if i == |s| then None
    else if Hit(m, s, i) then Some(i)
    else FirstHit(s, m, i + 1)
  }

  /** The first match at or after i is at k when there is one at k and none before it. */
  lemma FirstHitIs(s: string, m: Matcher, i: nat, k: nat)
    requires i <= k < |s| && Hit(m, s, k)
    requires forall j :: i <= j < k ==> !Hit(m, s, j)
    ensures FirstHit(s, m, i) == Some(k)
  {
  }

  /** `s.replace(/re/, ...)`: only the leftmost match is replaced. */
  function ReplaceFirst(s: string, m: Matcher): (r: string)
  {
    match FirstHit(s, m, 0)
    case None => s
    case Some(i) => s[..i] + m(s, i).value.replacement + s[m(s, i).value.end..]
  }

  /** Without a match from i on, a global replacement leaves the rest of s as it is. */
  lemma {:induction false} ReplaceAllWithoutHit(s: string, m: Matcher, i: nat)
    requires i <= |s|
    requires forall j :: i <= j < |s| ==> !Hit(m, s, j)
    ensures ReplaceAll(s, m, i) == s[i..]
    decreases |s| - i
  {
    if i < |s| {
      ReplaceAllWithoutHit(s, m, i + 1);
      assert s[i..] == [s[i]] + s[i + 1..];
    }
  }

  /** A character property that holds throughout the rest of s and throughout every
      replacement still holds throughout the result. */
  lemma {:induction false} ReplaceAllKeeps(s: string, m: Matcher, i: nat, p: char -> bool)
    requires i <= |s|
    requires forall k :: i <= k < |s| ==> p(s[k])
    requires forall j :: i <= j < |s| && Hit(m, s, j) ==>
      forall k :: 0 <= k < |m(s, j).value.replacement| ==> p(m(s, j).value.replacement[k])
    ensures forall k :: 0 <= k < |ReplaceAll(s, m, i)| ==> p(ReplaceAll(s, m, i)[k])
    decreases |s| - i
  {
    if i < |s| {
      var head := if Hit(m, s, i) then m(s, i).value.replacement else [s[i]];
      var next := if Hit(m, s, i) then m(s, i).value.end else i + 1;
      ReplaceAllKeeps(s, m, next, p);
      assert ReplaceAll(s, m, i) == head + ReplaceAll(s, m, next);
    }
  }

  /** A matcher whose every replacement is empty only ever deletes: the result is never longer. */
  lemma {:induction false} DeletingReplaceShrinks(s: string, m: Matcher, i: nat)
    requires i <= |s|
    requires forall j :: i <= j < |s| && Hit(m, s, j) ==> m(s, j).value.replacement == ""
    ensures |ReplaceAll(s, m, i)| <= |s| - i
    ensures (exists j :: i <= j < |s| && Hit(m, s, j)) ==> |ReplaceAll(s, m, i)| < |s| - i
    decreases |s| - i
  {
    if i < |s| {
      if Hit(m, s, i) {
        var e := m(s, i).value.end;
        DeletingReplaceShrinks(s, m, e);
        assert ReplaceAll(s, m, i) == "" + ReplaceAll(s, m, e);
      } else {
        DeletingReplaceShrinks(s, m, i + 1);
        assert |ReplaceAll(s, m, i)| == 1 + |ReplaceAll(s, m, i + 1)|;
        if exists j :: i <= j < |s| && Hit(m, s, j) {
          var j :| i <= j < |s| && Hit(m, s, j);
          assert i + 1 <= j;
        }
      }
    }
  }

  // ---------------------------------------------------------------------------------------
  // Replacing in a joined text

  /** s starts with p, and in p's positions the matcher finds in s exactly the matches it finds
      in p alone. */
  predicate SameHitsBefore(m: Matcher, s: string, p: string) {
    && |p| <= |s| && s[..|p|] == p
    && forall j :: 0 <= j < |p| ==>
         (Hit(m, s, j) <==> Hit(m, p, j)) && (Hit(m, p, j) ==> m(s, j) == m(p, j))
  }

  /** s continues with q from k, and in q's positions the matcher finds in s exactly the
      matches it finds in q alone, shifted by k. */
  predicate SameHitsAfter(m: Matcher, s: string, k: nat, q: string) {
    && k + |q| == |s| && s[k..] == q
    && forall j :: 0 <= j < |q| ==>
         (Hit(m, s, k + j) <==> Hit(m, q, j))
         && (Hit(m, q, j) ==> m(s, k + j) == Some(Match(k + m(q, j).value.end, m(q, j).value.replacement)))
  }

  lemma {:induction false} ReplaceAllPrefix(m: Matcher, s: string, p: string, i: nat)
    requires SameHitsBefore(m, s, p) && i <= |p|
    ensures ReplaceAll(s, m, i) == ReplaceAll(p, m, i) + ReplaceAll(s, m, |p|)
    decreases |p| - i
  {
    if i < |p| {
      ReplaceAllPrefix(m, s, p, if Hit(m, p, i) then m(p, i).value.end else i + 1);
      PrefixStep(m, s, p, i);
    }
  }

  // One step of the scan inside p: s and p emit the same text and move to the same place.
  lemma PrefixStep(m: Matcher, s: string, p: string, i: nat)
    requires SameHitsBefore(m, s, p) && i < |p|
    requires var next := if Hit(m, p, i) then m(p, i).value.end else i + 1;
      ReplaceAll(s, m, next) == ReplaceAll(p, m, next) + ReplaceAll(s, m, |p|)
    ensures ReplaceAll(s, m, i) == ReplaceAll(p, m, i) + ReplaceAll(s, m, |p|)
  {
    var head := if Hit(m, p, i) then m(p, i).value.replacement else [p[i]];
    var next := if Hit(m, p, i) then m(p, i).value.end else i + 1;
    assert s[i] == p[i] by { assert s[..|p|][i] == s[i]; }
    assert ReplaceAll(s, m, i) == head + ReplaceAll(s, m, next);
    assert ReplaceAll(p, m, i) == head + ReplaceAll(p, m, next);
    assert head + (ReplaceAll(p, m, next) + ReplaceAll(s, m, |p|))
      == (head + ReplaceAll(p, m, next)) + ReplaceAll(s, m, |p|);
  }

  lemma {:induction false} ReplaceAllSuffix(m: Matcher, s: string, k: nat, q: string, i: nat)
    requires SameHitsAfter(m, s, k, q) && i <= |q|
    ensures ReplaceAll(s, m, k + i) == ReplaceAll(q, m, i)
    decreases |q| - i
  {
    if i < |q| {
      ReplaceAllSuffix(m, s, k, q, if Hit(m, q, i) then m(q, i).value.end else i + 1);
      SuffixStep(m, s, k, q, i);
    }
  }

  // One step of the scan inside q: s and q emit the same text and move to places k apart.
  lemma SuffixStep(m: Matcher, s: string, k: nat, q: string, i: nat)
    requires SameHitsAfter(m, s, k, q) && i < |q|
    requires var next := if Hit(m, q, i) then m(q, i).value.end else i + 1;
      ReplaceAll(s, m, k + next) == ReplaceAll(q, m, next)
    ensures ReplaceAll(s, m, k + i) == ReplaceAll(q, m, i)
  {
    if Hit(m, q, i) {
      var e := m(q, i).value.end;
      assert ReplaceAll(s, m, k + e) == ReplaceAll(q, m, e);
      assert m(s, k + i) == Some(Match(k + e, m(q, i).value.replacement));
      ReplaceAllReplaces(s, m, k + i);
      ReplaceAllReplaces(q, m, i);
    } else {
      assert ReplaceAll(s, m, k + i + 1) == ReplaceAll(q, m, i + 1);
      assert !Hit(m, s, k + i);
      assert s[k + i] == q[i] by { assert s[k..][i] == s[k + i]; }
      ReplaceAllCopies(s, m, k + i);
      ReplaceAllCopies(q, m, i);
    }
  }

  /** Where the matcher sees the same matches in p + q as in p and in q on their own, the
      global replacement over the joined text is the two replacements joined. */
  lemma ReplaceAllSplit(m: Matcher, p: string, q: string)
    requires SameHitsBefore(m, p + q, p) && SameHitsAfter(m, p + q, |p|, q)
    ensures ReplaceAll(p + q, m, 0) == ReplaceAll(p, m, 0) + ReplaceAll(q, m, 0)
  {
    ReplaceAllPrefix(m, p + q, p, 0);
    ReplaceAllSuffix(m, p + q, |p|, q, 0);
  }
}
