/**
 * The JavaScript string operations the slide builder relies on:
 * `startsWith`, `indexOf` and `split` with a non-empty string separator
 * (`slice(2)` is `Deck.StripBulletMarker`), plus `join`, which undoes
 * `split` (`SplitJoin`); the converse fails when a piece holds the separator.
 */
module Strings {
  import opened Wrappers

  /** `s.startsWith(p)` */
  predicate StartsWith(s: string, p: string) {
    |p| <= |s| && s[..|p|] == p
  }

  /** `s.endsWith(p)` */
  predicate EndsWith(s: string, p: string) {
    |p| <= |s| && s[|s| - |p|..] == p
  }

  /** `pat` occurs in `s` starting at index `i`. */
  predicate OccursAt(s: string, pat: string, i: nat) {
    i + |pat| <= |s| && s[i..i + |pat|] == pat
  }

  /** `s.includes(pat)` */
  predicate Contains(s: string, pat: string) {
    exists i: nat | i <= |s| :: OccursAt(s, pat, i)
  }

  lemma OccursAtShift(s: string, pat: string, i: nat)
    requires |s| > 0
    ensures OccursAt(s, pat, i + 1) <==> OccursAt(s[1..], pat, i)
  {
    if i + 1 + |pat| <= |s| {
      assert s[1..][i..i + |pat|] == s[i + 1..i + 1 + |pat|];
    }
  }

  /**
   * `s.indexOf(pat)`: the leftmost index at which `pat` occurs, or None
   * where JavaScript answers -1.
   */
  function IndexOf(s: string, pat: string): (r: Option<nat>)
    requires |pat| > 0
    ensures r.None? <==> !Contains(s, pat)
    ensures r.Some? ==> OccursAt(s, pat, r.value)
    ensures r.Some? ==> forall j: nat :: j < r.value ==> !OccursAt(s, pat, j)
    decreases |s|
  {
    if |s| < |pat| then
      None
    else if s[..|pat|] == pat then
      assert OccursAt(s, pat, 0);
      Some(0)
    else
      match IndexOf(s[1..], pat)
      case None =>
        assert forall i: nat :: !OccursAt(s, pat, i) by {
          forall i: nat ensures !OccursAt(s, pat, i) {
            if i > 0 { OccursAtShift(s, pat, i - 1); }
          }
        }
        None
      case Some(j) =>
        assert OccursAt(s, pat, j + 1) by { OccursAtShift(s, pat, j); }
        assert forall k: nat :: k < j + 1 ==> !OccursAt(s, pat, k) by {
          forall k: nat | k < j + 1 ensures !OccursAt(s, pat, k) {
            if k > 0 { OccursAtShift(s, pat, k - 1); }
          }
        }
        Some(j + 1)
  }

  /**
   * `s.split(sep)` for a non-empty separator: the pieces between the
   * leftmost non-overlapping occurrences of `sep`. Every string, the empty
   * one included, has at least one piece.
   */
  function Split(s: string, sep: string): (parts: seq<string>)
    requires |sep| > 0
    ensures |parts| >= 1
    decreases |s|
  {
    match IndexOf(s, sep)
    case None => [s]
    case Some(i) => [s[..i]] + Split(s[i + |sep|..], sep)
  }

  /** `parts.join(sep)` */
  function Join(parts: seq<string>, sep: string): string {
    if |parts| == 0 then ""
    else if |parts| == 1 then parts[0]
    else parts[0] + sep + Join(parts[1..], sep)
  }

  lemma JoinCons(p: string, tail: seq<string>, sep: string)
    requires |tail| >= 1
    ensures Join([p] + tail, sep) == p + sep + Join(tail, sep)
  {
    assert ([p] + tail)[1..] == tail;
  }

  /** Cutting out an occurrence of `sep` and putting it back gives `s`. */
  lemma AroundOccurrence(s: string, sep: string, i: nat)
    requires OccursAt(s, sep, i)
    ensures s[..i] + sep + s[i + |sep|..] == s
  {
    assert s == s[..i] + s[i..i + |sep|] + s[i + |sep|..];
  }

  /** Joining the pieces of a split with the same separator gives back the input. */
  lemma {:induction false} SplitJoin(s: string, sep: string)
    requires |sep| > 0
    ensures Join(Split(s, sep), sep) == s
    decreases |s|
  {
    var r := IndexOf(s, sep);
    if r.Some? {
      var i := r.value;
      var rest := s[i + |sep|..];
      SplitJoin(rest, sep);
      JoinCons(s[..i], Split(rest, sep), sep);
      AroundOccurrence(s, sep, i);
    }
  }

  /** An occurrence inside a prefix of `s` is an occurrence in `s`. */
  lemma OccursInPrefix(s: string, pat: string, n: nat, j: nat)
    requires n <= |s|
    requires OccursAt(s[..n], pat, j)
    ensures OccursAt(s, pat, j) && j + |pat| <= n
  {
    assert s[..n][j..j + |pat|] == s[j..j + |pat|];
  }

  /** No piece of a split contains the separator. */
  lemma {:induction false} SplitPiecesFree(s: string, sep: string)
    requires |sep| > 0
    ensures forall p :: p in Split(s, sep) ==> !Contains(p, sep)
    decreases |s|
  {
    match IndexOf(s, sep)
    case None =>
    case Some(i) =>
      var rest := s[i + |sep|..];
      SplitPiecesFree(rest, sep);
      forall j: nat ensures !OccursAt(s[..i], sep, j) {
        if OccursAt(s[..i], sep, j) {
          OccursInPrefix(s, sep, i, j);
        }
      }
  }

  /** A string without the separator is its own single piece. */
  lemma SplitWithoutSeparator(s: string, sep: string)
    requires |sep| > 0 && !Contains(s, sep)
    ensures Split(s, sep) == [s]
  {
  }

  /** A string with no newline character holds no occurrence of "\n" or "\n\n". */
  lemma NoNewlineNoSeparator(s: string, sep: string)
    requires forall k :: 0 <= k < |s| ==> s[k] != '\n'
    requires |sep| > 0 && sep[0] == '\n'
    ensures !Contains(s, sep)
  {
    forall i: nat ensures !OccursAt(s, sep, i) {
      if i + |sep| <= |s| {
        assert s[i..i + |sep|][0] == s[i];
      }
    }
  }

  /**
   * The first piece of a split is the input up to the leftmost occurrence of
   * the separator, or the whole input when there is none; the other pieces
   * are the split of what follows that occurrence.
   */
  lemma {:induction false} SplitFirst(s: string, sep: string)
    requires |sep| > 0
    ensures var p := Split(s, sep)[0];
      && p <= s
      && !Contains(p, sep)
      && (forall j: nat :: j < |p| ==> !OccursAt(s, sep, j))
      && (p == s || OccursAt(s, sep, |p|))
      && (|Split(s, sep)| == 1 <==> p == s)
      && (p != s ==> Split(s, sep) == [p] + Split(s[|p| + |sep|..], sep))
  {
    SplitPiecesFree(s, sep);
    match IndexOf(s, sep)
    case None =>
    case Some(i) =>
      assert Split(s, sep)[0] == s[..i];
      if s[..i] == s {
        assert false;
      }
  }

  /** A string occurs in any text that has it between two other strings. */
  lemma OccursAfter(before: string, pat: string, after: string)
    ensures Contains(before + pat + after, pat)
  {
    var t := before + pat + after;
    assert t[|before|..|before| + |pat|] == pat;
    assert OccursAt(t, pat, |before|);
  }

  /** Text appended after an occurrence does not remove it. */
  lemma ContainsExtended(s: string, t: string, pat: string)
    requires Contains(s, pat)
    ensures Contains(s + t, pat)
  {
    var i: nat :| i <= |s| && OccursAt(s, pat, i);
    assert (s + t)[i..i + |pat|] == s[i..i + |pat|];
    assert OccursAt(s + t, pat, i);
  }

  /** Text prepended before an occurrence does not remove it. */
  lemma ContainsPrepended(s: string, t: string, pat: string)
    requires Contains(t, pat)
    ensures Contains(s + t, pat)
  {
    var i: nat :| i <= |t| && OccursAt(t, pat, i);
    assert (s + t)[|s| + i..|s| + i + |pat|] == t[i..i + |pat|];
    assert OccursAt(s + t, pat, |s| + i);
  }
}
