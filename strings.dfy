/** Python string operations the transformer relies on: code-point ordering of
    strings and `str.split` with a literal separator. */
module Strings {
  import opened Wrappers

  /** Python's `a < b` on `str`: lexicographic by code point. */
  predicate StrLess(a: string, b: string)
    ensures StrLess(a, b) ==> a != b
    decreases |a|
  {
    if |a| == 0 then |b| > 0
    else |b| > 0 && (a[0] < b[0] || (a[0] == b[0] && StrLess(a[1..], b[1..])))
  }

  lemma {:induction false} StrLessIrreflexive(a: string)
    ensures !StrLess(a, a)
    decreases |a|
  {
    if |a| > 0 {
      StrLessIrreflexive(a[1..]);
    }
  }

  lemma {:induction false} StrLessTransitive(a: string, b: string, c: string)
    requires StrLess(a, b) && StrLess(b, c)
    ensures StrLess(a, c)
    decreases |a|
  {
    if |a| > 0 && a[0] == b[0] && b[0] == c[0] {
      StrLessTransitive(a[1..], b[1..], c[1..]);
    }
  }

  lemma {:induction false} StrLessTotal(a: string, b: string)
    requires a != b
    ensures StrLess(a, b) || StrLess(b, a)
    decreases |a|
  {
    if |a| > 0 && |b| > 0 && a[0] == b[0] {
      assert a == [a[0]] + a[1..] && b == [b[0]] + b[1..];
      StrLessTotal(a[1..], b[1..]);
    }
  }

  lemma StrLessAsymmetric(a: string, b: string)
    requires StrLess(a, b)
    ensures !StrLess(b, a)
  {
    if StrLess(b, a) {
      StrLessTransitive(a, b, a);
      StrLessIrreflexive(a);
    }
  }

  /** `sep` occurs in `s` at index `i`. */
  predicate StartsAt(s: string, sep: string, i: nat) {
    i + |sep| <= |s| && s[i..i + |sep|] == sep
  }

  /** Python's `sep in s`. */
  predicate Contains(s: string, sep: string) {
    exists i: nat | i <= |s| :: StartsAt(s, sep, i)
  }

  /** Python's `s.find(sep, from)`: the first index at or after `from` where
      `sep` occurs. */
  function FindFrom(s: string, sep: string, from: nat): (r: Option<nat>)
    requires from <= |s|
    ensures r.Some? ==> from <= r.value && StartsAt(s, sep, r.value)
    ensures forall j: nat :: from <= j && (r.None? || j < r.value) ==> !StartsAt(s, sep, j)
    decreases |s| - from
  {
    if StartsAt(s, sep, from) then Some(from)
    else if from == |s| then None
    else FindFrom(s, sep, from + 1)
  }

  /** Python's `sep.join(pieces)`. */
  function Join(pieces: seq<string>, sep: string): string
  {
    if |pieces| == 0 then ""
    else if |pieces| == 1 then pieces[0]
    else pieces[0] + sep + Join(pieces[1..], sep)
  }

  /** A string in which `sep` does not start anywhere before index `i` has no
      occurrence of `sep` in its first `i` characters. */
  lemma NoOccurrenceInPrefix(s: string, sep: string, i: nat)
    requires i <= |s| && |sep| > 0
    requires forall j: nat :: j < i ==> !StartsAt(s, sep, j)
    ensures !Contains(s[..i], sep)
  {
    if Contains(s[..i], sep) {
      var j: nat :| j <= i && StartsAt(s[..i], sep, j);
      assert s[..i][j..j + |sep|] == s[j..j + |sep|];
      assert StartsAt(s, sep, j);
    }
  }

  /** A prefix of a string without `sep` has no `sep` either. */
  lemma PrefixKeepsNoOccurrence(a: string, b: string, sep: string)
    requires a <= b && !Contains(b, sep)
    ensures !Contains(a, sep)
  {
    if Contains(a, sep) {
      var j: nat :| j <= |a| && StartsAt(a, sep, j);
      assert b[j..j + |sep|] == a[j..j + |sep|];
      assert StartsAt(b, sep, j);
    }
  }

  /** Python's `s.split(sep)` for a non-empty literal separator: the pieces
      between the non-overlapping occurrences of `sep`, scanned left to right. */
  function Split(s: string, sep: string): (pieces: seq<string>)
    requires |sep| > 0
    ensures |pieces| >= 1
    ensures pieces[0] <= s
    ensures |pieces| == 1 <==> !Contains(s, sep)
    ensures forall k :: 0 <= k < |pieces| ==> !Contains(pieces[k], sep)
    ensures Join(pieces, sep) == s
    decreases |s|
  {
    match FindFrom(s, sep, 0)
    case None =>
      [s]
    case Some(i) =>
      var rest := Split(s[i + |sep|..], sep);
      NoOccurrenceInPrefix(s, sep, i);
      assert s == s[..i] + sep + s[i + |sep|..];
      assert ([s[..i]] + rest)[1..] == rest;
      [s[..i]] + rest
  }

  /** The first piece of a split is the whole string or ends where the first
      separator starts. */
  lemma SplitHeadEndsAtSeparator(s: string, sep: string)
    requires |sep| > 0
    ensures Split(s, sep)[0] == s || StartsAt(s, sep, |Split(s, sep)[0]|)
  {
    var pieces := Split(s, sep);
    if |pieces| > 1 {
      var p := pieces[0];
      assert s == p + sep + Join(pieces[1..], sep);
      assert s[|p|..|p| + |sep|] == sep;
    }
  }
}
