/** The fit-time statistics of pandas: `Series.median()` over the present
    values of a numeric column and `Series.mode()[0]` over the present values of
    a text column. */
module Statistics {
  import opened Wrappers
  import opened Strings

  predicate Sorted(s: seq<real>) {
    forall i, j :: 0 <= i < j < |s| ==> s[i] <= s[j]
  }

  function Insert(x: real, s: seq<real>): seq<real>
  {
    if |s| == 0 then [x]
    else if x <= s[0] then [x] + s
    else [s[0]] + Insert(x, s[1..])
  }

  /** Ascending order of the present values (insertion sort). */
  function Sort(s: seq<real>): seq<real>
  {
    if |s| == 0 then [] else Insert(s[0], Sort(s[1..]))
  }

  /** Prepending a value no larger than every element keeps a sequence sorted. */
  lemma PrependKeepsOrder(x: real, s: seq<real>)
    requires Sorted(s)
    requires forall k :: 0 <= k < |s| ==> x <= s[k]
    ensures Sorted([x] + s)
  {
    var r := [x] + s;
    forall i, j | 0 <= i < j < |r|
      ensures r[i] <= r[j]
    {
      if i > 0 {
        assert r[i] == s[i - 1] && r[j] == s[j - 1];
      } else {
        assert r[j] == s[j - 1];
      }
    }
  }

  /** Insertion adds exactly one occurrence of the inserted value. */
  lemma {:induction false} InsertAddsOne(x: real, s: seq<real>)
    ensures multiset(Insert(x, s)) == multiset(s) + multiset{x}
  {
    if |s| > 0 && x > s[0] {
      InsertAddsOne(x, s[1..]);
      assert s == [s[0]] + s[1..];
    }
  }

  /** A lower bound of a sequence and of the inserted value bounds the result. */
  lemma {:induction false} InsertKeepsBound(x: real, s: seq<real>, b: real)
    requires b <= x
    requires forall k :: 0 <= k < |s| ==> b <= s[k]
    ensures forall k :: 0 <= k < |Insert(x, s)| ==> b <= Insert(x, s)[k]
  {
    if |s| > 0 && x > s[0] {
      InsertKeepsBound(x, s[1..], b);
      var r := Insert(x, s);
      forall k | 0 <= k < |r|
        ensures b <= r[k]
      {
        if k > 0 {
          assert r[k] == Insert(x, s[1..])[k - 1];
        }
      }
    }
  }

  lemma {:induction false} InsertKeepsOrder(x: real, s: seq<real>)
    requires Sorted(s)
    ensures Sorted(Insert(x, s))
    ensures multiset(Insert(x, s)) == multiset(s) + multiset{x}
  {
    InsertAddsOne(x, s);
    if |s| == 0 {
    } else if x <= s[0] {
      PrependKeepsOrder(x, s);
    } else {
      var tail := s[1..];
      assert Sorted(tail) by {
        forall i, j | 0 <= i < j < |tail|
          ensures tail[i] <= tail[j]
        {
          assert tail[i] == s[i + 1] && tail[j] == s[j + 1];
        }
      }
      assert forall k :: 0 <= k < |tail| ==> s[0] <= tail[k] by {
        forall k | 0 <= k < |tail|
          ensures s[0] <= tail[k]
        {
          assert tail[k] == s[k + 1];
        }
      }
      InsertKeepsOrder(x, tail);
      InsertKeepsBound(x, tail, s[0]);
      PrependKeepsOrder(s[0], Insert(x, tail));
    }
  }

  lemma {:induction false} SortOrders(s: seq<real>)
    ensures Sorted(Sort(s))
    ensures multiset(Sort(s)) == multiset(s)
    ensures |Sort(s)| == |s|
  {
    if |s| > 0 {
      SortOrders(s[1..]);
      InsertKeepsOrder(s[0], Sort(s[1..]));
      assert s == [s[0]] + s[1..];
      assert |Sort(s)| == |multiset(Sort(s))|;
    }
  }

  /** Number of values strictly below `m`. */
  function CountBelow(xs: seq<real>, m: real): nat
  {
    if |xs| == 0 then 0 else (if xs[0] < m then 1 else 0) + CountBelow(xs[1..], m)
  }

  /** Number of values strictly above `m`. */
  function CountAbove(xs: seq<real>, m: real): nat
  {
    if |xs| == 0 then 0 else (if xs[0] > m then 1 else 0) + CountAbove(xs[1..], m)
  }

  lemma {:induction false} CountsOfInsert(x: real, s: seq<real>, m: real)
    ensures CountBelow(Insert(x, s), m) == CountBelow(s, m) + (if x < m then 1 else 0)
    ensures CountAbove(Insert(x, s), m) == CountAbove(s, m) + (if x > m then 1 else 0)
  {
    if |s| > 0 && x > s[0] {
      CountsOfInsert(x, s[1..], m);
      assert ([s[0]] + Insert(x, s[1..]))[1..] == Insert(x, s[1..]);
    } else if |s| > 0 {
      assert ([x] + s)[1..] == s;
    }
  }

  lemma {:induction false} CountsOfSort(s: seq<real>, m: real)
    ensures CountBelow(Sort(s), m) == CountBelow(s, m)
    ensures CountAbove(Sort(s), m) == CountAbove(s, m)
  {
    if |s| > 0 {
      CountsOfSort(s[1..], m);
      CountsOfInsert(s[0], Sort(s[1..]), m);
    }
  }

  lemma {:induction false} CountsOfConcat(a: seq<real>, b: seq<real>, m: real)
    ensures CountBelow(a + b, m) == CountBelow(a, m) + CountBelow(b, m)
    ensures CountAbove(a + b, m) == CountAbove(a, m) + CountAbove(b, m)
  {
    if |a| > 0 {
      CountsOfConcat(a[1..], b, m);
      assert (a + b)[1..] == a[1..] + b;
    } else {
      assert a + b == b;
    }
  }

  lemma {:induction false} CountsAtMostLength(s: seq<real>, m: real)
    ensures CountBelow(s, m) <= |s| && CountAbove(s, m) <= |s|
  {
    if |s| > 0 {
      CountsAtMostLength(s[1..], m);
    }
  }

  lemma {:induction false} NoneBelow(s: seq<real>, m: real)
    requires forall i :: 0 <= i < |s| ==> m <= s[i]
    ensures CountBelow(s, m) == 0
  {
    if |s| > 0 {
      NoneBelow(s[1..], m);
    }
  }

  lemma {:induction false} NoneAbove(s: seq<real>, m: real)
    requires forall i :: 0 <= i < |s| ==> s[i] <= m
    ensures CountAbove(s, m) == 0
  {
    if |s| > 0 {
      NoneAbove(s[1..], m);
    }
  }

  /** In a sorted sequence, the values below `m` all sit before index `k`
      when `m <= s[k]`, and the values above `m` all sit at `k` or later when
      `s[k - 1] <= m`. */
  lemma SortedCounts(s: seq<real>, m: real, k: nat)
    requires Sorted(s) && k <= |s|
    ensures k < |s| && m <= s[k] ==> CountBelow(s, m) <= k
    ensures 0 < k && s[k - 1] <= m ==> CountAbove(s, m) <= |s| - k
  {
    assert s == s[..k] + s[k..];
    CountsOfConcat(s[..k], s[k..], m);
    CountsAtMostLength(s[..k], m);
    CountsAtMostLength(s[k..], m);
    if k < |s| && m <= s[k] {
      NoneBelow(s[k..], m);
    }
    if 0 < k && s[k - 1] <= m {
      NoneAbove(s[..k], m);
    }
  }

  /** pandas `Series.median()` (NaN skipped): None (NaN) when no value is
      present; the middle value of the sorted values for an odd count, the mean
      of the two middle values for an even count. */
  function Median(xs: seq<real>): (m: Option<real>)
    ensures m.None? <==> |xs| == 0
  {
    if |xs| == 0 then None
    else
      SortOrders(xs);
      var s := Sort(xs);
      var n := |s|;
      if n % 2 == 1 then Some(s[n / 2]) else Some((s[n / 2 - 1] + s[n / 2]) / 2.0)
  }

  /** The median splits the values in half: at most half of them lie below it,
      at most half above it, and it lies between the smallest and the largest.
      For an odd count it is one of the values. */
  lemma MedianSplitsValues(xs: seq<real>, m: real)
    requires Median(xs) == Some(m)
    ensures 2 * CountBelow(xs, m) <= |xs| && 2 * CountAbove(xs, m) <= |xs|
    ensures exists i :: 0 <= i < |xs| && xs[i] <= m
    ensures exists j :: 0 <= j < |xs| && m <= xs[j]
    ensures |xs| % 2 == 1 ==> m in xs
  {
    SortOrders(xs);
    CountsOfSort(xs, m);
    var s := Sort(xs);
    var n := |s|;
    var k := n / 2;
    var lo, hi;
    if n % 2 == 1 {
      assert m == s[k];
      SortedCounts(s, m, k);
      SortedCounts(s, m, k + 1);
      lo, hi := s[k], s[k];
    } else {
      assert m == (s[k - 1] + s[k]) / 2.0;
      assert s[k - 1] <= s[k];
      SortedCounts(s, m, k);
      lo, hi := s[k - 1], s[k];
    }
    assert lo in multiset(xs) && hi in multiset(xs);
    var i :| 0 <= i < |xs| && xs[i] == lo;
    var j :| 0 <= j < |xs| && xs[j] == hi;
  }

  /** `lo` is the n/2-th and `hi` the (n/2 + 1)-th smallest value. */
  predicate MiddlePair(xs: seq<real>, lo: real, hi: real) {
    && lo in xs && hi in xs
    && 2 * CountBelow(xs, lo) + 2 <= |xs| && 2 * CountAbove(xs, lo) <= |xs|
    && 2 * CountBelow(xs, hi) <= |xs| && 2 * CountAbove(xs, hi) + 2 <= |xs|
  }

  /** For an even count the median is the mean of the two middle values:
      the lower one has at most n/2 - 1 values below it and at most n/2 above,
      the upper one at most n/2 below and at most n/2 - 1 above. Those bounds
      single out the n/2-th and the (n/2 + 1)-th smallest value
      (MiddlePairIsUnique). */
  lemma MedianOfEvenCount(xs: seq<real>, m: real)
    requires Median(xs) == Some(m) && |xs| % 2 == 0
    ensures exists lo, hi :: MiddlePair(xs, lo, hi) && m == (lo + hi) / 2.0
  {
    SortOrders(xs);
    var s := Sort(xs);
    var k := |s| / 2;
    var lo, hi := s[k - 1], s[k];
    assert m == (lo + hi) / 2.0;
    CountsOfSort(xs, lo);
    CountsOfSort(xs, hi);
    SortedCounts(s, lo, k - 1);
    SortedCounts(s, lo, k);
    SortedCounts(s, hi, k);
    SortedCounts(s, hi, k + 1);
    assert lo in multiset(xs) && hi in multiset(xs);
    assert MiddlePair(xs, lo, hi);
  }

  lemma {:induction false} AllBelow(s: seq<real>, m: real)
    requires forall i :: 0 <= i < |s| ==> s[i] < m
    ensures CountBelow(s, m) == |s|
  {
    if |s| > 0 {
      AllBelow(s[1..], m);
    }
  }

  lemma {:induction false} AllAbove(s: seq<real>, m: real)
    requires forall i :: 0 <= i < |s| ==> s[i] > m
    ensures CountAbove(s, m) == |s|
  {
    if |s| > 0 {
      AllAbove(s[1..], m);
    }
  }

  /** A value with at most `j` values below it and at most `|xs| - 1 - j`
      above it is the value at index `j` of the sorted values. */
  lemma OrderStatistic(xs: seq<real>, v: real, j: nat)
    requires j < |xs|
    requires CountBelow(xs, v) <= j && CountAbove(xs, v) <= |xs| - 1 - j
    ensures j < |Sort(xs)| && v == Sort(xs)[j]
  {
    SortOrders(xs);
    CountsOfSort(xs, v);
    var s := Sort(xs);
    assert s == s[..j] + s[j..];
    assert s == s[..j + 1] + s[j + 1..];
    if v < s[j] {
      AllAbove(s[j..], v);
      CountsOfConcat(s[..j], s[j..], v);
    } else if v > s[j] {
      AllBelow(s[..j + 1], v);
      CountsOfConcat(s[..j + 1], s[j + 1..], v);
    }
  }

  /** The middle pair of an even count is unique. */
  lemma MiddlePairIsUnique(xs: seq<real>, lo: real, hi: real, lo': real, hi': real)
    requires |xs| % 2 == 0
    requires MiddlePair(xs, lo, hi) && MiddlePair(xs, lo', hi')
    ensures lo == lo' && hi == hi'
  {
    var k := |xs| / 2;
    OrderStatistic(xs, lo, k - 1);
    OrderStatistic(xs, lo', k - 1);
    OrderStatistic(xs, hi, k);
    OrderStatistic(xs, hi', k);
  }

  /** Number of occurrences of `v`. */
  function Occurrences(xs: seq<string>, v: string): nat
  {
    if |xs| == 0 then 0 else (if xs[0] == v then 1 else 0) + Occurrences(xs[1..], v)
  }

  lemma {:induction false} OccurringValuesArePresent(xs: seq<string>, v: string)
    ensures Occurrences(xs, v) > 0 <==> v in xs
  {
    if |xs| > 0 {
      OccurringValuesArePresent(xs[1..], v);
      assert xs == [xs[0]] + xs[1..];
    }
  }

  /** `m` is what `Series.mode()[0]` picks: a present value that occurs at
      least as often as any other, and the smallest of those that tie with it
      (`mode()` returns the modes sorted). */
  ghost predicate IsMostFrequent(xs: seq<string>, m: string) {
    && m in xs
    && (forall v :: Occurrences(xs, v) <= Occurrences(xs, m))
    && (forall v :: Occurrences(xs, v) == Occurrences(xs, m) ==> v == m || StrLess(m, v))
  }

  /** `a` goes before `b` in the order `mode()` lists values in. */
  predicate Preferred(xs: seq<string>, a: string, b: string) {
    Occurrences(xs, a) > Occurrences(xs, b) || (Occurrences(xs, a) == Occurrences(xs, b) && StrLess(a, b))
  }

  function MostFrequentAmong(xs: seq<string>, candidates: seq<string>): string
    requires |candidates| > 0
  {
    if |candidates| == 1 then candidates[0]
    else
      var best := MostFrequentAmong(xs, candidates[1..]);
      if Preferred(xs, candidates[0], best) then candidates[0] else best
  }

  lemma {:induction false} MostFrequentAmongIsBest(xs: seq<string>, candidates: seq<string>)
    requires |candidates| > 0
    ensures MostFrequentAmong(xs, candidates) in candidates
    ensures forall c :: c in candidates ==> c == MostFrequentAmong(xs, candidates) || Preferred(xs, MostFrequentAmong(xs, candidates), c)
  {
    if |candidates| > 1 {
      var c0, rest := candidates[0], candidates[1..];
      MostFrequentAmongIsBest(xs, rest);
      var best := MostFrequentAmong(xs, rest);
      assert candidates == [c0] + rest;
      if Preferred(xs, c0, best) {
        forall c | c in rest && c != best
          ensures c == c0 || Preferred(xs, c0, c)
        {
          if Occurrences(xs, c0) == Occurrences(xs, best) && Occurrences(xs, best) == Occurrences(xs, c) {
            StrLessTransitive(c0, best, c);
          }
        }
      } else if c0 != best {
        StrLessTotal(c0, best);
      }
    }
  }

  /** pandas `Series.mode()[0]` over the present values: None when there are
      none (the source then fails with an index error). */
  function Mode(xs: seq<string>): (r: Option<string>)
    ensures r.None? <==> |xs| == 0
    ensures r.Some? ==> IsMostFrequent(xs, r.value)
  {
    if |xs| == 0 then None
    else
      var m := MostFrequentAmong(xs, xs);
      MostFrequentAmongIsBest(xs, xs);
      assert IsMostFrequent(xs, m) by {
        OccurringValuesArePresent(xs, m);
        forall v
          ensures Occurrences(xs, v) <= Occurrences(xs, m)
          ensures Occurrences(xs, v) == Occurrences(xs, m) ==> v == m || StrLess(m, v)
        {
          OccurringValuesArePresent(xs, v);
        }
      }
      Some(m)
  }

  /** The mode is the only value with the IsMostFrequent property. */
  lemma ModeIsTheMostFrequent(xs: seq<string>, m: string)
    ensures Mode(xs) == Some(m) <==> IsMostFrequent(xs, m)
  {
    if IsMostFrequent(xs, m) {
      var r := Mode(xs).value;
      if r != m {
        assert StrLess(r, m) && StrLess(m, r);
        StrLessAsymmetric(r, m);
      }
    }
  }
}
