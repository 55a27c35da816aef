/** The learned bins for Fare and Age: pandas `Interval`s closed on the right,
    as `pd.qcut` and `pd.cut` produce them, and the first-match lookup the
    transformer uses to place a value in one of them. */
module Intervals {
  import opened Wrappers

  /** The right-closed interval (lo, hi]. */
  datatype Interval = Interval(lo: real, hi: real)

  /** Python's `value in interval`; a NaN value (None) is in no interval. */
  predicate InInterval(v: Option<real>, iv: Interval) {
    v.Some? && iv.lo < v.value <= iv.hi
  }

  /** The interval list searched in order: the first interval containing `v`,
      or None when none does. */
  function Lookup(v: Option<real>, intervals: seq<Interval>): (r: Option<Interval>)
    ensures r.Some? ==> r.value in intervals && InInterval(v, r.value)
    ensures r.None? ==> forall k :: 0 <= k < |intervals| ==> !InInterval(v, intervals[k])
  {
    if |intervals| == 0 then None
    else if InInterval(v, intervals[0]) then Some(intervals[0])
    else Lookup(v, intervals[1..])
  }

  /** The interval Lookup returns is the first one, in list order, that contains
      the value; it returns None exactly when no interval contains it. */
  lemma {:induction false} LookupFindsFirst(v: Option<real>, intervals: seq<Interval>)
    ensures Lookup(v, intervals).None? <==> forall k :: 0 <= k < |intervals| ==> !InInterval(v, intervals[k])
    ensures Lookup(v, intervals).Some? ==>
      exists k :: 0 <= k < |intervals| && intervals[k] == Lookup(v, intervals).value
        && InInterval(v, intervals[k]) && forall j :: 0 <= j < k ==> !InInterval(v, intervals[j])
  {
    if |intervals| > 0 && !InInterval(v, intervals[0]) {
      var rest := intervals[1..];
      LookupFindsFirst(v, rest);
      if Lookup(v, rest).Some? {
        var k :| 0 <= k < |rest| && rest[k] == Lookup(v, rest).value
          && InInterval(v, rest[k]) && forall j :: 0 <= j < k ==> !InInterval(v, rest[j]);
        assert intervals[k + 1] == rest[k];
        forall j | 0 <= j < k + 1
          ensures !InInterval(v, intervals[j])
        {
          if j > 0 {
            assert intervals[j] == rest[j - 1];
          }
        }
      } else {
        forall k | 0 <= k < |intervals|
          ensures !InInterval(v, intervals[k])
        {
          if k > 0 {
            assert intervals[k] == rest[k - 1];
          }
        }
      }
    }
  }

  /** No two intervals of the list share a value. */
  predicate PairwiseDisjoint(intervals: seq<Interval>) {
    forall j, k :: 0 <= j < k < |intervals| ==>
      intervals[j].hi <= intervals[k].lo || intervals[k].hi <= intervals[j].lo
  }

  /** With pairwise-disjoint intervals the lookup result does not depend on the
      order of the list: it is the one interval that contains the value. */
  lemma LookupUnique(v: Option<real>, intervals: seq<Interval>, k: nat)
    requires PairwiseDisjoint(intervals)
    requires k < |intervals| && InInterval(v, intervals[k])
    ensures Lookup(v, intervals) == Some(intervals[k])
  {
    LookupFindsFirst(v, intervals);
    var i :| 0 <= i < |intervals| && intervals[i] == Lookup(v, intervals).value
      && InInterval(v, intervals[i]) && forall j :: 0 <= j < i ==> !InInterval(v, intervals[j]);
    assert !(i < k);
  }

  /** Bins as `pd.cut`/`pd.qcut` compute them, listed in ascending order:
      non-empty, each starting where the previous one ends. The list `fit`
      stores is `.unique()` of the binned column: only the bins some fit value
      falls in, in order of first appearance, so a permutation of a sub-list
      of such a list. */
  predicate Contiguous(intervals: seq<Interval>) {
    && (forall k :: 0 <= k < |intervals| ==> intervals[k].lo < intervals[k].hi)
    && (forall k :: 0 <= k < |intervals| - 1 ==> intervals[k].hi == intervals[k + 1].lo)
  }

  lemma {:induction false} ContiguousAscends(intervals: seq<Interval>, j: nat, k: nat)
    requires Contiguous(intervals) && j < k < |intervals|
    ensures intervals[j].hi <= intervals[k].lo
    decreases k - j
  {
    if j + 1 < k {
      ContiguousAscends(intervals, j + 1, k);
    }
  }

  lemma ContiguousIsDisjoint(intervals: seq<Interval>)
    requires Contiguous(intervals)
    ensures PairwiseDisjoint(intervals)
  {
    forall j, k | 0 <= j < k < |intervals|
      ensures intervals[j].hi <= intervals[k].lo
    {
      ContiguousAscends(intervals, j, k);
    }
  }

  /** Ascending contiguous bins cover (first.lo, last.hi] without gaps. */
  lemma {:induction false} AscendingBinsCover(sorted: seq<Interval>, x: real)
    requires Contiguous(sorted) && |sorted| > 0
    requires sorted[0].lo < x <= sorted[|sorted| - 1].hi
    ensures exists k :: 0 <= k < |sorted| && InInterval(Some(x), sorted[k])
  {
    if !InInterval(Some(x), sorted[0]) {
      var rest := sorted[1..];
      assert |sorted| > 1;
      assert rest[0].lo == sorted[0].hi < x;
      assert Contiguous(rest) by {
        forall k | 0 <= k < |rest| - 1
          ensures rest[k].hi == rest[k + 1].lo
        {
          assert rest[k] == sorted[k + 1] && rest[k + 1] == sorted[k + 2];
        }
      }
      AscendingBinsCover(rest, x);
      var k :| 0 <= k < |rest| && InInterval(Some(x), rest[k]);
      assert sorted[k + 1] == rest[k];
    }
  }

  /** A value inside the overall range of contiguous bins has a bin, and the
      lookup in a list holding some of those bins, in any order, finds it
      exactly when that bin is in the list; with every bin listed it always
      finds one. */
  lemma ContiguousCovers(intervals: seq<Interval>, sorted: seq<Interval>, x: real)
    requires Contiguous(sorted) && |sorted| > 0 && multiset(intervals) <= multiset(sorted)
    requires sorted[0].lo < x <= sorted[|sorted| - 1].hi
    ensures exists k :: 0 <= k < |sorted| && InInterval(Some(x), sorted[k])
    ensures Lookup(Some(x), intervals).Some? <==>
      exists k :: 0 <= k < |sorted| && InInterval(Some(x), sorted[k]) && sorted[k] in intervals
    ensures multiset(intervals) == multiset(sorted) ==> Lookup(Some(x), intervals).Some?
  {
    AscendingBinsCover(sorted, x);
    var k :| 0 <= k < |sorted| && InInterval(Some(x), sorted[k]);
    LookupFindsFirst(Some(x), intervals);
    var r := Lookup(Some(x), intervals);
    if r.Some? {
      assert r.value in multiset(sorted);
      var a :| 0 <= a < |sorted| && sorted[a] == r.value;
      assert InInterval(Some(x), sorted[a]) && sorted[a] in intervals;
    }
    if multiset(intervals) == multiset(sorted) {
      assert sorted[k] in multiset(intervals);
      assert sorted[k] in intervals;
    }
  }

  /** A value sitting exactly on an edge between two contiguous bins belongs to
      the lower bin only: when that bin is in a list holding some of the bins,
      in any order, the lookup finds it. No double count. */
  lemma EdgeBelongsToLowerBin(intervals: seq<Interval>, sorted: seq<Interval>, k: nat)
    requires Contiguous(sorted) && k < |sorted| && multiset(intervals) <= multiset(sorted)
    requires sorted[k] in intervals
    ensures Lookup(Some(sorted[k].hi), intervals) == Some(sorted[k])
    ensures k + 1 < |sorted| ==> !InInterval(Some(sorted[k].hi), sorted[k + 1])
  {
    var edge := Some(sorted[k].hi);
    ContiguousIsDisjoint(sorted);
    var j :| 0 <= j < |intervals| && intervals[j] == sorted[k];
    LookupFindsFirst(edge, intervals);
    var found := Lookup(edge, intervals).value;
    assert found in multiset(sorted);
    var a :| 0 <= a < |sorted| && sorted[a] == found;
    assert a == k;
  }

  /** The four `qcut` bins of the fares 7.5 and 50, with `precision=4`: the
      lowest edge is lowered by 10^-4, as pandas does for the first bin. */
  const FareQuartiles: seq<Interval> :=
    [Interval(7.4999, 18.125), Interval(18.125, 28.75), Interval(28.75, 39.375), Interval(39.375, 50.0)]

  lemma FareQuartilesAreContiguous()
    ensures Contiguous(FareQuartiles)
  {
    var q := FareQuartiles;
    assert q[0].hi == q[1].lo && q[1].hi == q[2].lo && q[2].hi == q[3].lo;
  }

  /** What `fit` stores for those fares: `.unique()` holds only the first and
      the last bin, the two middle ones being empty. A fare of 30 lies inside
      the overall range and in a bin of the full list, yet the stored list
      has no bin for it. */
  lemma EmptyBinLeavesGap()
    ensures Contiguous(FareQuartiles)
    ensures multiset([FareQuartiles[0], FareQuartiles[3]]) <= multiset(FareQuartiles)
    ensures Lookup(Some(30.0), FareQuartiles) == Some(FareQuartiles[2])
    ensures Lookup(Some(30.0), [FareQuartiles[0], FareQuartiles[3]]).None?
  {
    FareQuartilesAreContiguous();
    var fare := Some(30.0);
    var stored := [FareQuartiles[0], FareQuartiles[3]];
    assert Lookup(fare, FareQuartiles) == Lookup(fare, FareQuartiles[1..]);
    assert Lookup(fare, FareQuartiles[1..]) == Lookup(fare, FareQuartiles[2..]);
    assert FareQuartiles[2..][0] == FareQuartiles[2];
    assert Lookup(fare, stored) == Lookup(fare, stored[1..]);
    assert Lookup(fare, stored[1..]) == Lookup(fare, stored[2..]);
    assert stored[2..] == [];
  }
}
