/** sklearn's `LabelEncoder` as the transformer uses it: `fit` keeps the sorted
    distinct values of a column (`classes_`), `transform` replaces each value by
    its index in that list and fails on a value not seen at fit time. */
module Encoding {
  import opened Wrappers
  import opened Strings
  import opened Intervals

  /** A cell of one of the five categorical columns: a string (Sex, Embarked,
      Title), a bin (AgeBin, FareBin), or a missing value. */
  datatype Category = Text(s: string) | Bin(iv: Interval) | Missing

  /** pandas orders intervals by (left, right). */
  predicate IntervalLess(a: Interval, b: Interval) {
    a.lo < b.lo || (a.lo == b.lo && a.hi < b.hi)
  }

  /** The order of `classes_`: strings by code point, intervals by their
      endpoints, missing values last (a column never mixes strings and bins). */
  predicate CategoryLess(a: Category, b: Category) {
    match a
    case Text(x) => b.Missing? || b.Bin? || (b.Text? && StrLess(x, b.s))
    case Bin(x) => b.Missing? || (b.Bin? && IntervalLess(x, b.iv))
    case Missing => false
  }

  lemma CategoryLessIrreflexive(a: Category)
    ensures !CategoryLess(a, a)
  {
    if a.Text? {
      StrLessIrreflexive(a.s);
    }
  }

  lemma CategoryLessTransitive(a: Category, b: Category, c: Category)
    requires CategoryLess(a, b) && CategoryLess(b, c)
    ensures CategoryLess(a, c)
  {
    if a.Text? && b.Text? && c.Text? {
      StrLessTransitive(a.s, b.s, c.s);
    }
  }

  lemma CategoryLessTotal(a: Category, b: Category)
    requires a != b
    ensures CategoryLess(a, b) || CategoryLess(b, a)
  {
    if a.Text? && b.Text? {
      StrLessTotal(a.s, b.s);
    }
  }

  /** Strictly ascending, hence free of duplicates. */
  predicate StrictlySorted(s: seq<Category>) {
    forall i, j :: 0 <= i < j < |s| ==> CategoryLess(s[i], s[j])
  }

  /** Adds `x` to a strictly sorted list unless it is already there. */
  function InsertDistinct(x: Category, s: seq<Category>): seq<Category>
  {
    if |s| == 0 then [x]
    else if x == s[0] then s
    else if CategoryLess(x, s[0]) then [x] + s
    else [s[0]] + InsertDistinct(x, s[1..])
  }

  /** `np.unique`: the distinct values, sorted. */
  function SortedDistinct(xs: seq<Category>): seq<Category>
  {
    if |xs| == 0 then [] else InsertDistinct(xs[0], SortedDistinct(xs[1..]))
  }

  lemma PrependKeepsStrictOrder(x: Category, s: seq<Category>)
    requires StrictlySorted(s)
    requires forall k :: 0 <= k < |s| ==> CategoryLess(x, s[k])
    ensures StrictlySorted([x] + s)
  {
    var r := [x] + s;
    forall i, j | 0 <= i < j < |r|
      ensures CategoryLess(r[i], r[j])
    {
      assert r[j] == s[j - 1];
      if i > 0 {
        assert r[i] == s[i - 1];
      }
    }
  }

  lemma {:induction false} InsertDistinctKeepsOrder(x: Category, s: seq<Category>)
    requires StrictlySorted(s)
    ensures StrictlySorted(InsertDistinct(x, s))
    ensures forall v :: v in InsertDistinct(x, s) <==> v == x || v in s
  {
    if |s| == 0 || x == s[0] {
    } else if CategoryLess(x, s[0]) {
      forall k | 0 <= k < |s|
        ensures CategoryLess(x, s[k])
      {
        if k > 0 {
          CategoryLessTransitive(x, s[0], s[k]);
        }
      }
      PrependKeepsStrictOrder(x, s);
    } else {
      var tail := s[1..];
      assert StrictlySorted(tail) by {
        forall i, j | 0 <= i < j < |tail|
          ensures CategoryLess(tail[i], tail[j])
        {
          assert tail[i] == s[i + 1] && tail[j] == s[j + 1];
        }
      }
      InsertDistinctKeepsOrder(x, tail);
      var rest := InsertDistinct(x, tail);
      assert s == [s[0]] + tail;
      CategoryLessTotal(x, s[0]);
      forall k | 0 <= k < |rest|
        ensures CategoryLess(s[0], rest[k])
      {
        assert rest[k] in rest;
        if rest[k] != x {
          var j :| 0 <= j < |tail| && tail[j] == rest[k];
          assert s[j + 1] == rest[k];
        }
      }
      PrependKeepsStrictOrder(s[0], rest);
    }
  }

  /** The sorted distinct values hold exactly the values of the column, each
      once, in ascending order. */
  lemma {:induction false} SortedDistinctIsClasses(xs: seq<Category>)
    ensures StrictlySorted(SortedDistinct(xs))
    ensures forall v :: v in SortedDistinct(xs) <==> v in xs
  {
    if |xs| > 0 {
      SortedDistinctIsClasses(xs[1..]);
      InsertDistinctKeepsOrder(xs[0], SortedDistinct(xs[1..]));
      assert xs == [xs[0]] + xs[1..];
    }
  }

  /** A fitted `LabelEncoder`: its `classes_`. */
  datatype Encoder = Encoder(classes: seq<Category>)

  /** `LabelEncoder().fit(column)`. */
  function FitEncoder(column: seq<Category>): (e: Encoder)
    ensures StrictlySorted(e.classes)
    ensures forall v :: v in e.classes <==> v in column
  {
    SortedDistinctIsClasses(column);
    Encoder(SortedDistinct(column))
  }

  function IndexOf(s: seq<Category>, v: Category): Option<nat>
  {
    if |s| == 0 then None
    else if s[0] == v then Some(0)
    else match IndexOf(s[1..], v)
      case None => None
      case Some(k) => Some(k + 1)
  }

  lemma {:induction false} IndexOfFinds(s: seq<Category>, v: Category)
    ensures IndexOf(s, v).Some? <==> v in s
    ensures IndexOf(s, v).Some? ==> IndexOf(s, v).value < |s| && s[IndexOf(s, v).value] == v
  {
    if |s| > 0 && s[0] != v {
      IndexOfFinds(s[1..], v);
      assert s == [s[0]] + s[1..];
    }
  }

  /** The code `LabelEncoder.transform` gives one value: its index in
      `classes_`; None for a value not seen at fit time (sklearn raises). */
  function Encode(e: Encoder, v: Category): (code: Option<nat>)
    ensures code.Some? <==> v in e.classes
    ensures code.Some? ==> code.value < |e.classes| && e.classes[code.value] == v
  {
    IndexOfFinds(e.classes, v);
    IndexOf(e.classes, v)
  }

  /** Codes of a fitted encoder are dense in [0, k), distinct for distinct
      values, and follow the order of the values. */
  lemma EncodeIsOrderPreserving(e: Encoder, a: Category, b: Category)
    requires StrictlySorted(e.classes)
    requires Encode(e, a).Some? && Encode(e, b).Some?
    ensures a != b ==> Encode(e, a) != Encode(e, b)
    ensures CategoryLess(a, b) <==> Encode(e, a).value < Encode(e, b).value
  {
    var i, j := Encode(e, a).value, Encode(e, b).value;
    if i == j {
      CategoryLessIrreflexive(a);
    } else if j < i {
      if CategoryLess(a, b) {
        CategoryLessTransitive(a, b, a);
        CategoryLessIrreflexive(a);
      }
    }
  }

  /** `LabelEncoder.transform(column)`: the codes of every value, or None when
      some value was not seen at fit time. */
  function EncodeColumn(e: Encoder, column: seq<Category>): (codes: Option<seq<nat>>)
    ensures codes.Some? <==> forall i :: 0 <= i < |column| ==> column[i] in e.classes
    ensures codes.Some? ==> |codes.value| == |column|
    ensures codes.Some? ==>
      forall i :: 0 <= i < |column| ==> codes.value[i] < |e.classes| && e.classes[codes.value[i]] == column[i]
  {
    if forall i :: 0 <= i < |column| ==> column[i] in e.classes then
      Some(seq(|column|, i requires 0 <= i < |column| && column[i] in e.classes => Encode(e, column[i]).value))
    else None
  }
}
