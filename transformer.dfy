/** The `DataTransformer` class: six attributes that `fit` assigns and
    `transform` reads, each method proved to follow its definition in module
    Pipeline. */
module Transformer {
  import opened Wrappers
  import opened Intervals
  import opened Statistics
  import opened Encoding
  import opened Records
  import opened Pipeline

  class DataTransformer {
    var fareMedian: Slot<Option<real>>
    var ageMedian: Slot<Option<real>>
    var embarkedMostFrequent: Slot<string>
    var fareIntervals: Slot<seq<Interval>>
    var ageIntervals: Slot<seq<Interval>>
    var encoders: Slot<Encoders>

    /** The attributes as one value. */
    function State(): Fitted
      reads this
    {
      Fitted(fareMedian, ageMedian, embarkedMostFrequent, fareIntervals, ageIntervals, encoders)
    }

    /** The attributes were assigned in the order `fit` assigns them. */
    predicate Valid()
      reads this
    {
      AssignedInOrder(State())
    }

    /** `__init__`: every attribute is `None`. */
    constructor ()
      ensures State() == Unfitted
      ensures Valid()
    {
      fareMedian := Unset;
      ageMedian := Unset;
      embarkedMostFrequent := Unset;
      fareIntervals := Unset;
      ageIntervals := Unset;
      encoders := Unset;
    }

    /** `fit(dataset)`, with the outcomes of `qcut` and `cut` given:
        learns the attributes in order, changes the frame in place, and
        returns the transformer itself, or stops at the step that raises. */
    method Fit(ds: Dataset, fareBins: Option<seq<Interval>>, ageBins: Option<seq<Interval>>) returns (r: Result<DataTransformer, Error>)
      requires Valid()
      modifies this, ds
      ensures Valid()
      ensures var out := Fitting(old(State()), old(ds.rows), fareBins, ageBins);
        State() == out.state && ds.rows == out.rows && (r.Err? <==> out.error.Some?) && (r.Err? ==> out.error == Some(r.error))
      ensures r.Ok? ==> r.value == this
    {
      ghost var before, input := State(), ds.rows;
      ghost var out := Fitting(before, input, fareBins, ageBins);
      fareMedian := Set(Median(Fares(ds.rows)));
      ageMedian := Set(Median(Ages(ds.rows)));
      var port := Mode(EmbarkedValues(ds.rows));
      if port.None? {
        assert out == FitOutcome(State(), input, Some(NoEmbarkedValue));
        FitSetsFieldsInOrder(before, input, fareBins, ageBins);
        return Err(NoEmbarkedValue);
      }
      embarkedMostFrequent := Set(port.value);
      var err := LearnFeatures(ds, fareBins, ageBins);
      FitSetsFieldsInOrder(before, input, fareBins, ageBins);
      if err.Some? {
        return Err(err.value);
      }
      return Ok(this);
    }

    /** The part of `fit` after the mode: imputation, the interval lists
        (None where `qcut` or `cut` raises), the new features and the
        encoders. */
    method LearnFeatures(ds: Dataset, fareBins: Option<seq<Interval>>, ageBins: Option<seq<Interval>>) returns (err: Option<Error>)
      requires ImputationReady(State())
      modifies this, ds
      ensures var out := FittingPastTheMode(old(State()), old(ds.rows), fareBins, ageBins);
        State() == out.state && ds.rows == out.rows && err == out.error
    {
      var _ := ApplyImputations(ds);
      if fareBins.None? {
        return Some(BinningFailed);
      }
      fareIntervals := Set(fareBins.value);
      if ageBins.None? {
        return Some(BinningFailed);
      }
      ageIntervals := Set(ageBins.value);
      err := DeriveAndEncode(ds);
    }

    /** The last two steps of `fit`: `calculate_new_features`, then
        `get_encoders` on the changed frame. */
    method DeriveAndEncode(ds: Dataset) returns (err: Option<Error>)
      modifies this, ds
      ensures var out := FittingFromBins(old(State()), old(ds.rows));
        State() == out.state && ds.rows == out.rows && err == out.error
    {
      ghost var imputed := ds.rows;
      err := CalculateNewFeatures(ds);
      if err.Some? {
        return;
      }
      assert forall i :: 0 <= i < |ds.rows| ==> FullyDerived(ds.rows[i]) by {
        NewFeaturesAreRowwise(imputed, State());
      }
      var learned := GetEncoders(ds);
      encoders := Set(learned);
    }

    /** `apply_imputations`: the three fill lambdas in dictionary order, each
        changing the frame in place. */
    method ApplyImputations(ds: Dataset) returns (ok: bool)
      modifies ds
      ensures (ds.rows, ok) == RunImputations(old(ds.rows), State(), ImputationOrder)
    {
      var columns := ImputationOrder;
      var k := 0;
      while k < |columns|
        invariant k <= |columns|
        invariant RunImputations(old(ds.rows), State(), columns) == RunImputations(ds.rows, State(), columns[k..])
      {
        assert columns[k..][1..] == columns[k + 1..];
        if !HasFillValue(State(), columns[k]) {
          return false;
        }
        ds.rows := FillColumn(ds.rows, State(), columns[k]);
        k := k + 1;
      }
      return true;
    }

    /** `calculate_new_features`: the six feature lambdas in dictionary
        order, each column assigned to the frame before the next runs. */
    method CalculateNewFeatures(ds: Dataset) returns (err: Option<Error>)
      modifies ds
      ensures (ds.rows, err) == RunFeatures(old(ds.rows), State(), NewFeatureOrder)
    {
      var features := NewFeatureOrder;
      var k := 0;
      while k < |features|
        invariant k <= |features|
        invariant RunFeatures(old(ds.rows), State(), features) == RunFeatures(ds.rows, State(), features[k..])
      {
        assert features[k..][1..] == features[k + 1..];
        var rows := ds.rows;
        var next: Result<seq<Row>, Error>;
        if features[k] == FareBinFeature && fareIntervals.Set? {
          var bins := BinColumn(seq(|rows|, i requires 0 <= i < |rows| => rows[i].fare), fareIntervals.value);
          next := Ok(seq(|rows|, i requires 0 <= i < |rows| => rows[i].(fareBin := Set(bins[i]))));
          assert next.value == FareBinColumn(rows, fareIntervals.value);
        } else if features[k] == AgeBinFeature && ageIntervals.Set? {
          var bins := BinColumn(seq(|rows|, i requires 0 <= i < |rows| => rows[i].age), ageIntervals.value);
          next := Ok(seq(|rows|, i requires 0 <= i < |rows| => rows[i].(ageBin := Set(bins[i]))));
          assert next.value == AgeBinColumn(rows, ageIntervals.value);
        } else {
          next := AddFeature(rows, State(), features[k]);
        }
        assert next == AddFeature(rows, State(), features[k]);
        if next.Err? {
          return Some(next.error);
        }
        ds.rows := next.value;
        k := k + 1;
      }
      return None;
    }

    /** `Series.apply` of `get_interval` over a numeric column. */
    static method BinColumn(values: seq<Option<real>>, intervals: seq<Interval>) returns (bins: seq<Option<Interval>>)
      ensures |bins| == |values|
      ensures forall i :: 0 <= i < |values| ==> bins[i] == Lookup(values[i], intervals)
    {
      bins := [];
      var k := 0;
      while k < |values|
        invariant k <= |values|
        invariant |bins| == k
        invariant forall i :: 0 <= i < k ==> bins[i] == Lookup(values[i], intervals)
      {
        var bin := GetInterval(values[k], intervals);
        bins := bins + [bin];
        k := k + 1;
      }
    }

    /** `get_interval(value, intervals)`: the first interval that contains the
        value; None (the loop's fall-through) when there is none. */
    static method GetInterval(value: Option<real>, intervals: seq<Interval>) returns (r: Option<Interval>)
      ensures r == Lookup(value, intervals)
    {
      var k := 0;
      while k < |intervals|
        invariant k <= |intervals|
        invariant Lookup(value, intervals) == Lookup(value, intervals[k..])
      {
        assert intervals[k..][1..] == intervals[k + 1..];
        if InInterval(value, intervals[k]) {
          return Some(intervals[k]);
        }
        k := k + 1;
      }
      return None;
    }

    /** `get_encoders(dataset)`: one `LabelEncoder` per categorical variable,
        fitted on its column. */
    static method GetEncoders(ds: Dataset) returns (learned: Encoders)
      requires forall i :: 0 <= i < |ds.rows| ==> FullyDerived(ds.rows[i])
      ensures learned == FitEncoders(ds.rows)
    {
      var variables := CategoricalVariables;
      learned := map[];
      var k := 0;
      while k < |variables|
        invariant k <= |variables|
        invariant learned == map c | c in variables[..k] :: FitEncoder(Column(ds.rows, c))
      {
        assert variables[..k + 1] == variables[..k] + [variables[k]];
        learned := learned[variables[k] := FitEncoder(Column(ds.rows, variables[k]))];
        k := k + 1;
      }
      assert variables[..k] == variables;
    }

    /** `transform(df)`: works on a deep copy, so neither the frame nor the
        transformer changes; the imputations, the new features, the five
        encoders, then the selected columns. */
    method Transform(df: Dataset) returns (r: Result<seq<FeatureRow>, Error>)
      ensures r == TransformRows(State(), df.rows)
    {
      var dataset := new Dataset(df.rows);
      var filled := ApplyImputations(dataset);
      if !filled {
        return Err(NotFitted);
      }
      var imputed := dataset.rows;
      var err := CalculateNewFeatures(dataset);
      if err.Some? {
        return Err(err.value);
      }
      if encoders.Unset? {
        return Err(NotFitted);
      }
      r := EncodeAndSelect(encoders.value, dataset.rows);
    }
  }

  /** Transforming the same frame twice with the same transformer gives the
      same table: `transform` changes neither. */
  method TransformIsRepeatable(t: DataTransformer, df: Dataset) returns (first: Result<seq<FeatureRow>, Error>, second: Result<seq<FeatureRow>, Error>)
    ensures first == second
  {
    first := t.Transform(df);
    second := t.Transform(df);
  }
}
