/** What `DataTransformer` computes, stated on values: the state `fit` learns,
    the imputation and feature steps as folds over their dictionaries, the
    encoders, and the table `transform` returns. The class in module
    Transformer is proved to follow these definitions. */
module Pipeline {
  import opened Wrappers
  import opened Strings
  import opened Statistics
  import opened Intervals
  import opened Encoding
  import opened Records
  import opened Features

  /** The five columns `get_encoders` fits a `LabelEncoder` on, in its order. */
  datatype Categorical = SexVar | EmbarkedVar | TitleVar | AgeBinVar | FareBinVar

  const CategoricalVariables: seq<Categorical> := [SexVar, EmbarkedVar, TitleVar, AgeBinVar, FareBinVar]

  type Encoders = map<Categorical, Encoder>

  lemma AllVariablesListed()
    ensures forall c: Categorical :: c in CategoricalVariables
  {
    forall c: Categorical
      ensures c in CategoricalVariables
    {
      match c
      case SexVar => assert CategoricalVariables[0] == c;
      case EmbarkedVar => assert CategoricalVariables[1] == c;
      case TitleVar => assert CategoricalVariables[2] == c;
      case AgeBinVar => assert CategoricalVariables[3] == c;
      case FareBinVar => assert CategoricalVariables[4] == c;
    }
  }

  /** Why a step of the transformer raises.
      NotFitted: a fill value, an interval list or the encoders are still `None`.
      NoEmbarkedValue: `mode()[0]` of a column without any present value.
      NoTitleColumn: no name contains ", ", so the split has no column 1.
      BinningFailed: the `ValueError` of `pd.qcut` or `pd.cut` (bin edges that
        are not unique, as a constant or all-missing column gives).
      ColumnMissing: a feature reads a column no earlier feature assigned.
      UnknownCategory: `LabelEncoder.transform` meets a value not seen by `fit`. */
  datatype Error = NotFitted | NoEmbarkedValue | NoTitleColumn | BinningFailed | ColumnMissing | UnknownCategory(variable: Categorical)

  /** The six attributes of a `DataTransformer`; `Unset` is the `None` that
      `__init__` stores. */
  datatype Fitted = Fitted(
    fareMedian: Slot<Option<real>>,
    ageMedian: Slot<Option<real>>,
    embarkedMostFrequent: Slot<string>,
    fareIntervals: Slot<seq<Interval>>,
    ageIntervals: Slot<seq<Interval>>,
    encoders: Slot<Encoders>)

  const Unfitted: Fitted := Fitted(Unset, Unset, Unset, Unset, Unset, Unset)

  /** The states `fit` can leave behind: the attributes are assigned in the
      order fare median, age median, most frequent port, fare intervals, age
      intervals, encoders; the mode, `qcut`, `cut` and the title split can
      stop it on the way, but nothing between the two medians. The encoders
      always cover all five variables. */
  predicate AssignedInOrder(f: Fitted) {
    && (f.fareMedian.Set? <==> f.ageMedian.Set?)
    && (f.embarkedMostFrequent.Set? ==> f.ageMedian.Set?)
    && (f.fareIntervals.Set? ==> f.embarkedMostFrequent.Set?)
    && (f.ageIntervals.Set? ==> f.fareIntervals.Set?)
    && (f.encoders.Set? ==> f.ageIntervals.Set?)
    && (f.encoders.Set? ==> forall c: Categorical :: c in f.encoders.value)
  }

  // ---------------------------------------------------------------------
  // Imputation: `get_feature_imputations` run by `apply_imputations`.
  // ---------------------------------------------------------------------

  /** The keys of the imputation dictionary, in insertion order. */
  datatype ImputedColumn = AgeColumn | EmbarkedColumn | FareColumn

  const ImputationOrder: seq<ImputedColumn> := [AgeColumn, EmbarkedColumn, FareColumn]

  /** `fillna(value=None)` raises: the fill value must have been learned. */
  predicate HasFillValue(f: Fitted, c: ImputedColumn) {
    match c
    case AgeColumn => f.ageMedian.Set?
    case EmbarkedColumn => f.embarkedMostFrequent.Set?
    case FareColumn => f.fareMedian.Set?
  }

  predicate ImputationReady(f: Fitted) {
    f.ageMedian.Set? && f.embarkedMostFrequent.Set? && f.fareMedian.Set?
  }

  /** `fillna` on one numeric cell: a present value stays, a missing one takes
      the fill value, which may itself be NaN (then nothing changes). */
  function FillMissing(v: Option<real>, fill: Option<real>): Option<real>
  {
    if v.Some? then v else fill
  }

  /** The cell of the column holds a value. */
  predicate Present(r: Row, c: ImputedColumn) {
    match c
    case AgeColumn => r.age.Some?
    case EmbarkedColumn => r.embarked.Some?
    case FareColumn => r.fare.Some?
  }

  /** One imputation lambda applied to every row of the frame: one row per
      row, a row whose cell is present stays as it was, and no port stays
      missing. */
  function FillColumn(rows: seq<Row>, f: Fitted, c: ImputedColumn): (out: seq<Row>)
    requires HasFillValue(f, c)
    ensures |out| == |rows|
    ensures forall i :: 0 <= i < |rows| && Present(rows[i], c) ==> out[i] == rows[i]
    ensures c == EmbarkedColumn ==> forall i :: 0 <= i < |rows| ==> Present(out[i], c)
  {
    seq(|rows|, i requires 0 <= i < |rows| =>
      match c
      case AgeColumn => rows[i].(age := FillMissing(rows[i].age, f.ageMedian.value))
      case EmbarkedColumn =>
        rows[i].(embarked := if rows[i].embarked.Some? then rows[i].embarked else Some(f.embarkedMostFrequent.value))
      case FareColumn => rows[i].(fare := FillMissing(rows[i].fare, f.fareMedian.value)))
  }

  /** The loop of `apply_imputations` over `columns`: the frame as the loop
      leaves it, and whether every lambda ran (false: one raised, and the
      columns filled before it stay filled). */
  function RunImputations(rows: seq<Row>, f: Fitted, columns: seq<ImputedColumn>): (r: (seq<Row>, bool))
    ensures |r.0| == |rows|
    ensures r.1 <==> forall k :: 0 <= k < |columns| ==> HasFillValue(f, columns[k])
    decreases |columns|
  {
    if |columns| == 0 then (rows, true)
    else if !HasFillValue(f, columns[0]) then (rows, false)
    else RunImputations(FillColumn(rows, f, columns[0]), f, columns[1..])
  }

  /** The reference for one row: every missing Age, Embarked and Fare takes its
      fill value. */
  function ImputeRow(r: Row, f: Fitted): Row
    requires ImputationReady(f)
  {
    r.(age := FillMissing(r.age, f.ageMedian.value),
       embarked := if r.embarked.Some? then r.embarked else Some(f.embarkedMostFrequent.value),
       fare := FillMissing(r.fare, f.fareMedian.value))
  }

  /** `apply_imputations` succeeds exactly when the three fill values are
      learned, and then imputes every row on its own, keeping the rows and
      their order. */
  lemma ImputationIsRowwise(rows: seq<Row>, f: Fitted)
    ensures RunImputations(rows, f, ImputationOrder).1 <==> ImputationReady(f)
    ensures ImputationReady(f) ==>
      var out := RunImputations(rows, f, ImputationOrder).0;
      |out| == |rows| && forall i :: 0 <= i < |rows| ==> out[i] == ImputeRow(rows[i], f)
  {
    var order := ImputationOrder;
    assert order[1..] == [EmbarkedColumn, FareColumn];
    assert order[1..][1..] == [FareColumn];
    assert order[1..][1..][1..] == [];
    if ImputationReady(f) {
      var withAge := FillColumn(rows, f, AgeColumn);
      var withPort := FillColumn(withAge, f, EmbarkedColumn);
      var out := FillColumn(withPort, f, FareColumn);
      assert RunImputations(rows, f, order) == (out, true);
      forall i | 0 <= i < |rows|
        ensures out[i] == ImputeRow(rows[i], f)
      {
        assert withAge[i] == rows[i].(age := FillMissing(rows[i].age, f.ageMedian.value));
      }
    }
  }

  /** The result of a successful `apply_imputations`. */
  function Imputed(rows: seq<Row>, f: Fitted): seq<Row>
    requires ImputationReady(f)
  {
    RunImputations(rows, f, ImputationOrder).0
  }

  /** Imputation fills only what is missing: a present Age, Embarked or Fare
      is kept, a missing one takes the learned value, and no other column of
      any row changes. */
  lemma ImputationFillsOnlyMissing(rows: seq<Row>, f: Fitted, i: nat)
    requires ImputationReady(f) && i < |rows|
    ensures |Imputed(rows, f)| == |rows|
    ensures rows[i].age.Some? ==> Imputed(rows, f)[i].age == rows[i].age
    ensures rows[i].age.None? ==> Imputed(rows, f)[i].age == f.ageMedian.value
    ensures rows[i].fare.Some? ==> Imputed(rows, f)[i].fare == rows[i].fare
    ensures rows[i].fare.None? ==> Imputed(rows, f)[i].fare == f.fareMedian.value
    ensures rows[i].embarked.Some? ==> Imputed(rows, f)[i].embarked == rows[i].embarked
    ensures rows[i].embarked.None? ==> Imputed(rows, f)[i].embarked == Some(f.embarkedMostFrequent.value)
    ensures Imputed(rows, f)[i].(age := rows[i].age, fare := rows[i].fare, embarked := rows[i].embarked) == rows[i]
  {
    ImputationIsRowwise(rows, f);
  }

  /** Imputing an imputed frame again changes nothing. */
  lemma ImputationIsIdempotent(rows: seq<Row>, f: Fitted)
    requires ImputationReady(f)
    ensures Imputed(Imputed(rows, f), f) == Imputed(rows, f)
  {
    ImputationIsRowwise(rows, f);
    ImputationIsRowwise(Imputed(rows, f), f);
  }

  /** With the medians and the mode taken from the frame itself, as `fit`
      takes them, no Embarked stays missing, and no Age (Fare) stays missing
      unless the column had no value at all. */
  lemma LearnedValuesCompleteTheFrame(rows: seq<Row>, f: Fitted, i: nat)
    requires ImputationReady(f) && i < |rows|
    requires f.ageMedian == Set(Median(Ages(rows)))
    requires f.fareMedian == Set(Median(Fares(rows)))
    ensures |Imputed(rows, f)| == |rows|
    ensures Imputed(rows, f)[i].embarked.Some?
    ensures Imputed(rows, f)[i].age.Some? <==> |Ages(rows)| > 0
    ensures Imputed(rows, f)[i].fare.Some? <==> |Fares(rows)| > 0
  {
    ImputationFillsOnlyMissing(rows, f, i);
    if rows[i].age.Some? {
      PresentAgeIsCollected(rows, i);
    }
    if rows[i].fare.Some? {
      PresentFareIsCollected(rows, i);
    }
  }

  lemma {:induction false} PresentAgeIsCollected(rows: seq<Row>, i: nat)
    requires i < |rows| && rows[i].age.Some?
    ensures |Ages(rows)| > 0
  {
    if i > 0 {
      PresentAgeIsCollected(rows[1..], i - 1);
      assert Ages(rows) == (if rows[0].age.Some? then [rows[0].age.value] else []) + Ages(rows[1..]);
    }
  }

  lemma {:induction false} PresentFareIsCollected(rows: seq<Row>, i: nat)
    requires i < |rows| && rows[i].fare.Some?
    ensures |Fares(rows)| > 0
  {
    if i > 0 {
      PresentFareIsCollected(rows[1..], i - 1);
      assert Fares(rows) == (if rows[0].fare.Some? then [rows[0].fare.value] else []) + Fares(rows[1..]);
    }
  }

  // ---------------------------------------------------------------------
  // New features: `get_new_features` run by `calculate_new_features`.
  // ---------------------------------------------------------------------

  /** The keys of the feature dictionary, in insertion order. */
  datatype NewFeature = FamilySizeFeature | IsAloneFeature | TitleFeature | FareBinFeature | AgeBinFeature | IsMarriedFeature

  const NewFeatureOrder: seq<NewFeature> :=
    [FamilySizeFeature, IsAloneFeature, TitleFeature, FareBinFeature, AgeBinFeature, IsMarriedFeature]

  /** Some name has a ", ", so the split produces a column 1. */
  predicate SomeNameHasComma(rows: seq<Row>) {
    exists i :: 0 <= i < |rows| && Contains(rows[i].name, ", ")
  }

  /** The columns the six lambdas compute, assigned to the frame. */
  function FamilySizeColumn(rows: seq<Row>): (out: seq<Row>)
  {
    seq(|rows|, i requires 0 <= i < |rows| => rows[i].(familySize := Set(FamilySize(rows[i].sibSp, rows[i].parch))))
  }

  function IsAloneColumn(rows: seq<Row>): seq<Row>
    requires forall i :: 0 <= i < |rows| ==> rows[i].familySize.Set?
  {
    seq(|rows|, i requires 0 <= i < |rows| => rows[i].(isAlone := Set(IsAlone(rows[i].familySize.value))))
  }

  function TitleColumn(rows: seq<Row>): seq<Row>
  {
    seq(|rows|, i requires 0 <= i < |rows| => rows[i].(title := Set(Title(rows[i].name))))
  }

  function FareBinColumn(rows: seq<Row>, intervals: seq<Interval>): seq<Row>
  {
    seq(|rows|, i requires 0 <= i < |rows| => rows[i].(fareBin := Set(Lookup(rows[i].fare, intervals))))
  }

  function AgeBinColumn(rows: seq<Row>, intervals: seq<Interval>): seq<Row>
  {
    seq(|rows|, i requires 0 <= i < |rows| => rows[i].(ageBin := Set(Lookup(rows[i].age, intervals))))
  }

  function IsMarriedColumn(rows: seq<Row>): seq<Row>
    requires forall i :: 0 <= i < |rows| ==> rows[i].title.Set?
  {
    seq(|rows|, i requires 0 <= i < |rows| => rows[i].(isMarried := Set(IsMarried(rows[i].title.value))))
  }

  /** One lambda of the dictionary and the assignment of its column:
      the frame with the new column, or why the lambda raises. IsAlone reads
      FamilySize and IsMarried reads Title; the bins iterate over an interval
      list (iterating `None` raises, but `apply` on an empty frame never calls
      the lambda). */
  function AddFeature(rows: seq<Row>, f: Fitted, feature: NewFeature): (r: Result<seq<Row>, Error>)
    ensures r.Ok? ==> |r.value| == |rows|
    ensures r.Err? ==> r.error == NotFitted || r.error == NoTitleColumn || r.error == ColumnMissing
  {
    match feature
    case FamilySizeFeature => Ok(FamilySizeColumn(rows))
    case IsAloneFeature =>
      if exists i :: 0 <= i < |rows| && rows[i].familySize.Unset? then Err(ColumnMissing) else Ok(IsAloneColumn(rows))
    case TitleFeature =>
      if !SomeNameHasComma(rows) then Err(NoTitleColumn) else Ok(TitleColumn(rows))
    case FareBinFeature =>
      if f.fareIntervals.Set? then Ok(FareBinColumn(rows, f.fareIntervals.value))
      else if |rows| == 0 then Ok(rows) else Err(NotFitted)
    case AgeBinFeature =>
      if f.ageIntervals.Set? then Ok(AgeBinColumn(rows, f.ageIntervals.value))
      else if |rows| == 0 then Ok(rows) else Err(NotFitted)
    case IsMarriedFeature =>
      if exists i :: 0 <= i < |rows| && rows[i].title.Unset? then Err(ColumnMissing) else Ok(IsMarriedColumn(rows))
  }

  /** The loop of `calculate_new_features` over `features`: the frame as the
      loop leaves it (columns assigned before a raise stay) and the error that
      stopped it, if any. */
  function RunFeatures(rows: seq<Row>, f: Fitted, features: seq<NewFeature>): (r: (seq<Row>, Option<Error>))
    ensures |r.0| == |rows|
    ensures r.1.Some? ==> r.1.value == NotFitted || r.1.value == NoTitleColumn || r.1.value == ColumnMissing
    decreases |features|
  {
    if |features| == 0 then (rows, None)
    else match AddFeature(rows, f, features[0])
      case Err(e) => (rows, Some(e))
      case Ok(next) => RunFeatures(next, f, features[1..])
  }

  /** The reference for one row: all six derived columns, each computed from
      the passenger's own columns. */
  function DeriveRow(r: Row, fareIntervals: seq<Interval>, ageIntervals: seq<Interval>): Row
  {
    var size := FamilySize(r.sibSp, r.parch);
    var title := Title(r.name);
    r.(familySize := Set(size),
       isAlone := Set(IsAlone(size)),
       title := Set(title),
       fareBin := Set(Lookup(r.fare, fareIntervals)),
       ageBin := Set(Lookup(r.age, ageIntervals)),
       isMarried := Set(IsMarried(title)))
  }

  /** Deriving the new columns leaves the passenger columns as they were. */
  lemma DerivationKeepsInput(r: Row, fareIntervals: seq<Interval>, ageIntervals: seq<Interval>)
    ensures SameInput(DeriveRow(r, fareIntervals, ageIntervals), r)
  {
  }

  /** All six derived columns are assigned. */
  predicate FullyDerived(r: Row) {
    r.familySize.Set? && r.isAlone.Set? && r.title.Set? && r.fareBin.Set? && r.ageBin.Set? && r.isMarried.Set?
  }

  /** A row after the first two, three, four and five features. */
  function WithFamily(r: Row): Row
  {
    var size := FamilySize(r.sibSp, r.parch);
    r.(familySize := Set(size), isAlone := Set(IsAlone(size)))
  }

  function WithTitle(r: Row): Row
  {
    WithFamily(r).(title := Set(Title(r.name)))
  }

  function WithFareBin(r: Row, fareIntervals: seq<Interval>): Row
  {
    WithTitle(r).(fareBin := Set(Lookup(r.fare, fareIntervals)))
  }

  function WithAgeBin(r: Row, fareIntervals: seq<Interval>, ageIntervals: seq<Interval>): Row
  {
    WithFareBin(r, fareIntervals).(ageBin := Set(Lookup(r.age, ageIntervals)))
  }

  /** The frame after the first two, three, four and five features. */
  function AfterFamily(rows: seq<Row>): seq<Row>
  {
    seq(|rows|, i requires 0 <= i < |rows| => WithFamily(rows[i]))
  }

  function AfterTitle(rows: seq<Row>): seq<Row>
  {
    seq(|rows|, i requires 0 <= i < |rows| => WithTitle(rows[i]))
  }

  function AfterFareBin(rows: seq<Row>, fareIntervals: seq<Interval>): seq<Row>
  {
    seq(|rows|, i requires 0 <= i < |rows| => WithFareBin(rows[i], fareIntervals))
  }

  function AfterAgeBin(rows: seq<Row>, fareIntervals: seq<Interval>, ageIntervals: seq<Interval>): seq<Row>
  {
    seq(|rows|, i requires 0 <= i < |rows| => WithAgeBin(rows[i], fareIntervals, ageIntervals))
  }

  /** FamilySize and IsAlone never raise. */
  lemma FamilyFeaturesStep(rows: seq<Row>, f: Fitted)
    ensures RunFeatures(rows, f, NewFeatureOrder) == RunFeatures(AfterFamily(rows), f, NewFeatureOrder[2..])
  {
    var order := NewFeatureOrder;
    assert order[1..][1..] == order[2..];
    var sized := FamilySizeColumn(rows);
    assert RunFeatures(rows, f, order) == RunFeatures(sized, f, order[1..]);
    assert RunFeatures(sized, f, order[1..]) == RunFeatures(IsAloneColumn(sized), f, order[2..]);
    assert IsAloneColumn(sized) == AfterFamily(rows);
  }

  /** Title raises exactly when no name has a ", ". */
  lemma TitleFeatureStep(rows: seq<Row>, f: Fitted)
    ensures !SomeNameHasComma(rows) ==> RunFeatures(rows, f, NewFeatureOrder) == (AfterFamily(rows), Some(NoTitleColumn))
    ensures SomeNameHasComma(rows) ==> RunFeatures(rows, f, NewFeatureOrder) == RunFeatures(AfterTitle(rows), f, NewFeatureOrder[3..])
  {
    FamilyFeaturesStep(rows, f);
    var order := NewFeatureOrder;
    assert order[2..][1..] == order[3..];
    var family := AfterFamily(rows);
    assert SomeNameHasComma(family) <==> SomeNameHasComma(rows) by {
      assert forall i :: 0 <= i < |rows| ==> family[i].name == rows[i].name;
    }
    if SomeNameHasComma(rows) {
      assert RunFeatures(family, f, order[2..]) == RunFeatures(TitleColumn(family), f, order[3..]);
      assert TitleColumn(family) == AfterTitle(rows);
    }
  }

  /** FareBin raises exactly when its interval list is unset. */
  lemma FareBinFeatureStep(rows: seq<Row>, f: Fitted)
    requires SomeNameHasComma(rows)
    ensures f.fareIntervals.Unset? ==> RunFeatures(rows, f, NewFeatureOrder) == (AfterTitle(rows), Some(NotFitted))
    ensures f.fareIntervals.Set? ==>
      RunFeatures(rows, f, NewFeatureOrder) == RunFeatures(AfterFareBin(rows, f.fareIntervals.value), f, NewFeatureOrder[4..])
  {
    TitleFeatureStep(rows, f);
    var order := NewFeatureOrder;
    assert order[3..][1..] == order[4..];
    var titled := AfterTitle(rows);
    if f.fareIntervals.Set? {
      assert RunFeatures(titled, f, order[3..]) == RunFeatures(FareBinColumn(titled, f.fareIntervals.value), f, order[4..]);
      assert FareBinColumn(titled, f.fareIntervals.value) == AfterFareBin(rows, f.fareIntervals.value);
    } else {
      assert |titled| > 0;
    }
  }

  /** AgeBin raises exactly when its interval list is unset. */
  lemma AgeBinFeatureStep(rows: seq<Row>, f: Fitted)
    requires SomeNameHasComma(rows) && f.fareIntervals.Set?
    ensures f.ageIntervals.Unset? ==>
      RunFeatures(rows, f, NewFeatureOrder) == (AfterFareBin(rows, f.fareIntervals.value), Some(NotFitted))
    ensures f.ageIntervals.Set? ==>
      RunFeatures(rows, f, NewFeatureOrder) ==
      RunFeatures(AfterAgeBin(rows, f.fareIntervals.value, f.ageIntervals.value), f, NewFeatureOrder[5..])
  {
    FareBinFeatureStep(rows, f);
    var order := NewFeatureOrder;
    assert order[4..][1..] == order[5..];
    var binned := AfterFareBin(rows, f.fareIntervals.value);
    if f.ageIntervals.Set? {
      assert RunFeatures(binned, f, order[4..]) == RunFeatures(AgeBinColumn(binned, f.ageIntervals.value), f, order[5..]);
      assert AgeBinColumn(binned, f.ageIntervals.value) == AfterAgeBin(rows, f.fareIntervals.value, f.ageIntervals.value);
    } else {
      assert |binned| > 0;
    }
  }

  /** IsMarried reads the Title column the third feature assigned. */
  lemma MarriedFeatureStep(rows: seq<Row>, f: Fitted)
    requires SomeNameHasComma(rows) && f.fareIntervals.Set? && f.ageIntervals.Set?
    ensures var (out, err) := RunFeatures(rows, f, NewFeatureOrder);
      && err.None? && |out| == |rows|
      && forall i :: 0 <= i < |rows| ==> out[i] == DeriveRow(rows[i], f.fareIntervals.value, f.ageIntervals.value)
  {
    AgeBinFeatureStep(rows, f);
    var order := NewFeatureOrder;
    assert order[5..][1..] == [];
    var binned := AfterAgeBin(rows, f.fareIntervals.value, f.ageIntervals.value);
    assert forall i :: 0 <= i < |binned| ==> binned[i].title.Set?;
    var married := IsMarriedColumn(binned);
    assert RunFeatures(binned, f, order[5..]) == (married, None);
    forall i | 0 <= i < |rows|
      ensures married[i] == DeriveRow(rows[i], f.fareIntervals.value, f.ageIntervals.value)
    {
      assert married[i] == binned[i].(isMarried := Set(IsMarried(binned[i].title.value)));
    }
  }

  /** `calculate_new_features` fails only for want of a title column or of
      the interval lists, never for a column read before it is assigned; on
      success every row gets its own derived columns, in place and in order. */
  lemma NewFeaturesAreRowwise(rows: seq<Row>, f: Fitted)
    ensures var (out, err) := RunFeatures(rows, f, NewFeatureOrder);
      && (err.None? <==> SomeNameHasComma(rows) && f.fareIntervals.Set? && f.ageIntervals.Set?)
      && (err == Some(NoTitleColumn) <==> !SomeNameHasComma(rows))
      && (err.Some? ==> err == Some(NoTitleColumn) || err == Some(NotFitted))
      && (err.None? ==>
            |out| == |rows| &&
            forall i :: 0 <= i < |rows| ==> out[i] == DeriveRow(rows[i], f.fareIntervals.value, f.ageIntervals.value))
  {
    TitleFeatureStep(rows, f);
    if SomeNameHasComma(rows) {
      FareBinFeatureStep(rows, f);
      if f.fareIntervals.Set? {
        AgeBinFeatureStep(rows, f);
        if f.ageIntervals.Set? {
          MarriedFeatureStep(rows, f);
        }
      }
    }
  }

  /** The derived columns depend on the passenger columns alone: rows that
      differ only in what earlier runs assigned derive the same. */
  lemma DerivationSeesOnlyInput(a: Row, b: Row, fareIntervals: seq<Interval>, ageIntervals: seq<Interval>)
    requires SameInput(a, b)
    ensures DeriveRow(a, fareIntervals, ageIntervals) == DeriveRow(b, fareIntervals, ageIntervals)
    ensures FullyDerived(DeriveRow(a, fareIntervals, ageIntervals))
  {
  }

  // ---------------------------------------------------------------------
  // Encoders: `get_encoders`.
  // ---------------------------------------------------------------------

  function TextOrMissing(v: Option<string>): Category
  {
    if v.Some? then Text(v.value) else Missing
  }

  function BinOrMissing(v: Option<Interval>): Category
  {
    if v.Some? then Bin(v.value) else Missing
  }

  /** The cell of a categorical column in one row. */
  function CategoryOf(r: Row, c: Categorical): Category
    requires FullyDerived(r)
  {
    match c
    case SexVar => Text(r.sex)
    case EmbarkedVar => TextOrMissing(r.embarked)
    case TitleVar => TextOrMissing(r.title.value)
    case AgeBinVar => BinOrMissing(r.ageBin.value)
    case FareBinVar => BinOrMissing(r.fareBin.value)
  }

  /** `dataset[c]` for a categorical column. */
  function Column(rows: seq<Row>, c: Categorical): seq<Category>
    requires forall i :: 0 <= i < |rows| ==> FullyDerived(rows[i])
  {
    seq(|rows|, i requires 0 <= i < |rows| => CategoryOf(rows[i], c))
  }

  /** The dictionary `get_encoders` returns: one encoder per variable. */
  function FitEncoders(rows: seq<Row>): (enc: Encoders)
    requires forall i :: 0 <= i < |rows| ==> FullyDerived(rows[i])
    ensures forall c: Categorical :: c in enc
  {
    AllVariablesListed();
    map c | c in CategoricalVariables :: FitEncoder(Column(rows, c))
  }

  /** Each encoder of `get_encoders` holds exactly the distinct values of its
      column, in order, so every one of those values has a code. */
  lemma FittedEncoderCoversColumn(rows: seq<Row>, c: Categorical)
    requires forall i :: 0 <= i < |rows| ==> FullyDerived(rows[i])
    ensures c in FitEncoders(rows)
    ensures StrictlySorted(FitEncoders(rows)[c].classes)
    ensures forall v :: v in FitEncoders(rows)[c].classes <==> v in Column(rows, c)
    ensures forall i :: 0 <= i < |rows| ==> Encode(FitEncoders(rows)[c], CategoryOf(rows[i], c)).Some?
  {
    assert c in CategoricalVariables by {
      match c
      case SexVar => assert CategoricalVariables[0] == c;
      case EmbarkedVar => assert CategoricalVariables[1] == c;
      case TitleVar => assert CategoricalVariables[2] == c;
      case AgeBinVar => assert CategoricalVariables[3] == c;
      case FareBinVar => assert CategoricalVariables[4] == c;
    }
    forall i | 0 <= i < |rows|
      ensures CategoryOf(rows[i], c) in FitEncoders(rows)[c].classes
    {
      assert Column(rows, c)[i] == CategoryOf(rows[i], c);
    }
  }

  // ---------------------------------------------------------------------
  // Transform.
  // ---------------------------------------------------------------------

  /** Every value of column c has a code in the encoder for c. */
  predicate Encodable(enc: Encoders, rows: seq<Row>, c: Categorical)
    requires forall i :: 0 <= i < |rows| ==> FullyDerived(rows[i])
  {
    c in enc && forall i :: 0 <= i < |rows| ==> CategoryOf(rows[i], c) in enc[c].classes
  }

  /** `self.encoders[c].transform(dataset[c])`. */
  function EncodeVariable(enc: Encoders, rows: seq<Row>, c: Categorical): (r: Result<seq<nat>, Error>)
    requires forall i :: 0 <= i < |rows| ==> FullyDerived(rows[i])
    ensures r.Ok? <==> Encodable(enc, rows, c)
    ensures r.Err? ==> r.error == (if c in enc then UnknownCategory(c) else NotFitted)
    ensures r.Ok? ==> |r.value| == |rows|
    ensures r.Ok? ==> forall i :: 0 <= i < |rows| ==> Encode(enc[c], CategoryOf(rows[i], c)) == Some(r.value[i])
  {
    if c !in enc then Err(NotFitted)
    else
      var column := Column(rows, c);
      assert forall i :: 0 <= i < |rows| ==> column[i] == CategoryOf(rows[i], c);
      match EncodeColumn(enc[c], column)
      case None => Err(UnknownCategory(c))
      case Some(codes) => Ok(codes)
  }

  /** `dataset[features]` with the two bin codes. */
  function SelectFeatures(rows: seq<Row>, ageBinCodes: seq<nat>, fareBinCodes: seq<nat>): seq<FeatureRow>
    requires |ageBinCodes| == |rows| && |fareBinCodes| == |rows|
    requires forall i :: 0 <= i < |rows| ==> FullyDerived(rows[i])
  {
    seq(|rows|, i requires 0 <= i < |rows| && FullyDerived(rows[i]) =>
      var r := rows[i];
      FeatureRow(r.sex, r.pclass, r.embarked, r.title.value, r.sibSp, r.parch, ageBinCodes[i], fareBinCodes[i],
                 r.familySize.value, r.isAlone.value, r.isMarried.value))
  }

  /** The five `transform` calls of the encoders, in the source's order, then
      the selection of the output columns. */
  function EncodeAndSelect(enc: Encoders, rows: seq<Row>): (r: Result<seq<FeatureRow>, Error>)
    requires forall i :: 0 <= i < |rows| ==> FullyDerived(rows[i])
    ensures r.Ok? ==> |r.value| == |rows|
    ensures r.Err? ==> r.error == NotFitted || r.error.UnknownCategory?
  {
    var sexCodes :- EncodeVariable(enc, rows, SexVar);
    var embarkedCodes :- EncodeVariable(enc, rows, EmbarkedVar);
    var titleCodes :- EncodeVariable(enc, rows, TitleVar);
    var ageBinCodes :- EncodeVariable(enc, rows, AgeBinVar);
    var fareBinCodes :- EncodeVariable(enc, rows, FareBinVar);
    Ok(SelectFeatures(rows, ageBinCodes, fareBinCodes))
  }

  /** The encoding stage fails at the first variable, in the source's order,
      with a value its encoder has not seen, and succeeds when there is none. */
  lemma EncodingStopsAtFirstUnseen(enc: Encoders, rows: seq<Row>)
    requires forall i :: 0 <= i < |rows| ==> FullyDerived(rows[i])
    requires forall c: Categorical :: c in enc
    ensures EncodeAndSelect(enc, rows).Ok? <==>
      forall k :: 0 <= k < |CategoricalVariables| ==> Encodable(enc, rows, CategoricalVariables[k])
    ensures EncodeAndSelect(enc, rows).Err? ==>
      exists k :: 0 <= k < |CategoricalVariables| && EncodeAndSelect(enc, rows).error == UnknownCategory(CategoricalVariables[k])
        && !Encodable(enc, rows, CategoricalVariables[k])
        && forall j :: 0 <= j < k ==> Encodable(enc, rows, CategoricalVariables[j])
  {
    var cv := CategoricalVariables;
    var r := EncodeAndSelect(enc, rows);
    var k: nat := 0;
    while k < |cv| && Encodable(enc, rows, cv[k])
      invariant k <= |cv|
      invariant forall j :: 0 <= j < k ==> Encodable(enc, rows, cv[j])
    {
      k := k + 1;
    }
    if k < |cv| {
      FailsAtUnseen(enc, rows, k);
    } else {
      assert Encodable(enc, rows, cv[0]) && Encodable(enc, rows, cv[1]) && Encodable(enc, rows, cv[2]);
      assert Encodable(enc, rows, cv[3]) && Encodable(enc, rows, cv[4]);
    }
  }

  /** The error of the encoding stage when variable k is the first one with a
      value its encoder has not seen. */
  lemma FailsAtUnseen(enc: Encoders, rows: seq<Row>, k: nat)
    requires forall i :: 0 <= i < |rows| ==> FullyDerived(rows[i])
    requires forall c: Categorical :: c in enc
    requires k < |CategoricalVariables| && !Encodable(enc, rows, CategoricalVariables[k])
    requires forall j :: 0 <= j < k ==> Encodable(enc, rows, CategoricalVariables[j])
    ensures EncodeAndSelect(enc, rows) == Err(UnknownCategory(CategoricalVariables[k]))
  {
    var cv := CategoricalVariables;
    if k > 0 {
      assert Encodable(enc, rows, cv[0]);
    }
    if k > 1 {
      assert Encodable(enc, rows, cv[1]);
    }
    if k > 2 {
      assert Encodable(enc, rows, cv[2]);
    }
    if k > 3 {
      assert Encodable(enc, rows, cv[3]);
    }
  }

  /** A successful encoding stage keeps one output row per row, in order,
      copying its columns and carrying the codes of its two bins. */
  lemma EncodedRowsFollowTheirRows(enc: Encoders, rows: seq<Row>)
    requires forall i :: 0 <= i < |rows| ==> FullyDerived(rows[i])
    requires EncodeAndSelect(enc, rows).Ok?
    ensures AgeBinVar in enc && FareBinVar in enc
    ensures |EncodeAndSelect(enc, rows).value| == |rows|
    ensures var out := EncodeAndSelect(enc, rows).value;
      forall i :: 0 <= i < |rows| ==>
        && out[i].sex == rows[i].sex && out[i].pclass == rows[i].pclass && out[i].embarked == rows[i].embarked
        && out[i].title == rows[i].title.value && out[i].sibSp == rows[i].sibSp && out[i].parch == rows[i].parch
        && out[i].familySize == rows[i].familySize.value && out[i].isAlone == rows[i].isAlone.value
        && out[i].isMarried == rows[i].isMarried.value
        && Encode(enc[AgeBinVar], CategoryOf(rows[i], AgeBinVar)) == Some(out[i].ageBinCode)
        && Encode(enc[FareBinVar], CategoryOf(rows[i], FareBinVar)) == Some(out[i].fareBinCode)
  {
    var ages := EncodeVariable(enc, rows, AgeBinVar);
    var fares := EncodeVariable(enc, rows, FareBinVar);
    assert ages.Ok? && fares.Ok?;
    assert EncodeAndSelect(enc, rows).value == SelectFeatures(rows, ages.value, fares.value);
  }

  /** The learned values the imputation and feature stages need. */
  predicate FeaturesReady(f: Fitted) {
    ImputationReady(f) && f.fareIntervals.Set? && f.ageIntervals.Set?
  }

  /** The reference for the frame the encoders see: each row imputed and
      given its derived columns on its own. */
  function PreparedRows(f: Fitted, rows: seq<Row>): (prepared: seq<Row>)
    requires FeaturesReady(f)
    ensures |prepared| == |rows|
    ensures forall i :: 0 <= i < |rows| ==> FullyDerived(prepared[i])
  {
    seq(|rows|, i requires 0 <= i < |rows| => DeriveRow(ImputeRow(rows[i], f), f.fareIntervals.value, f.ageIntervals.value))
  }

  /** `transform(df)` on a deep copy of the frame: imputation, the new
      features, the five encoders, the selection of output columns; or the
      error the first failing step raises. */
  function TransformRows(f: Fitted, rows: seq<Row>): (r: Result<seq<FeatureRow>, Error>)
    ensures r.Ok? ==> |r.value| == |rows|
    ensures r.Err? ==> r.error == NotFitted || r.error == NoTitleColumn || r.error.UnknownCategory?
  {
    var (imputed, filled) := RunImputations(rows, f, ImputationOrder);
    if !filled then Err(NotFitted)
    else
      NewFeaturesAreRowwise(imputed, f);
      var (featured, err) := RunFeatures(imputed, f, NewFeatureOrder);
      if err.Some? then Err(err.value)
      else if f.encoders.Unset? then Err(NotFitted)
      else EncodeAndSelect(f.encoders.value, featured)
  }

  lemma ImputationKeepsNames(rows: seq<Row>, f: Fitted)
    requires ImputationReady(f)
    ensures SomeNameHasComma(Imputed(rows, f)) <==> SomeNameHasComma(rows)
  {
    ImputationIsRowwise(rows, f);
    assert forall i :: 0 <= i < |rows| ==> Imputed(rows, f)[i].name == rows[i].name;
  }

  /** Which stage of `transform` decides the outcome. */
  lemma TransformStages(f: Fitted, rows: seq<Row>)
    ensures !ImputationReady(f) ==> TransformRows(f, rows) == Err(NotFitted)
    ensures ImputationReady(f) && !SomeNameHasComma(rows) ==> TransformRows(f, rows) == Err(NoTitleColumn)
    ensures ImputationReady(f) && SomeNameHasComma(rows) && !FeaturesReady(f) ==> TransformRows(f, rows) == Err(NotFitted)
    ensures FeaturesReady(f) && SomeNameHasComma(rows) && f.encoders.Unset? ==> TransformRows(f, rows) == Err(NotFitted)
    ensures FeaturesReady(f) && SomeNameHasComma(rows) && f.encoders.Set? ==>
      TransformRows(f, rows) == EncodeAndSelect(f.encoders.value, PreparedRows(f, rows))
  {
    ImputationIsRowwise(rows, f);
    if ImputationReady(f) {
      var imputed := Imputed(rows, f);
      ImputationKeepsNames(rows, f);
      NewFeaturesAreRowwise(imputed, f);
      if FeaturesReady(f) && SomeNameHasComma(rows) {
        assert RunFeatures(imputed, f, NewFeatureOrder).0 == PreparedRows(f, rows);
      }
    }
  }

  /** `transform` keeps one output row per input row, in order, and each is
      computed from its own input row: the raw Sex, class and counts, the
      port filled with the learned mode, the title of the name, the family
      features, and the codes of the bins of the imputed Age and Fare. */
  lemma TransformIsRowwise(f: Fitted, rows: seq<Row>, i: nat)
    requires TransformRows(f, rows).Ok? && i < |rows|
    ensures FeaturesReady(f) && f.encoders.Set? && AgeBinVar in f.encoders.value && FareBinVar in f.encoders.value
    ensures |TransformRows(f, rows).value| == |rows|
    ensures var out := TransformRows(f, rows).value[i];
      && out.sex == rows[i].sex && out.pclass == rows[i].pclass
      && out.sibSp == rows[i].sibSp && out.parch == rows[i].parch
      && out.embarked == (if rows[i].embarked.Some? then rows[i].embarked else Some(f.embarkedMostFrequent.value))
      && out.title == Title(rows[i].name)
      && out.familySize == FamilySize(rows[i].sibSp, rows[i].parch)
      && out.isAlone == IsAlone(out.familySize)
      && out.isMarried == IsMarried(out.title)
    ensures var out := TransformRows(f, rows).value[i];
      && Encode(f.encoders.value[AgeBinVar],
                BinOrMissing(Lookup(FillMissing(rows[i].age, f.ageMedian.value), f.ageIntervals.value))) == Some(out.ageBinCode)
      && Encode(f.encoders.value[FareBinVar],
                BinOrMissing(Lookup(FillMissing(rows[i].fare, f.fareMedian.value), f.fareIntervals.value))) == Some(out.fareBinCode)
  {
    TransformStages(f, rows);
    assert FeaturesReady(f) && SomeNameHasComma(rows) && f.encoders.Set?;
    var prepared := PreparedRows(f, rows);
    EncodedRowsFollowTheirRows(f.encoders.value, prepared);
    PreparedRowFields(f, rows, i);
  }

  /** The cells of one prepared row, read off its raw row. */
  lemma PreparedRowFields(f: Fitted, rows: seq<Row>, i: nat)
    requires FeaturesReady(f) && i < |rows|
    ensures var p := PreparedRows(f, rows)[i];
      && p.sex == rows[i].sex && p.pclass == rows[i].pclass
      && p.sibSp == rows[i].sibSp && p.parch == rows[i].parch
      && p.embarked == (if rows[i].embarked.Some? then rows[i].embarked else Some(f.embarkedMostFrequent.value))
      && p.title == Set(Title(rows[i].name))
      && p.familySize == Set(FamilySize(rows[i].sibSp, rows[i].parch))
      && p.isAlone == Set(IsAlone(FamilySize(rows[i].sibSp, rows[i].parch)))
      && p.isMarried == Set(IsMarried(Title(rows[i].name)))
      && CategoryOf(p, AgeBinVar) == BinOrMissing(Lookup(FillMissing(rows[i].age, f.ageMedian.value), f.ageIntervals.value))
      && CategoryOf(p, FareBinVar) == BinOrMissing(Lookup(FillMissing(rows[i].fare, f.fareMedian.value), f.fareIntervals.value))
  {
    assert PreparedRows(f, rows)[i] == DeriveRow(ImputeRow(rows[i], f), f.fareIntervals.value, f.ageIntervals.value);
  }

  /** Under the order `fit` assigns the attributes in: with no encoders yet,
      `transform` fails as not fitted (or for want of a title first); with
      encoders it fails only for a missing title column or an unseen value. */
  lemma TransformReportsNotFitted(f: Fitted, rows: seq<Row>)
    requires AssignedInOrder(f)
    ensures TransformRows(Unfitted, rows) == Err(NotFitted)
    ensures f.encoders.Unset? ==>
      TransformRows(f, rows) == Err(NotFitted) || TransformRows(f, rows) == Err(NoTitleColumn)
    ensures f.encoders.Unset? && SomeNameHasComma(rows) ==> TransformRows(f, rows) == Err(NotFitted)
    ensures f.encoders.Set? && TransformRows(f, rows).Err? ==>
      TransformRows(f, rows).error == NoTitleColumn || TransformRows(f, rows).error.UnknownCategory?
  {
    TransformStages(Unfitted, rows);
    TransformStages(f, rows);
    if f.encoders.Set? && FeaturesReady(f) && SomeNameHasComma(rows) {
      EncodingStopsAtFirstUnseen(f.encoders.value, PreparedRows(f, rows));
    }
  }

  /** Once fitted, `transform` rejects a batch exactly at the first
      categorical variable, in the source's order, holding a value its
      encoder was not fitted on. */
  lemma TransformRejectsFirstUnseen(f: Fitted, rows: seq<Row>)
    requires FeaturesReady(f) && SomeNameHasComma(rows)
    requires f.encoders.Set? && forall c: Categorical :: c in f.encoders.value
    ensures TransformRows(f, rows).Ok? <==>
      forall k :: 0 <= k < |CategoricalVariables| ==> Encodable(f.encoders.value, PreparedRows(f, rows), CategoricalVariables[k])
    ensures TransformRows(f, rows).Err? ==>
      exists k :: 0 <= k < |CategoricalVariables| && TransformRows(f, rows).error == UnknownCategory(CategoricalVariables[k])
        && !Encodable(f.encoders.value, PreparedRows(f, rows), CategoricalVariables[k])
        && forall j :: 0 <= j < k ==> Encodable(f.encoders.value, PreparedRows(f, rows), CategoricalVariables[j])
  {
    TransformStages(f, rows);
    EncodingStopsAtFirstUnseen(f.encoders.value, PreparedRows(f, rows));
  }

  /** A Sex value the encoder has not seen makes `transform` raise at the
      first encoder call. */
  lemma UnseenSexIsRejected(f: Fitted, rows: seq<Row>, i: nat)
    requires FeaturesReady(f) && SomeNameHasComma(rows)
    requires f.encoders.Set? && SexVar in f.encoders.value
    requires i < |rows| && Text(rows[i].sex) !in f.encoders.value[SexVar].classes
    ensures TransformRows(f, rows) == Err(UnknownCategory(SexVar))
  {
    TransformStages(f, rows);
    var prepared := PreparedRows(f, rows);
    assert CategoryOf(prepared[i], SexVar) == Text(rows[i].sex);
    assert !Encodable(f.encoders.value, prepared, SexVar);
  }

  /** Imputation keeps the passenger columns that matter equal: rows with the
      same passenger columns are imputed alike. */
  lemma ImputationKeepsSameInput(a: Row, b: Row, f: Fitted)
    requires ImputationReady(f) && SameInput(a, b)
    ensures SameInput(ImputeRow(a, f), ImputeRow(b, f))
  {
  }

  /** `transform` reads only the passenger columns: whatever derived columns
      a frame already holds (from an earlier `fit`, say) are recomputed. */
  lemma TransformSeesOnlyInput(f: Fitted, a: seq<Row>, b: seq<Row>)
    requires |a| == |b| && forall i :: 0 <= i < |a| ==> SameInput(a[i], b[i])
    ensures TransformRows(f, a) == TransformRows(f, b)
  {
    TransformStages(f, a);
    TransformStages(f, b);
    assert SomeNameHasComma(a) <==> SomeNameHasComma(b) by {
      assert forall i :: 0 <= i < |a| ==> a[i].name == b[i].name;
    }
    if FeaturesReady(f) {
      forall i | 0 <= i < |a|
        ensures PreparedRows(f, a)[i] == PreparedRows(f, b)[i]
      {
        ImputationKeepsSameInput(a[i], b[i], f);
        DerivationSeesOnlyInput(ImputeRow(a[i], f), ImputeRow(b[i], f), f.fareIntervals.value, f.ageIntervals.value);
      }
      assert PreparedRows(f, a) == PreparedRows(f, b);
    }
  }

  /** Imputing a frame before `transform` changes nothing: `transform`
      imputes it the same way. */
  lemma TransformOfImputedInput(f: Fitted, rows: seq<Row>)
    requires ImputationReady(f)
    ensures TransformRows(f, Imputed(rows, f)) == TransformRows(f, rows)
  {
    var imputed := Imputed(rows, f);
    ImputationIsRowwise(rows, f);
    ImputationKeepsNames(rows, f);
    TransformStages(f, rows);
    TransformStages(f, imputed);
    if FeaturesReady(f) {
      assert PreparedRows(f, imputed) == PreparedRows(f, rows);
    }
  }

  /** The encoders were fitted on the prepared frame of `corpus`. */
  predicate EncodersLearnedFrom(f: Fitted, corpus: seq<Row>) {
    FeaturesReady(f) && f.encoders == Set(FitEncoders(PreparedRows(f, corpus)))
  }

  /** A batch row that repeats a corpus row has the category values the
      encoders were fitted on. */
  lemma RepeatedRowIsSeen(f: Fitted, corpus: seq<Row>, batch: seq<Row>, i: nat, j: nat, c: Categorical)
    requires EncodersLearnedFrom(f, corpus)
    requires i < |corpus| && j < |batch| && SameInput(batch[j], corpus[i])
    ensures c in f.encoders.value
    ensures CategoryOf(PreparedRows(f, batch)[j], c) in f.encoders.value[c].classes
  {
    var seen := PreparedRows(f, corpus);
    FittedEncoderCoversColumn(seen, c);
    ImputationKeepsSameInput(batch[j], corpus[i], f);
    DerivationSeesOnlyInput(ImputeRow(batch[j], f), ImputeRow(corpus[i], f), f.fareIntervals.value, f.ageIntervals.value);
    assert PreparedRows(f, batch)[j] == seen[i];
    assert Column(seen, c)[i] == CategoryOf(seen[i], c);
  }

  /** Every category value seen in the fit corpus has a code: a batch whose
      rows all repeat the passenger columns of corpus rows can fail only for
      want of a title column, and the corpus itself transforms. */
  lemma FitCorpusIsCovered(f: Fitted, corpus: seq<Row>, batch: seq<Row>)
    requires EncodersLearnedFrom(f, corpus)
    requires forall j :: 0 <= j < |batch| ==> exists i :: 0 <= i < |corpus| && SameInput(batch[j], corpus[i])
    ensures TransformRows(f, batch).Ok? <==> SomeNameHasComma(batch)
    ensures TransformRows(f, batch).Err? ==> TransformRows(f, batch).error == NoTitleColumn
  {
    TransformStages(f, batch);
    if SomeNameHasComma(batch) {
      var enc := f.encoders.value;
      var seen := PreparedRows(f, corpus);
      var asked := PreparedRows(f, batch);
      forall c: Categorical
        ensures Encodable(enc, asked, c)
      {
        FittedEncoderCoversColumn(seen, c);
        forall j | 0 <= j < |batch|
          ensures CategoryOf(asked[j], c) in enc[c].classes
        {
          var i :| 0 <= i < |corpus| && SameInput(batch[j], corpus[i]);
          RepeatedRowIsSeen(f, corpus, batch, i, j, c);
        }
      }
      assert forall c: Categorical :: c in enc by {
        forall c: Categorical
          ensures c in enc
        {
          FittedEncoderCoversColumn(seen, c);
        }
      }
      EncodingStopsAtFirstUnseen(enc, asked);
    }
  }

  // ---------------------------------------------------------------------
  // Fit.
  // ---------------------------------------------------------------------

  /** What `fit(dataset)` leaves behind: the new attributes, the frame
      (changed in place) and the error that stopped it, if any. */
  datatype FitOutcome = FitOutcome(state: Fitted, rows: seq<Row>, error: Option<Error>)

  /** `fit` with the outcome of `qcut` and `cut` given as parameters (the
      interval list, or None where the call raises): the two medians, the mode
      (which raises on a column without values), imputation with the learned
      values, the intervals, the new features (the title split may raise),
      the encoders. */
  function Fitting(f: Fitted, rows: seq<Row>, fareBins: Option<seq<Interval>>, ageBins: Option<seq<Interval>>): (out: FitOutcome)
    ensures out.error.Some? ==>
      out.error.value == NoEmbarkedValue || out.error.value == BinningFailed || out.error.value == NoTitleColumn
  {
    var withMedians := f.(fareMedian := Set(Median(Fares(rows))), ageMedian := Set(Median(Ages(rows))));
    match Mode(EmbarkedValues(rows))
    case None => FitOutcome(withMedians, rows, Some(NoEmbarkedValue))
    case Some(port) => FittingPastTheMode(withMedians.(embarkedMostFrequent := Set(port)), rows, fareBins, ageBins)
  }

  /** The rest of `fit` once the three fill values are learned: the frame is
      imputed before either binning call can raise. */
  function FittingPastTheMode(learned: Fitted, rows: seq<Row>, fareBins: Option<seq<Interval>>, ageBins: Option<seq<Interval>>): (out: FitOutcome)
    requires ImputationReady(learned)
    ensures out.error.Some? ==> out.error.value == BinningFailed || out.error.value == NoTitleColumn
    ensures |out.rows| == |rows|
  {
    var imputed := Imputed(rows, learned);
    match fareBins
    case None => FitOutcome(learned, imputed, Some(BinningFailed))
    case Some(fareIntervals) =>
      var withFare := learned.(fareIntervals := Set(fareIntervals));
      match ageBins
      case None => FitOutcome(withFare, imputed, Some(BinningFailed))
      case Some(ageIntervals) =>
        FittingFromBins(withFare.(ageIntervals := Set(ageIntervals)), imputed)
  }

  /** The last two steps of `fit`: the new features on the imputed frame,
      then the encoders of the featured frame. */
  function FittingFromBins(binned: Fitted, imputed: seq<Row>): (out: FitOutcome)
    ensures binned.fareIntervals.Set? && binned.ageIntervals.Set? && out.error.Some? ==> out.error == Some(NoTitleColumn)
    ensures out.error.None? ==> out.state.encoders.Set? && forall c: Categorical :: c in out.state.encoders.value
    ensures |out.rows| == |imputed|
  {
    NewFeaturesAreRowwise(imputed, binned);
    var (featured, err) := RunFeatures(imputed, binned, NewFeatureOrder);
    if err.Some? then FitOutcome(binned, featured, err)
    else FitOutcome(binned.(encoders := Set(FitEncoders(featured))), featured, None)
  }

  /** Some row has a port of embarkation. */
  predicate SomePortKnown(rows: seq<Row>) {
    exists i :: 0 <= i < |rows| && rows[i].embarked.Some?
  }

  lemma PortsCollected(rows: seq<Row>)
    ensures |EmbarkedValues(rows)| > 0 <==> SomePortKnown(rows)
  {
    if |EmbarkedValues(rows)| > 0 {
      var v := EmbarkedValues(rows)[0];
      PresentValuesAreCollected(rows, v);
    }
    if SomePortKnown(rows) {
      var i :| 0 <= i < |rows| && rows[i].embarked.Some?;
      PresentValuesAreCollected(rows, rows[i].embarked.value);
    }
  }

  /** The three fill values `fit` learns when some port is known. */
  function FillValues(f: Fitted, rows: seq<Row>): (filling: Fitted)
    requires SomePortKnown(rows)
    ensures ImputationReady(filling)
  {
    PortsCollected(rows);
    f.(fareMedian := Set(Median(Fares(rows))), ageMedian := Set(Median(Ages(rows))),
       embarkedMostFrequent := Set(Mode(EmbarkedValues(rows)).value))
  }

  /** The attributes `fit` learns when some port is known and both binning
      calls return. */
  function Learned(f: Fitted, rows: seq<Row>, fareIntervals: seq<Interval>, ageIntervals: seq<Interval>): (learned: Fitted)
    requires SomePortKnown(rows)
    ensures FeaturesReady(learned)
  {
    FillValues(f, rows).(fareIntervals := Set(fareIntervals), ageIntervals := Set(ageIntervals))
  }

  /** The outcome of `fit` once the mode exists: a binning call raises after
      the imputation, or `fit` stops at the title split, or it stores the
      encoders of the prepared frame, which it leaves in place. */
  lemma FitPastTheMode(f: Fitted, rows: seq<Row>, fareBins: Option<seq<Interval>>, ageBins: Option<seq<Interval>>)
    requires SomePortKnown(rows)
    ensures var filling := FillValues(f, rows);
      var out := Fitting(f, rows, fareBins, ageBins);
      && (fareBins.None? ==> out == FitOutcome(filling, Imputed(rows, filling), Some(BinningFailed)))
      && (fareBins.Some? && ageBins.None? ==>
            out == FitOutcome(filling.(fareIntervals := Set(fareBins.value)), Imputed(rows, filling), Some(BinningFailed)))
    ensures fareBins.Some? && ageBins.Some? ==>
      var learned := Learned(f, rows, fareBins.value, ageBins.value);
      var out := Fitting(f, rows, fareBins, ageBins);
      && (SomeNameHasComma(rows) ==>
            out == FitOutcome(learned.(encoders := Set(FitEncoders(PreparedRows(learned, rows)))), PreparedRows(learned, rows), None))
      && (!SomeNameHasComma(rows) ==> out.state == learned && out.error == Some(NoTitleColumn))
  {
    var filling := FillValues(f, rows);
    PortsCollected(rows);
    assert Mode(EmbarkedValues(rows)).Some?;
    assert Fitting(f, rows, fareBins, ageBins) == FittingPastTheMode(filling, rows, fareBins, ageBins);
    FittingPastTheModeOutcome(filling, rows, fareBins, ageBins);
  }

  /** The outcome of the steps after the mode, in terms of the imputed and
      the prepared frame. */
  lemma FittingPastTheModeOutcome(learned: Fitted, rows: seq<Row>, fareBins: Option<seq<Interval>>, ageBins: Option<seq<Interval>>)
    requires ImputationReady(learned)
    ensures var out := FittingPastTheMode(learned, rows, fareBins, ageBins);
      && (fareBins.None? ==> out == FitOutcome(learned, Imputed(rows, learned), Some(BinningFailed)))
      && (fareBins.Some? && ageBins.None? ==>
            out == FitOutcome(learned.(fareIntervals := Set(fareBins.value)), Imputed(rows, learned), Some(BinningFailed)))
    ensures fareBins.Some? && ageBins.Some? ==>
      var binned := learned.(fareIntervals := Set(fareBins.value), ageIntervals := Set(ageBins.value));
      var out := FittingPastTheMode(learned, rows, fareBins, ageBins);
      && (SomeNameHasComma(rows) ==>
            out == FitOutcome(binned.(encoders := Set(FitEncoders(PreparedRows(binned, rows)))), PreparedRows(binned, rows), None))
      && (!SomeNameHasComma(rows) ==> out.state == binned && out.error == Some(NoTitleColumn))
  {
    if fareBins.Some? && ageBins.Some? {
      var binned := learned.(fareIntervals := Set(fareBins.value), ageIntervals := Set(ageBins.value));
      var imputed := Imputed(rows, learned);
      ImputationIsRowwise(rows, learned);
      ImputationKeepsNames(rows, learned);
      NewFeaturesAreRowwise(imputed, binned);
      if SomeNameHasComma(rows) {
        var featured := RunFeatures(imputed, binned, NewFeatureOrder).0;
        var prepared := PreparedRows(binned, rows);
        forall i | 0 <= i < |rows|
          ensures featured[i] == prepared[i]
        {
          assert imputed[i] == ImputeRow(rows[i], learned);
          assert ImputeRow(rows[i], learned) == ImputeRow(rows[i], binned);
        }
        assert featured == prepared;
      }
    }
  }

  /** `fit` raises in the mode (no port known), in `qcut` or `cut`, and in
      the title split (no name with a ", "), and nowhere else; it learns the
      medians of the present Fare and Age values and the most frequent port. */
  lemma FitLearnsFromItsInput(f: Fitted, rows: seq<Row>, fareBins: Option<seq<Interval>>, ageBins: Option<seq<Interval>>)
    ensures var out := Fitting(f, rows, fareBins, ageBins);
      && out.state.fareMedian == Set(Median(Fares(rows)))
      && out.state.ageMedian == Set(Median(Ages(rows)))
      && (out.error == Some(NoEmbarkedValue) <==> !SomePortKnown(rows))
      && (out.error == Some(BinningFailed) <==> SomePortKnown(rows) && (fareBins.None? || ageBins.None?))
      && (out.error == Some(NoTitleColumn) <==>
            SomePortKnown(rows) && fareBins.Some? && ageBins.Some? && !SomeNameHasComma(rows))
      && (out.error.None? <==> SomePortKnown(rows) && fareBins.Some? && ageBins.Some? && SomeNameHasComma(rows))
      && (SomePortKnown(rows) ==>
            out.state.embarkedMostFrequent.Set? && IsMostFrequent(EmbarkedValues(rows), out.state.embarkedMostFrequent.value))
  {
    PortsCollected(rows);
    if SomePortKnown(rows) {
      FitPastTheMode(f, rows, fareBins, ageBins);
    }
  }

  /** `fit` assigns the attributes in order: it keeps the invariant of the
      order, sets all six when it succeeds, and changes nothing after the
      step that raised. */
  lemma FitSetsFieldsInOrder(f: Fitted, rows: seq<Row>, fareBins: Option<seq<Interval>>, ageBins: Option<seq<Interval>>)
    requires AssignedInOrder(f)
    ensures AssignedInOrder(Fitting(f, rows, fareBins, ageBins).state)
    ensures var out := Fitting(f, rows, fareBins, ageBins);
      out.error.None? ==>
        && out.state.encoders.Set? && FeaturesReady(out.state)
        && fareBins.Some? && ageBins.Some?
        && out.state.fareIntervals == Set(fareBins.value) && out.state.ageIntervals == Set(ageBins.value)
    ensures var out := Fitting(f, rows, fareBins, ageBins);
      out.error == Some(NoEmbarkedValue) ==>
        out.rows == rows && out.state.(fareMedian := f.fareMedian, ageMedian := f.ageMedian) == f
    ensures var out := Fitting(f, rows, fareBins, ageBins);
      out.error == Some(BinningFailed) ==>
        && ImputationReady(out.state) && out.rows == Imputed(rows, out.state)
        && out.state.fareIntervals == (if fareBins.Some? then Set(fareBins.value) else f.fareIntervals)
        && out.state.ageIntervals == f.ageIntervals && out.state.encoders == f.encoders
    ensures var out := Fitting(f, rows, fareBins, ageBins);
      out.error == Some(NoTitleColumn) ==> out.state.encoders == f.encoders && FeaturesReady(out.state)
  {
    PortsCollected(rows);
    if SomePortKnown(rows) {
      FitPastTheMode(f, rows, fareBins, ageBins);
      if fareBins.Some? && ageBins.Some? && SomeNameHasComma(rows) {
        var prepared := PreparedRows(Learned(f, rows, fareBins.value, ageBins.value), rows);
        forall c: Categorical
          ensures c in FitEncoders(prepared)
        {
          FittedEncoderCoversColumn(prepared, c);
        }
      } else if fareBins.Some? && ageBins.None? {
        var filling := FillValues(f, rows);
        ImputationIsRowwise(rows, filling);
        ImputationIsRowwise(rows, filling.(fareIntervals := Set(fareBins.value)));
        assert Imputed(rows, filling) == Imputed(rows, filling.(fareIntervals := Set(fareBins.value)));
      }
    }
  }

  /** A frame that already went through imputation and the new features
      transforms as the raw frame does. */
  lemma TransformOfPreparedRows(f: Fitted, rows: seq<Row>)
    requires FeaturesReady(f)
    ensures TransformRows(f, PreparedRows(f, rows)) == TransformRows(f, rows)
  {
    var imputed := Imputed(rows, f);
    var prepared := PreparedRows(f, rows);
    ImputationIsRowwise(rows, f);
    forall i | 0 <= i < |rows|
      ensures SameInput(prepared[i], imputed[i])
    {
      assert imputed[i] == ImputeRow(rows[i], f);
      DerivationKeepsInput(imputed[i], f.fareIntervals.value, f.ageIntervals.value);
    }
    TransformSeesOnlyInput(f, prepared, imputed);
    TransformOfImputedInput(f, rows);
  }

  /** A successful `fit` leaves its own frame imputed and with all derived
      columns, each row on its own, and its encoders learned from it. */
  lemma FitPreparesItsFrame(f: Fitted, rows: seq<Row>, fareBins: Option<seq<Interval>>, ageBins: Option<seq<Interval>>)
    requires Fitting(f, rows, fareBins, ageBins).error.None?
    ensures var out := Fitting(f, rows, fareBins, ageBins);
      && FeaturesReady(out.state)
      && out.rows == PreparedRows(out.state, rows)
      && EncodersLearnedFrom(out.state, rows)
  {
    FitLearnsFromItsInput(f, rows, fareBins, ageBins);
    FitPastTheMode(f, rows, fareBins, ageBins);
    var out := Fitting(f, rows, fareBins, ageBins);
    var learned := Learned(f, rows, fareBins.value, ageBins.value);
    assert PreparedRows(out.state, rows) == PreparedRows(learned, rows);
  }

  /** After a successful `fit`, transforming the frame `fit` changed or the
      original one gives the same table, and that table exists: every value
      of the fit frame has a code. */
  lemma FitThenTransform(f: Fitted, rows: seq<Row>, fareBins: Option<seq<Interval>>, ageBins: Option<seq<Interval>>)
    requires Fitting(f, rows, fareBins, ageBins).error.None?
    ensures var out := Fitting(f, rows, fareBins, ageBins);
      TransformRows(out.state, rows).Ok? && TransformRows(out.state, out.rows) == TransformRows(out.state, rows)
  {
    FitLearnsFromItsInput(f, rows, fareBins, ageBins);
    FitPreparesItsFrame(f, rows, fareBins, ageBins);
    var out := Fitting(f, rows, fareBins, ageBins);
    forall j | 0 <= j < |rows|
      ensures exists i :: 0 <= i < |rows| && SameInput(rows[j], rows[i])
    {
      assert SameInput(rows[j], rows[j]);
    }
    FitCorpusIsCovered(out.state, rows, rows);
    TransformOfPreparedRows(out.state, rows);
  }
}
