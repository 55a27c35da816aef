/** A concrete batch of two passengers carried through `fit` and `transform`. */
module Scenarios {
  import opened Wrappers
  import opened Strings
  import opened Intervals
  import opened Records
  import opened Features
  import opened Pipeline

  /** Two passengers: a married woman travelling with her husband and a man
      travelling alone, his age unknown. */
  const TwoPassengers: seq<Row> :=
    [Passenger(1, "Smith, Mrs. Jane", "female", Some(35.0), 1, 0, "PC 17599", Some(71.25), Some("C85"), Some("C")),
     Passenger(3, "Doe, Mr. John", "male", None, 0, 0, "A/5 21171", Some(7.25), None, Some("S"))]

  /** A transform of the two passengers that succeeds gives the first the
      title "Mrs", IsMarried 1 and a family of two, and the second the title
      "Mr", IsMarried 0 and IsAlone 1. */
  lemma TwoPassengerBatch(f: Fitted)
    requires TransformRows(f, TwoPassengers).Ok?
    ensures var out := TransformRows(f, TwoPassengers).value;
      && |out| == 2
      && out[0].title == Some("Mrs") && out[0].isMarried == 1 && out[0].familySize == 2 && out[0].isAlone == 0
      && out[1].title == Some("Mr") && out[1].isMarried == 0 && out[1].familySize == 1 && out[1].isAlone == 1
  {
    TitleOfMrsSmith();
    TitleOfMrDoe();
    TransformIsRowwise(f, TwoPassengers, 0);
    TransformIsRowwise(f, TwoPassengers, 1);
  }

  /** A fresh transformer fitted on the two passengers, whatever bins `qcut`
      and `cut` return, succeeds, and transforming the same two passengers
      then succeeds with the titles and family features above. */
  lemma FitAndTransformTwoPassengers(fareBins: seq<Interval>, ageBins: seq<Interval>)
    ensures var fitted := Fitting(Unfitted, TwoPassengers, Some(fareBins), Some(ageBins));
      && fitted.error.None?
      && TransformRows(fitted.state, TwoPassengers).Ok?
      && var out := TransformRows(fitted.state, TwoPassengers).value;
      && |out| == 2
      && out[0].title == Some("Mrs") && out[0].isMarried == 1 && out[0].familySize == 2 && out[0].isAlone == 0
      && out[1].title == Some("Mr") && out[1].isMarried == 0 && out[1].familySize == 1 && out[1].isAlone == 1
  {
    assert SomePortKnown(TwoPassengers) by {
      assert TwoPassengers[0].embarked.Some?;
    }
    assert SomeNameHasComma(TwoPassengers) by {
      TitleOfMrsSmith();
      assert Contains(TwoPassengers[0].name, ", ");
    }
    FitLearnsFromItsInput(Unfitted, TwoPassengers, Some(fareBins), Some(ageBins));
    FitThenTransform(Unfitted, TwoPassengers, Some(fareBins), Some(ageBins));
    TwoPassengerBatch(Fitting(Unfitted, TwoPassengers, Some(fareBins), Some(ageBins)).state);
  }
}
