/** The rows the transformer works on: the passenger columns of the
    passenger tables, plus the derived columns the transformer adds, and the mutable dataset (a pandas DataFrame) that holds them. */
module Records {
  import opened Wrappers
  import opened Intervals

  /** One DataFrame row. Age, Fare, Cabin and Embarked may be missing (NaN);
      the six derived columns are Unset until the transformer assigns them. */
  datatype Row = Row(
    pclass: int,
    name: string,
    sex: string,
    age: Option<real>,
    sibSp: int,
    parch: int,
    ticket: string,
    fare: Option<real>,
    cabin: Option<string>,
    embarked: Option<string>,
    familySize: Slot<int>,
    isAlone: Slot<int>,
    title: Slot<Option<string>>,
    fareBin: Slot<Option<Interval>>,
    ageBin: Slot<Option<Interval>>,
    isMarried: Slot<int>)

  /** The row as read from its source: no derived column yet. */
  function Passenger(pclass: int, name: string, sex: string, age: Option<real>, sibSp: int, parch: int,
                     ticket: string, fare: Option<real>, cabin: Option<string>, embarked: Option<string>): Row
  {
    Row(pclass, name, sex, age, sibSp, parch, ticket, fare, cabin, embarked, Unset, Unset, Unset, Unset, Unset, Unset)
  }

  /** The same passenger columns, whatever the derived columns hold. */
  predicate SameInput(a: Row, b: Row) {
    a.(familySize := Unset, isAlone := Unset, title := Unset, fareBin := Unset, ageBin := Unset, isMarried := Unset)
      == b.(familySize := Unset, isAlone := Unset, title := Unset, fareBin := Unset, ageBin := Unset, isMarried := Unset)
  }

  /** A DataFrame the transformer may change in place. */
  class Dataset {
    var rows: seq<Row>

    constructor (rows: seq<Row>)
      ensures this.rows == rows
    {
      this.rows := rows;
    }
  }

  /** The present values of the Fare column, in row order. */
  function Fares(rows: seq<Row>): seq<real>
  {
    if |rows| == 0 then []
    else (if rows[0].fare.Some? then [rows[0].fare.value] else []) + Fares(rows[1..])
  }

  /** The present values of the Age column, in row order. */
  function Ages(rows: seq<Row>): seq<real>
  {
    if |rows| == 0 then []
    else (if rows[0].age.Some? then [rows[0].age.value] else []) + Ages(rows[1..])
  }

  /** The present values of the Embarked column, in row order. */
  function EmbarkedValues(rows: seq<Row>): seq<string>
  {
    if |rows| == 0 then []
    else (if rows[0].embarked.Some? then [rows[0].embarked.value] else []) + EmbarkedValues(rows[1..])
  }

  /** A present value is in the list of present values, and only those are. */
  lemma {:induction false} PresentValuesAreCollected(rows: seq<Row>, v: string)
    ensures v in EmbarkedValues(rows) <==> exists i :: 0 <= i < |rows| && rows[i].embarked == Some(v)
  {
    if |rows| > 0 {
      PresentValuesAreCollected(rows[1..], v);
      if v in EmbarkedValues(rows[1..]) {
        var i :| 0 <= i < |rows[1..]| && rows[1..][i].embarked == Some(v);
        assert rows[i + 1].embarked == Some(v);
      }
      forall i | 0 <= i < |rows| && rows[i].embarked == Some(v)
        ensures v in EmbarkedValues(rows)
      {
        if i > 0 {
          assert rows[1..][i - 1].embarked == Some(v);
        }
      }
    }
  }

  /** One row of `dataset[features]` as `transform` selects it: the raw Sex,
      Embarked and Title strings, the class and counts, the two bin codes and
      the derived numbers. */
  datatype FeatureRow = FeatureRow(
    sex: string,
    pclass: int,
    embarked: Option<string>,
    title: Option<string>,
    sibSp: int,
    parch: int,
    ageBinCode: nat,
    fareBinCode: nat,
    familySize: int,
    isAlone: int,
    isMarried: int)
}
