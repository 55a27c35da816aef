# Titanic feature transformer, modelled in Dafny

This project models `DataTransformer` from `trainer/transformer.py`.
`trainer/trainer.py` fits it on the train and test tables together and
transforms the training table; `prediction_api` loads a saved transformer
but does not call `transform`. `fit(dataset)` learns what it needs:

- the median Fare and the median Age;
- the most frequent port of embarkation;
- the Fare and Age bin intervals;
- one `LabelEncoder` each for Sex, Embarked, Title, AgeBin and FareBin.

`fit` also imputes the caller's frame and adds the derived columns to it in
place. `transform(df)` replays the same steps on a deep copy: imputation,
then the six derived features (FamilySize, IsAlone, Title, FareBin, AgeBin,
IsMarried), then the five encoders. It returns the selected feature columns.

Modules, one file each:

- `Wrappers` (`wrappers.dfy`):
  - `Option` stands for a NaN cell.
  - `Result` stands for an operation the code lets raise.
  - `Slot` stands for an attribute that still holds `__init__`'s `None`, or a column not yet assigned.
- `Strings`: code-point string order, and `str.split` with the join it inverts.
- `Statistics`: the pandas `median` of the present values, and `mode()[0]`. The mode is the most frequent value; ties go to the smallest.
- `Intervals`: pandas right-closed intervals `(lo, hi]` and the search `get_interval` performs.
- `Encoding`: `LabelEncoder`. Fitting keeps the sorted distinct values. A value's code is its index in that list, and an unseen value fails.
- `Records`:
  - the passenger row, with its six derived columns;
  - the mutable `Dataset` that holds the rows;
  - the row of the selected output columns.
- `Features`: FamilySize, IsAlone, IsMarried and the Title parse.
- `Pipeline`: the whole transformer as functions on values.
  - `RunImputations` and `RunFeatures` are the two dictionary loops, with the stop-at-first-raise behaviour of Python.
  - `FitEncoders` is `get_encoders`.
  - `TransformRows` is `transform`.
  - `Fitting` is `fit`. The outcome of `pd.qcut` and `pd.cut` is a parameter: the interval list, or None where the call raises.
  - `ImputeRow`, `DeriveRow` and `PreparedRows` are per-row reference definitions. The loops are proved equal to them.
- `Transformer`:
  - the class `DataTransformer` with the six attributes;
  - a constructor, `Fit` (with its later steps in `LearnFeatures` and `DeriveAndEncode`), `ApplyImputations`, `CalculateNewFeatures`, `GetEncoders`, `GetInterval`, `BinColumn` and `Transform`.
  - Each method is proved to follow its definition in `Pipeline`.
  - The class invariant `Valid()` says the attributes were assigned in the order `fit` assigns them.
- `Scenarios`: two concrete passengers carried through `fit` and `transform`.

Errors (`Pipeline.Error`):

- `NotFitted` is the `ValueError`/`TypeError` raised by the following, before `fit`:
  - `fillna(None)`;
  - iterating a `None` interval list;
  - indexing `None` encoders.
- `NoEmbarkedValue`: `mode()[0]` on a column with no value.
- `NoTitleColumn`: the `KeyError` of `split(", ", expand=True)[1]` when no name contains ", ".
- `BinningFailed`: the `ValueError` of `pd.qcut` or `pd.cut` in `fit`, for instance on bin edges that are not unique.
- `ColumnMissing`: a feature reading a column not yet assigned. It is proved never to occur.
- `UnknownCategory(variable)`: `LabelEncoder.transform` meeting an unseen value.

Behaviour of the code worth knowing:

- `get_interval` falls through and gives `None` for a value outside every interval, including NaN. It does not raise an out-of-range error. That `None` becomes one more category, `Missing`, for the AgeBin/FareBin encoders: the value is rejected only when the encoder never met a missing bin at fit time.
- A name without ", " gets a missing title, not a validation error. `transform` raises only when no name of the batch has one.
- Imputation is not total: before `fit` it raises.
- `fit` runs, in this order: medians and mode, imputation, intervals, derived features, encoders. It derives the features once, after learning the intervals.
- `fit` can stop at four places: the mode, `qcut`, `cut` and the title split. Whatever it assigned before the raise stays assigned, and the frame stays imputed once imputation ran.
- `fit` stores `.unique()` of the binned column. The interval lists are in order of first appearance, not ascending, and hold only the bins some fit value falls in. When a bin is empty the stored list has a gap: a later value inside the overall range can find no bin, so its bin is missing and `transform` raises for the unseen category. The interval lemmas hold for any sub-list of a contiguous list, in any order.

## Model

| member | source | states |
|---|---|---|
| Strings.StrLess | trainer/transformer.py:25 | Python's `<` on strings, by code point, the order `mode()` and `LabelEncoder` sort by: no string is below itself (with StrLessIrreflexive, StrLessTransitive and StrLessTotal, a strict total order) |
| Strings.Split | trainer/transformer.py:92 | `str.split(sep)`: at least one piece; one piece exactly when sep does not occur; no piece contains sep; joining the pieces with sep gives back the string |
| Statistics.Median | trainer/transformer.py:23-24 | the median of the present values is NaN (None) exactly when there is no present value |
| Statistics.MedianSplitsValues | trainer/transformer.py:23-24 | at most half of the values lie strictly below the median and at most half strictly above, and it lies between the smallest and the largest value |
| Statistics.MedianOfEvenCount | trainer/transformer.py:23-24 | for an even count the median is the mean of the two middle values, those with the order-statistic bounds of the n/2-th and (n/2 + 1)-th smallest |
| Statistics.MiddlePairIsUnique | trainer/transformer.py:23-24 | only one pair of values meets those bounds, so the even-count median is fixed |
| Statistics.Mode | trainer/transformer.py:25 | `mode()[0]` fails exactly on an empty column; otherwise it is a most frequent value, the smallest among ties |
| Statistics.ModeIsTheMostFrequent | trainer/transformer.py:25 | the mode is v if and only if v is the smallest most frequent value |
| Records.Dataset.constructor | trainer/transformer.py:106 | a DataFrame holding the given rows; `transform` builds its deep copy with it |
| Records.PresentValuesAreCollected | trainer/transformer.py:25 | a port is among the values the mode is taken over if and only if some row has it |
| Intervals.Lookup | trainer/transformer.py:76-82 | the interval found is one of the list and contains the value; None means no interval of the list contains it |
| Intervals.LookupFindsFirst | trainer/transformer.py:76-82 | the lookup is None exactly when no interval contains the value; otherwise it is the first interval, in list order, that contains it |
| Intervals.LookupUnique | trainer/transformer.py:76-82 | with pairwise disjoint intervals, the lookup is the one interval containing the value |
| Intervals.ContiguousCovers | trainer/transformer.py:29-31 | a value inside the overall range of contiguous bins lies in one of them; a list holding some of those bins, in any order, finds a bin for it exactly when that bin is in the list, and always when every bin is listed |
| Intervals.EdgeBelongsToLowerBin | trainer/transformer.py:29-31 | in a list holding some of the bins of a contiguous right-closed list, in any order, a shared edge is looked up in the lower bin when that bin is listed, and is not in the next |
| Intervals.EmptyBinLeavesGap | trainer/transformer.py:29 | for the fit fares 7.5 and 50 the stored list holds the first and last of the four quartile bins, and a fare of 30 finds a bin in the full list but none in the stored one |
| Encoding.FitEncoder | trainer/transformer.py:60 | `LabelEncoder().fit`: the classes are strictly sorted and are exactly the values of the column |
| Encoding.Encode | trainer/transformer.py:112-116 | a value has a code exactly when it was seen at fit time; the code lies in [0, k) and indexes back to the value |
| Encoding.EncodeIsOrderPreserving | trainer/transformer.py:112-116 | distinct seen values get distinct codes, and codes follow the order of the values |
| Encoding.EncodeColumn | trainer/transformer.py:112-116 | `transform` of a column succeeds exactly when every value was seen; one code per value, each valid and mapping back to its value |
| Features.FamilySize | trainer/transformer.py:86 | FamilySize - 1 is SibSp + Parch, so it is at least 1 for non-negative counts |
| Features.IsAlone | trainer/transformer.py:88 | IsAlone is 0 or 1, and 1 exactly when FamilySize is 1 |
| Features.IsAloneMeansNoRelatives | trainer/transformer.py:86-88 | a passenger is alone exactly when both relative counts are zero |
| Features.IsMarried | trainer/transformer.py:90 | IsMarried is 0 or 1, and 1 exactly when the title is "Mrs" (a missing title gives 0) |
| Features.Title | trainer/transformer.py:92 | a title exists exactly when the name contains ", "; it contains neither "." nor ", " |
| Features.TitleIsTextAfterFirstComma | trainer/transformer.py:92 | the title is a prefix of the text after the first ", ", ending at the end of that text, at a "." or at a later ", " |
| Features.TitleOfMrsSmith | trainer/transformer.py:92 | "Smith, Mrs. Jane" has the title "Mrs" |
| Features.TitleOfMrDoe | trainer/transformer.py:92 | "Doe, Mr. John" has the title "Mr" |
| Features.TitleOfUsualName | trainer/transformer.py:92 | a name of the shape "Surname, Honorific. Given" has the honorific as its title |
| Pipeline.FillColumn | trainer/transformer.py:66-70 | one `fillna(..., inplace=True)` lambda: one row per row, a row whose cell is present is unchanged, and after the Embarked lambda no port is missing |
| Pipeline.RunImputations | trainer/transformer.py:39-43 | the imputation loop keeps one row per row and runs to the end exactly when every column's fill value is learned |
| Pipeline.ImputationIsRowwise | trainer/transformer.py:65-74 | the imputation loop completes exactly when all three fill values are learned, and then imputes each row on its own, keeping the rows and their order |
| Pipeline.ImputationFillsOnlyMissing | trainer/transformer.py:66-72 | a present Age, Fare or Embarked is kept, a missing one takes the learned value, and no other column changes |
| Pipeline.ImputationIsIdempotent | trainer/transformer.py:66-72 | imputing an imputed frame again changes nothing |
| Pipeline.LearnedValuesCompleteTheFrame | trainer/transformer.py:23-27 | with the values `fit` learns from the frame, no Embarked stays missing, and Age (Fare) stays missing only when the column had no value |
| Pipeline.AddFeature | trainer/transformer.py:84-102 | one feature lambda assigned to the frame keeps one row per row, and can raise only as not fitted, for a missing title column, or for a missing column |
| Pipeline.RunFeatures | trainer/transformer.py:45-49 | the feature loop keeps one row per row and stops with one of those three errors, if any |
| Scenarios.TwoPassengerBatch | trainer/transformer.py:84-121 | two passengers, "Smith, Mrs. Jane" with one sibling or spouse and "Doe, Mr. John" alone: a successful transform gives Mrs/1/2/0 and Mr/0/1/1 as title, IsMarried, FamilySize and IsAlone |
| Scenarios.FitAndTransformTwoPassengers | trainer/transformer.py:21-121 | a fresh transformer fitted on those two passengers succeeds for any bins `qcut` and `cut` return, and then transforms them without error to Mrs/1/2/0 and Mr/0/1/1 |
| Pipeline.NewFeaturesAreRowwise | trainer/transformer.py:84-102 | the feature loop fails only for want of a title column or of the interval lists, never for a missing column; on success every row gets its own six derived columns, in order |
| Pipeline.DerivationSeesOnlyInput | trainer/transformer.py:84-102 | the derived columns depend on the passenger columns alone |
| Pipeline.DerivationKeepsInput | trainer/transformer.py:84-102 | deriving the new columns leaves the passenger columns unchanged |
| Pipeline.FitEncoders | trainer/transformer.py:52-63 | the dictionary of `get_encoders` has an encoder for each of the five variables |
| Pipeline.FittedEncoderCoversColumn | trainer/transformer.py:52-63 | each of the five encoders exists, is sorted, holds exactly the values of its column, and gives every one of them a code |
| Pipeline.EncodeVariable | trainer/transformer.py:112-116 | one encoder call succeeds exactly when every value of its column was seen, and otherwise fails with the variable's name |
| Pipeline.EncodeAndSelect | trainer/transformer.py:112-121 | the five encoder calls and the selection give one output row per row, and fail only for an unseen category or a missing encoder |
| Pipeline.EncodingStopsAtFirstUnseen | trainer/transformer.py:112-116 | the encoder calls fail at the first variable, in source order, that has an unseen value, and succeed when there is none |
| Pipeline.EncodedRowsFollowTheirRows | trainer/transformer.py:112-121 | one output row per row, copying the selected columns and carrying the codes of the two bins |
| Pipeline.TransformRows | trainer/transformer.py:104-121 | `transform` gives one output row per input row, or fails as not fitted, for a missing title column, or for an unseen category |
| Pipeline.TransformStages | trainer/transformer.py:104-116 | which stage of `transform` decides the outcome: missing fill values, title column, intervals, encoders |
| Pipeline.TransformIsRowwise | trainer/transformer.py:104-121 | each output row comes from its own input row: Sex, class and counts copied, the port imputed, the title parsed, the family features, and the codes of the bins of the imputed Age and Fare |
| Pipeline.TransformReportsNotFitted | trainer/transformer.py:104-116 | a fresh transformer fails as not fitted; without encoders `transform` always fails; with encoders it fails only on a missing title column or an unseen category |
| Pipeline.TransformRejectsFirstUnseen | trainer/transformer.py:112-116 | a fitted transform succeeds exactly when every categorical value was seen, and otherwise names the first variable with an unseen value |
| Pipeline.UnseenSexIsRejected | trainer/transformer.py:112 | a Sex value not seen at fit time makes `transform` fail with the unknown-category error for Sex |
| Pipeline.TransformSeesOnlyInput | trainer/transformer.py:104-110 | frames that agree on the passenger columns transform alike, whatever derived columns they already hold |
| Pipeline.TransformOfImputedInput | trainer/transformer.py:104-108 | imputing the frame before `transform` does not change the result |
| Pipeline.TransformOfPreparedRows | trainer/transformer.py:104-110 | a frame that already went through imputation and the features transforms as the raw frame does |
| Pipeline.FitCorpusIsCovered | trainer/transformer.py:104-116 | a batch whose rows repeat rows of the fit frame never meets an unseen category: it transforms exactly when some name has ", " |
| Pipeline.PortsCollected | trainer/transformer.py:25 | the mode has values to look at exactly when some row has a port |
| Pipeline.FitPastTheMode | trainer/transformer.py:25-35 | once the mode exists, `fit` either raises in `qcut` (fill values stored, frame imputed) or in `cut` (fare intervals stored too), or stops at the title split, or stores the encoders of the prepared frame, which it leaves in place |
| Pipeline.FittingPastTheModeOutcome | trainer/transformer.py:27-35 | after the three fill values, the rest of `fit` raises in `qcut` or `cut` with the frame imputed and the intervals stored so far, or stops at the title split with both interval lists stored, or stores the encoders of the prepared frame and leaves that frame in place |
| Pipeline.FitLearnsFromItsInput | trainer/transformer.py:21-35 | `fit` stores the medians of the present Fare and Age values and the most frequent port; it raises exactly when no port is known, when `qcut` or `cut` raises, or when no name has ", " |
| Pipeline.FitSetsFieldsInOrder | trainer/transformer.py:21-37 | `fit` keeps the assignment order of the attributes, sets all six on success, leaves the frame imputed and the later attributes as they were when a binning call raises, and changes nothing after the step that raised |
| Pipeline.Fitting | trainer/transformer.py:21-37 | `fit` raises only in the mode, in `qcut`/`cut` or in the title split, never for a missing column or fill value |
| Pipeline.FittingPastTheMode | trainer/transformer.py:27-35 | after the mode, `fit` raises only in `qcut`/`cut` or in the title split, and keeps one row per row |
| Pipeline.FittingFromBins | trainer/transformer.py:33-35 | with both interval lists stored, the feature loop of `fit` raises only at the title split; on success all five encoders are stored |
| Pipeline.FitPreparesItsFrame | trainer/transformer.py:27-35 | a successful `fit` leaves its frame imputed and derived row by row, with the encoders learned from it |
| Pipeline.FitThenTransform | trainer/transformer.py:21-37 | after a successful `fit`, its own frame transforms without error, and the changed frame transforms as the original one |
| Transformer.DataTransformer.constructor | trainer/transformer.py:13-19 | every attribute is unset, and the class invariant holds |
| Transformer.DataTransformer.Fit | trainer/transformer.py:21-37 | the new attributes and the changed frame are those `Fitting` gives; the result is the transformer itself or the error; the invariant is kept |
| Transformer.DataTransformer.DeriveAndEncode | trainer/transformer.py:33-35 | the attributes and the frame after the feature loop and `get_encoders` are those `FittingFromBins` gives, and so is the error |
| Transformer.DataTransformer.LearnFeatures | trainer/transformer.py:27-35 | the attributes and the frame after imputation, `qcut`, `cut`, the features and the encoders are those `FittingPastTheMode` gives, including a binning call that raises, and so is the error |
| Transformer.DataTransformer.ApplyImputations | trainer/transformer.py:39-43 | the frame after the loop and its completion are those of `RunImputations`, and the attributes are not written |
| Transformer.DataTransformer.CalculateNewFeatures | trainer/transformer.py:45-49 | the frame after the loop and the error are those of `RunFeatures` |
| Transformer.DataTransformer.BinColumn | trainer/transformer.py:94-97 | `apply` of `get_interval`: one bin per value, each the lookup of that value |
| Transformer.DataTransformer.GetInterval | trainer/transformer.py:76-82 | the search loop returns the lookup: the first interval containing the value, or None |
| Transformer.DataTransformer.GetEncoders | trainer/transformer.py:51-63 | the dictionary built in the loop is `FitEncoders` of the frame |
| Transformer.DataTransformer.Transform | trainer/transformer.py:104-121 | the result is `TransformRows`; the method changes neither the frame nor the transformer |
| Transformer.TransformIsRepeatable | trainer/transformer.py:104-121 | two `transform` calls on the same frame give the same result |

## Left out

- `save`, `load` and the `to_pickle` call in `get_encoders`: file I/O through pickle.
- The logger calls and the `print` in `get_interval`'s fall-through: output only.
- Transformer.DataTransformer.Fit: the outcomes of `pd.qcut` and `pd.cut` are parameters (`fareBins`, `ageBins`: the interval list, or None for the `ValueError`). Their edge arithmetic on floats is not modelled, so which frames make them raise (a one-row frame, a constant or all-missing column) is not derived from the rows. The full bin list `qcut` or `cut` computes is contiguous, but the list `fit` stores is not when a bin is empty (`Intervals.EmptyBinLeavesGap`).
- Intervals.ContiguousCovers: contiguity of the full bin list is a premise, not derived from the pandas edge arithmetic, and which bins of it the stored list holds is not derived from the fit values.
- Intervals.EdgeBelongsToLowerBin: the same premise; it applies only when the lower bin is one of the stored ones.
- Pipeline.Fitting: takes the same two parameters, for the same reason.
- Pipeline.FitLearnsFromItsInput: `BinningFailed` is tied to the parameters, not to the Fare and Age values that make pandas raise.
- Transformer.DataTransformer.LearnFeatures: the same parameters, for the same reason.
- `pd.get_dummies`: `Transform` returns the selected columns before the one-hot expansion. Sex, Embarked and Title stay their raw values, and their encoder calls only decide whether the call fails.
- Floating point: Fare and Age are `real`, and NaN is an absent `Option`. The median of an even count is the mean of the two middle values, computed exactly.
- `LabelEncoder` on a column that mixes strings with NaN: the model sorts the missing value after every present one.
- Features.Title: `Name` is always a string. A `NaN` name, which pandas splits to NaN, is not modelled.
- An empty frame has no column 1 after the split either. The model treats an empty batch like a batch with no ", " in any name, so both fail with `NoTitleColumn`.
- Ticket and Cabin are carried through the rows but read by no step.
- The pandas behaviour the model assumes: `dataset[col].fillna(..., inplace=True)` in `get_feature_imputations` updates the frame itself, as it does in pandas 1.x. Under pandas Copy-on-Write that chained call changes only a temporary copy, and the imputations would not reach the frame.
- The other repository files are not part of this model: trainer/trainer.py and the prediction_api package, which cover training orchestration, HTTP serving, metrics and profiling.
