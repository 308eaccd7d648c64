# Softmax classification encoding and test dataset options (jpmml-xgboost)

This project models two parts of jpmml-xgboost, the converter from XGBoost
models to PMML.

- `SoftMaxClassification` is the `multi:softmax` objective.
  - Its constructor builds the target field `_target`. The field is
    categorical and string-typed, with one value per class: "0" .. "n-1".
  - `encodeMiningModel` splits XGBoost's flat list of trees into one
    column per class. The list is stored round by round, one tree per class
    per round.
  - For each class it builds one regression sub-model. The sub-model sums
    that class's trees and exposes two outputs: the raw sum `xgbValue_<c>`,
    and its transform `transformedValue_<c> = exp(xgbValue_<c> + base_score)`.
  - It hands the categories, the sub-models and the transformed fields to
    the classification aggregator.
  - `getColumn` performs the extraction. It uses Java's 32-bit `int`
    arithmetic and throws when the list is not a `rows x columns` grid.
- `XGBoostTestBatch` is the integration-test harness.
  - `parseDataset` splits a dataset name such as `Iris@5` at its first `@`.
  - `getOptions` turns the part after the `@` into the converter options
    `compact`, `nan_as_missing` and `ntree_limit`, kept in insertion order.

Modules:

- `JavaLang` (`java_lang.dfy`): 32-bit `int` wrap-around, the three
  exceptions involved, and `Result`/`Option` wrappers. A thrown exception is
  a `Failure`; `null` is `None`.
- `Decimal` (`decimal.dfy`): formats naturals as `Integer.toString` does,
  and parses as `Integer.parseInt`/`new Integer(String)` do, with their
  round trip.
- `Pmml` (`pmml.dfy`): the PMML objects the encoder builds, reduced to the
  attributes it sets. Trees (`S`) and the base score (`B`) are type
  parameters.
- `SoftMax` (`softmax.dfy`): the target field, `getColumn`, the
  specification function `Encoding` of `encodeMiningModel`, and the class
  `SoftMaxClassification`, with its holding-only constructor and its
  imperative `EncodeMiningModel`.
- `TestBatch` (`test_batch.dfy`): `indexOf`, `parseDataset`, an
  insertion-ordered map standing for `LinkedHashMap`, and `getOptions`.

`CreateDataField`, `GetColumn`, `EncodeMiningModel` and `GetOptions` are
methods with loops or step-by-step updates, as in the source.

- `CreateDataField`, `GetColumn` and `EncodeMiningModel` are each proved
  equal to a specification function: `TargetField`, `Column` (or the
  corresponding failure) and `Encoding`.
- The lemmas about those functions state what the encoding means:
  - each segment goes to exactly one sub-model;
  - each sub-model's segments form a fixed stride of the flat list;
  - the output names are pairwise distinct;
  - the labels read back as their class index;
  - a segment count that is not a multiple of the class count is rejected.

`getColumn` and `encodeMiningModel` work on Java `List`s. These become
`seq` values. The lists the Java methods build by repeated `add` are local
`seq` variables, extended once per loop iteration.

## Model

| member | source | states |
|---|---|---|
| Decimal.FormatNat | src/main/java/org/jpmml/xgboost/SoftMaxClassification.java:112-114 | a category label is a non-empty string of ASCII digits with no leading zero |
| Decimal.DigitsValueOfFormat | src/main/java/org/jpmml/xgboost/SoftMaxClassification.java:112-114 | reading a formatted label back as a decimal numeral gives the class index |
| Decimal.FormatNatInjective | src/main/java/org/jpmml/xgboost/SoftMaxClassification.java:112-114 | distinct class indices get distinct labels |
| Decimal.ParseFormatRoundTrip | src/test/java/org/jpmml/xgboost/XGBoostTestBatch.java:50 | `new Integer` of a formatted int gives the int back |
| Decimal.ParseNegatedFormat | src/test/java/org/jpmml/xgboost/XGBoostTestBatch.java:50 | a '-' before a numeral parses to its negation, down to Integer.MIN_VALUE |
| Decimal.ParseRejectsNonDigits | src/test/java/org/jpmml/xgboost/XGBoostTestBatch.java:50 | any non-digit after the optional sign makes `new Integer` throw NumberFormatException |
| Decimal.ParseRejectsLoneSign | src/test/java/org/jpmml/xgboost/XGBoostTestBatch.java:50 | a sign with no digits is not a number |
| SoftMax.LabelsAreIndices | src/main/java/org/jpmml/xgboost/SoftMaxClassification.java:111-117 | there are n labels; label k reads back as k, so they are in ascending order and pairwise distinct |
| SoftMax.CreateDataField | src/main/java/org/jpmml/xgboost/SoftMaxClassification.java:107-120 | the result is the categorical string field `_target` whose values are the labels of 0 .. num_class-1, and none when num_class is negative |
| SoftMax.SoftMaxClassification.constructor | src/main/java/org/jpmml/xgboost/SoftMaxClassification.java:48-50 | the encoder's data field is the one createDataField builds for num_class |
| SoftMax.GetColumn | src/main/java/org/jpmml/xgboost/SoftMaxClassification.java:122-136 | IllegalArgumentException exactly when the size differs from the 32-bit product rows*columns; otherwise success exactly when every wrapped position (row*columns)+index is in bounds, else IndexOutOfBoundsException; result entry k is the element at position k; on an exact grid the result is column `index` |
| SoftMax.ExactGridPositions | src/main/java/org/jpmml/xgboost/SoftMaxClassification.java:125-132 | on a grid whose size fits in an int, the 32-bit arithmetic does not wrap and every position is in bounds |
| SoftMax.ColumnOfPositions | src/main/java/org/jpmml/xgboost/SoftMaxClassification.java:129-135 | a list holding, row by row, the element at position row*columns+index is column `index` of the grid |
| SoftMax.PositionInExactlyOneColumn | src/main/java/org/jpmml/xgboost/SoftMaxClassification.java:132 | flat position p is (row k, column i) exactly when i = p % columns and k = p / columns |
| SoftMax.ColumnsPartition | src/main/java/org/jpmml/xgboost/SoftMaxClassification.java:129-135 | every element of the grid is entry p / columns of column p % columns |
| SoftMax.DivisionGrid | src/main/java/org/jpmml/xgboost/SoftMaxClassification.java:80 | the grid (size / c) x c never exceeds the size and fills it exactly when c divides the size |
| SoftMax.ColumnExample | src/main/java/org/jpmml/xgboost/SoftMaxClassification.java:129-135 | six elements in three columns: column i takes elements i and i + 3 |
| SoftMax.EncodingShape | src/main/java/org/jpmml/xgboost/SoftMaxClassification.java:66-102 | on success: the target name, the categories in order and the feature names are passed through; sub-model i is a SUM regression over the feature schema whose outputs are xgbValue_<label i> and transformedValue_<label i> = exp(xgbValue_<label i> + base_score); probability input i is that transformed field; probabilities are computed |
| SoftMax.EncodingOnGrid | src/main/java/org/jpmml/xgboost/SoftMaxClassification.java:80 | rounds x classes segments are accepted, and each sub-model gets exactly one segment per round |
| SoftMax.EncodingRejectsRagged | src/main/java/org/jpmml/xgboost/SoftMaxClassification.java:80 | a segment count strictly between two multiples of the class count makes the encoder throw IllegalArgumentException |
| SoftMax.EncodingColumns | src/main/java/org/jpmml/xgboost/SoftMaxClassification.java:80-82 | entry k of sub-model i is segment k * C + i, for C classes |
| SoftMax.EncodingPartitionsSegments | src/main/java/org/jpmml/xgboost/SoftMaxClassification.java:80-82 | segment p is entry p / C of sub-model p % C and is no entry of any other sub-model |
| SoftMax.PrefixKeepsDistinct | src/main/java/org/jpmml/xgboost/SoftMaxClassification.java:72-76 | prefixing distinct labels keeps their names distinct |
| SoftMax.PredictedIsNotTransformed | src/main/java/org/jpmml/xgboost/SoftMaxClassification.java:72-76 | no predicted field name equals a transformed field name |
| SoftMax.EncodedNamesDistinct | src/main/java/org/jpmml/xgboost/SoftMaxClassification.java:72-91 | with distinct categories, all output field names across all sub-models are pairwise distinct |
| SoftMax.DefaultTargetEncoding | src/main/java/org/jpmml/xgboost/SoftMaxClassification.java:48-50 | for the constructor's target field the categories are "0" .. "n-1" and every output name is unique |
| SoftMax.EncodingExample | src/main/java/org/jpmml/xgboost/SoftMaxClassification.java:53-105 | three classes and six segments: sub-model i sums segments i and i + 3; five segments are rejected |
| SoftMax.SoftMaxClassification.EncodeMiningModel | src/main/java/org/jpmml/xgboost/SoftMaxClassification.java:53-105 | the loop over the categories yields exactly the specification `Encoding`: the failure getColumn throws, or the request handed to createClassification |
| TestBatch.IndexOf | src/test/java/org/jpmml/xgboost/XGBoostTestBatch.java:101 | -1 exactly when the character is absent; otherwise the position of its first occurrence |
| TestBatch.ParseDataset | src/test/java/org/jpmml/xgboost/XGBoostTestBatch.java:98-107 | one part, the dataset itself, exactly when there is no '@'; otherwise two parts, the first free of '@', that joined with '@' give back the dataset |
| TestBatch.SplitJoin | src/test/java/org/jpmml/xgboost/XGBoostTestBatch.java:98-107 | splitting name + "@" + suffix, where the name has no '@', gives back exactly the name and the suffix |
| TestBatch.EmptyMap | src/test/java/org/jpmml/xgboost/XGBoostTestBatch.java:53 | a new LinkedHashMap is well formed and has no entries |
| TestBatch.PutPreservesValid | src/test/java/org/jpmml/xgboost/XGBoostTestBatch.java:54-56 | put keeps each key listed once and the listing equal to the key set |
| TestBatch.PutEntries | src/test/java/org/jpmml/xgboost/XGBoostTestBatch.java:54-56 | put of a new key appends one entry; put of an existing key replaces only that key's entry, in place |
| TestBatch.GetOptions | src/test/java/org/jpmml/xgboost/XGBoostTestBatch.java:45-59 | NumberFormatException exactly when there is an '@' and the suffix is not an int; otherwise the entries, in order, are compact = there is a limit, nan_as_missing = true, ntree_limit = the parsed limit or null |
| TestBatch.TreeLimitSuffix | src/test/java/org/jpmml/xgboost/XGBoostTestBatch.java:45-51 | name@n yields the limit n; name@ has an empty suffix, which is rejected |
| TestBatch.DatasetExamples | src/test/java/org/jpmml/xgboost/XGBoostTestBatch.java:98-107 | "Iris" is one part; "Iris@5" has limit 5; "Iris@" and "Iris@5@6" have suffixes that are not numbers |

## Left out

- MiningModelUtil.createClassification: the aggregator is not part of this model. The model stops at its arguments, the `ClassificationRequest` record.
- ModelUtil.createMiningSchema, the predicted/transformed field helpers of ObjFunction and the PMML classes: these become plain records holding only the attributes the encoder sets. A mining schema is the list of feature names; an output field is a name plus an optional expression.
- ValueUtil.formatValue and PMMLUtil.createValues: a label is the decimal numeral of its index, and a `Value` is its string.
- base_score: a `float`, and the `exp` it feeds, are floating point. Both are carried symbolically (the opaque type `B`, an `Apply("exp", ...)` expression), and nothing is evaluated.
- Decimal.ParseInt: `Integer.parseInt` also accepts non-ASCII Unicode digits (`Character.digit`); the model accepts ASCII digits only.
- SoftMax.GetColumn and SoftMax.SoftMaxClassification.EncodeMiningModel: the model requires list sizes of at most Integer.MAX_VALUE, which `List.size()` always satisfies.
- SoftMax.SoftMaxClassification.EncodeMiningModel: `new ArrayList` and `Lists.transform` views become `seq` values, so aliasing of the returned lists is not modelled.
- SoftMax.Encoding: with zero classes, encodeMiningModel's loop never runs and getColumn is never called. The result then succeeds with no sub-models, whatever the segments. The model follows the code here.
- TestBatch.GetOptions: the option names of HasXGBoostOptions become the keys of the enumeration `OptionKey`; their string values are not modelled. The previous values that `put` returns are ignored there too.
- TestBatch.LinkedHashMap: the map is a value (an insertion-ordered key list plus a map) that getOptions reassigns after each `put`. It is not a heap object, since no other code holds a reference to it.
- getDataset, getPMML, getInput, getOutput and the loading of models, feature maps and CSV files: these are I/O of the test harness. The dataset string becomes a parameter of ParseDataset and GetOptions.
