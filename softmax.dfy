/** The softmax multi-class objective of SoftMaxClassification.java: the
    target field with labels "0" .. "n-1", the fixed-stride extraction of
    one category's segments from the flat round-major list, and the
    encoding of one regression sub-model per category whose transformed
    output is exp(xgbValue + base_score). */
module SoftMax {
  import opened JavaLang
  import opened Decimal
  import opened Pmml

  const TARGET_NAME: FieldName := "_target"
  const PREDICTED_PREFIX: string := "xgbValue_"
  const TRANSFORMED_PREFIX: string := "transformedValue_"

  // ---------------------------------------------------------------------
  // The target field

  /** The default category labels: the decimal numerals of 0 .. n-1. */
  function Labels(n: nat): seq<string>
  {
    seq(n, k requires 0 <= k < n => FormatNat(k))
  }

  function TargetField(n: nat): DataField
  {
    DataField(TARGET_NAME, Categorical, StringType, Labels(n))
  }

  /** There are n labels, category k reads back as the number k (so the labels
      are in ascending numeric order), and no category occurs twice. */
  lemma LabelsAreIndices(n: nat)
    ensures |Labels(n)| == n
    ensures forall k :: 0 <= k < n ==> AllDigits(Labels(n)[k]) && DigitsValue(Labels(n)[k]) == k
    ensures forall k :: 0 <= k < n && k <= MAX_INT ==> ParseInt(Labels(n)[k]) == Some(k)
    ensures forall j, k :: 0 <= j < k < n ==> Labels(n)[j] != Labels(n)[k]
  {
    forall k | 0 <= k < n
      ensures DigitsValue(Labels(n)[k]) == k
      ensures k <= MAX_INT ==> ParseInt(Labels(n)[k]) == Some(k)
    {
      DigitsValueOfFormat(k);
      if k <= MAX_INT {
        ParseFormatRoundTrip(k);
      }
    }
    forall j, k | 0 <= j < k < n
      ensures Labels(n)[j] != Labels(n)[k]
    {
      FormatNatInjective(j, k);
    }
  }

  /** createDataField: a categorical string field named "_target" whose
      values are the labels of 0 .. num_class-1 (none for a negative
      num_class, whose loop never runs). */
  method CreateDataField(numClass: Int32) returns (field: DataField)
    ensures field == TargetField(if numClass < 0 then 0 else numClass)
  {
    var targetCategories: seq<string> := [];
    var i: Int32 := 0;
    while i < numClass
      invariant 0 <= i && (i <= numClass || i == 0)
      invariant |targetCategories| == i
      invariant forall k :: 0 <= k < i ==> targetCategories[k] == FormatNat(k)
    {
      targetCategories := targetCategories + [FormatNat(i)];
      i := i + 1;
    }
    // The new field's value list is empty; addAll appends every category.
    field := DataField(TARGET_NAME, Categorical, StringType, [] + targetCategories);
    assert field.values == Labels(if numClass < 0 then 0 else numClass);
  }

  // ---------------------------------------------------------------------
  // Fixed-stride extraction

  /** Java's `(row * columns) + index`, evaluated in int arithmetic. */
  function Position(row: int, index: int, columns: int): Int32
  {
    Wrap(Wrap(row * columns) + index)
  }

  /** Every position getColumn reads for rows 0 .. rows-1 lies in a list of
      `size` elements. */
  predicate InBounds(size: nat, index: int, rows: int, columns: int)
  {
    forall k :: 0 <= k < rows ==> 0 <= Position(k, index, columns) < size
  }

  lemma StrideInBounds(k: int, index: int, rows: int, columns: int)
    requires 0 <= k < rows && 0 <= index < columns
    ensures 0 <= k * columns
    ensures k * columns + index < rows * columns
  {
    MulNonneg(k, columns);
    DistribAdd1(k, columns);
    MulMono(k + 1, rows, columns);
  }

  /** The flat position of (row, column) in a grid stored row after row. */
  function FlatIndex(row: int, column: int, columns: int): int
  {
    row * columns + column
  }

  /** Column `index` of `values` read as a grid of `rows` rows and `columns`
      columns stored row after row: entry k is values[k * columns + index]. */
  function Column<E>(values: seq<E>, index: nat, rows: nat, columns: nat): seq<E>
    requires index < columns && |values| == rows * columns
  {
    seq(rows, k requires 0 <= k < rows => StrideInBounds(k, index, rows, columns); values[FlatIndex(k, index, columns)])
  }

  /** getColumn: throws IllegalArgumentException when the list size differs
      from rows * columns (an int product, so it may wrap), and otherwise
      reads values.get(row * columns + index) for row = 0 .. rows-1, which
      throws IndexOutOfBoundsException at the first position outside the list.
      When the product is exact and the index is a column of the grid, the
      result is that column. */
  method GetColumn<E>(values: seq<E>, index: Int32, rows: Int32, columns: Int32) returns (r: Result<seq<E>>)
    requires |values| <= MAX_INT
    ensures r.Failure? ==> (r.error == IllegalArgument <==> |values| != Wrap(rows * columns))
    ensures r.Success? <==> |values| == Wrap(rows * columns) && InBounds(|values|, index, rows, columns)
    ensures r.Failure? ==> r.error == IllegalArgument || r.error == IndexOutOfBounds
    ensures r.Success? ==>
      |r.value| == (if rows < 0 then 0 else rows) &&
      forall k :: 0 <= k < |r.value| ==>
        0 <= Position(k, index, columns) < |values| && r.value[k] == values[Position(k, index, columns)]
    ensures |values| == rows * columns && 0 <= index < columns ==>
      r == Success(Column(values, index, rows, columns))
  {
    if |values| != Wrap(rows * columns) {
      return Failure(IllegalArgument);
    }
    var exact := |values| == rows * columns && 0 <= index < columns;
    if exact {
      ExactGridPositions(|values|, index, rows, columns);
    }
    var result: seq<E> := [];
    var row: Int32 := 0;
    while row < rows
      invariant 0 <= row && (row <= rows || row == 0)
      invariant |result| == row
      invariant InBounds(|values|, index, row, columns)
      invariant forall k :: 0 <= k < row ==> result[k] == values[Position(k, index, columns)]
    {
      var p := Position(row, index, columns);
      if !(0 <= p < |values|) {
        assert !InBounds(|values|, index, rows, columns);
        return Failure(IndexOutOfBounds);
      }
      result := result + [values[p]];
      row := row + 1;
    }
    r := Success(result);
    if exact {
      ColumnOfPositions(values, result, index, rows, columns);
    }
  }

  /** Inside a grid that fits in an int, Java's position arithmetic does not
      wrap. */
  lemma ExactGridPositions(size: nat, index: int, rows: int, columns: int)
    requires size <= MAX_INT && size == rows * columns && 0 <= index < columns
    ensures Wrap(rows * columns) == size && rows >= 0
    ensures InBounds(size, index, rows, columns)
    ensures forall k :: 0 <= k < rows ==> Position(k, index, columns) == k * columns + index
  {
    forall k | 0 <= k < rows
      ensures Position(k, index, columns) == k * columns + index < size
    {
      StrideInBounds(k, index, rows, columns);
      var offset := k * columns;
      assert Wrap(offset) == offset;
      assert Wrap(offset + index) == offset + index;
    }
  }

  lemma ColumnOfPositions<E>(values: seq<E>, result: seq<E>, index: int, rows: int, columns: int)
    requires |values| <= MAX_INT && |values| == rows * columns && 0 <= index < columns && 0 <= rows
    requires |result| == rows
    requires forall k :: 0 <= k < rows ==> 0 <= Position(k, index, columns) < |values| && result[k] == values[Position(k, index, columns)]
    ensures result == Column(values, index, rows, columns)
  {
    ExactGridPositions(|values|, index, rows, columns);
  }

  /** A flat position p of a rows x columns grid sits in column p % columns
      at row p / columns, and in no other column or row. */
  lemma PositionInExactlyOneColumn(p: nat, k: nat, index: nat, columns: nat)
    requires index < columns
    ensures k * columns + index == p <==> (index == p % columns && k == p / columns)
  {
    if k * columns + index == p {
      assert p % columns == index && p / columns == k by {
        DivModUnique(p, k, index, columns);
      }
    }
    if index == p % columns && k == p / columns {
      assert p == (p / columns) * columns + p % columns;
    }
  }

  lemma DivModUnique(p: int, q: int, m: int, d: int)
    requires 0 <= m < d && p == q * d + m
    ensures p / d == q && p % d == m
  {
    var q', m' := p / d, p % d;
    DivMod(p, d);
    DistribSub(q, q', d);
    if q > q' {
      MulMono(1, q - q', d);
    } else if q < q' {
      DistribSub(q', q, d);
      MulMono(1, q' - q, d);
    }
  }

  /** The columns partition the grid: every element of a rows x columns list
      is entry p / columns of column p % columns. */
  lemma ColumnsPartition<E>(values: seq<E>, rows: nat, columns: nat, p: nat)
    requires |values| == rows * columns && p < |values|
    ensures columns > 0 && p % columns < columns && p / columns < rows
    ensures Column(values, p % columns, rows, columns)[p / columns] == values[p]
  {
    assert columns > 0;
    DivMod(p, columns);
    if p / columns >= rows {
      MulMono(rows, p / columns, columns);
    }
  }

  lemma MulNonneg(a: int, b: int)
    requires a >= 0 && b >= 0
    ensures a * b >= 0
  {
  }

  lemma DistribSub(a: int, b: int, c: int)
    ensures (a - b) * c == a * c - b * c
  {
  }

  lemma DistribAdd1(k: int, c: int)
    ensures (k + 1) * c == k * c + c
  {
  }

  lemma MulMono(a: int, b: int, c: int)
    requires a <= b && c >= 0
    ensures a * c <= b * c
  {
    MulNonneg(b - a, c);
    DistribSub(b, a, c);
  }

  lemma DivMod(p: int, d: int)
    requires d > 0
    ensures p == (p / d) * d + p % d && 0 <= p % d < d
  {
  }

  /** The quotient grid of a division: it never exceeds the dividend and
      fills it exactly when the divisor divides it. */
  lemma DivisionGrid(size: nat, c: nat)
    requires c > 0
    ensures 0 <= (size / c) * c <= size
    ensures (size / c) * c == size <==> size % c == 0
  {
    DivMod(size, c);
    MulNonneg(size / c, c);
  }

  /** Six segments in three columns: each column takes every third segment. */
  lemma ColumnExample<E>(s0: E, s1: E, s2: E, s3: E, s4: E, s5: E)
    ensures Column([s0, s1, s2, s3, s4, s5], 0, 2, 3) == [s0, s3]
    ensures Column([s0, s1, s2, s3, s4, s5], 1, 2, 3) == [s1, s4]
    ensures Column([s0, s1, s2, s3, s4, s5], 2, 2, 3) == [s2, s5]
  {
  }

  // ---------------------------------------------------------------------
  // The per-category sub-models

  function PredictedName(category: string): FieldName
  {
    PREDICTED_PREFIX + category
  }

  function TransformedName(category: string): FieldName
  {
    TRANSFORMED_PREFIX + category
  }

  /** exp(xgbValue_<category> + base_score) */
  function Transform<B>(category: string, baseScore: B): Expression<B>
  {
    Apply("exp", [Apply("+", [FieldRef(PredictedName(category)), Constant(baseScore)])])
  }

  /** The regression sub-model of one category: the sum of its column of
      segments, exposing the raw sum and its transform, in that order. */
  function CategoryModel<S, B>(category: string, column: seq<S>, schema: MiningSchema, baseScore: B): MiningModel<S, B>
  {
    MiningModel(Regression, schema, Segmentation(Sum, column),
      [OutputField(PredictedName(category), None), OutputField(TransformedName(category), Some(Transform(category, baseScore)))])
  }

  /** What encodeMiningModel hands to the classification aggregator, for
      target field `target`: a failure when the segments do not fill a grid
      with one column per category, and otherwise one sub-model per
      category, in category order. */
  function Encoding<S, B>(target: DataField, segments: seq<S>, baseScore: B, features: seq<DataField>)
    : Result<ClassificationRequest<S, B>>
  {
    var labels := target.values;
    var c := |labels|;
    if c > 0 && |segments| % c != 0 then Failure(IllegalArgument)
    else
      var rows := if c == 0 then 0 else |segments| / c;
      var schema := MiningSchema(FieldNames(features));
      Success(ClassificationRequest(
        target.name,
        labels,
        FieldNames(features),
        seq(c, i requires 0 <= i < c => CategoryModel(labels[i], Column(segments, i, rows, c), schema, baseScore)),
        seq(c, i requires 0 <= i < c => TransformedName(labels[i])),
        true))
  }

  /** On success the request carries the target field's name, the labels in
      order and the feature names; sub-model i is a SUM-combined regression
      over the features whose outputs are, in this order, the raw sum
      xgbValue_<label i> and transformedValue_<label i> =
      exp(xgbValue_<label i> + base_score), with the same base score for
      every category; the i-th probability input is that transformed field. */
  lemma EncodingShape<S, B>(target: DataField, segments: seq<S>, baseScore: B, features: seq<DataField>)
    requires Encoding(target, segments, baseScore, features).Success?
    ensures var req := Encoding(target, segments, baseScore, features).value;
      var c := |target.values|;
      && req.targetField == target.name
      && req.targetCategories == target.values
      && req.activeFields == FieldNames(features)
      && req.computeProbabilities
      && |req.models| == c && |req.probabilityInputs| == c
      && forall i :: 0 <= i < c ==>
        && req.models[i].miningFunction == Regression
        && req.models[i].schema == MiningSchema(FieldNames(features))
        && req.models[i].segmentation.multipleModelMethod == Sum
        && req.models[i].output == [
             OutputField("xgbValue_" + target.values[i], None),
             OutputField("transformedValue_" + target.values[i],
               Some(Apply("exp", [Apply("+", [FieldRef("xgbValue_" + target.values[i]), Constant(baseScore)])])))]
        && req.probabilityInputs[i] == req.models[i].output[1].name
  {
  }

  /** Segments that fill a grid of `rounds` rows, one column per category,
      are accepted, and every sub-model gets one segment per round. */
  lemma EncodingOnGrid<S, B>(target: DataField, segments: seq<S>, baseScore: B, features: seq<DataField>, rounds: nat)
    requires |target.values| > 0 && |segments| == rounds * |target.values|
    ensures Encoding(target, segments, baseScore, features).Success?
    ensures var req := Encoding(target, segments, baseScore, features).value;
      forall i :: 0 <= i < |req.models| ==> |req.models[i].segmentation.segments| == rounds
  {
    DivModUnique(|segments|, rounds, 0, |target.values|);
  }

  /** A segment count strictly between two multiples of the category count
      is rejected with IllegalArgumentException, and no model is built. */
  lemma EncodingRejectsRagged<S, B>(target: DataField, segments: seq<S>, baseScore: B, features: seq<DataField>, rounds: nat)
    requires rounds * |target.values| < |segments| < (rounds + 1) * |target.values|
    ensures Encoding(target, segments, baseScore, features) == Failure(IllegalArgument)
  {
    var c := |target.values|;
    assert c > 0;
    DivMod(|segments|, c);
    DistribAdd1(rounds, c);
    if |segments| % c == 0 {
      var q := |segments| / c;
      if q <= rounds {
        MulMono(q, rounds, c);
      } else {
        MulMono(rounds + 1, q, c);
      }
    }
  }

  /** Sub-model i sums the segments of category i: entry k of its
      segmentation is segment k * C + i, for C categories. */
  lemma EncodingColumns<S, B>(target: DataField, segments: seq<S>, baseScore: B, features: seq<DataField>)
    requires Encoding(target, segments, baseScore, features).Success?
    ensures var req := Encoding(target, segments, baseScore, features).value;
      var c := |target.values|;
      forall i, k :: 0 <= i < c && 0 <= k < |req.models[i].segmentation.segments| ==>
        FlatIndex(k, i, c) < |segments| && req.models[i].segmentation.segments[k] == segments[FlatIndex(k, i, c)]
  {
    var req := Encoding(target, segments, baseScore, features).value;
    var c := |target.values|;
    forall i, k | 0 <= i < c && 0 <= k < |req.models[i].segmentation.segments|
      ensures FlatIndex(k, i, c) < |segments| && req.models[i].segmentation.segments[k] == segments[FlatIndex(k, i, c)]
    {
      var rows := |segments| / c;
      var column := Column(segments, i, rows, c);
      assert req.models[i].segmentation.segments == column;
      StrideInBounds(k, i, rows, c);
    }
  }

  /** Every segment goes to exactly one sub-model: segment p is entry p / C
      of sub-model p % C, and it is no entry of any other sub-model. */
  lemma EncodingPartitionsSegments<S, B>(target: DataField, segments: seq<S>, baseScore: B, features: seq<DataField>, p: nat)
    requires Encoding(target, segments, baseScore, features).Success?
    requires |target.values| > 0 && p < |segments|
    ensures p / |target.values| < |segments| / |target.values|
    ensures var req := Encoding(target, segments, baseScore, features).value;
      var c := |target.values|;
      && |req.models[p % c].segmentation.segments| == |segments| / c
      && req.models[p % c].segmentation.segments[p / c] == segments[p]
      && forall i, k :: 0 <= i < c && 0 <= k && FlatIndex(k, i, c) == p ==> i == p % c && k == p / c
  {
    var req := Encoding(target, segments, baseScore, features).value;
    var c := |target.values|;
    var rows := |segments| / c;
    DivisionGrid(|segments|, c);
    ColumnsPartition(segments, rows, c, p);
    assert req.models[p % c].segmentation.segments == Column(segments, p % c, rows, c);
    forall i, k | 0 <= i < c && 0 <= k && FlatIndex(k, i, c) == p
      ensures i == p % c && k == p / c
    {
      PositionInExactlyOneColumn(p, k, i, c);
    }
  }

  lemma PrefixKeepsDistinct(prefix: string, x: string, y: string)
    requires x != y
    ensures prefix + x != prefix + y
  {
    assert x == (prefix + x)[|prefix|..];
    assert y == (prefix + y)[|prefix|..];
  }

  lemma PredictedIsNotTransformed(x: string, y: string)
    ensures PredictedName(x) != TransformedName(y)
  {
    assert PredictedName(x)[0] == 'x';
    assert TransformedName(y)[0] == 't';
  }

  /** Labels without repeats give output fields without repeats: no two
      sub-models, and no two outputs of one sub-model, share a field name. */
  lemma EncodedNamesDistinct<S, B>(target: DataField, segments: seq<S>, baseScore: B, features: seq<DataField>)
    requires Encoding(target, segments, baseScore, features).Success?
    requires forall j, k :: 0 <= j < k < |target.values| ==> target.values[j] != target.values[k]
    ensures var req := Encoding(target, segments, baseScore, features).value;
      forall i, j, a, b :: 0 <= i < |req.models| && 0 <= j < |req.models| && 0 <= a < 2 && 0 <= b < 2 && (i != j || a != b) ==>
        req.models[i].output[a].name != req.models[j].output[b].name
  {
    var req := Encoding(target, segments, baseScore, features).value;
    var labels := target.values;
    forall i, j, a, b | 0 <= i < |req.models| && 0 <= j < |req.models| && 0 <= a < 2 && 0 <= b < 2 && (i != j || a != b)
      ensures req.models[i].output[a].name != req.models[j].output[b].name
    {
      if a != b {
        if a == 0 {
          PredictedIsNotTransformed(labels[i], labels[j]);
        } else {
          PredictedIsNotTransformed(labels[j], labels[i]);
        }
      } else {
        assert labels[i] != labels[j] by {
          if i < j {
            assert labels[i] != labels[j];
          } else {
            assert labels[j] != labels[i];
          }
        }
        PrefixKeepsDistinct(if a == 0 then PREDICTED_PREFIX else TRANSFORMED_PREFIX, labels[i], labels[j]);
      }
    }
  }

  /** With the default target field of n classes, the request's categories
      are "0" .. "n-1" and every output field name is unique. */
  lemma DefaultTargetEncoding<S, B>(n: nat, segments: seq<S>, baseScore: B, features: seq<DataField>)
    requires Encoding(TargetField(n), segments, baseScore, features).Success?
    ensures var req := Encoding(TargetField(n), segments, baseScore, features).value;
      && req.targetField == "_target"
      && req.targetCategories == Labels(n)
      && forall i, j, a, b :: 0 <= i < |req.models| && 0 <= j < |req.models| && 0 <= a < 2 && 0 <= b < 2 && (i != j || a != b) ==>
        req.models[i].output[a].name != req.models[j].output[b].name
  {
    LabelsAreIndices(n);
    EncodedNamesDistinct(TargetField(n), segments, baseScore, features);
  }

  /** Three classes and two rounds: sub-model i sums segments i and i + 3.
      Five segments for three classes are rejected. */
  lemma EncodingExample<S, B>(s0: S, s1: S, s2: S, s3: S, s4: S, s5: S, baseScore: B)
    ensures var r := Encoding(TargetField(3), [s0, s1, s2, s3, s4, s5], baseScore, []);
      && r.Success?
      && r.value.targetCategories == ["0", "1", "2"]
      && r.value.models[0].segmentation.segments == [s0, s3]
      && r.value.models[1].segmentation.segments == [s1, s4]
      && r.value.models[2].segmentation.segments == [s2, s5]
    ensures Encoding(TargetField(3), [s0, s1, s2, s3, s4], baseScore, []) == Failure(IllegalArgument)
  {
    var r := Encoding(TargetField(3), [s0, s1, s2, s3, s4, s5], baseScore, []);
    assert Labels(3) == ["0", "1", "2"];
    ColumnExample(s0, s1, s2, s3, s4, s5);
  }

  /** The encoder holds the target field built at construction. */
  class SoftMaxClassification {
    const dataField: DataField

    constructor (numClass: Int32)
      ensures dataField == TargetField(if numClass < 0 then 0 else numClass)
    {
      var field := CreateDataField(numClass);
      dataField := field;
    }

    /** encodeMiningModel: for each category, in order, builds the
        predicted and transformed fields and the sub-model over that
        category's column of segments, and collects the three aligned lists
        passed to MiningModelUtil.createClassification. */
    method EncodeMiningModel<S, B>(segmentation: Segmentation<S>, baseScore: B, featureFields: seq<DataField>)
        returns (r: Result<ClassificationRequest<S, B>>)
      requires |dataField.values| <= MAX_INT && |segmentation.segments| <= MAX_INT
      ensures r == Encoding(dataField, segmentation.segments, baseScore, featureFields)
    {
      var segments := segmentation.segments;
      var targetCategories: seq<string> := [];
      var valueMiningSchema := MiningSchema(FieldNames(featureFields));
      var models: seq<MiningModel<S, B>> := [];
      var inputFields: seq<FieldName> := [];
      var values := dataField.values;
      ghost var c := |values|;
      ghost var expected := Encoding(dataField, segments, baseScore, featureFields);
      if c > 0 {
        DivisionGrid(|segments|, c);
      }
      var i: Int32 := 0;
      while i < |values|
        invariant 0 <= i <= c
        invariant targetCategories == values[..i]
        invariant |models| == i && |inputFields| == i
        invariant i > 0 ==> expected.Success?
        invariant forall k :: 0 <= k < i ==> models[k] == expected.value.models[k]
        invariant forall k :: 0 <= k < i ==> inputFields[k] == TransformedName(values[k])
      {
        var value := values[i];
        targetCategories := targetCategories + [value];
        var xgbValue := OutputField(PREDICTED_PREFIX + value, None);
        var expression := Apply("exp", [Apply("+", [FieldRef(xgbValue.name), Constant(baseScore)])]);
        var transformedValue := OutputField(TRANSFORMED_PREFIX + value, Some(expression));
        inputFields := inputFields + [transformedValue.name];
        var valueSegments := GetColumn(segments, i, |segments| / |values|, |values|);
        if valueSegments.Failure? {
          assert |segments| % c != 0;
          assert Wrap((|segments| / c) * c) == (|segments| / c) * c;
          assert valueSegments.error == IllegalArgument;
          assert expected == Failure(IllegalArgument);
          return Failure(valueSegments.error);
        }
        assert |segments| % c == 0;
        var valueSegmentation := Segmentation(Sum, valueSegments.value);
        var valueOutput := [xgbValue, transformedValue];
        var valueMiningModel := MiningModel(Regression, valueMiningSchema, valueSegmentation, valueOutput);
        assert valueMiningModel == expected.value.models[i];
        models := models + [valueMiningModel];
        i := i + 1;
      }
      assert c > 0 ==> |segments| % c == 0;
      assert models == expected.value.models;
      assert targetCategories == values;
      assert inputFields == expected.value.probabilityInputs;
      r := Success(ClassificationRequest(dataField.name, targetCategories, FieldNames(featureFields), models, inputFields, true));
    }
  }
}
