/** The PMML objects the softmax encoder builds, reduced to plain records:
    only the attributes the encoder sets are kept. Segments (the per-round,
    per-class trees) and the base score are opaque type parameters `S` and
    `B`, carried through unchanged. */
module Pmml {
  import opened JavaLang

  type FieldName = string

  datatype OpType = Categorical | Ordinal | Continuous

  datatype DataType = StringType | IntegerType | FloatType | DoubleType | BooleanType

  /** A field of the data dictionary; `values` is its declared value domain,
      in order. */
  datatype DataField = DataField(name: FieldName, opType: OpType, dataType: DataType, values: seq<string>)

  /** The expression algebra of derived fields. */
  datatype Expression<B> =
    | Apply(functionName: string, args: seq<Expression<B>>)
    | FieldRef(field: FieldName)
    | Constant(value: B)

  /** An output field: its name and, for a transformed value, the expression
      that computes it. */
  datatype OutputField<B> = OutputField(name: FieldName, expression: Option<Expression<B>>)

  datatype MiningFunction = Regression | Classification

  datatype MultipleModelMethod = Sum | Average | MajorityVote

  datatype Segmentation<S> = Segmentation(multipleModelMethod: MultipleModelMethod, segments: seq<S>)

  /** The mining schema, reduced to the names of its active fields. */
  datatype MiningSchema = MiningSchema(activeFields: seq<FieldName>)

  datatype MiningModel<S, B> = MiningModel(
    miningFunction: MiningFunction,
    schema: MiningSchema,
    segmentation: Segmentation<S>,
    output: seq<OutputField<B>>)

  /** The arguments of MiningModelUtil.createClassification, which builds the
      final softmax model from the per-category models. */
  datatype ClassificationRequest<S, B> = ClassificationRequest(
    targetField: FieldName,
    targetCategories: seq<string>,
    activeFields: seq<FieldName>,
    models: seq<MiningModel<S, B>>,
    probabilityInputs: seq<FieldName>,
    computeProbabilities: bool)

  /** The names of a list of data fields, in order. */
  function FieldNames(fields: seq<DataField>): seq<FieldName>
  {
    seq(|fields|, i requires 0 <= i < |fields| => fields[i].name)
  }
}
