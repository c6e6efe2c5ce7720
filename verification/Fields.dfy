/** Field references shared by queries, filters and result columns. */
module Fields {
  datatype Signal = Logs | Traces | Metrics | Meter

  datatype FieldContext = Resource | Attribute | Span | Log | Body | Scope | Metric | Label

  datatype ValueType = StringType | NumberType | BoolType

  datatype FieldRef = FieldRef(name: string, context: FieldContext, typ: ValueType)
}
