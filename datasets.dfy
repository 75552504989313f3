/** Dataset structures and the dataset plans a clause hands to the processing
    engine. */
module Datasets {
  import opened Values
  import opened OrderedMap

  datatype Role = Identifier | Measure | Attribute

  /** A column of a dataset structure. */
  datatype Component = Component(name: string, ty: Type, role: Role)

  /** A data structure, in column order. */
  type Structure = seq<Component>

  function ColumnNames(st: Structure): (ns: seq<string>)
    ensures |ns| == |st| && forall i :: 0 <= i < |st| ==> ns[i] == st[i].name
  {
    seq(|st|, i requires 0 <= i < |st| => st[i].name)
  }

  /** The aggregate functions of `aggr`; `Unsupported` stands for any other
      grouping function of the grammar. */
  datatype AggFunction =
    | Sum | Avg | Count | Max | Min | Median | StddevPop | StddevSamp | VarPop | VarSamp
    | Unsupported

  /** An `AggregationExpression`: `count()`, or a function over one column. */
  datatype Aggregation = CountAll | Over(fn: AggFunction, column: string, ty: Type)

  /** The processing-engine calls a clause plans, as a tree over the clause's
      dataset. Expressions appear by their source text. */
  datatype DatasetExpr =
    | Source(name: string)
    | Project(source: DatasetExpr, columns: seq<string>)
    | Analytic(source: DatasetExpr, column: string, fn: string)
    | Calc(source: DatasetExpr, expressions: OMap<string, string>, roles: OMap<string, Role>)
    | Rename(source: DatasetExpr, fromTo: OMap<string, string>)
    | Aggr(source: DatasetExpr, groupBy: seq<string>, collectors: OMap<string, Aggregation>)
}
