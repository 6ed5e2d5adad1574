/** What the binder hands to the planner: expressions, table references and select statements. */
module BoundTree {
  import opened Options
  import opened Expressions
  import opened Plans

  /** `Invalid` is the expression of an absent clause; `Unsupported` is any kind the planner does not know. */
  datatype BoundExpr =
    | AggCall(func: string, distinct: bool, args: seq<BoundExpr>)
    | ColumnRef(path: seq<string>)
    | BinaryOp(op: string, left: BoundExpr, right: BoundExpr)
    | ConstantExpr(val: Value)
    | Alias(alias: string, child: BoundExpr)
    | Invalid
    | Unsupported

  /** A column name as it is written, with dots. */
  function Rendered(path: seq<string>): string {
    if path == [] then ""
    else if |path| == 1 then path[0]
    else path[0] + "." + Rendered(path[1..])
  }

  function Digit(n: nat): char
    requires n < 10
  {
    ['0', '1', '2', '3', '4', '5', '6', '7', '8', '9'][n]
  }

  function Decimal(n: nat): string {
    if n < 10 then [Digit(n)] else Decimal(n / 10) + [Digit(n % 10)]
  }

  /** `alias` of a base table is the name it goes by in the statement. */
  datatype TableRef =
    | EmptyRef
    | BaseTable(table: string, alias: Option<string>, schema: Schema)
    | CrossProduct(left: TableRef, right: TableRef)
    | JoinRef(left: TableRef, right: TableRef, condition: BoundExpr, joinType: JoinType)
    | SubqueryRef(query: Subquery)
    | CteRef(cteName: string, cteAlias: string)
    | ExpressionList(values: seq<seq<BoundExpr>>, identifier: string)

  /** A select statement with a name for it and for each of its columns. */
  datatype Subquery = Subquery(select: Select, names: seq<seq<string>>, alias: string)

  datatype Select = Select(
    table: TableRef,
    selectList: seq<BoundExpr>,
    filter: BoundExpr,
    groupBy: seq<BoundExpr>,
    having: BoundExpr,
    distinct: bool,
    orderBys: seq<(OrderByType, BoundExpr)>,
    limit: BoundExpr,
    offset: BoundExpr,
    ctes: seq<Subquery>)

  function BoundTableName(t: TableRef): string
    requires t.BaseTable?
  {
    if t.alias.Some? then t.alias.value else t.table
  }

  // ----- common table expressions -----

  function FindCte(ctes: seq<Subquery>, name: string): (r: Option<nat>)
    ensures r.Some? ==> r.value < |ctes| && ctes[r.value].alias == name
    ensures forall i :: 0 <= i < |ctes| && ctes[i].alias == name ==> r.Some? && r.value <= i
  {
    if ctes == [] then None
    else if ctes[0].alias == name then Some(0)
    else
      var i := FindCte(ctes[1..], name);
      if i.None? then None else Some(i.value + 1)
  }

  /** The list in force inside a statement: its own if it has one. */
  function Scope(s: Select, ctes: seq<Subquery>): seq<Subquery> {
    if s.ctes != [] then s.ctes else ctes
  }

  /** What the binder makes: a nonempty name for every column of a subquery, and at least one row in VALUES. */
  ghost predicate WellBound(t: TableRef) {
    match t
    case CrossProduct(l, r) => WellBound(l) && WellBound(r)
    case JoinRef(l, r, _, _) => WellBound(l) && WellBound(r)
    case SubqueryRef(q) => WellBoundQuery(q)
    case ExpressionList(values, _) => values != []
    case _ => true
  }

  ghost predicate WellBoundQuery(q: Subquery) {
    && |q.names| == |q.select.selectList| && (forall i :: 0 <= i < |q.names| ==> q.names[i] != [])
    && WellBoundSelect(q.select)
  }

  ghost predicate WellBoundSelect(s: Select) {
    WellBound(s.table) && forall i :: 0 <= i < |s.ctes| ==> WellBoundQuery(s.ctes[i])
  }

  ghost predicate WellBoundList(ctes: seq<Subquery>) {
    forall i :: 0 <= i < |ctes| ==> WellBoundQuery(ctes[i])
  }
}
