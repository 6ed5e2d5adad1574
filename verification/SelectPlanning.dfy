/**
 Planning of select statements and table references, and the columns `*` stands for, as functions of what was bound.
 The planner keeps a counter for unnamed columns; it is threaded through.  What planning does to the statements, and
 that a definition used again is not what was bound, is in `InPlacePlanning`.
 */
module SelectPlanning {
  import opened Options
  import opened Expressions
  import opened Plans
  import opened BoundTree
  import opened AggregationPlanning

  /** Names of tables and their ids. */
  type Catalog = map<string, nat>

  // ----- the columns of `*` -----

  function BaseColumns(table: string, schema: Schema): (r: seq<seq<string>>)
    ensures |r| == |schema| && forall i :: 0 <= i < |r| ==> r[i] == [table, schema[i].name]
  {
    if schema == [] then [] else [[table, schema[0].name]] + BaseColumns(table, schema[1..])
  }

  /** The columns of a subquery under the given name. */
  function QueryColumns(alias: string, names: seq<seq<string>>): (r: seq<seq<string>>)
    ensures |r| == |names| && forall i :: 0 <= i < |r| ==> r[i] == [alias] + names[i]
  {
    if names == [] then [] else [[alias] + names[0]] + QueryColumns(alias, names[1..])
  }

  /** The first name of each column replaced. */
  function WithAlias(columns: seq<seq<string>>, alias: string): (r: seq<seq<string>>)
    ensures |r| == |columns|
    ensures forall i :: 0 <= i < |r| ==> r[i] == if columns[i] == [] then [] else columns[i][0 := alias]
  {
    if columns == [] then []
    else [if columns[0] == [] then [] else columns[0][0 := alias]] + WithAlias(columns[1..], alias)
  }

  function GetAllColumns(t: TableRef, ctes: seq<Subquery>): Result<seq<seq<string>>> {
    match t
    case BaseTable(_, _, schema) => Ok(BaseColumns(BoundTableName(t), schema))
    case CrossProduct(l, r) =>
      var ls :- GetAllColumns(l, ctes);
      var rs :- GetAllColumns(r, ctes);
      Ok(ls + rs)
    case JoinRef(l, r, _, _) =>
      var ls :- GetAllColumns(l, ctes);
      var rs :- GetAllColumns(r, ctes);
      Ok(ls + rs)
    case SubqueryRef(q) => Ok(QueryColumns(q.alias, q.names))
    case CteRef(name, alias) =>
      var i := FindCte(ctes, name);
      if i.None? then Throws
      else Ok(WithAlias(QueryColumns(ctes[i.value].alias, ctes[i.value].names), alias))
    case EmptyRef => Throws
    case ExpressionList(_, _) => Throws
  }

  // ----- pieces of plans -----

  function ScanSchema(table: string, schema: Schema): (r: Schema)
    ensures |r| == |schema| && forall i :: 0 <= i < |r| ==> r[i] == Column(table + "." + schema[i].name, schema[i].ty)
  {
    if schema == [] then [] else [Column(table + "." + schema[0].name, schema[0].ty)] + ScanSchema(table, schema[1..])
  }

  predicate StartsWith(s: string, prefix: string) {
    |prefix| <= |s| && s[..|prefix|] == prefix
  }

  function PlanBaseTable(catalog: Catalog, t: TableRef): Result<Plan>
    requires t.BaseTable?
  {
    if t.table !in catalog then Throws
    else
      var schema := ScanSchema(BoundTableName(t), t.schema);
      if StartsWith(t.table, "__") then
        if StartsWith(t.table, "__mock") then Ok(MockScan(schema, t.table)) else Throws
      else Ok(SeqScan(schema, catalog[t.table], t.table, None))
  }

  /** The columns of a schema, counted from `from`. */
  function Columns(schema: Schema, from: nat): (r: seq<Expr>)
    ensures |r| == |schema| && forall i :: 0 <= i < |r| ==> r[i] == ColumnValue(0, from + i, schema[i].ty)
  {
    if schema == [] then [] else [ColumnValue(0, from, schema[0].ty)] + Columns(schema[1..], from + 1)
  }

  function QueryNames(alias: string, names: seq<seq<string>>): (r: seq<string>)
    ensures |r| == |names| && forall i :: 0 <= i < |r| ==> r[i] == alias + "." + Rendered(names[i])
  {
    if names == [] then [] else [alias + "." + Rendered(names[0])] + QueryNames(alias, names[1..])
  }

  /** The projection that gives the columns of a planned subquery their names. */
  function RenameQuery(select: Plan, alias: string, names: seq<seq<string>>): Result<Plan> {
    var exprs := Columns(select.schema, 0);
    var schema :- RenameSchema(InferProjectionSchema(exprs), QueryNames(alias, names));
    Ok(Projection(schema, exprs, select))
  }

  function PlanRows(rows: seq<seq<BoundExpr>>): Result<seq<seq<Expr>>> {
    if rows == [] then Ok([])
    else
      var (row, _) :- PlanExprs(rows[0], [], [], 0);
      var rest :- PlanRows(rows[1..]);
      Ok([Exprs(row)] + rest)
  }

  function ListSchema(identifier: string, row: seq<Expr>, from: nat): (r: Schema)
    ensures |r| == |row|
  {
    if row == [] then []
    else [Column(identifier + "." + Decimal(from), ReturnType(row[0]))] + ListSchema(identifier, row[1..], from + 1)
  }

  /** Columns without a name get one from the counter. */
  function NameAll(ps: seq<Planned>, id: nat): (seq<string>, nat) {
    if ps == [] then ([], id)
    else if ps[0].name == UNNAMED_COLUMN then
      var (names, id') := NameAll(ps[1..], id + 1);
      (["__unnamed#" + Decimal(id)] + names, id')
    else
      var (names, id') := NameAll(ps[1..], id);
      ([ps[0].name] + names, id')
  }

  function PlanOrderBys(os: seq<(OrderByType, BoundExpr)>, schema: Schema): Result<seq<(OrderByType, Expr)>> {
    if os == [] then Ok([])
    else
      var (e, _) :- PlanExpr(os[0].1, [schema], [], 0);
      var rest :- PlanOrderBys(os[1..], schema);
      Ok([(os[0].0, e.expr)] + rest)
  }

  /** A 32-bit integer as a size; the null integer is the least one. */
  function AsSize(v: Value): nat
    requires v.Int? || v.Null?
  {
    var i := if v.Int? then v.i else -0x8000_0000;
    i % 0x1_0000_0000_0000_0000
  }

  predicate IsLimit(e: BoundExpr) {
    e.ConstantExpr? && TypeOf(e.val) == INTEGER
  }

  // ----- the clauses of a select statement over a plan -----

  function PlanWhere(s: Select, plan: Plan): Result<Plan> {
    if s.filter.Invalid? then Ok(plan)
    else
      var (e, _) :- PlanExpr(s.filter, [plan.schema], [], 0);
      Ok(Filter(plan.schema, e.expr, plan))
  }

  predicate HasAggregation(s: Select) {
    !s.having.Invalid? || s.groupBy != [] || AllCalls(s.selectList) != []
  }

  function PlanItems(s: Select, plan: Plan, id: nat): Result<(Plan, nat)> {
    if HasAggregation(s) then
      var p :- PlanGrouping(Grouping(s.groupBy, s.having, s.selectList), plan);
      Ok((p, id))
    else
      var (items, _) :- PlanExprs(s.selectList, [plan.schema], [], 0);
      var (names, id') := NameAll(items, id);
      var schema :- RenameSchema(InferProjectionSchema(Exprs(items)), names);
      Ok((Projection(schema, Exprs(items), plan), id'))
  }

  function PlanDistinct(s: Select, plan: Plan): Plan {
    if s.distinct then Aggregation(plan.schema, Columns(plan.schema, 0), [], [], plan) else plan
  }

  function PlanOrderBy(s: Select, plan: Plan): Result<Plan> {
    if s.orderBys == [] then Ok(plan)
    else
      var os :- PlanOrderBys(s.orderBys, plan.schema);
      Ok(Sort(plan.schema, os, plan))
  }

  function PlanLimit(s: Select, plan: Plan): Result<Plan> {
    if s.limit.Invalid? && s.offset.Invalid? then Ok(plan)
    else if !s.offset.Invalid? || !IsLimit(s.limit) then Throws
    else Ok(Limit(plan.schema, AsSize(s.limit.val), plan))
  }

  function PlanClauses(s: Select, table: Plan, id: nat): Result<(Plan, nat)> {
    var p1 :- PlanWhere(s, table);
    var (p2, id') :- PlanItems(s, p1, id);
    var p3 := PlanDistinct(s, p2);
    var p4 :- PlanOrderBy(s, p3);
    var p5 :- PlanLimit(s, p4);
    Ok((p5, id'))
  }

  // ----- table references and select statements -----

  /**
   Planning comes to an end, and goes through at most `n` definitions of common table expressions in a row.  A
   definition may use its own list, and so for ever; but planning may throw before it comes to that.
   */
  ghost predicate Ends(catalog: Catalog, t: TableRef, ctes: seq<Subquery>, id: nat, n: nat)
    requires WellBound(t) && WellBoundList(ctes)
    decreases n, t, 0
  {
    match t
    case CrossProduct(l, r) =>
      && Ends(catalog, l, ctes, id, n)
      && var p := PlanTableRef(catalog, l, ctes, id, n); p.Ok? ==> Ends(catalog, r, ctes, p.value.1, n)
    case JoinRef(l, r, _, _) =>
      && Ends(catalog, l, ctes, id, n)
      && var p := PlanTableRef(catalog, l, ctes, id, n); p.Ok? ==> Ends(catalog, r, ctes, p.value.1, n)
    case SubqueryRef(q) =>
      assert WellBoundQuery(q);
      EndsSelect(catalog, q.select, ctes, id, n)
    case CteRef(name, _) =>
      var i := FindCte(ctes, name);
      i.None? || (n > 0 && EndsSelect(catalog, ctes[i.value].select, ctes, id, n - 1))
    case _ => true
  }

  ghost predicate EndsSelect(catalog: Catalog, s: Select, ctes: seq<Subquery>, id: nat, n: nat)
    requires WellBoundSelect(s) && WellBoundList(ctes)
    decreases n, s, 2
  {
    Ends(catalog, s.table, Scope(s, ctes), id, n)
  }

  function PlanTableRef(catalog: Catalog, t: TableRef, ctes: seq<Subquery>, id: nat, ghost n: nat): Result<(Plan, nat)>
    requires WellBound(t) && WellBoundList(ctes) && Ends(catalog, t, ctes, id, n)
    decreases n, t, 1
  {
    match t
    case BaseTable(_, _, _) =>
      var p :- PlanBaseTable(catalog, t);
      Ok((p, id))
    case CrossProduct(l, r) =>
      var (l', id1) :- PlanTableRef(catalog, l, ctes, id, n);
      var (r', id2) :- PlanTableRef(catalog, r, ctes, id1, n);
      Ok((NestedLoopJoin(l'.schema + r'.schema, l', r', Constant(Bool(true)), INNER), id2))
    case JoinRef(l, r, condition, joinType) =>
      var (l', id1) :- PlanTableRef(catalog, l, ctes, id, n);
      var (r', id2) :- PlanTableRef(catalog, r, ctes, id1, n);
      var (e, _) :- PlanExpr(condition, [l'.schema, r'.schema], [], 0);
      Ok((NestedLoopJoin(l'.schema + r'.schema, l', r', e.expr, joinType), id2))
    case ExpressionList(values, identifier) =>
      var rows :- PlanRows(values);
      if rows == [] then Throws
      else Ok((Values(ListSchema(identifier, rows[0], 0), rows), id))
    case SubqueryRef(q) =>
      assert WellBoundQuery(q);
      var (s, id') :- PlanSelect(catalog, q.select, ctes, id, n);
      var p :- RenameQuery(s, q.alias, q.names);
      Ok((p, id'))
    case CteRef(name, alias) =>
      var i := FindCte(ctes, name);
      if i.None? then Throws
      else
        var (s, id') :- PlanSelect(catalog, ctes[i.value].select, ctes, id, n - 1);
        var p :- RenameQuery(s, alias, ctes[i.value].names);
        Ok((p, id'))
    case EmptyRef => Throws
  }

  function PlanSelect(catalog: Catalog, s: Select, ctes: seq<Subquery>, id: nat, ghost n: nat): Result<(Plan, nat)>
    requires WellBoundSelect(s) && WellBoundList(ctes) && EndsSelect(catalog, s, ctes, id, n)
    decreases n, s, 3
  {
    var (table, id1) :-
      if s.table.EmptyRef? then Ok((Values([], [[]]), id))
      else PlanTableRef(catalog, s.table, Scope(s, ctes), id, n);
    PlanClauses(s, table, id1)
  }
}
