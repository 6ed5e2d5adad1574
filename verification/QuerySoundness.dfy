/**
 Planner and optimizer together: every plan the planner makes of a bound statement is one the optimizer
 keeps the meaning of.
 */
module QuerySoundness {
  import opened Expressions
  import opened Plans
  import opened Optimizer
  import opened OptimizerSoundness
  import opened BoundTree
  import opened AggregationPlanning
  import opened SelectPlanning
  import IP = InPlacePlanning

  // ----- the tables of statements -----

  /** The tables of a reference are those of the database, and rows of VALUES have one length. */
  ghost predicate Fits(t: TableRef, catalog: Catalog, db: Database) {
    match t
    case BaseTable(table, _, schema) =>
      table in catalog ==>
        if StartsWith(table, "__") then table in db.mocks && Wide(db.mocks[table], |schema|)
        else
          var oid := catalog[table];
          oid in db.tables && db.tables[oid].name == table && Types(db.tables[oid].schema) == Types(schema)
    case CrossProduct(l, r) => Fits(l, catalog, db) && Fits(r, catalog, db)
    case JoinRef(l, r, _, _) => Fits(l, catalog, db) && Fits(r, catalog, db)
    case SubqueryRef(q) => FitsSelect(q.select, catalog, db)
    case CteRef(_, _) => true
    case ExpressionList(values, _) => forall i :: 0 <= i < |values| ==> |values[i]| == |values[0]|
    case EmptyRef => true
  }

  ghost predicate FitsSelect(s: Select, catalog: Catalog, db: Database) {
    && Fits(s.table, catalog, db)
    && (forall i :: 0 <= i < |s.ctes| ==> FitsSelect(s.ctes[i].select, catalog, db))
  }

  ghost predicate FitsList(ctes: seq<Subquery>, catalog: Catalog, db: Database) {
    forall i :: 0 <= i < |ctes| ==> FitsSelect(ctes[i].select, catalog, db)
  }

  // ----- planned expressions -----

  /** Calls whose columns are in range of the schema. */
  ghost predicate AvailInRange(avail: seq<Expr>, n: nat) {
    forall i :: 0 <= i < |avail| ==> avail[i].ColumnValue? && InRange(avail[i], n)
  }

  lemma {:induction false} PlannedInRange(e: BoundExpr, schema: Schema, avail: seq<Expr>, next: nat)
    requires PlanExpr(e, [schema], avail, next).Ok? && AvailInRange(avail, |schema|)
    ensures InRange(PlanExpr(e, [schema], avail, next).value.0.expr, |schema|)
  {
    match e
    case AggCall(_, _, _) =>
    case ColumnRef(path) => FindInRange(schema, Rendered(path));
    case BinaryOp(op, l, r) =>
      PlannedInRange(l, schema, avail, next);
      var (l', n1) := PlanExpr(l, [schema], avail, next).value;
      PlannedInRange(r, schema, avail, n1);
    case ConstantExpr(_) =>
    case Alias(_, c) => PlannedInRange(c, schema, avail, next);
  }

  lemma {:induction false} AllPlannedInRange(es: seq<BoundExpr>, schema: Schema, avail: seq<Expr>, next: nat)
    requires PlanExprs(es, [schema], avail, next).Ok? && AvailInRange(avail, |schema|)
    ensures forall i :: 0 <= i < |PlanExprs(es, [schema], avail, next).value.0| ==>
              InRange(PlanExprs(es, [schema], avail, next).value.0[i].expr, |schema|)
  {
    hide PlanExpr, InRange;
    if es != [] {
      PlannedInRange(es[0], schema, avail, next);
      var (p, n1) := PlanExpr(es[0], [schema], avail, next).value;
      AllPlannedInRange(es[1..], schema, avail, n1);
    }
  }

  // ----- planned clauses -----

  lemma {:induction false} TypesConcat(l: Schema, r: Schema)
    ensures Types(l + r) == Types(l) + Types(r)
  {
    if l == [] {
      assert l + r == r;
    } else {
      assert (l + r)[1..] == l[1..] + r;
      TypesConcat(l[1..], r);
    }
  }

  lemma WhereGood(s: Select, plan: Plan, db: Database)
    requires Good(plan, db, false) && PlanWhere(s, plan).Ok?
    ensures Good(PlanWhere(s, plan).value, db, false)
  {
    if !s.filter.Invalid? {
      PlannedInRange(s.filter, plan.schema, [], 0);
    }
  }

  lemma AggregationGood(g: Grouping, plan: Plan, db: Database)
    requires Good(plan, db, false) && PlanAggregation(g, plan).Ok?
    ensures Good(PlanAggregation(g, plan).value, db, false)
  {
    PlanAggregationIff(g, plan);
    hide PlanAggregation;
  }

  lemma FilterGood(e: Expr, plan: Plan, db: Database)
    requires Good(plan, db, false) && InRange(e, |plan.schema|)
    ensures Good(Filter(plan.schema, e, plan), db, false)
  {
  }

  lemma ProjectionGood(p: Plan, db: Database)
    requires p.Projection? && Good(p.child, db, false) && |p.schema| == |p.expressions|
    requires forall i :: 0 <= i < |p.expressions| ==> InRange(p.expressions[i], |p.child.schema|)
    ensures Good(p, db, false)
  {
  }

  lemma CallsInRange(begin: nat, count: nat)
    ensures AvailInRange(CallColumns(begin, 0, count), begin + count)
  {
  }

  lemma GroupingGood(g: Grouping, plan: Plan, db: Database)
    requires Good(plan, db, false) && PlanGrouping(g, plan).Ok?
    ensures Good(PlanGrouping(g, plan).value, db, false)
  {
    hide PlanAggregation, PlanOverAggregation, PlanExpr, PlanExprs, Good, InRange, GroupingSupported, AllPlannable,
         PlanCall, AvailInRange, GroupingCalls, AllCalls;
    PlanAggregationIff(g, plan);
    var agg := PlanAggregation(g, plan).value;
    AggregationGood(g, plan, db);
    OverAggregation(g, agg);
    var avail := CallColumns(|agg.groupBys|, 0, |agg.aggregates|);
    var h := PlanExpr(g.having, [agg.schema], avail, 0);
    CallsInRange(|agg.groupBys|, |agg.aggregates|);
    if !g.having.Invalid? {
      PlannedInRange(g.having, agg.schema, avail, 0);
      FilterGood(h.value.0.expr, agg, db);
    }
    AllPlannedInRange(g.selectList, agg.schema, avail, if h.Ok? then h.value.1 else 0);
    ProjectionGood(PlanOverAggregation(g, agg).value, db);
  }

  lemma ItemsGood(s: Select, plan: Plan, db: Database, id: nat)
    requires Good(plan, db, false) && PlanItems(s, plan, id).Ok?
    ensures Good(PlanItems(s, plan, id).value.0, db, false)
  {
    if HasAggregation(s) {
      GroupingGood(Grouping(s.groupBy, s.having, s.selectList), plan, db);
    } else {
      AllPlannedInRange(s.selectList, plan.schema, [], 0);
      hide PlanExprs;
    }
  }

  lemma {:induction false} OrderBysInRange(os: seq<(OrderByType, BoundExpr)>, schema: Schema)
    requires PlanOrderBys(os, schema).Ok?
    ensures forall i :: 0 <= i < |PlanOrderBys(os, schema).value| ==>
            InRange(PlanOrderBys(os, schema).value[i].1, |schema|)
  {
    hide PlanExpr, InRange;
    if os != [] {
      PlannedInRange(os[0].1, schema, [], 0);
      OrderBysInRange(os[1..], schema);
    }
  }

  lemma DistinctGood(s: Select, plan: Plan, db: Database)
    requires Good(plan, db, false)
    ensures Good(PlanDistinct(s, plan), db, false)
  {
  }

  lemma OrderByGood(s: Select, plan: Plan, db: Database)
    requires Good(plan, db, false) && PlanOrderBy(s, plan).Ok?
    ensures Good(PlanOrderBy(s, plan).value, db, false)
  {
    hide PlanOrderBys, InRange;
    if s.orderBys != [] { OrderBysInRange(s.orderBys, plan.schema); }
  }

  lemma LimitGood(s: Select, plan: Plan, db: Database)
    requires Good(plan, db, false) && PlanLimit(s, plan).Ok?
    ensures Good(PlanLimit(s, plan).value, db, false)
  {
  }

  lemma ClausesGood(s: Select, table: Plan, db: Database, id: nat)
    requires Good(table, db, false) && PlanClauses(s, table, id).Ok?
    ensures Good(PlanClauses(s, table, id).value.0, db, false)
  {
    hide Good, PlanItems, PlanWhere, PlanDistinct, PlanOrderBy, PlanLimit;
    WhereGood(s, table, db);
    var p1 := PlanWhere(s, table).value;
    ItemsGood(s, p1, db, id);
    var p2 := PlanItems(s, p1, id).value.0;
    DistinctGood(s, p2, db);
    var p3 := PlanDistinct(s, p2);
    OrderByGood(s, p3, db);
    LimitGood(s, PlanOrderBy(s, p3).value, db);
  }

  // ----- planned tables -----

  lemma {:induction false} ScanTypes(table: string, schema: Schema)
    ensures Types(ScanSchema(table, schema)) == Types(schema)
  {
    if schema != [] { ScanTypes(table, schema[1..]); }
  }

  lemma BaseTableGood(catalog: Catalog, t: TableRef, db: Database)
    requires t.BaseTable? && Fits(t, catalog, db) && PlanBaseTable(catalog, t).Ok?
    ensures Good(PlanBaseTable(catalog, t).value, db, false)
  {
    ScanTypes(BoundTableName(t), t.schema);
  }

  lemma RenamedQueryGood(select: Plan, alias: string, names: seq<seq<string>>, db: Database)
    requires Good(select, db, false) && RenameQuery(select, alias, names).Ok?
    ensures Good(RenameQuery(select, alias, names).value, db, false)
  {
  }

  lemma {:induction false} RowsWidth(rows: seq<seq<BoundExpr>>, n: nat)
    requires PlanRows(rows).Ok? && forall i :: 0 <= i < |rows| ==> |rows[i]| == n
    ensures |PlanRows(rows).value| == |rows|
    ensures forall i :: 0 <= i < |rows| ==> |PlanRows(rows).value[i]| == n
  {
    hide PlanExprs;
    if rows != [] {
      PlanExprsIff(rows[0], [], [], 0);
      RowsWidth(rows[1..], n);
    }
  }

  lemma JoinGood(l: Plan, r: Plan, e: Expr, t: JoinType, db: Database)
    requires Good(l, db, false) && Good(r, db, false)
    ensures Good(NestedLoopJoin(l.schema + r.schema, l, r, e, t), db, false)
  {
    TypesConcat(l.schema, r.schema);
  }

  lemma {:induction false} TableRefGood(catalog: Catalog, t: TableRef, ctes: seq<Subquery>, id: nat, n: nat,
                                        db: Database)
    requires WellBound(t) && WellBoundList(ctes) && Ends(catalog, t, ctes, id, n) && Fits(t, catalog, db)
             && FitsList(ctes, catalog, db)
    requires PlanTableRef(catalog, t, ctes, id, n).Ok?
    ensures Good(PlanTableRef(catalog, t, ctes, id, n).value.0, db, false)
    decreases n, t, 0
  {
    hide Good, PlanSelect, RenameQuery, PlanBaseTable, PlanRows, PlanExpr;
    match t
    case BaseTable(_, _, _) => BaseTableGood(catalog, t, db);
    case CrossProduct(l, r) =>
      TableRefGood(catalog, l, ctes, id, n, db);
      var (l', id1) := PlanTableRef(catalog, l, ctes, id, n).value;
      TableRefGood(catalog, r, ctes, id1, n, db);
      JoinGood(l', PlanTableRef(catalog, r, ctes, id1, n).value.0, Constant(Bool(true)), INNER, db);
    case JoinRef(l, r, e, ty) =>
      TableRefGood(catalog, l, ctes, id, n, db);
      var (l', id1) := PlanTableRef(catalog, l, ctes, id, n).value;
      TableRefGood(catalog, r, ctes, id1, n, db);
      var r' := PlanTableRef(catalog, r, ctes, id1, n).value.0;
      var x := PlanExpr(e, [l'.schema, r'.schema], [], 0).value.0.expr;
      JoinGood(l', r', x, ty, db);
    case SubqueryRef(q) =>
      assert WellBoundQuery(q);
      assert FitsSelect(q.select, catalog, db);
      SelectGood(catalog, q.select, ctes, id, n, db);
      RenamedQueryGood(PlanSelect(catalog, q.select, ctes, id, n).value.0, q.alias, q.names, db);
    case CteRef(name, alias) =>
      var i := FindCte(ctes, name).value;
      SelectGood(catalog, ctes[i].select, ctes, id, n - 1, db);
      RenamedQueryGood(PlanSelect(catalog, ctes[i].select, ctes, id, n - 1).value.0, alias, ctes[i].names, db);
    case ExpressionList(values, identifier) => ListGood(values, identifier, db);
  }

  lemma ListGood(values: seq<seq<BoundExpr>>, identifier: string, db: Database)
    requires PlanRows(values).Ok? && values != [] && forall i :: 0 <= i < |values| ==> |values[i]| == |values[0]|
    ensures var rows := PlanRows(values).value;
            rows != [] && Good(Values(ListSchema(identifier, rows[0], 0), rows), db, false)
  {
    RowsWidth(values, |values[0]|);
  }

  /** Every plan of a select statement is good. */
  lemma {:induction false} SelectGood(catalog: Catalog, s: Select, ctes: seq<Subquery>, id: nat, n: nat, db: Database)
    requires WellBoundSelect(s) && WellBoundList(ctes) && EndsSelect(catalog, s, ctes, id, n)
             && FitsSelect(s, catalog, db) && FitsList(ctes, catalog, db)
    requires PlanSelect(catalog, s, ctes, id, n).Ok?
    ensures Good(PlanSelect(catalog, s, ctes, id, n).value.0, db, false)
    decreases n, s, 1
  {
    var ctes' := Scope(s, ctes);
    if s.table.EmptyRef? {
      ClausesGood(s, Values([], [[]]), db, id);
    } else {
      TableRefGood(catalog, s.table, ctes', id, n, db);
      var (table, id1) := PlanTableRef(catalog, s.table, ctes', id, n).value;
      ClausesGood(s, table, db, id1);
    }
  }

  /**
   On every plan the planner makes the optimizer throws exactly if a filter ends up above a join on a constant
   without a truth value.
   */
  lemma QueryThrowsIff(catalog: Catalog, s: Select, id: nat, n: nat, db: Database)
    requires DatabaseOk(db) && WellBoundSelect(s) && IP.EndsQuery(catalog, s, id, n) && FitsSelect(s, catalog, db)
    requires IP.PlanQuery(catalog, s, id, n).Ok?
    ensures var p := IP.PlanQuery(catalog, s, id, n).value.0; OptimizeCustom(db, p).Throws? <==> Collides(p)
  {
    hide IP.PlanQuery, IP.EndsQuery, PlanSelect, EndsSelect, DatabaseOk, WellBoundSelect, FitsSelect, OptimizeCustom,
         Good, Collides;
    IP.QueryIs(catalog, s, id, n);
    SelectGood(catalog, s, [], id, n, db);
    OptimizeThrowsIff(IP.PlanQuery(catalog, s, id, n).value.0, db);
  }

  /**
   The optimizer keeps the rows and column types of every plan the planner makes in which filters are merged into
   INNER joins on `true`, or not at all.
   */
  lemma QueryKeepsMeaning(catalog: Catalog, s: Select, id: nat, n: nat, db: Database)
    requires DatabaseOk(db) && WellBoundSelect(s) && IP.EndsQuery(catalog, s, id, n) && FitsSelect(s, catalog, db)
    requires IP.PlanQuery(catalog, s, id, n).Ok? && AllMergeWell(IP.PlanQuery(catalog, s, id, n).value.0)
    ensures var p := IP.PlanQuery(catalog, s, id, n).value.0;
            && OptimizeCustom(db, p).Ok?
            && Rows(OptimizeCustom(db, p).value, db) == Rows(p, db)
            && Types(OptimizeCustom(db, p).value.schema) == Types(p.schema)
  {
    hide IP.PlanQuery, IP.EndsQuery, PlanSelect, EndsSelect, DatabaseOk, WellBoundSelect, FitsSelect, OptimizeCustom,
         Rows, Types, Good, AllMergeWell,
         JoinConstant, Collides;
    IP.QueryIs(catalog, s, id, n);
    SelectGood(catalog, s, [], id, n, db);
    GoodIff(IP.PlanQuery(catalog, s, id, n).value.0, db);
    OptimizeCustomSound(IP.PlanQuery(catalog, s, id, n).value.0, db);
  }
}
