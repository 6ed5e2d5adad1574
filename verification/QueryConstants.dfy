/**
 Constants as join conditions.  The binder makes integers, strings and integer nulls of constants, never booleans,
 and the rule that merges filters into joins casts the condition: three statements show what becomes of that.
 */
module QueryConstants {
  import opened Options
  import opened Expressions
  import opened Plans
  import opened Optimizer
  import opened OptimizerSoundness
  import opened BoundTree
  import opened AggregationPlanning
  import opened SelectPlanning
  import CteScopes
  import IP = InPlacePlanning
  import opened QuerySoundness

  function Table(name: string): TableRef {
    BaseTable(name, None, [Column("x", INTEGER)])
  }

  /** `t.x = u.x`. */
  function Equation(): BoundExpr {
    BinaryOp("=", ColumnRef(["t", "x"]), ColumnRef(["u", "x"]))
  }

  /** `select t.x from t .. join u on condition where filter`. */
  function Query(condition: Value, ty: JoinType, filter: BoundExpr): Select {
    Select(JoinRef(Table("t"), Table("u"), ConstantExpr(condition), ty), [ColumnRef(["t", "x"])], filter, [], Invalid,
           false, [], Invalid, Invalid, [])
  }

  function Both(): Schema {
    [Column("t.x", INTEGER), Column("u.x", INTEGER)]
  }

  function Scan(catalog: Catalog, table: string, column: string): Plan
    requires table in catalog
  {
    SeqScan([Column(column, INTEGER)], catalog[table], table, None)
  }

  function JoinPlan(catalog: Catalog, e: Expr, ty: JoinType): Plan
    requires "t" in catalog && "u" in catalog
  {
    NestedLoopJoin(Both(), Scan(catalog, "t", "t.x"), Scan(catalog, "u", "u.x"), e, ty)
  }

  function EquationOver(left: nat, right: nat, rightColumn: nat): Expr {
    Comparison(Equal, ColumnValue(left, 0, INTEGER), ColumnValue(right, rightColumn, INTEGER))
  }

  function FilterPlan(join: Plan): Plan {
    Filter(Both(), EquationOver(0, 0, 1), join)
  }

  function ItemsPlan(child: Plan): Plan {
    Projection([Column("t.x", INTEGER)], [ColumnValue(0, 0, INTEGER)], child)
  }

  // ----- planning -----

  lemma Names()
    ensures Rendered(["t", "x"]) == "t.x" && Rendered(["u", "x"]) == "u.x"
    ensures Find(Both(), "t.x") == Some(0) && Find(Both(), "u.x") == Some(1)
    ensures !Duplicated(Both(), "t.x") && !Duplicated(Both(), "u.x")
  {
    assert ["t", "x"][1..] == ["x"] && ["u", "x"][1..] == ["x"];
    assert Rendered(["x"]) == "x";
    assert "t" + "." + "x" == "t.x" && "u" + "." + "x" == "u.x";
    assert Both()[1..] == [Column("u.x", INTEGER)] && Both()[1..][1..] == [];
    assert "t.x"[0] != "u.x"[0];
    assert Find(Both()[1..], "t.x") == None && Find(Both()[1..], "u.x") == Some(0);
  }

  lemma TablesPlanned(catalog: Catalog, condition: Value, ty: JoinType, filter: BoundExpr, id: nat)
    requires "t" in catalog && "u" in catalog
    ensures WellBoundSelect(Query(condition, ty, filter))
            && EndsSelect(catalog, Query(condition, ty, filter), [], id, 0)
    ensures Ends(catalog, Query(condition, ty, filter).table, [], id, 0)
    ensures PlanTableRef(catalog, Query(condition, ty, filter).table, [], id, 0) ==
            Ok((JoinPlan(catalog, Constant(condition), ty), id))
  {
    var t := Query(condition, ty, filter).table;
    assert [Column("t.x", INTEGER)] + [Column("u.x", INTEGER)] == Both();
    assert ScanSchema("t", [Column("x", INTEGER)]) == [Column("t.x", INTEGER)] by { assert "t" + "." + "x" == "t.x"; }
    assert ScanSchema("u", [Column("x", INTEGER)]) == [Column("u.x", INTEGER)] by { assert "u" + "." + "x" == "u.x"; }
    assert PlanTableRef(catalog, Table("t"), [], id, 0) == Ok((Scan(catalog, "t", "t.x"), id));
    assert PlanTableRef(catalog, Table("u"), [], id, 0) == Ok((Scan(catalog, "u", "u.x"), id));
  }

  lemma ClausesPlanned(s: Select, join: Plan, id: nat)
    requires s.selectList == [ColumnRef(["t", "x"])] && (s.filter.Invalid? || s.filter == Equation())
             && join.schema == Both()
    requires s.groupBy == [] && s.having.Invalid? && !s.distinct && s.orderBys == [] && s.limit.Invalid?
             && s.offset.Invalid?
    ensures PlanClauses(s, join, id) == Ok((ItemsPlan(if s.filter.Invalid? then join else FilterPlan(join)), id))
  {
    Names();
    hide Find, Duplicated, Rendered;
    var p := if s.filter.Invalid? then join else FilterPlan(join);
    var item := Planned("t.x", ColumnValue(0, 0, INTEGER));
    assert PlanExpr(ColumnRef(["t", "x"]), [Both()], [], 0) == Ok((item, 0));
    assert PlanExpr(ColumnRef(["u", "x"]), [Both()], [], 0) == Ok((Planned("u.x", ColumnValue(0, 1, INTEGER)), 0));
    assert PlanWhere(s, join) == Ok(p);
    ItemPlanned(s, p, item, id);
    hide PlanItems, PlanWhere;
    assert PlanDistinct(s, ItemsPlan(p)) == ItemsPlan(p) && PlanOrderBy(s, ItemsPlan(p)) == Ok(ItemsPlan(p));
    assert PlanLimit(s, ItemsPlan(p)) == Ok(ItemsPlan(p));
  }

  lemma ItemPlanned(s: Select, p: Plan, item: Planned, id: nat)
    requires s.selectList == [ColumnRef(["t", "x"])] && s.groupBy == [] && s.having.Invalid?
    requires item == Planned("t.x", ColumnValue(0, 0, INTEGER))
             && PlanExpr(ColumnRef(["t", "x"]), [p.schema], [], 0) == Ok((item, 0))
    ensures PlanItems(s, p, id) == Ok((ItemsPlan(p), id))
  {
    hide PlanExpr;
    assert s.selectList[1..] == [] && [item][1..] == [];
    assert AllCalls(s.selectList) == Calls(s.selectList[0]) + AllCalls(s.selectList[1..]);
    assert PlanExprs(s.selectList[1..], [p.schema], [], 0) == Ok(([], 0)) && [item] + [] == [item];
    assert PlanExprs(s.selectList, [p.schema], [], 0) == Ok(([item], 0));
    assert "t.x" != UNNAMED_COLUMN by { assert |"t.x"| != |UNNAMED_COLUMN|; }
    assert NameAll([item][1..], id) == ([], id);
    assert ["t.x"] + [] == ["t.x"];
    assert NameAll([item], id) == (["t.x"], id);
    assert Exprs([item]) == [item.expr];
    assert InferProjectionSchema([item.expr]) == [Column(UNNAMED_COLUMN, INTEGER)] by { assert [item.expr][1..] == []; }
    assert AggregationPlanning.Renamed([Column(UNNAMED_COLUMN, INTEGER)], ["t.x"]) == [Column("t.x", INTEGER)];
    assert RenameSchema([Column(UNNAMED_COLUMN, INTEGER)], ["t.x"]) == Ok([Column("t.x", INTEGER)]);
    assert !HasAggregation(s);
    hide PlanExprs, NameAll, InferProjectionSchema, RenameSchema, Exprs, HasAggregation;
  }

  lemma SelectPlanned(catalog: Catalog, condition: Value, ty: JoinType, filter: BoundExpr, id: nat)
    requires "t" in catalog && "u" in catalog && (filter.Invalid? || filter == Equation())
    ensures WellBoundSelect(Query(condition, ty, filter))
            && EndsSelect(catalog, Query(condition, ty, filter), [], id, 0)
    ensures var join := JoinPlan(catalog, Constant(condition), ty);
            PlanSelect(catalog, Query(condition, ty, filter), [], id, 0) ==
              Ok((ItemsPlan(if filter.Invalid? then join else FilterPlan(join)), id))
  {
    TablesPlanned(catalog, condition, ty, filter, id);
    ClausesPlanned(Query(condition, ty, filter), JoinPlan(catalog, Constant(condition), ty), id);
    hide PlanTableRef, PlanClauses, WellBoundSelect;
  }

  lemma QueryPlanned(catalog: Catalog, condition: Value, ty: JoinType, filter: BoundExpr, id: nat)
    requires "t" in catalog && "u" in catalog && (filter.Invalid? || filter == Equation())
    ensures WellBoundSelect(Query(condition, ty, filter)) && IP.EndsQuery(catalog, Query(condition, ty, filter), id, 0)
    ensures var join := JoinPlan(catalog, Constant(condition), ty);
            IP.PlanQuery(catalog, Query(condition, ty, filter), id, 0) ==
              Ok((ItemsPlan(if filter.Invalid? then join else FilterPlan(join)), id))
  {
    assert CteScopes.Direct(Table("t")) && CteScopes.Direct(Table("u"));
    assert CteScopes.DirectSelect(Query(condition, ty, filter));
    hide IP.PlanQuery, IP.EndsQuery, PlanSelect, EndsSelect, WellBoundSelect, CteScopes.DirectSelect, Query, JoinPlan,
         ItemsPlan, FilterPlan;
    SelectPlanned(catalog, condition, ty, filter, id);
    IP.DirectQuery(catalog, Query(condition, ty, filter), id, 0);
  }

  // ----- three statements -----

  lemma EquationIs()
    ensures !Equation().Invalid?
  {
  }

  lemma IntegerConditionPlans(catalog: Catalog)
    requires "t" in catalog && "u" in catalog
    ensures Collides(ItemsPlan(FilterPlan(JoinPlan(catalog, Constant(Int(1)), INNER))))
    ensures AllMergeWell(ItemsPlan(JoinPlan(catalog, Constant(Int(1)), INNER)))
  {
    var join := JoinPlan(catalog, Constant(Int(1)), INNER);
    hide Both, Types;
    assert Refuses(join) && AllMergeWell(join);
    assert Collides(FilterPlan(join));
  }

  /** `select t.x from t join u on 1 where t.x = u.x`: the optimizer throws. */
  lemma IntegerConditionThrows(catalog: Catalog, db: Database, id: nat)
    requires DatabaseOk(db) && "t" in catalog && "u" in catalog
             && FitsSelect(Query(Int(1), INNER, Equation()), catalog, db)
    ensures WellBoundSelect(Query(Int(1), INNER, Equation()))
            && IP.EndsQuery(catalog, Query(Int(1), INNER, Equation()), id, 0)
    ensures var p := IP.PlanQuery(catalog, Query(Int(1), INNER, Equation()), id, 0);
            p.Ok? && OptimizeCustom(db, p.value.0).Throws?
  {
    hide *;
    EquationIs();
    QueryPlanned(catalog, Int(1), INNER, Equation(), id);
    IntegerConditionPlans(catalog);
    QueryThrowsIff(catalog, Query(Int(1), INNER, Equation()), id, 0, db);
  }

  /** `select t.x from t join u on 1`: without a filter above, the optimizer keeps the rows. */
  lemma IntegerConditionAlone(catalog: Catalog, db: Database, id: nat)
    requires DatabaseOk(db) && "t" in catalog && "u" in catalog
             && FitsSelect(Query(Int(1), INNER, Invalid), catalog, db)
    ensures WellBoundSelect(Query(Int(1), INNER, Invalid))
            && IP.EndsQuery(catalog, Query(Int(1), INNER, Invalid), id, 0)
    ensures var p := IP.PlanQuery(catalog, Query(Int(1), INNER, Invalid), id, 0);
            p.Ok? && OptimizeCustom(db, p.value.0).Ok?
            && Rows(OptimizeCustom(db, p.value.0).value, db) == Rows(p.value.0, db)
  {
    hide *;
    QueryPlanned(catalog, Int(1), INNER, Invalid, id);
    IntegerConditionPlans(catalog);
    QueryKeepsMeaning(catalog, Query(Int(1), INNER, Invalid), id, 0, db);
  }

  lemma TrueIsTrue()
    ensures CastToBool(Str("true")) == Ok(true)
  {
    var s := "true";
    assert s[1..] == "rue" && "rue"[1..] == "ue" && "ue"[1..] == "e" && "e"[1..] == "";
    assert ToLower("e") == "e" && ToLower("ue") == "ue" && ToLower("rue") == "rue" && ToLower(s) == s;
  }

  lemma NoRenaming()
    ensures Types(Both()) != Types([Column("t.x", INTEGER)])
  {
    TypesSize(Both());
    TypesSize([Column("t.x", INTEGER)]);
  }

  /** What the rules do at the nodes of a filter over a LEFT join on 'true', without indexes. */
  lemma TextConditionRules(catalog: Catalog, db: Database)
    requires "t" in catalog && "u" in catalog && "u" !in db.tableIndexes
    ensures var join, merged := JoinPlan(catalog, Constant(Str("true")), LEFT),
            JoinPlan(catalog, EquationOver(0, 1, 0), LEFT);
            && MergeProjection(ItemsPlan(FilterPlan(join))) == Ok(ItemsPlan(FilterPlan(join)))
            && MergeFilterNLJ(FilterPlan(join)) == Ok(merged)
            && NLJAsIndexJoin(db, merged) == Ok(merged)
  {
    NoRenaming();
    TrueIsTrue();
    hide CastToBool, Types;
  }

  /** A rule that is applied to the plans below, node by node. */
  lemma OverJoin(catalog: Catalog, e: Expr, rule: Plan -> Result<Plan>)
    requires "t" in catalog && "u" in catalog
    requires rule(Scan(catalog, "t", "t.x")) == Ok(Scan(catalog, "t", "t.x"))
             && rule(Scan(catalog, "u", "u.x")) == Ok(Scan(catalog, "u", "u.x"))
    ensures Everywhere(JoinPlan(catalog, e, LEFT), rule) == rule(JoinPlan(catalog, e, LEFT))
  {
    hide Both;
    assert Everywhere(Scan(catalog, "t", "t.x"), rule) == rule(Scan(catalog, "t", "t.x"));
    assert Everywhere(Scan(catalog, "u", "u.x"), rule) == rule(Scan(catalog, "u", "u.x"));
  }

  lemma OverItems(p: Plan, q: Plan, rule: Plan -> Result<Plan>)
    requires Everywhere(p, rule) == Ok(q) && rule(ItemsPlan(q)) == Ok(ItemsPlan(q))
    ensures Everywhere(ItemsPlan(p), rule) == Ok(ItemsPlan(q))
  {
  }

  lemma OverFilter(p: Plan, rule: Plan -> Result<Plan>)
    requires Everywhere(p, rule) == Ok(p)
    ensures Everywhere(FilterPlan(p), rule) == rule(FilterPlan(p))
  {
    hide Both;
  }

  lemma RulesAtScans(catalog: Catalog, db: Database, table: string, column: string)
    requires table in catalog
    ensures var scan := Scan(catalog, table, column);
            && MergeProjection(scan) == Ok(scan) && MergeFilterNLJ(scan) == Ok(scan)
            && IndexJoinRule(db)(scan) == Ok(scan) && IndexScanRule(db)(scan) == Ok(scan)
  {
  }

  /** Rules that are not about a node leave it. */
  lemma OtherNodes(catalog: Catalog, db: Database, e: Expr)
    requires "t" in catalog && "u" in catalog
    ensures var join := JoinPlan(catalog, e, LEFT);
            && MergeProjection(join) == Ok(join) && MergeFilterNLJ(join) == Ok(join)
            && IndexScanRule(db)(join) == Ok(join)
            && MergeProjection(FilterPlan(join)) == Ok(FilterPlan(join))
            && MergeFilterNLJ(ItemsPlan(join)) == Ok(ItemsPlan(join))
            && IndexJoinRule(db)(ItemsPlan(join)) == Ok(ItemsPlan(join))
            && IndexScanRule(db)(ItemsPlan(join)) == Ok(ItemsPlan(join))
  {
    hide Both;
  }

  lemma IndexJoinRuleIs(db: Database, p: Plan)
    ensures IndexJoinRule(db)(p) == NLJAsIndexJoin(db, p)
  {
  }

  /** The plan of a LEFT join on 'true' below a filter, and what the optimizer makes of it without indexes. */
  lemma TextConditionMerged(catalog: Catalog, db: Database)
    requires "t" in catalog && "u" in catalog && "u" !in db.tableIndexes
    ensures OptimizeCustom(db, ItemsPlan(FilterPlan(JoinPlan(catalog, Constant(Str("true")), LEFT))))
            == Ok(ItemsPlan(JoinPlan(catalog, EquationOver(0, 1, 0), LEFT)))
  {
    hide Everywhere, MergeProjection, MergeFilterNLJ, NLJAsIndexJoin, OrderByAsIndexScan, IndexJoinRule, IndexScanRule;
    hide JoinPlan, FilterPlan, ItemsPlan, Scan, Both, EquationOver;
    var e, e' := Constant(Str("true")), EquationOver(0, 1, 0);
    var join, merged := JoinPlan(catalog, e, LEFT), JoinPlan(catalog, e', LEFT);
    TextConditionRules(catalog, db);
    RulesAtScans(catalog, db, "t", "t.x");
    RulesAtScans(catalog, db, "u", "u.x");
    OtherNodes(catalog, db, e);
    OtherNodes(catalog, db, e');
    OverJoin(catalog, e, MergeProjection);
    OverFilter(join, MergeProjection);
    OverItems(FilterPlan(join), FilterPlan(join), MergeProjection);
    OverJoin(catalog, e, MergeFilterNLJ);
    OverFilter(join, MergeFilterNLJ);
    OverItems(FilterPlan(join), merged, MergeFilterNLJ);
    IndexJoinRuleIs(db, merged);
    OverJoin(catalog, e', IndexJoinRule(db));
    OverItems(merged, merged, IndexJoinRule(db));
    OverJoin(catalog, e', IndexScanRule(db));
    OverItems(merged, merged, IndexScanRule(db));
  }

  lemma OneRowJoined(catalog: Catalog, db: Database, e: Expr)
    requires "t" in catalog && "u" in catalog && catalog["t"] in db.tables && catalog["u"] in db.tables
    requires db.tables[catalog["t"]].rows == [[Int(1)]] && db.tables[catalog["u"]].rows == [[Int(2)]]
    requires !Passes(EvalJoin(e, [Int(1)], [Int(2)]))
    ensures Rows(JoinPlan(catalog, e, LEFT), db) == Some([[Int(1), Null(INTEGER)]])
  {
    RowsOfLoopJoin(Both(), Scan(catalog, "t", "t.x"), Scan(catalog, "u", "u.x"), e, LEFT, db);
    var ls, rs, nulls := [[Int(1)]], [[Int(2)]], Nulls([Column("u.x", INTEGER)]);
    assert nulls == [Null(INTEGER)] by { assert [Column("u.x", INTEGER)][1..] == []; }
    assert rs[1..] == [] && LoopMatches([Int(1)], rs, e) == [] + LoopMatches([Int(1)], [], e);
    LoopJoinStep(ls, rs, e, true, nulls);
    assert ls[1..] == [] && [Int(1)] + nulls == [Int(1), Null(INTEGER)];
    assert JoinBlock([Int(1)], LoopMatches([Int(1)], rs, e), true, nulls) == [[Int(1), Null(INTEGER)]];
    assert LoopJoin([], rs, e, true, nulls) == [];
    assert [[Int(1), Null(INTEGER)]] + [] == [[Int(1), Null(INTEGER)]];
    hide LoopJoin, LoopMatches, Nulls, JoinBlock;
    assert LoopJoin(ls, rs, e, true, nulls) == [[Int(1), Null(INTEGER)]];
  }

  /**
   `select t.x from t left join u on 'true' where t.x = u.x`, with 1 in t and 2 in u: no row before, one row after.
   */
  lemma TextConditionChanged(catalog: Catalog, db: Database, id: nat)
    requires "t" in catalog && "u" in catalog && catalog["t"] in db.tables && catalog["u"] in db.tables
             && "u" !in db.tableIndexes
    requires db.tables[catalog["t"]].rows == [[Int(1)]] && db.tables[catalog["u"]].rows == [[Int(2)]]
    ensures WellBoundSelect(Query(Str("true"), LEFT, Equation()))
            && IP.EndsQuery(catalog, Query(Str("true"), LEFT, Equation()), id, 0)
    ensures var p := IP.PlanQuery(catalog, Query(Str("true"), LEFT, Equation()), id, 0);
            && p.Ok? && OptimizeCustom(db, p.value.0).Ok?
            && Rows(p.value.0, db) == Some([]) && Rows(OptimizeCustom(db, p.value.0).value, db) == Some([[Int(1)]])
  {
    QueryPlanned(catalog, Str("true"), LEFT, Equation(), id);
    TextConditionMerged(catalog, db);
    OneRowJoined(catalog, db, Constant(Str("true")));
    OneRowJoined(catalog, db, EquationOver(0, 1, 0));
    RowsAbove(catalog, db);
    hide IP.PlanQuery, OptimizeCustom, Rows, WellBoundSelect, IP.EndsQuery;
  }

  lemma RowsAbove(catalog: Catalog, db: Database)
    requires "t" in catalog && "u" in catalog
    requires Rows(JoinPlan(catalog, Constant(Str("true")), LEFT), db) == Some([[Int(1), Null(INTEGER)]])
    requires Rows(JoinPlan(catalog, EquationOver(0, 1, 0), LEFT), db) == Some([[Int(1), Null(INTEGER)]])
    ensures Rows(ItemsPlan(FilterPlan(JoinPlan(catalog, Constant(Str("true")), LEFT))), db) == Some([])
    ensures Rows(ItemsPlan(JoinPlan(catalog, EquationOver(0, 1, 0), LEFT)), db) == Some([[Int(1)]])
  {
    var row := [Int(1), Null(INTEGER)];
    assert [row][1..] == [];
    assert !Passes(Eval(EquationOver(0, 0, 1), row));
    assert FilterRows([row], EquationOver(0, 0, 1)) == [] + FilterRows([], EquationOver(0, 0, 1));
    var es := [ColumnValue(0, 0, INTEGER)];
    assert es[1..] == [] && EvalAll(es, row) == [Int(1)];
    assert ProjectRows([row], es) == [[Int(1)]] + ProjectRows([], es) == [[Int(1)]];
  }
}
