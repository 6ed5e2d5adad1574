/**
 What planned tables and whole statements return, node by node: joins, subqueries, lists of values, and a statement
 over its FROM clause.
 */
module TableMeaning {
  import opened Options
  import opened Expressions
  import opened Plans
  import opened BoundTree
  import opened AggregationPlanning
  import opened AggregateGroups
  import opened SelectPlanning
  import opened SelectMeaning
  import CteScopes
  import InPlacePlanning

  // ----- joins -----

  /** The columns of two rows, by name. */
  ghost function BothColumns(left: Schema, l: Row, right: Schema, r: Row): string -> Value {
    name => if Find(left, name).Some? then ColumnsOf(left, l)(name) else ColumnsOf(right, r)(name)
  }

  ghost predicate Matches(e: BoundExpr, left: Schema, l: Row, right: Schema, r: Row) {
    Meaning(e, BothColumns(left, l, right, r), NoCalls()) == Bool(true)
  }

  /** The rows `l` makes with those it matches, in their order. */
  ghost function Pairs(e: BoundExpr, left: Schema, l: Row, right: Schema, rs: seq<Row>): seq<Row> {
    if rs == [] then []
    else (if Matches(e, left, l, right, rs[0]) then [l + rs[0]] else []) + Pairs(e, left, l, right, rs[1..])
  }

  /** A join: each left row with those it matches, or with nulls if there are none and it is outer. */
  ghost function Joined(e: BoundExpr, left: Schema, ls: seq<Row>, right: Schema, rs: seq<Row>, outer: bool): seq<Row> {
    if ls == [] then []
    else
      var pairs := Pairs(e, left, ls[0], right, rs);
      (if pairs == [] && outer then [ls[0] + seq(|right|, i requires 0 <= i < |right| => Null(right[i].ty))] else pairs)
      + Joined(e, left, ls[1..], right, rs, outer)
  }

  lemma ApplyFitsJoin(op: string, l: Expr, r: Expr, left: Row, right: Row)
    requires BinaryExpression(op, l, r).Ok?
    ensures EvalJoin(BinaryExpression(op, l, r).value, left, right) ==
            Apply(op, EvalJoin(l, left, right), EvalJoin(r, left, right))
  {
    hide Compare, Combine, Compute, BooleanValue, AsCmpBool;
  }

  lemma ColumnMeans(name: string, left: Schema, right: Schema, l: Row, r: Row)
    requires PlanColumnRef(name, [left, right]).Ok?
    ensures EvalJoin(PlanColumnRef(name, [left, right]).value, l, r) == BothColumns(left, l, right, r)(name)
  {
    var children := [left, right];
    assert |children| == 2 && children[0] == left && children[1] == right;
    if Find(left, name).Some? {
      assert EvalJoin(PlanColumnRef(name, children).value, l, r) == ColumnsOf(left, l)(name);
    } else {
      assert EvalJoin(PlanColumnRef(name, children).value, l, r) == ColumnsOf(right, r)(name);
    }
  }

  /** A planned condition means on two rows what the bound one means. */
  lemma {:induction false} ConditionMeans(e: BoundExpr, left: Schema, right: Schema, l: Row, r: Row)
    requires PlanExpr(e, [left, right], [], 0).Ok?
    ensures PlanExpr(e, [left, right], [], 0).value.1 == 0
    ensures EvalJoin(PlanExpr(e, [left, right], [], 0).value.0.expr, l, r) ==
            Meaning(e, BothColumns(left, l, right, r), NoCalls())
  {
    match e
    case ColumnRef(path) => ColumnMeans(Rendered(path), left, right, l, r);
    case BinaryOp(op, e1, e2) =>
      BinaryPlanned(op, e1, e2, [left, right], [], 0);
      PlanExprIff(e, [left, right], [], 0);
      PlanExprIff(e1, [left, right], [], 0);
      hide EvalJoin, PlanExpr, BinaryExpression, Plannable, BothColumns;
      ConditionMeans(e1, left, right, l, r);
      ConditionMeans(e2, left, right, l, r);
      ApplyFitsJoin(op, PlanExpr(e1, [left, right], [], 0).value.0.expr,
                    PlanExpr(e2, [left, right], [], 0).value.0.expr, l, r);
    case ConstantExpr(_) =>
    case Alias(_, c) => ConditionMeans(c, left, right, l, r);
  }

  lemma {:induction false} LoopIsPairs(e: BoundExpr, left: Schema, l: Row, right: Schema, rs: seq<Row>)
    requires PlanExpr(e, [left, right], [], 0).Ok?
    ensures Extensions(l, LoopMatches(l, rs, PlanExpr(e, [left, right], [], 0).value.0.expr)) ==
            Pairs(e, left, l, right, rs)
  {
    var pred := PlanExpr(e, [left, right], [], 0).value.0.expr;
    hide PlanExpr, EvalJoin, Meaning, BothColumns;
    if rs != [] {
      ConditionMeans(e, left, right, l, rs[0]);
      LoopIsPairs(e, left, l, right, rs[1..]);
      var rest := LoopMatches(l, rs[1..], pred);
      if Matches(e, left, l, right, rs[0]) {
        assert LoopMatches(l, rs, pred) == [rs[0]] + rest && ([rs[0]] + rest)[1..] == rest;
      } else {
        assert LoopMatches(l, rs, pred) == rest;
      }
    }
  }

  lemma {:induction false} NullsAre(schema: Schema)
    ensures Nulls(schema) == seq(|schema|, i requires 0 <= i < |schema| => Null(schema[i].ty))
  {
    if schema != [] {
      NullsAre(schema[1..]);
      assert forall i :: 1 <= i < |schema| ==> schema[i] == schema[1..][i - 1];
    }
  }

  lemma {:induction false} ExtensionsNone(l: Row, matches: seq<Row>)
    ensures Extensions(l, matches) == [] <==> matches == []
  {
  }

  lemma {:induction false} JoinIsJoined(e: BoundExpr, left: Schema, ls: seq<Row>, right: Schema, rs: seq<Row>,
                                        partners: Row -> seq<Row>, outer: bool)
    requires PlanExpr(e, [left, right], [], 0).Ok?
    requires forall l :: partners(l) == LoopMatches(l, rs, PlanExpr(e, [left, right], [], 0).value.0.expr)
    ensures JoinRows(ls, partners, outer, Nulls(right)) == Joined(e, left, ls, right, rs, outer)
  {
    hide PlanExpr, LoopMatches, Pairs, Extensions, Nulls;
    if ls != [] {
      LoopIsPairs(e, left, ls[0], right, rs);
      ExtensionsNone(ls[0], partners(ls[0]));
      NullsAre(right);
      JoinIsJoined(e, left, ls[1..], right, rs, partners, outer);
    }
  }

  /** The plans of the two tables of a join or of a cross product. */
  ghost predicate JoinOf(catalog: Catalog, t: TableRef, ctes: seq<Subquery>, id: nat, n: nat, left: Plan, right: Plan)
    requires WellBound(t) && WellBoundList(ctes) && Ends(catalog, t, ctes, id, n) && (t.JoinRef? || t.CrossProduct?)
  {
    var l := PlanTableRef(catalog, t.left, ctes, id, n);
    l.Ok? && l.value.0 == left && PlanTableRef(catalog, t.right, ctes, l.value.1, n).Ok?
    && PlanTableRef(catalog, t.right, ctes, l.value.1, n).value.0 == right
  }

  ghost function ConditionOf(t: TableRef): BoundExpr
    requires t.JoinRef? || t.CrossProduct?
  {
    if t.JoinRef? then t.condition else ConstantExpr(Bool(true))
  }

  /** The node of a join. */
  lemma {:induction false} JoinPlanned(catalog: Catalog, t: TableRef, ctes: seq<Subquery>, id: nat, n: nat)
    returns (left: Plan, right: Plan)
    requires WellBound(t) && WellBoundList(ctes) && Ends(catalog, t, ctes, id, n) && (t.JoinRef? || t.CrossProduct?)
    requires PlanTableRef(catalog, t, ctes, id, n).Ok?
    ensures JoinOf(catalog, t, ctes, id, n, left, right)
    ensures var e := PlanExpr(ConditionOf(t), [left.schema, right.schema], [], 0);
            e.Ok? && PlanTableRef(catalog, t, ctes, id, n).value.0 ==
                       NestedLoopJoin(left.schema + right.schema, left, right, e.value.0.expr,
                                      if t.JoinRef? then t.joinType else INNER)
  {
    var l := PlanTableRef(catalog, t.left, ctes, id, n).value;
    left := l.0;
    right := PlanTableRef(catalog, t.right, ctes, l.1, n).value.0;
  }

  /** A join returns the pairs on which its condition is true, and a cross product all of them. */
  lemma {:induction false} JoinReturns(catalog: Catalog, t: TableRef, ctes: seq<Subquery>, id: nat, n: nat,
                                       db: Database,
                                       left: Plan, right: Plan)
    requires WellBound(t) && WellBoundList(ctes) && Ends(catalog, t, ctes, id, n) && (t.JoinRef? || t.CrossProduct?)
    requires PlanTableRef(catalog, t, ctes, id, n).Ok? && JoinOf(catalog, t, ctes, id, n, left, right)
    requires Rows(left, db).Some? && Rows(right, db).Some?
    ensures var p := PlanTableRef(catalog, t, ctes, id, n).value.0;
            && p.schema == left.schema + right.schema
            && Rows(p, db) ==
                 if t.JoinRef? && t.joinType != INNER && t.joinType != LEFT then None
                 else Some(Joined(ConditionOf(t), left.schema, Rows(left, db).value, right.schema,
                                  Rows(right, db).value, t.JoinRef? && t.joinType == LEFT))
  {
    var l, r := JoinPlanned(catalog, t, ctes, id, n);
    hide PlanTableRef, Ends, WellBound, WellBoundList;
    var jt := if t.JoinRef? then t.joinType else INNER;
    LoopJoinReturns(ConditionOf(t), left, right, jt, db);
  }

  lemma {:induction false} LoopJoinReturns(e: BoundExpr, left: Plan, right: Plan, jt: JoinType, db: Database)
    requires PlanExpr(e, [left.schema, right.schema], [], 0).Ok? && Rows(left, db).Some? && Rows(right, db).Some?
    ensures var pred := PlanExpr(e, [left.schema, right.schema], [], 0).value.0.expr;
            Rows(NestedLoopJoin(left.schema + right.schema, left, right, pred, jt), db) ==
              if jt != INNER && jt != LEFT then None
              else Some(Joined(e, left.schema, Rows(left, db).value, right.schema, Rows(right, db).value, jt == LEFT))
  {
    var pred := PlanExpr(e, [left.schema, right.schema], [], 0).value.0.expr;
    var rs := Rows(right, db).value;
    JoinIsJoined(e, left.schema, Rows(left, db).value, right.schema, rs, row => LoopMatches(row, rs, pred), jt == LEFT);
    hide PlanExpr, JoinRows, LoopMatches, Joined, Nulls;
  }

  // ----- subqueries and lists -----

  /** A subquery returns the rows of its statement, under its own names. */
  lemma {:induction false} SubqueryReturns(select: Plan, alias: string, names: seq<seq<string>>, db: Database,
                                           rows: seq<Row>)
    requires RenameQuery(select, alias, names).Ok? && Rows(select, db) == Some(rows) && Wide(rows, |select.schema|)
    ensures var p := RenameQuery(select, alias, names).value;
            && Rows(p, db) == Some(rows) && |p.schema| == |names| == |select.schema|
            && forall i :: 0 <= i < |names| ==>
                 p.schema[i] == Column(alias + "." + Rendered(names[i]), select.schema[i].ty)
  {
    var columns := Columns(select.schema, 0);
    var p := RenameQuery(select, alias, names).value;
    ProjectedSize(rows, columns);
    InferredTypes(columns);
    forall i | 0 <= i < |rows| ensures EvalAll(columns, rows[i]) == rows[i] {
      EvalAllIs(columns, rows[i]);
      assert rows[i] in rows;
    }
    assert ProjectRows(rows, columns) == rows;
    ProjectedRows(p, db, rows);
    hide Rows, ProjectRows, EvalAll, Rendered, InferProjectionSchema;
  }

  lemma {:induction false} InferredTypes(es: seq<Expr>)
    ensures forall i :: 0 <= i < |es| ==> InferProjectionSchema(es)[i].ty == ReturnType(es[i])
  {
    if es != [] {
      InferredTypes(es[1..]);
      assert forall i :: 1 <= i < |es| ==> es[i] == es[1..][i - 1];
    }
  }

  /** Without children there are no columns, as over a table that has none. */
  lemma {:induction false} NoChildren(e: BoundExpr)
    requires PlanExpr(e, [], [], 0).Ok?
    ensures PlanExpr(e, [[]], [], 0) == PlanExpr(e, [], [], 0) && PlanExpr(e, [], [], 0).value.1 == 0
  {
    match e
    case BinaryOp(op, l, r) =>
      NoChildren(l);
      NoChildren(r);
    case Alias(_, c) => NoChildren(c);
    case _ =>
  }

  lemma {:induction false} RowMeans(es: seq<BoundExpr>)
    requires PlanExprs(es, [], [], 0).Ok?
    ensures IsItems(EvalAll(Exprs(PlanExprs(es, [], [], 0).value.0), []), es, ColumnsOf([], []), NoCalls())
  {
    if es != [] {
      NoChildren(es[0]);
      NoCallsIn(es[0], [], []);
      RowMeans(es[1..]);
      var rest := PlanExprs(es[1..], [], [], 0).value.0;
      var first := PlanExpr(es[0], [], [], 0).value.0;
      assert PlanExprs(es, [], [], 0).value.0 == [first] + rest;
      hide PlanExprs, PlanExpr, Eval, Meaning, ColumnsOf;
      assert Exprs([first] + rest) == [first.expr] + Exprs(rest);
      assert ([first.expr] + Exprs(rest))[1..] == Exprs(rest);
      assert forall j :: 1 <= j < |es| ==> es[j] == es[1..][j - 1];
    }
  }

  /** A list returns the values of its expressions, row by row. */
  lemma {:induction false} ListReturns(values: seq<seq<BoundExpr>>)
    requires PlanRows(values).Ok?
    ensures |ValuesRows(PlanRows(values).value)| == |values|
    ensures forall i :: 0 <= i < |values| ==>
              IsItems(ValuesRows(PlanRows(values).value)[i], values[i], ColumnsOf([], []), NoCalls())
  {
    if values != [] {
      RowMeans(values[0]);
      ListReturns(values[1..]);
      var first := Exprs(PlanExprs(values[0], [], [], 0).value.0);
      var rest := PlanRows(values[1..]).value;
      assert PlanRows(values).value == [first] + rest && ([first] + rest)[1..] == rest;
      hide PlanRows, PlanExprs, IsItems, EvalAll;
      assert forall i :: 1 <= i < |values| ==> values[i] == values[1..][i - 1];
    }
  }

  // ----- statements -----

  lemma {:induction false} ResultWide(s: Select, schema: Schema, rows: seq<Row>, out: Schema, result: seq<Row>,
                                      st: Stages)
    requires IsResult(s, schema, rows, out, result, st)
    ensures Wide(result, |s.selectList|)
  {
    hide ItemsOf, IsDistinct, InOrderOf;
    forall r | r in result ensures |r| == |s.selectList| {
      assert r in st.sorted;
      SameMembers(st.sorted, st.distinct, r);
    }
  }

  /** A planned select statement returns what it says over the rows of its FROM clause. */
  lemma {:induction false} SelectReturns(catalog: Catalog, s: Select, ctes: seq<Subquery>, id: nat, n: nat,
                                         db: Database, rows: seq<Row>)
    returns (st: Stages)
    requires WellBoundSelect(s) && WellBoundList(ctes) && EndsSelect(catalog, s, ctes, id, n)
    requires PlanSelect(catalog, s, ctes, id, n).Ok? && CteScopes.PlanFrom(catalog, s, ctes, id, n).Ok?
    requires Rows(CteScopes.PlanFrom(catalog, s, ctes, id, n).value.0, db) == Some(rows) && Aggregates(db)
    ensures var (table, id1) := CteScopes.PlanFrom(catalog, s, ctes, id, n).value;
            var p := PlanSelect(catalog, s, ctes, id, n).value.0;
            && NamedBy(s, p.schema, id1) && Rows(p, db).Some? && Wide(Rows(p, db).value, |p.schema|)
            && IsResult(s, table.schema, rows, p.schema, Rows(p, db).value, st)
  {
    CteScopes.PlanSelectIs(catalog, s, ctes, id, n);
    var (table, id1) := CteScopes.PlanFrom(catalog, s, ctes, id, n).value;
    var p := PlanSelect(catalog, s, ctes, id, n).value.0;
    hide *;
    st := ClausesReturn(s, table, id1, db, rows);
    ResultWide(s, table.schema, rows, p.schema, Rows(p, db).value, st);
    WidthNamed(s, p.schema, id1);
  }

  /** So does a whole query, which the planner plans in place. */
  lemma {:induction false} QueryReturns(catalog: Catalog, s: Select, id: nat, n: nat, db: Database, rows: seq<Row>)
    returns (st: Stages)
    requires WellBoundSelect(s) && InPlacePlanning.EndsQuery(catalog, s, id, n)
    requires InPlacePlanning.PlanQuery(catalog, s, id, n).Ok? && EndsSelect(catalog, s, [], id, n)
    requires CteScopes.PlanFrom(catalog, s, [], id, n).Ok?
    requires Rows(CteScopes.PlanFrom(catalog, s, [], id, n).value.0, db) == Some(rows) && Aggregates(db)
    ensures var (table, id1) := CteScopes.PlanFrom(catalog, s, [], id, n).value;
            var p := InPlacePlanning.PlanQuery(catalog, s, id, n).value.0;
            && NamedBy(s, p.schema, id1) && Rows(p, db).Some?
            && IsResult(s, table.schema, rows, p.schema, Rows(p, db).value, st)
  {
    InPlacePlanning.QueryIs(catalog, s, id, n);
    hide *;
    st := SelectReturns(catalog, s, [], id, n, db, rows);
  }
}
