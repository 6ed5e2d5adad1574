/**
 What planned statements return, in terms of the statements as they were bound: the rows of the table that pass WHERE,
 the values of the items on each, distinct rows, in the order asked for, and no more than asked for.
 */
module SelectMeaning {
  import opened Options
  import opened Expressions
  import opened Plans
  import opened BoundTree
  import opened AggregateValues
  import opened AggregateGroups
  import opened AggregationPlanning
  import opened SelectPlanning
  import opened OptimizerSoundness

  // ----- conditions and items -----

  /** The value of an expression without calls on a row. */
  ghost function ValueOn(e: BoundExpr, schema: Schema, row: Row): Value {
    Meaning(e, ColumnsOf(schema, row), NoCalls())
  }

  /** The rows on which a condition is true; all of them if there is none. */
  ghost function Kept(rows: seq<Row>, e: BoundExpr, schema: Schema): seq<Row> {
    if rows == [] then []
    else (if e.Invalid? || ValueOn(e, schema, rows[0]) == Bool(true) then [rows[0]] else [])
         + Kept(rows[1..], e, schema)
  }

  /** `row'` has the values of the items on a row, one each. */
  ghost predicate IsItems(row': Row, items: seq<BoundExpr>, columns: string -> Value, calls: BoundExpr -> Value) {
    |row'| == |items| && forall j :: 0 <= j < |items| ==> row'[j] == Meaning(items[j], columns, calls)
  }

  ghost predicate AreItems(rows': seq<Row>, rows: seq<Row>, items: seq<BoundExpr>, schema: Schema) {
    && |rows'| == |rows|
    && forall i :: 0 <= i < |rows| ==> IsItems(rows'[i], items, ColumnsOf(schema, rows[i]), NoCalls())
  }

  lemma NoCallsIn(e: BoundExpr, schema: Schema, row: Row)
    requires PlanExpr(e, [schema], [], 0).Ok?
    ensures Eval(PlanExpr(e, [schema], [], 0).value.0.expr, row) == ValueOn(e, schema, row)
  {
    PlanExprIff(e, [schema], [], 0);
    PlanExprMeaning(e, schema, [], 0, row, NoCalls());
  }

  lemma {:induction false} FilterKeeps(rows: seq<Row>, e: BoundExpr, schema: Schema)
    requires PlanExpr(e, [schema], [], 0).Ok?
    ensures FilterRows(rows, PlanExpr(e, [schema], [], 0).value.0.expr) == Kept(rows, e, schema)
  {
    assert !e.Invalid?;
    if rows != [] {
      NoCallsIn(e, schema, rows[0]);
      FilterKeeps(rows[1..], e, schema);
      hide Eval, PlanExpr, ValueOn;
    }
  }

  lemma {:induction false} NothingFiltered(rows: seq<Row>, schema: Schema)
    ensures Kept(rows, Invalid, schema) == rows
  {
    if rows != [] { NothingFiltered(rows[1..], schema); }
  }

  /** WHERE keeps the rows on which it is true. */
  lemma WhereMeans(s: Select, table: Plan, db: Database, rows: seq<Row>)
    requires PlanWhere(s, table).Ok? && Rows(table, db) == Some(rows)
    ensures var p := PlanWhere(s, table).value;
            p.schema == table.schema && Rows(p, db) == Some(Kept(rows, s.filter, table.schema))
  {
    if s.filter.Invalid? {
      NothingFiltered(rows, table.schema);
    } else {
      FilterKeeps(rows, s.filter, table.schema);
      hide PlanExpr, FilterRows, Kept;
    }
  }

  lemma {:induction false} ProjectedSize(rows: seq<Row>, es: seq<Expr>)
    ensures |ProjectRows(rows, es)| == |rows|
    ensures forall i :: 0 <= i < |rows| ==> ProjectRows(rows, es)[i] == EvalAll(es, rows[i])
  {
    hide EvalAll;
    if rows != [] {
      ProjectedSize(rows[1..], es);
      assert forall i :: 1 <= i < |rows| ==> rows[i] == rows[1..][i - 1];
    }
  }

  /** Each row becomes the values of the items on it. */
  lemma PlainItemsMean(s: Select, plan: Plan, id: nat, db: Database, rows: seq<Row>)
    requires !HasAggregation(s) && PlanItems(s, plan, id).Ok? && Rows(plan, db) == Some(rows)
    ensures var p := PlanItems(s, plan, id).value.0;
            |p.schema| == |s.selectList|
            && Rows(p, db).Some? && AreItems(Rows(p, db).value, rows, s.selectList, plan.schema)
  {
    var ps := PlanExprs(s.selectList, [plan.schema], [], 0).value.0;
    PlanExprsIff(s.selectList, [plan.schema], [], 0);
    var es := Exprs(ps);
    ProjectedSize(rows, es);
    forall i | 0 <= i < |rows|
      ensures IsItems(EvalAll(es, rows[i]), s.selectList, ColumnsOf(plan.schema, rows[i]), NoCalls())
    {
      EvalAllIs(es, rows[i]);
      PlanExprsMeaning(s.selectList, plan.schema, [], 0, rows[i], NoCalls());
      hide Eval, Meaning, EvalAll, PlanExprs, ColumnsOf;
    }
    hide PlanExprs, IsItems, EvalAll, ProjectRows, NameAll, InferProjectionSchema;
  }

  // ----- order -----

  /** By the first order-by on which they differ, `a` is to come before `b`. */
  ghost predicate Before(os: seq<(OrderByType, BoundExpr)>, schema: Schema, a: Row, b: Row) {
    if os == [] then false
    else
      var (v, w) := (ValueOn(os[0].1, schema, a), ValueOn(os[0].1, schema, b));
      if Less(v, w) then os[0].0 != DESC
      else if Less(w, v) then os[0].0 == DESC
      else Before(os[1..], schema, a, b)
  }

  /** No row is before an earlier one. */
  ghost predicate InOrderOf(os: seq<(OrderByType, BoundExpr)>, schema: Schema, rows: seq<Row>) {
    forall i, j :: 0 <= i < j < |rows| ==> !Before(os, schema, rows[j], rows[i])
  }

  ghost predicate AllLeq(os: seq<(OrderByType, Expr)>, rows: seq<Row>) {
    forall i, j :: 0 <= i < j < |rows| ==> RowLeq(os, rows[i], rows[j])
  }

  lemma {:induction false} LeqTotal(os: seq<(OrderByType, Expr)>, a: Row, b: Row)
    ensures RowLeq(os, a, b) || RowLeq(os, b, a)
  {
    if os != [] {
      LessAsymmetric(Eval(os[0].1, a), Eval(os[0].1, b));
      hide Less, Eval;
      LeqTotal(os[1..], a, b);
    }
  }

  lemma {:induction false} LeqTransitive(os: seq<(OrderByType, Expr)>, a: Row, b: Row, c: Row)
    requires RowLeq(os, a, b) && RowLeq(os, b, c)
    ensures RowLeq(os, a, c)
  {
    if os != [] {
      var (u, v, w) := (Eval(os[0].1, a), Eval(os[0].1, b), Eval(os[0].1, c));
      LessAsymmetric(u, v);
      LessAsymmetric(v, w);
      LessAsymmetric(u, w);
      if Less(u, v) && Less(v, w) { LessTransitive(u, v, w); }
      if Less(w, v) && Less(v, u) { LessTransitive(w, v, u); }
      if !Less(v, u) && !Less(w, v) { NotLessTransitive(u, v, w); }
      if !Less(u, v) && !Less(v, w) { NotLessTransitive(w, v, u); }
      hide Less, Eval;
      Ties(u, v, w);
      if RowLeq(os[1..], a, b) && RowLeq(os[1..], b, c) { LeqTransitive(os[1..], a, b, c); }
    }
  }

  /** A value that ties with another is less than the same values. */
  lemma Ties(u: Value, v: Value, w: Value)
    ensures !Less(u, v) && !Less(v, u) ==> (Less(u, w) <==> Less(v, w)) && (Less(w, u) <==> Less(w, v))
    ensures !Less(v, w) && !Less(w, v) ==> (Less(u, v) <==> Less(u, w)) && (Less(v, u) <==> Less(w, u))
  {
    LessTotal(u, v);
    LessTotal(v, w);
  }

  lemma {:induction false} InsertedSorted(os: seq<(OrderByType, Expr)>, r: Row, rows: seq<Row>)
    requires AllLeq(os, rows)
    ensures AllLeq(os, InsertRow(os, r, rows))
    ensures forall x :: x in InsertRow(os, r, rows) ==> x == r || x in rows
  {
    hide RowLeq;
    if rows != [] {
      var rest := rows[1..];
      assert forall i, j :: 0 <= i < j < |rest| ==> rest[i] == rows[i + 1] && rest[j] == rows[j + 1];
      if RowLeq(os, r, rows[0]) {
        forall j | 0 <= j < |rows| ensures RowLeq(os, r, rows[j]) {
          if j > 0 { LeqTransitive(os, r, rows[0], rows[j]); }
        }
      } else {
        LeqTotal(os, r, rows[0]);
        InsertedSorted(os, r, rest);
        var rest' := InsertRow(os, r, rest);
        forall j | 0 <= j < |rest'| ensures RowLeq(os, rows[0], rest'[j]) {
          assert rest'[j] in rest';
          if rest'[j] != r {
            var i :| 0 <= i < |rest| && rest[i] == rest'[j];
            assert rows[i + 1] == rest'[j];
          }
        }
      }
    }
  }

  lemma {:induction false} SortSorted(os: seq<(OrderByType, Expr)>, rows: seq<Row>)
    ensures AllLeq(os, SortRows(os, rows)) && multiset(SortRows(os, rows)) == multiset(rows)
  {
    SortMultiset(os, rows);
    if rows != [] {
      SortSorted(os, rows[1..]);
      InsertedSorted(os, rows[0], SortRows(os, rows[1..]));
    }
  }

  lemma {:induction false} LeqIsNotBefore(os: seq<(OrderByType, BoundExpr)>, schema: Schema, a: Row, b: Row)
    requires PlanOrderBys(os, schema).Ok?
    ensures RowLeq(PlanOrderBys(os, schema).value, a, b) <==> !Before(os, schema, b, a)
  {
    if os != [] {
      NoCallsIn(os[0].1, schema, a);
      NoCallsIn(os[0].1, schema, b);
      LeqIsNotBefore(os[1..], schema, a, b);
      var (v, w) := (ValueOn(os[0].1, schema, a), ValueOn(os[0].1, schema, b));
      LessAsymmetric(v, w);
      var rest := PlanOrderBys(os[1..], schema).value;
      var e := PlanExpr(os[0].1, [schema], [], 0).value.0.expr;
      assert PlanOrderBys(os, schema).value == [(os[0].0, e)] + rest && ([(os[0].0, e)] + rest)[1..] == rest;
      hide Less, Eval, PlanExpr, ValueOn, PlanOrderBys;
    }
  }

  /** ORDER BY gives the same rows in the order asked for. */
  lemma OrderByMeans(s: Select, plan: Plan, db: Database, rows: seq<Row>)
    requires PlanOrderBy(s, plan).Ok? && Rows(plan, db) == Some(rows)
    ensures var p := PlanOrderBy(s, plan).value;
            && p.schema == plan.schema && Rows(p, db).Some?
            && multiset(Rows(p, db).value) == multiset(rows) && InOrderOf(s.orderBys, plan.schema, Rows(p, db).value)
            && (s.orderBys == [] ==> Rows(p, db).value == rows)
  {
    if s.orderBys != [] {
      var os := PlanOrderBys(s.orderBys, plan.schema).value;
      SortSorted(os, rows);
      var sorted := SortRows(os, rows);
      hide SortRows, RowLeq, Before, PlanOrderBys;
      forall i, j | 0 <= i < j < |sorted| ensures !Before(s.orderBys, plan.schema, sorted[j], sorted[i]) {
        LeqIsNotBefore(s.orderBys, plan.schema, sorted[i], sorted[j]);
      }
    }
  }

  // ----- limit -----

  /** An integer of 32 bits as an unsigned one of 64; the null integer is the least. */
  ghost predicate IsSize(v: Value, n: nat) {
    || (v.Int? && 0 <= v.i < 0x8000_0000 && n == v.i)
    || (v.Int? && -0x8000_0000 <= v.i < 0 && n == v.i + 0x1_0000_0000_0000_0000)
    || (v.Null? && n == 0xFFFF_FFFF_8000_0000)
  }

  /** The first rows, as many as the limit says, or all if there are not so many or no limit. */
  ghost predicate IsLimited(result: seq<Row>, rows: seq<Row>, limit: BoundExpr) {
    if limit.Invalid? then result == rows
    else
      && limit.ConstantExpr? && result <= rows
      && forall n: nat :: IsSize(limit.val, n) ==> |result| == if n <= |rows| then n else |rows|
  }

  lemma LimitMeans(s: Select, plan: Plan, db: Database, rows: seq<Row>)
    requires PlanLimit(s, plan).Ok? && Rows(plan, db) == Some(rows)
    ensures var p := PlanLimit(s, plan).value;
            p.schema == plan.schema && Rows(p, db).Some? && IsLimited(Rows(p, db).value, rows, s.limit)
  {
    if !s.limit.Invalid? {
      var n := AsSize(s.limit.val);
      assert forall m: nat :: IsSize(s.limit.val, m) ==> m == n;
      hide AsSize, IsSize;
    }
  }

  // ----- distinct rows -----

  /** Each of the rows once.  (Of rows without columns there may be one too many.) */
  ghost predicate IsDistinct(distinct: seq<Row>, rows: seq<Row>) {
    && (forall i, j :: 0 <= i < j < |distinct| ==> distinct[i] != distinct[j])
    && (forall r :: r in rows ==> r in distinct)
    && (forall r :: r in distinct ==> r in rows || r == [])
  }

  ghost predicate Wide(rows: seq<Row>, n: nat) {
    forall r :: r in rows ==> |r| == n
  }

  lemma SameMembers(a: seq<Row>, b: seq<Row>, r: Row)
    requires multiset(a) == multiset(b)
    ensures r in a <==> r in b
  {
    assert r in a <==> r in multiset(a);
    assert r in b <==> r in multiset(b);
  }

  /** Grouped by all columns, a group is of one row, which stands for it. */
  lemma {:induction false} GroupIsItsRow(schema: Schema, group: seq<Row>, result: Row, r: Row)
    requires StandsFor(result, Columns(schema, 0), [], [], group) && r in group && |r| == |schema|
    ensures r == result
  {
    EvalAllIs(Columns(schema, 0), r);
    assert result[..|schema|] == result;
  }

  lemma {:induction false} RowOfGroup(schema: Schema, rows: seq<Row>, results: seq<Row>, groups: seq<seq<Row>>, i: nat,
                                      r: Row)
    requires Wide(rows, |schema|) && Groups(Columns(schema, 0), [], [], rows, results, groups)
    requires i < |groups| && r in groups[i]
    ensures r == results[i] && r in rows
  {
    InFlat(groups, i, r);
    SameMembers(Flat(groups), rows, r);
    GroupIsItsRow(schema, groups[i], results[i], r);
  }

  lemma {:induction false} GroupsApart(schema: Schema, rows: seq<Row>, results: seq<Row>, groups: seq<seq<Row>>, i: nat,
                                       j: nat)
    requires Wide(rows, |schema|) && Groups(Columns(schema, 0), [], [], rows, results, groups)
    requires i < j < |groups|
    ensures results[i] != results[j]
  {
    var a, b := groups[i][0], groups[j][0];
    assert a in groups[i] && b in groups[j];
    assert Apart(Columns(schema, 0), a, b);
    RowOfGroup(schema, rows, results, groups, i, a);
    RowOfGroup(schema, rows, results, groups, j, b);
  }

  lemma {:induction false} GroupsAreDistinct(schema: Schema, rows: seq<Row>, results: seq<Row>, groups: seq<seq<Row>>)
    requires Wide(rows, |schema|) && Groups(Columns(schema, 0), [], [], rows, results, groups)
    ensures IsDistinct(results, rows) && Wide(results, |schema|)
  {
    forall i | 0 <= i < |results| ensures |results[i]| == |schema| && (results[i] in rows || results[i] == []) {
      assert StandsFor(results[i], Columns(schema, 0), [], [], groups[i]);
      if groups[i] != [] { RowOfGroup(schema, rows, results, groups, i, groups[i][0]); }
    }
    forall r | r in rows ensures r in results {
      SameMembers(Flat(groups), rows, r);
      var i := GroupOf(groups, r);
      RowOfGroup(schema, rows, results, groups, i, r);
    }
    hide Groups;
    forall i, j | 0 <= i < j < |results| ensures results[i] != results[j] {
      GroupsApart(schema, rows, results, groups, i, j);
    }
  }

  /** DISTINCT leaves each row once. */
  lemma {:induction false} DistinctMeans(s: Select, plan: Plan, db: Database, rows: seq<Row>)
    requires Rows(plan, db) == Some(rows) && Wide(rows, |plan.schema|) && Aggregates(db)
    ensures var p := PlanDistinct(s, plan);
            && p.schema == plan.schema && Rows(p, db).Some? && Wide(Rows(p, db).value, |plan.schema|)
            && if s.distinct then IsDistinct(Rows(p, db).value, rows) else Rows(p, db).value == rows
  {
    if s.distinct {
      var columns := Columns(plan.schema, 0);
      var results := db.aggregate(columns, [], [], rows);
      assert HasGroups(columns, [], [], rows, results);
      var groups :| Groups(columns, [], [], rows, results, groups);
      GroupsAreDistinct(plan.schema, rows, results, groups);
      hide Groups, IsDistinct, Wide, Columns;
    }
  }

  // ----- groups and calls -----

  /** The value of a call in a group, by its name and argument. */
  ghost function CallOn(call: BoundExpr, schema: Schema, group: seq<Row>): Value {
    if call.AggCall? && exists v :: IsCallValue(call.func, ArgumentValues(call, schema, group), |group|, v) then
      var v :| IsCallValue(call.func, ArgumentValues(call, schema, group), |group|, v);
      v
    else Null(INVALID)
  }

  ghost function CallsOn(schema: Schema, group: seq<Row>): BoundExpr -> Value {
    call => CallOn(call, schema, group)
  }

  /** The rows of each group have the same values of the group-bys, and those of two groups do not. */
  ghost predicate GroupedBy(es: seq<BoundExpr>, schema: Schema, rows: seq<Row>, groups: seq<seq<Row>>) {
    && multiset(Flat(groups)) == multiset(rows)
    && (if es == [] then |groups| == 1 else forall i :: 0 <= i < |groups| ==> groups[i] != [])
    && (forall i, a, b :: 0 <= i < |groups| && a in groups[i] && b in groups[i] ==> AgreeOn(es, schema, a, b))
    && forall i, j, a, b :: 0 <= i < j < |groups| && a in groups[i] && b in groups[j] ==> !AgreeOn(es, schema, a, b)
  }

  ghost predicate AgreeOn(es: seq<BoundExpr>, schema: Schema, a: Row, b: Row) {
    forall k :: 0 <= k < |es| ==> ValueOn(es[k], schema, a) == ValueOn(es[k], schema, b)
  }

  /** The first columns of a row of a group: the values of the group-bys, under the names of those that are columns. */
  ghost predicate HasGroupBys(es: seq<BoundExpr>, schema: Schema, group: seq<Row>, header: Schema, row: Row) {
    && |es| <= |header| == |row|
    && forall k :: 0 <= k < |es| ==>
         && (es[k].ColumnRef? ==> header[k].name == Rendered(es[k].path))
         && forall r :: r in group ==> row[k] == ValueOn(es[k], schema, r)
  }

  /**
   The values of the items on the groups that pass HAVING, in the order of the groups.  `heads` are the rows of the
   groups, with the columns `header`.
   */
  ghost predicate AreGroupItems(rows: seq<Row>, having: BoundExpr, items: seq<BoundExpr>, schema: Schema,
                                header: Schema, heads: seq<Row>, groups: seq<seq<Row>>)
    requires |heads| == |groups|
  {
    if groups == [] then rows == []
    else
      var (columns, calls) := (ColumnsOf(header, heads[0]), CallsOn(schema, groups[0]));
      if having.Invalid? || Meaning(having, columns, calls) == Bool(true) then
        && rows != [] && IsItems(rows[0], items, columns, calls)
        && AreGroupItems(rows[1..], having, items, schema, header, heads[1..], groups[1..])
      else AreGroupItems(rows, having, items, schema, header, heads[1..], groups[1..])
  }

  lemma {:induction false} CallsOnMean(g: Grouping, child: Plan, group: seq<Row>)
    requires PlanAggregation(g, child).Ok?
    ensures CallsMean(GroupingCalls(g), child.schema, group, CallsOn(child.schema, group))
  {
    PlanAggregationIff(g, child);
    var cs := GroupingCalls(g);
    hide PlanAggregation, GroupingCalls, PlanCall, AllPlannable, GroupingSupported, AllCalls, ArgumentValues,
         IsCallValue;
    forall i | 0 <= i < |cs|
      ensures IsCallValue(cs[i].func, ArgumentValues(cs[i], child.schema, group), |group|,
                          CallsOn(child.schema, group)(cs[i]))
    {
      PlannedCall(cs[i], child.schema, group);
    }
  }

  /** On the row of a group, the planned HAVING and items have the values of what was bound. */
  lemma {:induction false} GroupMeans(g: Grouping, child: Plan, group: seq<Row>, head: Row)
    requires PlanGrouping(g, child).Ok?
    requires PlanAggregation(g, child).value.Aggregation?
    requires AggregateRow(head, PlanAggregation(g, child).value, AggregateOver(group))
    ensures var agg, p := PlanAggregation(g, child).value, PlanGrouping(g, child).value;
            var (columns, calls) := (ColumnsOf(agg.schema, head), CallsOn(child.schema, group));
            && p.Projection? && IsItems(EvalAll(p.expressions, head), g.selectList, columns, calls)
            && (if g.having.Invalid? then p.child == agg
                else p.child.Filter? && p.child.child == agg
                     && Eval(p.child.pred, head) == Meaning(g.having, columns, calls))
  {
    CallsOnMean(g, child, group);
    AggregationAligned(g, child, group, head, CallsOn(child.schema, group));
    EvalAllIs(PlanGrouping(g, child).value.expressions, head);
    hide PlanGrouping, PlanAggregation, Eval, Meaning, ColumnsOf, CallsOn, EvalAll, AggregateRow, AggregateOver,
         CallsMean, GroupingCalls;
  }

  /** The rows left by a filter, if there is one. */
  ghost function Left(rows: seq<Row>, pred: Option<Expr>): seq<Row> {
    if pred.None? then rows else FilterRows(rows, pred.value)
  }

  /** A filter and expressions that mean `having` and `items` on the row of a group. */
  ghost predicate MeanOn(pred: Option<Expr>, es: seq<Expr>, having: BoundExpr, items: seq<BoundExpr>, schema: Schema,
                         header: Schema, head: Row, group: seq<Row>) {
    && (pred.None? <==> having.Invalid?)
    && (pred.Some? ==> Eval(pred.value, head) == Meaning(having, ColumnsOf(header, head), CallsOn(schema, group)))
    && IsItems(EvalAll(es, head), items, ColumnsOf(header, head), CallsOn(schema, group))
  }

  lemma {:induction false} ItemsOfGroups(pred: Option<Expr>, es: seq<Expr>, having: BoundExpr, items: seq<BoundExpr>,
                                         schema: Schema, header: Schema, heads: seq<Row>, groups: seq<seq<Row>>)
    requires |heads| == |groups|
    requires forall i :: 0 <= i < |heads| ==> MeanOn(pred, es, having, items, schema, header, heads[i], groups[i])
    ensures AreGroupItems(ProjectRows(Left(heads, pred), es), having, items, schema, header, heads, groups)
    decreases |groups|
  {
    hide Eval, Meaning, IsItems, EvalAll, ColumnsOf, CallsOn;
    if groups != [] {
      var rest := Left(heads[1..], pred);
      assert forall i :: 0 <= i < |heads[1..]| ==> heads[1..][i] == heads[i + 1] && groups[1..][i] == groups[i + 1];
      ItemsOfGroups(pred, es, having, items, schema, header, heads[1..], groups[1..]);
      assert MeanOn(pred, es, having, items, schema, header, heads[0], groups[0]);
      assert Left(heads, pred) == [heads[0]] + rest || Left(heads, pred) == rest;
      assert ([heads[0]] + rest)[1..] == rest;
    }
  }

  lemma {:induction false} GroupBysMean(g: Grouping, child: Plan, row: Row)
    requires PlanAggregation(g, child).Ok? && PlanAggregation(g, child).value.Aggregation?
    ensures IsItems(EvalAll(PlanAggregation(g, child).value.groupBys, row), g.groupBy, ColumnsOf(child.schema, row),
                    NoCalls())
  {
    PlanAggregationIff(g, child);
    var es := PlanAggregation(g, child).value.groupBys;
    EvalAllIs(es, row);
    hide PlanAggregation, Eval, Meaning, ColumnsOf, GroupingCalls, GroupingSupported, AllPlannable, PlanCall, AllCalls;
    forall k | 0 <= k < |g.groupBy|
      ensures Eval(es[k], row) == Meaning(g.groupBy[k], ColumnsOf(child.schema, row), NoCalls())
    {
      GroupByMeaning(g, child, row, NoCalls(), k);
    }
  }

  lemma {:induction false} AgreeIff(g: Grouping, child: Plan, a: Row, b: Row)
    requires PlanAggregation(g, child).Ok? && PlanAggregation(g, child).value.Aggregation?
    ensures AgreeOn(g.groupBy, child.schema, a, b) <==> !Apart(PlanAggregation(g, child).value.groupBys, a, b)
  {
    GroupBysMean(g, child, a);
    GroupBysMean(g, child, b);
    hide PlanAggregation, EvalAll, Meaning, ColumnsOf;
  }

  lemma {:induction false} GroupsMean(g: Grouping, child: Plan, rows: seq<Row>, heads: seq<Row>,
                                      groups: seq<seq<Row>>)
    requires PlanAggregation(g, child).Ok? && PlanAggregation(g, child).value.Aggregation?
    requires var agg := PlanAggregation(g, child).value;
             |agg.aggregates| == |agg.aggTypes|
             && Groups(agg.groupBys, agg.aggregates, agg.aggTypes, rows, heads, groups)
    ensures GroupedBy(g.groupBy, child.schema, rows, groups)
  {
    PlanAggregationIff(g, child);
    var agg := PlanAggregation(g, child).value;
    hide PlanAggregation, AgreeOn, Apart, GroupingCalls, GroupingSupported, AllPlannable, PlanCall, AllCalls,
         StandsFor, Flat;
    forall i, a, b | 0 <= i < |groups| && a in groups[i] && b in groups[i]
      ensures AgreeOn(g.groupBy, child.schema, a, b) {
      AgreeIff(g, child, a, b);
      OneGroup(agg.groupBys, agg.aggregates, agg.aggTypes, groups[i], heads[i], a, b);
    }
    forall i, j, a, b | 0 <= i < j < |groups| && a in groups[i] && b in groups[j]
      ensures !AgreeOn(g.groupBy, child.schema, a, b)
    {
      AgreeIff(g, child, a, b);
    }
  }

  lemma {:induction false} HeadsMean(g: Grouping, child: Plan, head: Row, group: seq<Row>)
    requires PlanAggregation(g, child).Ok? && PlanAggregation(g, child).value.Aggregation?
    requires var agg := PlanAggregation(g, child).value;
             |agg.aggregates| == |agg.aggTypes|
             && StandsFor(head, agg.groupBys, agg.aggregates, agg.aggTypes, group)
    ensures HasGroupBys(g.groupBy, child.schema, group, PlanAggregation(g, child).value.schema, head)
    ensures AggregateRow(head, PlanAggregation(g, child).value, AggregateOver(group))
  {
    PlanAggregationIff(g, child);
    var agg := PlanAggregation(g, child).value;
    hide PlanAggregation, EvalAll, Eval, Meaning, ColumnsOf, GroupingCalls, GroupingSupported, AllPlannable, PlanCall,
         AllCalls, AggregateValue, Each;
    forall k | 0 <= k < |g.groupBy|
      ensures g.groupBy[k].ColumnRef? ==> agg.schema[k].name == Rendered(g.groupBy[k].path)
      ensures forall r :: r in group ==> head[k] == ValueOn(g.groupBy[k], child.schema, r)
    {
      GroupByMeaning(g, child, head, NoCalls(), k);
      forall r | r in group ensures head[k] == ValueOn(g.groupBy[k], child.schema, r) {
        GroupBysMean(g, child, r);
        assert head[..|agg.groupBys|][k] == head[k];
      }
    }
  }

  // ----- names -----

  /** How many items have no name. */
  ghost function Unnamed(items: seq<BoundExpr>): nat {
    if items == [] then 0
    else (if WrittenName(items[0]) == UNNAMED_COLUMN then 1 else 0) + Unnamed(items[1..])
  }

  /** The name of an item as a column; those without one are numbered from `id` on. */
  ghost function ItemName(items: seq<BoundExpr>, id: nat, j: nat): string
    requires j < |items|
  {
    if WrittenName(items[j]) != UNNAMED_COLUMN then WrittenName(items[j])
    else "__unnamed#" + Decimal(id + Unnamed(items[..j]))
  }

  ghost predicate NamedAs(schema: Schema, items: seq<BoundExpr>, id: nat) {
    |schema| == |items| && forall j :: 0 <= j < |items| ==> schema[j].name == ItemName(items, id, j)
  }

  /** Over an aggregation, items without a name stay so. */
  ghost predicate NamedAsWritten(schema: Schema, items: seq<BoundExpr>) {
    |schema| == |items| && forall j :: 0 <= j < |items| ==> schema[j].name == WrittenName(items[j])
  }

  lemma {:induction false} NamesInTurn(items: seq<BoundExpr>, ps: seq<Planned>, id: nat, j: nat)
    requires |ps| == |items| && (forall i :: 0 <= i < |items| ==> ps[i].name == WrittenName(items[i]))
    ensures |NameAll(ps, id).0| == |ps| && NameAll(ps, id).1 == id + Unnamed(items)
    ensures j < |items| ==> NameAll(ps, id).0[j] == ItemName(items, id, j)
  {
    hide WrittenName, Decimal;
    if items != [] {
      var id' := if ps[0].name == UNNAMED_COLUMN then id + 1 else id;
      NamesInTurn(items[1..], ps[1..], id', if j == 0 then 0 else j - 1);
      if 0 < j < |items| {
        assert items[..j][0] == items[0] && items[..j][1..] == items[1..][..j - 1];
        assert items[1..][j - 1] == items[j];
      }
    }
  }

  /** The plan of the items, spelt out. */
  lemma {:induction false} PlainItemsAre(s: Select, plan: Plan, id: nat)
    requires !HasAggregation(s) && PlanItems(s, plan, id).Ok?
    ensures PlanExprs(s.selectList, [plan.schema], [], 0).Ok?
    ensures var ps := PlanExprs(s.selectList, [plan.schema], [], 0).value.0;
            var (names, id') := NameAll(ps, id);
            && |names| == |ps| && PlanItems(s, plan, id).value.1 == id'
            && |PlanItems(s, plan, id).value.0.schema| == |names|
            && forall j :: 0 <= j < |names| ==> PlanItems(s, plan, id).value.0.schema[j].name == names[j]
  {
    hide PlanExprs, NameAll, HasAggregation;
  }

  lemma {:induction false} PlainItemsNamed(s: Select, plan: Plan, id: nat)
    requires !HasAggregation(s) && PlanItems(s, plan, id).Ok?
    ensures NamedAs(PlanItems(s, plan, id).value.0.schema, s.selectList, id)
    ensures PlanItems(s, plan, id).value.1 == id + Unnamed(s.selectList)
  {
    PlainItemsAre(s, plan, id);
    PlannedNames(s.selectList, [plan.schema], [], 0);
    var ps := PlanExprs(s.selectList, [plan.schema], [], 0).value.0;
    hide PlanExprs, NameAll, WrittenName, ItemName, Unnamed, HasAggregation, PlanItems;
    NamesInTurn(s.selectList, ps, id, 0);
    forall j | 0 <= j < |s.selectList| ensures NameAll(ps, id).0[j] == ItemName(s.selectList, id, j) {
      NamesInTurn(s.selectList, ps, id, j);
    }
  }

  lemma {:induction false} GroupItemsNamed(g: Grouping, child: Plan)
    requires PlanGrouping(g, child).Ok?
    ensures NamedAsWritten(PlanGrouping(g, child).value.schema, g.selectList)
  {
    PlanAggregationIff(g, child);
    var agg := PlanAggregation(g, child).value;
    hide PlanAggregation, GroupingCalls, GroupingSupported, AllPlannable, PlanCall, AllCalls, CallColumns, PlanExpr,
         PlanExprs, WrittenName, Plannable;
    OverNamed(g, agg);
  }

  lemma {:induction false} OverNamed(g: Grouping, agg: Plan)
    requires agg.Aggregation? && PlanOverAggregation(g, agg).Ok?
    ensures NamedAsWritten(PlanOverAggregation(g, agg).value.schema, g.selectList)
  {
    var avail := CallColumns(|agg.groupBys|, 0, |agg.aggregates|);
    var h := PlanExpr(g.having, [agg.schema], avail, 0);
    var next := if g.having.Invalid? then 0 else h.value.1;
    PlannedNames(g.selectList, [agg.schema], avail, next);
    hide PlanExpr, PlanExprs, WrittenName, CallColumns;
  }

  // ----- the rows of a planned statement -----

  /** What the rows of a statement come from: its groups, if it has any, and the rows after each of its clauses. */
  datatype Stages = Stages(header: Schema, heads: seq<Row>, groups: seq<seq<Row>>, items: seq<Row>,
                           distinct: seq<Row>, sorted: seq<Row>)

  /** The items of a statement on the rows, or groups of rows, of its table that pass. */
  ghost predicate ItemsOf(s: Select, schema: Schema, rows: seq<Row>, st: Stages) {
    var kept := Kept(rows, s.filter, schema);
    if !HasAggregation(s) then AreItems(st.items, kept, s.selectList, schema)
    else
      && GroupedBy(s.groupBy, schema, kept, st.groups) && |st.heads| == |st.groups|
      && (forall i :: 0 <= i < |st.heads| ==>
            HasGroupBys(s.groupBy, schema, st.groups[i], st.header, st.heads[i]))
      && AreGroupItems(st.items, s.having, s.selectList, schema, st.header, st.heads, st.groups)
  }

  /** `result` are the rows of a statement over the rows of its table, under the columns `out`. */
  ghost predicate IsResult(s: Select, schema: Schema, rows: seq<Row>, out: Schema, result: seq<Row>, st: Stages) {
    && ItemsOf(s, schema, rows, st)
    && (if s.distinct then IsDistinct(st.distinct, st.items) else st.distinct == st.items)
    && multiset(st.sorted) == multiset(st.distinct) && InOrderOf(s.orderBys, out, st.sorted)
    && (s.orderBys == [] ==> st.sorted == st.distinct)
    && IsLimited(result, st.sorted, s.limit) && Wide(st.distinct, |s.selectList|)
  }

  ghost predicate NamedBy(s: Select, out: Schema, id: nat) {
    if HasAggregation(s) then NamedAsWritten(out, s.selectList) else NamedAs(out, s.selectList, id)
  }

  lemma {:induction false} GroupingRows(g: Grouping, child: Plan, db: Database, rows: seq<Row>)
    requires PlanGrouping(g, child).Ok? && PlanAggregation(g, child).value.Aggregation? && Rows(child, db) == Some(rows)
    requires PlanAggregation(g, child).value.child == child
    ensures var agg, p := PlanAggregation(g, child).value, PlanGrouping(g, child).value;
            var heads := db.aggregate(agg.groupBys, agg.aggregates, agg.aggTypes, rows);
            && p.Projection? && (g.having.Invalid? || p.child.Filter?)
            && Rows(p, db) ==
                 Some(ProjectRows(Left(heads, if g.having.Invalid? then None else Some(p.child.pred)), p.expressions))
  {
    Shape(g, child);
    var agg, p := PlanAggregation(g, child).value, PlanGrouping(g, child).value;
    hide PlanAggregation, PlanGrouping, FilterRows, ProjectRows, Rows;
    var heads := db.aggregate(agg.groupBys, agg.aggregates, agg.aggTypes, rows);
    AggregationRows(agg, db, rows);
    if p.child.Filter? { PassingRows(p.child, db, heads); }
    ProjectedRows(p, db, Left(heads, if g.having.Invalid? then None else Some(p.child.pred)));
  }

  lemma AggregationRows(p: Plan, db: Database, rows: seq<Row>)
    requires p.Aggregation? && Rows(p.child, db) == Some(rows)
    ensures Rows(p, db) == Some(db.aggregate(p.groupBys, p.aggregates, p.aggTypes, rows))
  {
  }

  lemma PassingRows(p: Plan, db: Database, rows: seq<Row>)
    requires p.Filter? && Rows(p.child, db) == Some(rows)
    ensures Rows(p, db) == Some(FilterRows(rows, p.pred))
  {
  }

  lemma ProjectedRows(p: Plan, db: Database, rows: seq<Row>)
    requires p.Projection? && Rows(p.child, db) == Some(rows)
    ensures Rows(p, db) == Some(ProjectRows(rows, p.expressions))
  {
  }

  lemma {:induction false} Shape(g: Grouping, child: Plan)
    requires PlanGrouping(g, child).Ok? && PlanAggregation(g, child).value.Aggregation?
    ensures var agg, p := PlanAggregation(g, child).value, PlanGrouping(g, child).value;
            && p.Projection?
            && if g.having.Invalid? then p.child == agg else p.child.Filter? && p.child.child == agg
  {
    OverAggregation(g, PlanAggregation(g, child).value);
    hide PlanAggregation, PlanOverAggregation, PlanExpr, PlanExprs;
  }

  lemma {:induction false} GroupItemsMean(g: Grouping, child: Plan, db: Database, rows: seq<Row>, heads: seq<Row>,
                                          groups: seq<seq<Row>>)
    requires PlanGrouping(g, child).Ok? && PlanAggregation(g, child).value.Aggregation? && Rows(child, db) == Some(rows)
    requires var agg := PlanAggregation(g, child).value;
             && |agg.aggregates| == |agg.aggTypes| && agg.child == child
             && heads == db.aggregate(agg.groupBys, agg.aggregates, agg.aggTypes, rows) && |heads| == |groups|
             && forall i :: 0 <= i < |heads| ==>
                  StandsFor(heads[i], agg.groupBys, agg.aggregates, agg.aggTypes, groups[i])
    ensures var agg, p := PlanAggregation(g, child).value, PlanGrouping(g, child).value;
            && Rows(p, db).Some?
            && AreGroupItems(Rows(p, db).value, g.having, g.selectList, child.schema, agg.schema, heads, groups)
            && (forall i :: 0 <= i < |heads| ==>
                  HasGroupBys(g.groupBy, child.schema, groups[i], agg.schema, heads[i]))
  {
    GroupingRows(g, child, db, rows);
    var agg, p := PlanAggregation(g, child).value, PlanGrouping(g, child).value;
    var pred := if g.having.Invalid? then None else Some(p.child.pred);
    hide Rows, PlanAggregation, PlanGrouping, Eval, Meaning, ColumnsOf, CallsOn, EvalAll, IsItems, StandsFor,
         AggregateRow, AggregateOver, HasGroupBys, Left, ProjectRows, AreGroupItems;
    forall i | 0 <= i < |heads|
      ensures MeanOn(pred, p.expressions, g.having, g.selectList, child.schema, agg.schema, heads[i], groups[i])
      ensures HasGroupBys(g.groupBy, child.schema, groups[i], agg.schema, heads[i])
    {
      HeadsMean(g, child, heads[i], groups[i]);
      GroupMeans(g, child, groups[i], heads[i]);
    }
    ItemsOfGroups(pred, p.expressions, g.having, g.selectList, child.schema, agg.schema, heads, groups);
  }

  /** The rows of the groups that pass have as many columns as there are items. */
  lemma {:induction false} GroupItemsWide(rows: seq<Row>, having: BoundExpr, items: seq<BoundExpr>, schema: Schema,
                                          header: Schema, heads: seq<Row>, groups: seq<seq<Row>>)
    requires |heads| == |groups| && AreGroupItems(rows, having, items, schema, header, heads, groups)
    ensures Wide(rows, |items|)
    decreases |groups|
  {
    hide Meaning, ColumnsOf, CallsOn;
    if groups != [] {
      if rows != [] && AreGroupItems(rows[1..], having, items, schema, header, heads[1..], groups[1..])
         && |rows[0]| == |items| {
        GroupItemsWide(rows[1..], having, items, schema, header, heads[1..], groups[1..]);
        assert forall r :: r in rows ==> r == rows[0] || r in rows[1..];
      } else {
        GroupItemsWide(rows, having, items, schema, header, heads[1..], groups[1..]);
      }
    }
  }

  lemma {:induction false} PlainItemsStage(s: Select, table: Plan, id: nat, db: Database, rows: seq<Row>)
    returns (items: seq<Row>)
    requires !HasAggregation(s) && PlanWhere(s, table).Ok? && PlanItems(s, PlanWhere(s, table).value, id).Ok?
    requires Rows(table, db) == Some(rows)
    ensures var p := PlanItems(s, PlanWhere(s, table).value, id).value.0;
            && Rows(p, db) == Some(items) && NamedBy(s, p.schema, id) && Wide(items, |s.selectList|)
            && AreItems(items, Kept(rows, s.filter, table.schema), s.selectList, table.schema)
  {
    var p1 := PlanWhere(s, table).value;
    WhereMeans(s, table, db, rows);
    PlainItemsMean(s, p1, id, db, Kept(rows, s.filter, table.schema));
    PlainItemsNamed(s, p1, id);
    items := Rows(PlanItems(s, p1, id).value.0, db).value;
    hide Rows, PlanItems, PlanWhere, HasAggregation, Kept, NamedAs, ColumnsOf, Meaning;
  }

  lemma {:induction false} GroupItemsStage(s: Select, table: Plan, id: nat, db: Database, rows: seq<Row>)
    returns (header: Schema, heads: seq<Row>, groups: seq<seq<Row>>, items: seq<Row>)
    requires HasAggregation(s) && PlanWhere(s, table).Ok? && PlanItems(s, PlanWhere(s, table).value, id).Ok?
    requires Rows(table, db) == Some(rows) && Aggregates(db)
    ensures var p := PlanItems(s, PlanWhere(s, table).value, id).value.0;
            && Rows(p, db) == Some(items) && NamedBy(s, p.schema, id) && Wide(items, |s.selectList|)
            && ItemsOf(s, table.schema, rows, Stages(header, heads, groups, items, [], []))
  {
    var p1 := PlanWhere(s, table).value;
    WhereMeans(s, table, db, rows);
    var g, kept := Grouping(s.groupBy, s.having, s.selectList), Kept(rows, s.filter, table.schema);
    assert PlanGrouping(g, p1).Ok? && PlanItems(s, p1, id).value.0 == PlanGrouping(g, p1).value;
    PlanAggregationIff(g, p1);
    var agg := PlanAggregation(g, p1).value;
    hide PlanWhere, PlanItems, HasAggregation, Kept, PlanAggregation, Rows, PlanGrouping, GroupingCalls,
         GroupingSupported, AllPlannable, PlanCall, AllCalls, StandsFor, Apart, Flat, AreGroupItems, HasGroupBys,
         GroupedBy, NamedAsWritten, Wide, PlanOverAggregation;
    header := agg.schema;
    heads := db.aggregate(agg.groupBys, agg.aggregates, agg.aggTypes, kept);
    assert HasGroups(agg.groupBys, agg.aggregates, agg.aggTypes, kept, heads);
    groups :| Groups(agg.groupBys, agg.aggregates, agg.aggTypes, kept, heads, groups);
    GroupsMean(g, p1, kept, heads, groups);
    GroupItemsMean(g, p1, db, kept, heads, groups);
    GroupItemsNamed(g, p1);
    items := Rows(PlanGrouping(g, p1).value, db).value;
    GroupItemsWide(items, g.having, g.selectList, p1.schema, header, heads, groups);
  }

  /**
   A statement returns what it says, over the rows of its table: the items on the rows, or groups of rows, that pass,
   each once if they are to be distinct, in the order of the order-bys, up to the limit.
   */
  lemma {:induction false} ClausesReturn(s: Select, table: Plan, id: nat, db: Database, rows: seq<Row>)
    returns (st: Stages)
    requires PlanClauses(s, table, id).Ok? && Rows(table, db) == Some(rows) && Aggregates(db)
    ensures var p := PlanClauses(s, table, id).value.0;
            && NamedBy(s, p.schema, id) && Rows(p, db).Some?
            && IsResult(s, table.schema, rows, p.schema, Rows(p, db).value, st)
  {
    var p1 := PlanWhere(s, table).value;
    var p2 := PlanItems(s, p1, id).value.0;
    var p3 := PlanDistinct(s, p2);
    var p4 := PlanOrderBy(s, p3).value;
    assert PlanLimit(s, p4).Ok? && PlanClauses(s, table, id).value.0 == PlanLimit(s, p4).value;
    var header: Schema, heads: seq<Row>, groups: seq<seq<Row>>, items: seq<Row> := [], [], [], [];
    hide *;
    if HasAggregation(s) {
      header, heads, groups, items := GroupItemsStage(s, table, id, db, rows);
    } else {
      items := PlainItemsStage(s, table, id, db, rows);
    }
    WidthNamed(s, p2.schema, id);
    DistinctMeans(s, p2, db, items);
    var distinct := Rows(p3, db).value;
    OrderByMeans(s, p3, db, distinct);
    var sorted := Rows(p4, db).value;
    LimitMeans(s, p4, db, sorted);
    st := Stages(header, heads, groups, items, distinct, sorted);
    ResultIs(s, table.schema, rows, p2.schema, Rows(PlanLimit(s, p4).value, db).value, st);
  }

  lemma WidthNamed(s: Select, out: Schema, id: nat)
    requires NamedBy(s, out, id)
    ensures |out| == |s.selectList|
  {
  }

  lemma ResultIs(s: Select, schema: Schema, rows: seq<Row>, out: Schema, result: seq<Row>, st: Stages)
    requires if HasAggregation(s) then ItemsOf(s, schema, rows, st.(distinct := [], sorted := []))
             else AreItems(st.items, Kept(rows, s.filter, schema), s.selectList, schema)
    requires if s.distinct then IsDistinct(st.distinct, st.items) else st.distinct == st.items
    requires multiset(st.sorted) == multiset(st.distinct) && InOrderOf(s.orderBys, out, st.sorted)
    requires s.orderBys == [] ==> st.sorted == st.distinct
    requires IsLimited(result, st.sorted, s.limit) && Wide(st.distinct, |s.selectList|)
    ensures IsResult(s, schema, rows, out, result, st)
  {
    hide HasAggregation, AreItems, Kept, IsDistinct, InOrderOf, IsLimited, Wide, GroupedBy, HasGroupBys, AreGroupItems;
  }
}
