/**
 The optimizer does not change what a plan means: under the conditions collected in `DatabaseOk` and
 `Good`, the whole pipeline succeeds and keeps the sequence of rows.
 */
module OptimizerSoundness {
  import opened Options
  import opened Expressions
  import opened Plans
  import opened Optimizer

  // ----- conditions -----

  ghost predicate Wide(rows: seq<Row>, n: nat) {
    forall i :: 0 <= i < |rows| ==> |rows[i]| == n
  }

  /** An index that is faithful to its table: its key columns, all of the rows, distinct keys in ascending order. */
  ghost predicate IndexOk(table: TableInfo, index: IndexInfo) {
    && |index.keySchema| == |index.keyAttrs|
    && (forall j :: 0 <= j < |index.keyAttrs| ==>
          index.keyAttrs[j] < |table.schema| && index.keySchema[j].name == table.schema[index.keyAttrs[j]].name)
    && multiset(index.entries) == multiset(table.rows)
    && (|index.keyAttrs| == 1 ==> Ascending(index.entries, index.keyAttrs[0]))
  }

  ghost predicate Ascending(rows: seq<Row>, column: nat) {
    forall i, j :: 0 <= i < j < |rows| ==> Less(At(rows[i], column), At(rows[j], column))
  }

  ghost predicate TableOk(table: TableInfo) {
    && Wide(table.rows, |table.schema|)
    && (forall i, j :: 0 <= i < j < |table.schema| ==> table.schema[i].name != table.schema[j].name)
  }

  ghost predicate IndexesOk(db: Database, table: TableInfo) {
    forall j :: 0 <= j < |TableIndexes(db, table.name)| ==>
      var oid := TableIndexes(db, table.name)[j];
      oid in db.indexes && IndexOk(table, db.indexes[oid])
  }

  ghost predicate DatabaseOk(db: Database) {
    && (forall oid :: oid in db.tables ==> TableOk(db.tables[oid]) && IndexesOk(db, db.tables[oid]))
    && (forall gs, es, ts, rows :: Wide(db.aggregate(gs, es, ts, rows), |gs| + |es|))
    && (forall kind, oid, rows :: Wide(db.modifyRows(kind, oid, rows), 1))
  }

  // ----- constants that decide about a merge -----

  /**
   The constant on which `p` joins once identity projections are dropped and filters are merged into joins, with
   the type of the join; none if `p` does not become a join on a constant.
   */
  ghost function JoinConstant(p: Plan): Option<(Value, JoinType)> {
    match p
    case NestedLoopJoin(_, _, _, e, t) => if e.Constant? then Some((e.val, t)) else None
    case Filter(_, e, c) =>
      if JoinConstant(c).Some? && CastToBool(JoinConstant(c).value.0) == Ok(true) && e.Constant?
      then Some((e.val, JoinConstant(c).value.1))
      else None
    case Projection(s, es, c) => if Types(c.schema) == Types(s) && IsIdentity(es, 0) then JoinConstant(c) else None
    case _ => None
  }

  /** A filter over `c` is merged into an INNER join on `true`, or not at all. */
  ghost predicate MergesWell(c: Plan) {
    JoinConstant(c).Some? ==>
      || CastToBool(JoinConstant(c).value.0) == Ok(false)
      || JoinConstant(c).value == (Bool(true), INNER)
  }

  /** `c` becomes a join on a constant that has no truth value. */
  ghost predicate Refuses(c: Plan) {
    JoinConstant(c).Some? && CastToBool(JoinConstant(c).value.0).Throws?
  }

  /** Somewhere a filter ends up above such a join. */
  ghost predicate Collides(p: Plan) {
    match p
    case Filter(_, _, c) => Refuses(c) || Collides(c)
    case Projection(_, _, c) => Collides(c)
    case NestedLoopJoin(_, l, r, _, _) => Collides(l) || Collides(r)
    case HashJoin(_, l, r, _, _, _) => Collides(l) || Collides(r)
    case NestedIndexJoin(_, c, _, _, _, _, _) => Collides(c)
    case Sort(_, _, c) => Collides(c)
    case Limit(_, _, c) => Collides(c)
    case Aggregation(_, _, _, _, c) => Collides(c)
    case Modify(_, _, _, c) => Collides(c)
    case _ => false
  }

  /** Every filter of the plan is merged into an INNER join on `true`, or not at all. */
  ghost predicate AllMergeWell(p: Plan) {
    match p
    case Filter(_, _, c) => MergesWell(c) && AllMergeWell(c)
    case Projection(_, _, c) => AllMergeWell(c)
    case NestedLoopJoin(_, l, r, _, _) => AllMergeWell(l) && AllMergeWell(r)
    case HashJoin(_, l, r, _, _, _) => AllMergeWell(l) && AllMergeWell(r)
    case NestedIndexJoin(_, c, _, _, _, _, _) => AllMergeWell(c)
    case Sort(_, _, c) => AllMergeWell(c)
    case Limit(_, _, c) => AllMergeWell(c)
    case Aggregation(_, _, _, _, c) => AllMergeWell(c)
    case Modify(_, _, _, c) => AllMergeWell(c)
    case _ => true
  }

  /**
   A plan as the planner builds them: columns in range, schemas of the right types, scans without a
   filter.  A plan is good in the strict sense if, besides, filters merge well.
   */
  ghost predicate Good(p: Plan, db: Database, strict: bool) {
    match p
    case SeqScan(s, oid, name, filter) =>
      oid in db.tables && db.tables[oid].name == name && Types(s) == Types(db.tables[oid].schema) && filter.None?
    case MockScan(s, t) => t in db.mocks && Wide(db.mocks[t], |s|)
    case IndexScan(s, oid) => oid in db.indexes && Wide(db.indexes[oid].entries, |s|)
    case Values(s, exprs) => forall i :: 0 <= i < |exprs| ==> |exprs[i]| == |s|
    case Filter(s, e, c) =>
      Types(s) == Types(c.schema) && InRange(e, |c.schema|) && Good(c, db, strict) && (strict ==> MergesWell(c))
    case Projection(s, es, c) =>
      |s| == |es| && (forall i :: 0 <= i < |es| ==> InRange(es[i], |c.schema|)) && Good(c, db, strict)
    case NestedLoopJoin(s, l, r, _, _) =>
      Types(s) == Types(l.schema) + Types(r.schema) && Good(l, db, strict) && Good(r, db, strict)
    case HashJoin(s, l, r, _, _, _) =>
      Types(s) == Types(l.schema) + Types(r.schema) && Good(l, db, strict) && Good(r, db, strict)
    case NestedIndexJoin(s, c, _, _, oid, inner, _) =>
      && Types(s) == Types(c.schema) + Types(inner) && Good(c, db, strict)
      && oid in db.indexes && Wide(db.indexes[oid].entries, |inner|)
    case Sort(s, os, c) =>
      && Types(s) == Types(c.schema) && (forall i :: 0 <= i < |os| ==> InRange(os[i].1, |c.schema|))
      && Good(c, db, strict)
    case Limit(s, _, c) => Types(s) == Types(c.schema) && Good(c, db, strict)
    case Aggregation(s, gs, es, _, c) => |s| == |gs| + |es| && Good(c, db, strict)
    case Modify(s, _, _, c) => |s| == 1 && Good(c, db, strict)
  }

  lemma {:induction false} GoodIff(p: Plan, db: Database)
    ensures Good(p, db, true) <==> Good(p, db, false) && AllMergeWell(p)
    ensures AllMergeWell(p) ==> !Collides(p)
  {
    match p
    case Filter(_, _, c) => GoodIff(c, db);
    case Projection(_, _, c) => GoodIff(c, db);
    case NestedLoopJoin(_, l, r, _, _) => GoodIff(l, db); GoodIff(r, db);
    case HashJoin(_, l, r, _, _, _) => GoodIff(l, db); GoodIff(r, db);
    case NestedIndexJoin(_, c, _, _, _, _, _) => GoodIff(c, db);
    case Sort(_, _, c) => GoodIff(c, db);
    case Limit(_, _, c) => GoodIff(c, db);
    case Aggregation(_, _, _, _, c) => GoodIff(c, db);
    case Modify(_, _, _, c) => GoodIff(c, db);
    case _ =>
  }

  lemma {:induction false} TypesSize(s: Schema)
    ensures |Types(s)| == |s|
  {
    if s != [] { TypesSize(s[1..]); }
  }

  lemma {:induction false} NullsByTypes(s: Schema, t: Schema)
    requires Types(s) == Types(t)
    ensures Nulls(s) == Nulls(t) && |Nulls(s)| == |s|
  {
    TypesSize(s);
    TypesSize(t);
    if s != [] {
      assert Types(s)[0] == Types(t)[0] && Types(s)[1..] == Types(t)[1..];
      NullsByTypes(s[1..], t[1..]);
    }
  }

  // ----- the traversal -----

  /**
   `q` can stand for `p`: good like it, the same column types and joins on constants, and the same rows if `p` is good
   strictly.
   */
  ghost predicate Stands(p: Plan, q: Plan, db: Database, strict: bool) {
    && Good(q, db, strict) && (strict ==> Rows(q, db) == Rows(p, db)) && Types(q.schema) == Types(p.schema)
    && JoinConstant(q) == JoinConstant(p) && (Collides(q) <==> Collides(p))
  }

  /** What became of `p`: a plan that can stand for it, or an exception because of a collision. */
  ghost predicate Carries(p: Plan, r: Result<Plan>, db: Database, strict: bool) {
    match r
    case Ok(q) => Stands(p, q, db, strict)
    case Throws => Collides(p)
  }

  ghost predicate SoundRule(rule: Plan -> Result<Plan>, db: Database) {
    forall q, strict :: Good(q, db, strict) ==> Carries(q, rule(q), db, strict)
  }

  // Cloning a node around children that can stand for the old ones.

  lemma CloneFilter(s: Schema, e: Expr, c: Plan, c': Plan, db: Database, strict: bool)
    requires Good(Filter(s, e, c), db, strict) && Stands(c, c', db, strict)
    ensures Stands(Filter(s, e, c), Filter(s, e, c'), db, strict)
  {
    TypesSizes(c.schema, c'.schema);
  }

  lemma CloneProjection(s: Schema, es: seq<Expr>, c: Plan, c': Plan, db: Database, strict: bool)
    requires Good(Projection(s, es, c), db, strict) && Stands(c, c', db, strict)
    ensures Stands(Projection(s, es, c), Projection(s, es, c'), db, strict)
  {
    TypesSizes(c.schema, c'.schema);
  }

  lemma CloneNLJ(s: Schema, l: Plan, l': Plan, r: Plan, r': Plan, e: Expr, t: JoinType, db: Database, strict: bool)
    requires Good(NestedLoopJoin(s, l, r, e, t), db, strict) && Stands(l, l', db, strict) && Stands(r, r', db, strict)
    ensures Stands(NestedLoopJoin(s, l, r, e, t), NestedLoopJoin(s, l', r', e, t), db, strict)
  {
    NullsByTypes(r.schema, r'.schema);
  }

  lemma CloneHashJoin(s: Schema, l: Plan, l': Plan, r: Plan, r': Plan, lk: Expr, rk: Expr, t: JoinType, db: Database,
                      strict: bool)
    requires Good(HashJoin(s, l, r, lk, rk, t), db, strict) && Stands(l, l', db, strict) && Stands(r, r', db, strict)
    ensures Stands(HashJoin(s, l, r, lk, rk, t), HashJoin(s, l', r', lk, rk, t), db, strict)
  {
    NullsByTypes(r.schema, r'.schema);
  }

  lemma CloneSort(s: Schema, os: seq<(OrderByType, Expr)>, c: Plan, c': Plan, db: Database, strict: bool)
    requires Good(Sort(s, os, c), db, strict) && Stands(c, c', db, strict)
    ensures Stands(Sort(s, os, c), Sort(s, os, c'), db, strict)
  {
    TypesSizes(c.schema, c'.schema);
  }

  lemma CloneIndexJoin(s: Schema, c: Plan, c': Plan, k: Expr, o: nat, i: nat, inner: Schema, t: JoinType, db: Database,
                       strict: bool)
    requires Good(NestedIndexJoin(s, c, k, o, i, inner, t), db, strict) && Stands(c, c', db, strict)
    ensures Stands(NestedIndexJoin(s, c, k, o, i, inner, t), NestedIndexJoin(s, c', k, o, i, inner, t), db, strict)
  {
  }

  lemma CloneLimit(s: Schema, n: nat, c: Plan, c': Plan, db: Database, strict: bool)
    requires Good(Limit(s, n, c), db, strict) && Stands(c, c', db, strict)
    ensures Stands(Limit(s, n, c), Limit(s, n, c'), db, strict)
  {
  }

  lemma CloneAggregation(s: Schema, gs: seq<Expr>, es: seq<Expr>, ts: seq<AggregationType>, c: Plan, c': Plan,
                         db: Database, strict: bool)
    requires Good(Aggregation(s, gs, es, ts, c), db, strict) && Stands(c, c', db, strict)
    ensures Stands(Aggregation(s, gs, es, ts, c), Aggregation(s, gs, es, ts, c'), db, strict)
  {
  }

  lemma CloneModify(s: Schema, k: ModifyKind, o: nat, c: Plan, c': Plan, db: Database, strict: bool)
    requires Good(Modify(s, k, o, c), db, strict) && Stands(c, c', db, strict)
    ensures Stands(Modify(s, k, o, c), Modify(s, k, o, c'), db, strict)
  {
  }

  lemma ApplyRule(p: Plan, q: Plan, rule: Plan -> Result<Plan>, db: Database, strict: bool)
    requires SoundRule(rule, db) && Stands(p, q, db, strict)
    ensures Carries(p, rule(q), db, strict)
  {
    hide Good, Rows, Types, JoinConstant, Collides;
    assert Carries(q, rule(q), db, strict);
  }

  /** A rule that is sound at one node is sound everywhere. */
  lemma {:induction false} EverywhereSound(p: Plan, rule: Plan -> Result<Plan>, db: Database, strict: bool)
    requires SoundRule(rule, db) && Good(p, db, strict)
    ensures Carries(p, Everywhere(p, rule), db, strict)
  {
    hide Rows, SoundRule, Stands, Types, Wide, InRange, JoinConstant, MergesWell;
    match p
    case SeqScan(_, _, _, _) => Itself(p, db, strict); ApplyRule(p, p, rule, db, strict);
    case MockScan(_, _) => Itself(p, db, strict); ApplyRule(p, p, rule, db, strict);
    case IndexScan(_, _) => Itself(p, db, strict); ApplyRule(p, p, rule, db, strict);
    case Values(_, _) => Itself(p, db, strict); ApplyRule(p, p, rule, db, strict);
    case Filter(s, e, c) =>
      EverywhereSound(c, rule, db, strict);
      if Everywhere(c, rule).Ok? {
        var c' := Everywhere(c, rule).value;
        CloneFilter(s, e, c, c', db, strict);
        ApplyRule(p, Filter(s, e, c'), rule, db, strict);
      }
    case Projection(s, es, c) =>
      EverywhereSound(c, rule, db, strict);
      if Everywhere(c, rule).Ok? {
        var c' := Everywhere(c, rule).value;
        CloneProjection(s, es, c, c', db, strict);
        ApplyRule(p, Projection(s, es, c'), rule, db, strict);
      }
    case NestedLoopJoin(s, l, r, e, t) =>
      EverywhereSound(l, rule, db, strict);
      EverywhereSound(r, rule, db, strict);
      if Everywhere(l, rule).Ok? && Everywhere(r, rule).Ok? {
        var l', r' := Everywhere(l, rule).value, Everywhere(r, rule).value;
        CloneNLJ(s, l, l', r, r', e, t, db, strict);
        ApplyRule(p, NestedLoopJoin(s, l', r', e, t), rule, db, strict);
      }
    case HashJoin(s, l, r, lk, rk, t) =>
      EverywhereSound(l, rule, db, strict);
      EverywhereSound(r, rule, db, strict);
      if Everywhere(l, rule).Ok? && Everywhere(r, rule).Ok? {
        var l', r' := Everywhere(l, rule).value, Everywhere(r, rule).value;
        CloneHashJoin(s, l, l', r, r', lk, rk, t, db, strict);
        ApplyRule(p, HashJoin(s, l', r', lk, rk, t), rule, db, strict);
      }
    case Sort(s, os, c) =>
      EverywhereSound(c, rule, db, strict);
      if Everywhere(c, rule).Ok? {
        var c' := Everywhere(c, rule).value;
        CloneSort(s, os, c, c', db, strict);
        ApplyRule(p, Sort(s, os, c'), rule, db, strict);
      }
    case NestedIndexJoin(s, c, k, o, i, inner, t) =>
      EverywhereSound(c, rule, db, strict);
      if Everywhere(c, rule).Ok? {
        var c' := Everywhere(c, rule).value;
        CloneIndexJoin(s, c, c', k, o, i, inner, t, db, strict);
        ApplyRule(p, NestedIndexJoin(s, c', k, o, i, inner, t), rule, db, strict);
      }
    case Limit(s, n, c) =>
      EverywhereSound(c, rule, db, strict);
      if Everywhere(c, rule).Ok? {
        CloneLimit(s, n, c, Everywhere(c, rule).value, db, strict);
        ApplyRule(p, Limit(s, n, Everywhere(c, rule).value), rule, db, strict);
      }
    case Aggregation(s, gs, es, ts, c) =>
      EverywhereSound(c, rule, db, strict);
      if Everywhere(c, rule).Ok? {
        CloneAggregation(s, gs, es, ts, c, Everywhere(c, rule).value, db, strict);
        ApplyRule(p, Aggregation(s, gs, es, ts, Everywhere(c, rule).value), rule, db, strict);
      }
    case Modify(s, k, o, c) =>
      EverywhereSound(c, rule, db, strict);
      if Everywhere(c, rule).Ok? {
        CloneModify(s, k, o, c, Everywhere(c, rule).value, db, strict);
        ApplyRule(p, Modify(s, k, o, Everywhere(c, rule).value), rule, db, strict);
      }
  }

  lemma Itself(p: Plan, db: Database, strict: bool)
    requires Good(p, db, strict)
    ensures Stands(p, p, db, strict)
  {
  }

  lemma TypesSizes(s: Schema, t: Schema)
    requires Types(s) == Types(t)
    ensures |s| == |t|
  {
    TypesSize(s);
    TypesSize(t);
  }

  // ----- width of rows -----

  lemma {:induction false} FilterWide(rows: seq<Row>, e: Expr, n: nat)
    requires Wide(rows, n)
    ensures Wide(FilterRows(rows, e), n)
  {
    if rows != [] { FilterWide(rows[1..], e, n); }
  }

  lemma {:induction false} EvalAllWidth(es: seq<Expr>, row: Row)
    ensures |EvalAll(es, row)| == |es|
  {
    if es != [] { EvalAllWidth(es[1..], row); }
  }

  lemma {:induction false} ProjectWide(rows: seq<Row>, es: seq<Expr>)
    ensures Wide(ProjectRows(rows, es), |es|)
  {
    if rows != [] {
      EvalAllWidth(es, rows[0]);
      ProjectWide(rows[1..], es);
    }
  }

  lemma {:induction false} ValuesWide(rows: seq<seq<Expr>>, n: nat)
    requires forall i :: 0 <= i < |rows| ==> |rows[i]| == n
    ensures Wide(ValuesRows(rows), n)
  {
    if rows != [] {
      EvalAllWidth(rows[0], []);
      ValuesWide(rows[1..], n);
    }
  }

  lemma {:induction false} LoopMatchesWide(l: Row, rs: seq<Row>, e: Expr, n: nat)
    requires Wide(rs, n)
    ensures Wide(LoopMatches(l, rs, e), n)
  {
    hide EvalJoin;
    if rs != [] { LoopMatchesWide(l, rs[1..], e, n); }
  }

  lemma {:induction false} KeyMatchesWide(v: Value, rs: seq<Row>, e: Expr, n: nat)
    requires Wide(rs, n)
    ensures Wide(KeyMatches(v, rs, e), n)
  {
    hide Eval, Compare;
    if rs != [] { KeyMatchesWide(v, rs[1..], e, n); }
  }

  lemma {:induction false} ExtensionsWide(l: Row, ms: seq<Row>, n: nat)
    requires Wide(ms, n)
    ensures Wide(Extensions(l, ms), |l| + n)
  {
    if ms != [] { ExtensionsWide(l, ms[1..], n); }
  }

  lemma {:induction false} JoinWide(ls: seq<Row>, partners: Row -> seq<Row>, outer: bool, nulls: Row, m: nat, n: nat)
    requires Wide(ls, m) && |nulls| == n && forall l :: Wide(partners(l), n)
    ensures Wide(JoinRows(ls, partners, outer, nulls), m + n)
  {
    if ls != [] {
      ExtensionsWide(ls[0], partners(ls[0]), n);
      JoinWide(ls[1..], partners, outer, nulls, m, n);
    }
  }

  lemma LoopJoinWide(ls: seq<Row>, rs: seq<Row>, e: Expr, outer: bool, nulls: Row, m: nat, n: nat)
    requires Wide(ls, m) && Wide(rs, n) && |nulls| == n
    ensures Wide(JoinRows(ls, row => LoopMatches(row, rs, e), outer, nulls), m + n)
  {
    forall row ensures Wide(LoopMatches(row, rs, e), n) { LoopMatchesWide(row, rs, e, n); }
    JoinWide(ls, row => LoopMatches(row, rs, e), outer, nulls, m, n);
  }

  lemma KeyJoinWide(ls: seq<Row>, key: Expr, rs: seq<Row>, attr: Expr, outer: bool, nulls: Row, m: nat, n: nat)
    requires Wide(ls, m) && Wide(rs, n) && |nulls| == n
    ensures Wide(JoinRows(ls, row => KeyMatches(Eval(key, row), rs, attr), outer, nulls), m + n)
  {
    forall row ensures Wide(KeyMatches(Eval(key, row), rs, attr), n) { KeyMatchesWide(Eval(key, row), rs, attr, n); }
    JoinWide(ls, row => KeyMatches(Eval(key, row), rs, attr), outer, nulls, m, n);
  }

  lemma {:induction false} InsertMultiset(os: seq<(OrderByType, Expr)>, r: Row, rows: seq<Row>)
    ensures multiset(InsertRow(os, r, rows)) == multiset(rows) + multiset{r}
  {
    hide RowLeq;
    if rows != [] {
      assert rows == [rows[0]] + rows[1..];
      InsertMultiset(os, r, rows[1..]);
    }
  }

  lemma {:induction false} SortMultiset(os: seq<(OrderByType, Expr)>, rows: seq<Row>)
    ensures multiset(SortRows(os, rows)) == multiset(rows)
  {
    if rows != [] {
      SortMultiset(os, rows[1..]);
      InsertMultiset(os, rows[0], SortRows(os, rows[1..]));
      assert rows == [rows[0]] + rows[1..];
    }
  }

  lemma MultisetWide(rows: seq<Row>, rows': seq<Row>, n: nat)
    requires Wide(rows, n) && multiset(rows) == multiset(rows')
    ensures Wide(rows', n)
  {
    forall i | 0 <= i < |rows'| ensures |rows'[i]| == n {
      assert rows'[i] in multiset(rows');
      assert rows'[i] in rows;
    }
  }

  /** The rows of a good plan are as wide as its schema. */
  lemma {:induction false} Width(p: Plan, db: Database, strict: bool)
    requires DatabaseOk(db) && Good(p, db, strict) && Rows(p, db).Some?
    ensures Wide(Rows(p, db).value, |p.schema|)
  {
    hide Wide, InRange, Types, JoinRows, LoopMatches, KeyMatches, SortRows, FilterRows, ProjectRows, ValuesRows, Nulls;
    match p
    case SeqScan(s, oid, _, _) =>
      TypesSizes(s, db.tables[oid].schema);
      assert TableOk(db.tables[oid]);
    case MockScan(_, _) =>
    case IndexScan(_, _) =>
    case Values(s, exprs) => ValuesWide(exprs, |s|);
    case Filter(s, e, c) =>
      Width(c, db, strict);
      TypesSizes(s, c.schema);
      FilterWide(Rows(c, db).value, e, |s|);
    case Projection(s, es, c) => ProjectWide(Rows(c, db).value, es);
    case NestedLoopJoin(s, l, r, e, t) =>
      Width(l, db, strict);
      Width(r, db, strict);
      JoinSize(s, l.schema, r.schema);
      LoopJoinWide(Rows(l, db).value, Rows(r, db).value, e, t == LEFT, Nulls(r.schema), |l.schema|, |r.schema|);
    case HashJoin(s, l, r, lk, rk, t) =>
      Width(l, db, strict);
      Width(r, db, strict);
      JoinSize(s, l.schema, r.schema);
      KeyJoinWide(Rows(l, db).value, lk, Rows(r, db).value, rk, t == LEFT, Nulls(r.schema), |l.schema|, |r.schema|);
    case NestedIndexJoin(s, c, key, _, oid, inner, t) =>
      Width(c, db, strict);
      var attr := ColumnValue(0, db.indexes[oid].keyAttrs[0], INVALID);
      JoinSize(s, c.schema, inner);
      KeyJoinWide(Rows(c, db).value, key, db.indexes[oid].entries, attr, t == LEFT, Nulls(inner), |c.schema|, |inner|);
    case Sort(s, os, c) =>
      Width(c, db, strict);
      TypesSizes(s, c.schema);
      SortMultiset(os, Rows(c, db).value);
      MultisetWide(Rows(c, db).value, SortRows(os, Rows(c, db).value), |s|);
    case Limit(s, n, c) =>
      Width(c, db, strict);
      TypesSizes(s, c.schema);
      PrefixWide(Rows(c, db).value, n, |s|);
    case Aggregation(_, _, _, _, _) =>
    case Modify(_, _, _, _) =>
  }

  lemma PrefixWide(rows: seq<Row>, n: nat, w: nat)
    requires Wide(rows, w)
    ensures n < |rows| ==> Wide(rows[..n], w)
  {
  }

  lemma JoinSize(s: Schema, l: Schema, r: Schema)
    requires Types(s) == Types(l) + Types(r)
    ensures |s| == |l| + |r| && |Nulls(r)| == |r|
  {
    TypesSize(s);
    TypesSize(l);
    TypesSize(r);
    NullsByTypes(r, r);
  }

  // ----- merge projection -----

  lemma {:induction false} IdentityEval(es: seq<Expr>, row: Row, from: nat)
    requires IsIdentity(es, from) && from + |es| == |row|
    ensures EvalAll(es, row) == row[from..]
  {
    if es != [] { IdentityEval(es[1..], row, from + 1); }
  }

  lemma {:induction false} IdentityProject(rows: seq<Row>, es: seq<Expr>)
    requires IsIdentity(es, 0) && Wide(rows, |es|)
    ensures ProjectRows(rows, es) == rows
  {
    if rows != [] {
      IdentityEval(es, rows[0], 0);
      IdentityProject(rows[1..], es);
    }
  }

  /** Renaming the columns of a plan changes neither its rows nor what is good about it. */
  lemma Renamed(p: Plan, s: Schema, db: Database, strict: bool)
    requires Good(p, db, strict) && Types(s) == Types(p.schema)
    ensures Good(p.(schema := s), db, strict) && Rows(p.(schema := s), db) == Rows(p, db)
    ensures JoinConstant(p.(schema := s)) == JoinConstant(p) && (Collides(p.(schema := s)) <==> Collides(p))
  {
    TypesSizes(s, p.schema);
    hide Wide, InRange;
    match p
    case SeqScan(_, _, _, _) =>
    case MockScan(_, _) =>
    case IndexScan(_, _) =>
    case Values(_, _) =>
    case Filter(_, _, _) =>
    case Projection(_, _, _) =>
    case NestedLoopJoin(_, _, _, _, _) =>
    case HashJoin(_, _, _, _, _, _) =>
    case NestedIndexJoin(_, _, _, _, _, _, _) =>
    case Sort(_, _, _) =>
    case Limit(_, _, _) =>
    case Aggregation(_, _, _, _, _) =>
    case Modify(_, _, _, _) =>
  }

  lemma MergeProjectionSound(q: Plan, db: Database, strict: bool)
    requires DatabaseOk(db) && Good(q, db, strict)
    ensures Carries(q, MergeProjection(q), db, strict)
  {
    if q.Projection? && Types(q.child.schema) == Types(q.schema) && IsIdentity(q.expressions, 0) {
      Renamed(q.child, q.schema, db, strict);
      if Rows(q.child, db).Some? {
        Width(q.child, db, strict);
        TypesSizes(q.child.schema, q.schema);
        IdentityProject(Rows(q.child, db).value, q.expressions);
      }
    }
  }

  // ----- merge filter into nested loop join -----

  /** The rewritten expression means the same on the two tuples as the old one on their concatenation. */
  lemma {:induction false} RewriteKeepsValue(e: Expr, l: Row, r: Row)
    requires InRange(e, |l| + |r|)
    ensures RewriteForJoin(e, |l|, |r|).Ok?
    ensures EvalJoin(RewriteForJoin(e, |l|, |r|).value, l, r) == Eval(e, l + r)
  {
    match e
    case ColumnValue(_, _, _) =>
    case Constant(_) =>
    case Comparison(_, a, b) => RewriteKeepsValue(a, l, r); RewriteKeepsValue(b, l, r);
    case Arithmetic(_, a, b) => RewriteKeepsValue(a, l, r); RewriteKeepsValue(b, l, r);
    case Logic(_, a, b) => RewriteKeepsValue(a, l, r); RewriteKeepsValue(b, l, r);
  }

  lemma {:induction false} FilterConcat(a: seq<Row>, b: seq<Row>, e: Expr)
    ensures FilterRows(a + b, e) == FilterRows(a, e) + FilterRows(b, e)
  {
    if a == [] {
      assert a + b == b;
    } else {
      assert (a + b)[1..] == a[1..] + b;
      FilterConcat(a[1..], b, e);
    }
  }

  /** Filtering what one left row contributes, against matching on the rewritten predicate. */
  lemma {:induction false} FilterBlock(l: Row, rs: seq<Row>, e: Expr, n: nat)
    requires Wide(rs, n) && InRange(e, |l| + n)
    ensures RewriteForJoin(e, |l|, n).Ok?
    ensures FilterRows(Extensions(l, rs), e) == Extensions(l, LoopMatches(l, rs, RewriteForJoin(e, |l|, n).value))
  {
    RewriteKeepsValue(e, l, Pad(n));
    if rs != [] {
      RewriteKeepsValue(e, l, rs[0]);
      FilterBlock(l, rs[1..], e, n);
      hide RewriteForJoin, Eval, EvalJoin;
      assert Extensions(l, rs)[1..] == Extensions(l, rs[1..]);
      var ms := LoopMatches(l, rs[1..], RewriteForJoin(e, |l|, n).value);
      assert ([rs[0]] + ms)[1..] == ms && [] + ms == ms;
    }
  }

  /** Some row of `n` columns. */
  ghost function Pad(n: nat): (r: Row)
    ensures |r| == n
  {
    if n == 0 then [] else [Null(INVALID)] + Pad(n - 1)
  }

  lemma {:induction false} AllMatch(l: Row, rs: seq<Row>)
    ensures LoopMatches(l, rs, Constant(Bool(true))) == rs
  {
    if rs != [] { AllMatch(l, rs[1..]); }
  }

  /** The rows of a nested loop join. */
  ghost function LoopJoin(ls: seq<Row>, rs: seq<Row>, e: Expr, outer: bool, nulls: Row): seq<Row> {
    JoinRows(ls, row => LoopMatches(row, rs, e), outer, nulls)
  }

  lemma LoopJoinStep(ls: seq<Row>, rs: seq<Row>, e: Expr, outer: bool, nulls: Row)
    requires ls != []
    ensures LoopJoin(ls, rs, e, outer, nulls)
            == JoinBlock(ls[0], LoopMatches(ls[0], rs, e), outer, nulls) + LoopJoin(ls[1..], rs, e, outer, nulls)
  {
  }

  lemma RowsOfLoopJoin(s: Schema, l: Plan, r: Plan, e: Expr, t: JoinType, db: Database)
    ensures Rows(NestedLoopJoin(s, l, r, e, t), db) ==
            if Rows(l, db).None? || Rows(r, db).None? || !Joinable(t) then None
            else Some(LoopJoin(Rows(l, db).value, Rows(r, db).value, e, t == LEFT, Nulls(r.schema)))
  {
  }

  /** Filtering the block of one left row of an INNER join on `true`. */
  lemma FilterInnerBlock(l: Row, rs: seq<Row>, e: Expr, nulls: Row, n: nat)
    requires Wide(rs, n) && InRange(e, |l| + n)
    ensures RewriteForJoin(e, |l|, n).Ok?
    ensures FilterRows(JoinBlock(l, LoopMatches(l, rs, Constant(Bool(true))), false, nulls), e)
            == JoinBlock(l, LoopMatches(l, rs, RewriteForJoin(e, |l|, n).value), false, nulls)
  {
    AllMatch(l, rs);
    FilterBlock(l, rs, e, n);
  }

  lemma {:induction false} FilterJoin(ls: seq<Row>, rs: seq<Row>, e: Expr, nulls: Row, m: nat, n: nat)
    requires Wide(ls, m) && Wide(rs, n) && InRange(e, m + n)
    ensures RewriteForJoin(e, m, n).Ok?
    ensures FilterRows(LoopJoin(ls, rs, Constant(Bool(true)), false, nulls), e)
            == LoopJoin(ls, rs, RewriteForJoin(e, m, n).value, false, nulls)
  {
    RewriteKeepsValue(e, Pad(m), Pad(n));
    if ls == [] { return; }
    hide RewriteForJoin, LoopJoin, FilterRows, JoinBlock, LoopMatches, InRange;
    var yes := Constant(Bool(true));
    FilterJoin(ls[1..], rs, e, nulls, m, n);
    LoopJoinStep(ls, rs, yes, false, nulls);
    LoopJoinStep(ls, rs, RewriteForJoin(e, m, n).value, false, nulls);
    FilterInnerBlock(ls[0], rs, e, nulls, n);
    FilterConcat(JoinBlock(ls[0], LoopMatches(ls[0], rs, yes), false, nulls), LoopJoin(ls[1..], rs, yes, false, nulls),
                 e);
  }

  lemma RowsOfFilter(s: Schema, e: Expr, c: Plan, db: Database)
    ensures Rows(Filter(s, e, c), db) ==
            if Rows(c, db).None? then None else Some(FilterRows(Rows(c, db).value, e))
  {
  }

  lemma {:induction false} RewriteKeepsConstant(e: Expr, m: nat, n: nat)
    requires InRange(e, m + n)
    ensures RewriteForJoin(e, m, n).Ok?
    ensures RewriteForJoin(e, m, n).value.Constant? ==> e == RewriteForJoin(e, m, n).value
  {
    RewriteKeepsValue(e, Pad(m), Pad(n));
  }

  ghost function MergedJoin(q: Plan): Result<Plan>
    requires q.Filter? && q.child.NestedLoopJoin?
  {
    var e :- RewriteForJoin(q.pred, |q.child.left.schema|, |q.child.right.schema|);
    Ok(NestedLoopJoin(q.schema, q.child.left, q.child.right, e, q.child.joinType))
  }

  /** The rule at a filter over a join on a constant that reads as true. */
  lemma MergedJoinGood(q: Plan, db: Database, strict: bool)
    requires Good(q, db, strict)
    requires q.Filter? && q.child.NestedLoopJoin? && q.child.pred.Constant? && CastToBool(q.child.pred.val) == Ok(true)
    ensures MergedJoin(q).Ok? && Good(MergedJoin(q).value, db, strict)
    ensures JoinConstant(MergedJoin(q).value) == JoinConstant(q) && (Collides(MergedJoin(q).value) <==> Collides(q))
    ensures strict ==> q.child.pred == Constant(Bool(true)) && q.child.joinType == INNER
  {
    hide Wide, InRange;
    var l, r := q.child.left, q.child.right;
    TypesSizes(q.schema, q.child.schema);
    JoinSize(q.child.schema, l.schema, r.schema);
    RewriteKeepsConstant(q.pred, |l.schema|, |r.schema|);
    assert JoinConstant(q.child) == Some((q.child.pred.val, q.child.joinType));
  }

  lemma MergedJoinRows(s: Schema, s': Schema, l: Plan, r: Plan, e: Expr, e': Expr, db: Database, strict: bool)
    requires DatabaseOk(db) && Good(l, db, strict) && Good(r, db, strict)
    requires InRange(e, |l.schema| + |r.schema|) && RewriteForJoin(e, |l.schema|, |r.schema|) == Ok(e')
    ensures Rows(NestedLoopJoin(s, l, r, e', INNER), db)
            == Rows(Filter(s, e, NestedLoopJoin(s', l, r, Constant(Bool(true)), INNER)), db)
  {
    RowsOfLoopJoin(s', l, r, Constant(Bool(true)), INNER, db);
    RowsOfLoopJoin(s, l, r, e', INNER, db);
    RowsOfFilter(s, e, NestedLoopJoin(s', l, r, Constant(Bool(true)), INNER), db);
    hide RewriteForJoin, InRange, LoopJoin, Rows, Wide, Good, DatabaseOk, FilterRows, Nulls;
    if Rows(l, db).Some? && Rows(r, db).Some? {
      Width(l, db, strict);
      Width(r, db, strict);
      FilterJoin(Rows(l, db).value, Rows(r, db).value, e, Nulls(r.schema), |l.schema|, |r.schema|);
    }
  }

  lemma MergedJoinStands(q: Plan, db: Database, strict: bool)
    requires DatabaseOk(db) && Good(q, db, strict)
    requires q.Filter? && q.child.NestedLoopJoin? && q.child.pred.Constant? && CastToBool(q.child.pred.val) == Ok(true)
    ensures MergedJoin(q).Ok? && Stands(q, MergedJoin(q).value, db, strict)
  {
    MergedJoinGood(q, db, strict);
    var j := q.child;
    TypesSizes(q.schema, j.schema);
    JoinSize(j.schema, j.left.schema, j.right.schema);
    hide Rows, Types, RewriteForJoin, InRange, JoinConstant, Collides, CastToBool;
    if strict { MergedJoinRows(q.schema, j.schema, j.left, j.right, q.pred, MergedJoin(q).value.pred, db, strict); }
  }

  lemma MergeFilterNLJSound(q: Plan, db: Database, strict: bool)
    requires DatabaseOk(db) && Good(q, db, strict)
    ensures Carries(q, MergeFilterNLJ(q), db, strict)
  {
    if q.Filter? && q.child.NestedLoopJoin? && q.child.pred.Constant? && CastToBool(q.child.pred.val) != Ok(false) {
      assert JoinConstant(q.child).Some? && JoinConstant(q.child).value.0 == q.child.pred.val;
      if CastToBool(q.child.pred.val) == Ok(true) {
        MergedJoinStands(q, db, strict);
        hide Stands, Rows, Types, RewriteForJoin, InRange, Good;
      }
    } else {
      Itself(q, db, strict);
      hide Stands, Rows, Types, RewriteForJoin, InRange, Good;
    }
  }

  // ----- nested loop join as index join or hash join -----

  /** Joins with the same partners have the same rows. */
  lemma {:induction false} SamePartners(ls: seq<Row>, f: Row -> seq<Row>, g: Row -> seq<Row>, outer: bool, nulls: Row)
    requires forall l :: f(l) == g(l)
    ensures JoinRows(ls, f, outer, nulls) == JoinRows(ls, g, outer, nulls)
  {
    if ls != [] { SamePartners(ls[1..], f, g, outer, nulls); }
  }

  /** `outerCol = innerCol`, in either order of the two sides. */
  ghost predicate Equates(e: Expr, outerCol: Expr, innerCol: Expr) {
    && outerCol.ColumnValue? && innerCol.ColumnValue?
    && IsColumnEquality(e)
    && ((e.left.tupleIdx == 0 && e.right.tupleIdx == 1 && e.left.colIdx == outerCol.colIdx
         && e.right.colIdx == innerCol.colIdx)
        || (e.left.tupleIdx == 1 && e.right.tupleIdx == 0 && e.right.colIdx == outerCol.colIdx
            && e.left.colIdx == innerCol.colIdx))
  }

  lemma {:induction false} MatchesByKey(l: Row, rs: seq<Row>, e: Expr, outerCol: Expr, innerCol: Expr)
    requires Equates(e, outerCol, innerCol)
    ensures LoopMatches(l, rs, e) == KeyMatches(Eval(outerCol, l), rs, innerCol)
  {
    if rs != [] {
      assert Passes(EvalJoin(e, l, rs[0])) <==> Compare(Equal, Eval(outerCol, l), Eval(innerCol, rs[0])) == CmpTrue;
      MatchesByKey(l, rs[1..], e, outerCol, innerCol);
    }
  }

  lemma {:induction false} MatchCount(v: Value, rs: seq<Row>, key: Expr, r: Row)
    ensures multiset(KeyMatches(v, rs, key))[r] == if Compare(Equal, v, Eval(key, r)) == CmpTrue then multiset(rs)[r]
                                                   else 0
  {
    hide Compare, Eval;
    if rs != [] {
      assert rs == [rs[0]] + rs[1..];
      MatchCount(v, rs[1..], key, r);
    }
  }

  lemma {:induction false} NoMatchBeyond(v: Value, rs: seq<Row>, key: Expr)
    requires forall i :: 0 <= i < |rs| ==> Compare(Equal, v, Eval(key, rs[i])) != CmpTrue
    ensures KeyMatches(v, rs, key) == []
  {
    if rs != [] { NoMatchBeyond(v, rs[1..], key); }
  }

  /** A key has at most one row in an index with distinct keys. */
  lemma {:induction false} AtMostOneMatch(v: Value, rs: seq<Row>, key: Expr)
    requires key.ColumnValue? && Ascending(rs, key.colIdx)
    ensures |KeyMatches(v, rs, key)| <= 1
  {
    if rs != [] {
      AtMostOneMatch(v, rs[1..], key);
      if Compare(Equal, v, Eval(key, rs[0])) == CmpTrue {
        forall i | 0 <= i < |rs[1..]| ensures Compare(Equal, v, Eval(key, rs[1..][i])) != CmpTrue {
          assert Less(At(rs[0], key.colIdx), At(rs[i + 1], key.colIdx));
          LessAsymmetric(v, v);
        }
        NoMatchBeyond(v, rs[1..], key);
      }
    }
  }

  lemma SmallSame(a: seq<Row>, b: seq<Row>)
    requires multiset(a) == multiset(b) && |b| <= 1
    ensures a == b
  {
    assert |multiset(a)| == |multiset(b)|;
    if a != [] {
      assert a[0] in multiset(a);
      assert b[0] == a[0];
    }
  }

  /** Looking a key up in the table and in an index over it finds the same row. */
  lemma SameMatches(v: Value, rs: seq<Row>, entries: seq<Row>, key: Expr)
    requires key.ColumnValue? && Ascending(entries, key.colIdx) && multiset(rs) == multiset(entries)
    ensures KeyMatches(v, rs, key) == KeyMatches(v, entries, key)
  {
    forall r: Row ensures multiset(KeyMatches(v, rs, key))[r] == multiset(KeyMatches(v, entries, key))[r] {
      MatchCount(v, rs, key, r);
      MatchCount(v, entries, key, r);
    }
    assert multiset(KeyMatches(v, rs, key)) == multiset(KeyMatches(v, entries, key));
    AtMostOneMatch(v, entries, key);
    SmallSame(KeyMatches(v, rs, key), KeyMatches(v, entries, key));
  }

  /** The rows of a join that looks partners up by key. */
  ghost function KeyJoin(ls: seq<Row>, outerCol: Expr, rs: seq<Row>, innerCol: Expr, outer: bool,
                         nulls: Row): seq<Row> {
    JoinRows(ls, row => KeyMatches(Eval(outerCol, row), rs, innerCol), outer, nulls)
  }

  lemma LoopJoinByKey(ls: seq<Row>, rs: seq<Row>, e: Expr, outerCol: Expr, innerCol: Expr, outer: bool, nulls: Row)
    requires Equates(e, outerCol, innerCol)
    ensures LoopJoin(ls, rs, e, outer, nulls) == KeyJoin(ls, outerCol, rs, innerCol, outer, nulls)
  {
    forall l ensures LoopMatches(l, rs, e) == KeyMatches(Eval(outerCol, l), rs, innerCol) {
      MatchesByKey(l, rs, e, outerCol, innerCol);
    }
    SamePartners(ls, row => LoopMatches(row, rs, e),
                 row => KeyMatches(Eval(outerCol, row), rs, innerCol), outer, nulls);
  }

  lemma KeyJoinByIndex(ls: seq<Row>, rs: seq<Row>, entries: seq<Row>, outerCol: Expr, innerCol: Expr, outer: bool,
                       nulls: Row)
    requires innerCol.ColumnValue? && Ascending(entries, innerCol.colIdx) && multiset(rs) == multiset(entries)
    ensures KeyJoin(ls, outerCol, rs, innerCol, outer, nulls) == KeyJoin(ls, outerCol, entries, innerCol, outer, nulls)
  {
    forall l ensures KeyMatches(Eval(outerCol, l), rs, innerCol) == KeyMatches(Eval(outerCol, l), entries, innerCol) {
      SameMatches(Eval(outerCol, l), rs, entries, innerCol);
    }
    SamePartners(ls, row => KeyMatches(Eval(outerCol, row), rs, innerCol),
                 row => KeyMatches(Eval(outerCol, row), entries, innerCol), outer, nulls);
  }

  lemma RowsOfHashJoin(s: Schema, l: Plan, r: Plan, lk: Expr, rk: Expr, t: JoinType, db: Database)
    ensures Rows(HashJoin(s, l, r, lk, rk, t), db) ==
            if Rows(l, db).None? || Rows(r, db).None? || !Joinable(t) then None
            else Some(KeyJoin(Rows(l, db).value, lk, Rows(r, db).value, rk, t == LEFT, Nulls(r.schema)))
  {
  }

  lemma RowsOfIndexJoin(s: Schema, c: Plan, k: Expr, o: nat, oid: nat, inner: Schema, t: JoinType, db: Database)
    requires oid in db.indexes && |db.indexes[oid].keyAttrs| == 1
    ensures Rows(NestedIndexJoin(s, c, k, o, oid, inner, t), db) ==
            if Rows(c, db).None? || !Joinable(t) then None
            else Some(KeyJoin(Rows(c, db).value, k, db.indexes[oid].entries,
                              ColumnValue(0, db.indexes[oid].keyAttrs[0], INVALID),
                              t == LEFT, Nulls(inner)))
  {
  }

  lemma HashJoinStands(s: Schema, l: Plan, r: Plan, e: Expr, t: JoinType, lk: Expr, rk: Expr, db: Database,
                       strict: bool)
    requires Good(NestedLoopJoin(s, l, r, e, t), db, strict) && Equates(e, lk, rk)
    ensures Stands(NestedLoopJoin(s, l, r, e, t), HashJoin(s, l, r, lk, rk, t), db, strict)
  {
    RowsOfLoopJoin(s, l, r, e, t, db);
    RowsOfHashJoin(s, l, r, lk, rk, t, db);
    assert !e.Constant?;
    hide LoopJoin, KeyJoin, Rows, Types, Equates;
    if Rows(l, db).Some? && Rows(r, db).Some? {
      LoopJoinByKey(Rows(l, db).value, Rows(r, db).value, e, lk, rk, t == LEFT, Nulls(r.schema));
    }
  }

  /** A join on a column equality and the hash join on the two columns have the same rows. */
  lemma NLJAsHashJoinSound(q: Plan, db: Database, strict: bool)
    requires Good(q, db, strict)
    ensures Carries(q, NLJAsHashJoin(q), db, strict)
  {
    Itself(q, db, strict);
    var h := NLJAsHashJoin(q).value;
    if h != q {
      assert Equates(q.pred, h.leftKey, h.rightKey);
      hide *;
      HashJoinStands(q.schema, q.left, q.right, q.pred, q.joinType, h.leftKey, h.rightKey, db, strict);
    }
  }

  lemma {:induction false} MatchIndexFound(db: Database, candidates: seq<nat>, column: nat)
    requires MatchIndex(db, candidates, column).Some?
    ensures MatchIndex(db, candidates, column).value in candidates
    ensures MatchIndex(db, candidates, column).value in db.indexes
    ensures db.indexes[MatchIndex(db, candidates, column).value].keyAttrs == [column]
  {
    if candidates[0] in db.indexes && db.indexes[candidates[0]].keyAttrs == [column] {
    } else {
      MatchIndexFound(db, candidates[1..], column);
    }
  }

  /** An index the rule picks: its key is the column, and it leads to the rows of the scanned table. */
  ghost predicate Serves(db: Database, oid: nat, scan: Plan, column: nat)
    requires scan.SeqScan?
  {
    && oid in db.indexes && scan.tableOid in db.tables
    && db.indexes[oid].keyAttrs == [column]
    && Ascending(db.indexes[oid].entries, column)
    && multiset(db.indexes[oid].entries) == multiset(db.tables[scan.tableOid].rows)
    && Wide(db.indexes[oid].entries, |scan.schema|)
  }

  lemma CandidateServes(db: Database, oid: nat, scan: Plan, column: nat, strict: bool)
    requires DatabaseOk(db) && scan.SeqScan? && Good(scan, db, strict)
    requires oid in TableIndexes(db, scan.tableName) && oid in db.indexes && db.indexes[oid].keyAttrs == [column]
    ensures Serves(db, oid, scan, column)
  {
    var table := db.tables[scan.tableOid];
    assert TableOk(table) && IndexesOk(db, table);
    var j :| 0 <= j < |TableIndexes(db, table.name)| && TableIndexes(db, table.name)[j] == oid;
    assert IndexOk(table, db.indexes[oid]);
    TypesSizes(scan.schema, table.schema);
    MultisetWide(table.rows, db.indexes[oid].entries, |scan.schema|);
  }

  lemma IndexJoinRows(ls: seq<Row>, rs: seq<Row>, entries: seq<Row>, e: Expr, key: Expr, inner: Expr, outer: bool,
                      nulls: Row)
    requires Equates(e, key, inner) && Ascending(entries, inner.colIdx) && multiset(rs) == multiset(entries)
    ensures LoopJoin(ls, rs, e, outer, nulls) ==
            KeyJoin(ls, key, entries, ColumnValue(0, inner.colIdx, INVALID), outer, nulls)
  {
    var attr := ColumnValue(0, inner.colIdx, INVALID);
    hide LoopJoin, KeyJoin;
    LoopJoinByKey(ls, rs, e, key, attr, outer, nulls);
    KeyJoinByIndex(ls, rs, entries, key, attr, outer, nulls);
  }

  lemma IndexJoinStands(s: Schema, l: Plan, scan: Plan, e: Expr, t: JoinType, key: Expr, inner: Expr, oid: nat,
                        db: Database, strict: bool)
    requires scan.SeqScan? && Good(NestedLoopJoin(s, l, scan, e, t), db, strict)
    requires Equates(e, key, inner) && Serves(db, oid, scan, inner.colIdx)
    ensures Stands(NestedLoopJoin(s, l, scan, e, t), NestedIndexJoin(s, l, key, scan.tableOid, oid, scan.schema, t), db,
                   strict)
  {
    RowsOfLoopJoin(s, l, scan, e, t, db);
    RowsOfIndexJoin(s, l, key, scan.tableOid, oid, scan.schema, t, db);
    assert Rows(scan, db) == Some(db.tables[scan.tableOid].rows) && !e.Constant? && !Collides(scan);
    hide LoopJoin, KeyJoin, Rows, Types, Equates, Wide, Ascending, Nulls;
    if Rows(l, db).Some? {
      IndexJoinRows(Rows(l, db).value, db.tables[scan.tableOid].rows, db.indexes[oid].entries, e, key, inner, t == LEFT,
                    Nulls(scan.schema));
    }
  }

  lemma NLJAsIndexJoinSound(q: Plan, db: Database, strict: bool)
    requires DatabaseOk(db) && Good(q, db, strict)
    ensures Carries(q, NLJAsIndexJoin(db, q), db, strict)
  {
    Itself(q, db, strict);
    var p := NLJAsIndexJoin(db, q).value;
    if p != q {
      var (a, b) := (q.pred.left, q.pred.right);
      var candidates := TableIndexes(db, q.right.tableName);
      var inner := if a.tupleIdx == 0 then b else a;
      MatchIndexFound(db, candidates, inner.colIdx);
      CandidateServes(db, p.indexOid, q.right, inner.colIdx, strict);
      assert Equates(q.pred, p.key, inner);
      hide *;
      IndexJoinStands(q.schema, q.left, q.right, q.pred, q.joinType, p.key, inner, p.indexOid, db, strict);
    }
  }

  // ----- order by as index scan -----

  lemma NotLessTransitive(u: Value, v: Value, w: Value)
    requires !Less(v, u) && !Less(w, v)
    ensures !Less(w, u)
  {
    if Less(w, u) {
      LessTotal(u, v);
      if Less(u, v) { LessTransitive(w, u, v); }
    }
  }

  ghost predicate InOrder(rows: seq<Row>, column: nat) {
    forall i, j :: 0 <= i < j < |rows| ==> !Less(At(rows[j], column), At(rows[i], column))
  }

  lemma {:induction false} InsertInOrder(os: seq<(OrderByType, Expr)>, r: Row, rows: seq<Row>)
    requires |os| == 1 && os[0].0 != DESC && os[0].1.ColumnValue? && InOrder(rows, os[0].1.colIdx)
    ensures InOrder(InsertRow(os, r, rows), os[0].1.colIdx)
    ensures multiset(InsertRow(os, r, rows)) == multiset(rows) + multiset{r}
  {
    var c := os[0].1.colIdx;
    InsertMultiset(os, r, rows);
    if rows == [] {
    } else if RowLeq(os, r, rows[0]) {
      LessAsymmetric(At(r, c), At(rows[0], c));
      forall j | 0 <= j < |rows| ensures !Less(At(rows[j], c), At(r, c)) {
        LessAsymmetric(At(rows[0], c), At(rows[0], c));
        NotLessTransitive(At(r, c), At(rows[0], c), At(rows[j], c));
      }
    } else {
      LessAsymmetric(At(r, c), At(rows[0], c));
      var rest := InsertRow(os, r, rows[1..]);
      InsertInOrder(os, r, rows[1..]);
      forall j | 0 <= j < |rest| ensures !Less(At(rest[j], c), At(rows[0], c)) {
        assert rest[j] in multiset(rest);
        assert rest[j] == r || rest[j] in rows[1..];
      }
    }
  }

  /** `SortRows` sorts: the same rows, in order. */
  lemma {:induction false} SortInOrder(os: seq<(OrderByType, Expr)>, rows: seq<Row>)
    requires |os| == 1 && os[0].0 != DESC && os[0].1.ColumnValue?
    ensures InOrder(SortRows(os, rows), os[0].1.colIdx)
    ensures multiset(SortRows(os, rows)) == multiset(rows)
  {
    SortMultiset(os, rows);
    if rows != [] {
      SortInOrder(os, rows[1..]);
      InsertInOrder(os, rows[0], SortRows(os, rows[1..]));
    }
  }

  lemma SameHead(a: seq<Row>, b: seq<Row>, column: nat)
    requires InOrder(a, column) && Ascending(b, column) && multiset(a) == multiset(b) && a != [] && b != []
    ensures a[0] == b[0]
  {
    assert a[0] in multiset(a) && b[0] in multiset(b);
    var i :| 0 <= i < |a| && a[i] == b[0];
    var j :| 0 <= j < |b| && b[j] == a[0];
    LessAsymmetric(At(a[0], column), At(a[0], column));
    hide Less, At;
  }

  /** A strictly ascending arrangement of some rows is the only ordered one. */
  lemma {:induction false} OnlyOrder(a: seq<Row>, b: seq<Row>, column: nat)
    requires InOrder(a, column) && Ascending(b, column) && multiset(a) == multiset(b)
    ensures a == b
  {
    assert |multiset(a)| == |multiset(b)|;
    if a != [] {
      SameHead(a, b, column);
      WithoutHead(a);
      WithoutHead(b);
      TailsOrdered(a, b, column);
      hide InOrder, Ascending;
      OnlyOrder(a[1..], b[1..], column);
    }
  }

  lemma WithoutHead(a: seq<Row>)
    requires a != []
    ensures multiset(a[1..]) == multiset(a) - multiset{a[0]} && a == [a[0]] + a[1..]
  {
    assert a == [a[0]] + a[1..];
  }

  lemma TailsOrdered(a: seq<Row>, b: seq<Row>, column: nat)
    requires InOrder(a, column) && Ascending(b, column) && a != [] && b != []
    ensures InOrder(a[1..], column) && Ascending(b[1..], column)
  {
    hide Less, At;
  }

  lemma {:induction false} MatchKeyNameFound(db: Database, candidates: seq<nat>, name: string)
    requires MatchKeyName(db, candidates, name).Some?
    ensures MatchKeyName(db, candidates, name).value in candidates
    ensures MatchKeyName(db, candidates, name).value in db.indexes
    ensures var s := db.indexes[MatchKeyName(db, candidates, name).value].keySchema; |s| == 1 && s[0].name == name
  {
    if candidates[0] in db.indexes && |db.indexes[candidates[0]].keySchema| == 1
       && db.indexes[candidates[0]].keySchema[0].name == name {
    } else {
      MatchKeyNameFound(db, candidates[1..], name);
    }
  }

  /** The rule compares names; column names of a table are distinct, so it finds the column. */
  lemma KeyNameIsColumn(db: Database, table: TableInfo, oid: nat, column: nat)
    requires TableOk(table) && IndexesOk(db, table) && oid in TableIndexes(db, table.name)
    requires oid in db.indexes && column < |table.schema|
    requires |db.indexes[oid].keySchema| == 1 && db.indexes[oid].keySchema[0].name == table.schema[column].name
    ensures db.indexes[oid].keyAttrs == [column]
  {
    var j :| 0 <= j < |TableIndexes(db, table.name)| && TableIndexes(db, table.name)[j] == oid;
    assert IndexOk(table, db.indexes[oid]);
    var k := db.indexes[oid].keyAttrs[0];
    assert db.indexes[oid].keySchema[0].name == table.schema[k].name;
  }

  lemma IndexScanStands(s: Schema, os: seq<(OrderByType, Expr)>, scan: Plan, oid: nat, db: Database, strict: bool)
    requires scan.SeqScan? && Good(Sort(s, os, scan), db, strict)
    requires |os| == 1 && os[0].0 != DESC && os[0].1.ColumnValue? && Serves(db, oid, scan, os[0].1.colIdx)
    ensures Stands(Sort(s, os, scan), IndexScan(s, oid), db, strict)
  {
    var rows := db.tables[scan.tableOid].rows;
    TypesSizes(s, scan.schema);
    assert Rows(scan, db) == Some(rows);
    assert Rows(Sort(s, os, scan), db) == Some(SortRows(os, rows));
    SortInOrder(os, rows);
    OnlyOrder(SortRows(os, rows), db.indexes[oid].entries, os[0].1.colIdx);
  }

  lemma OrderByAsIndexScanSound(q: Plan, db: Database, strict: bool)
    requires DatabaseOk(db) && Good(q, db, strict)
    ensures Carries(q, OrderByAsIndexScan(db, q), db, strict)
  {
    Itself(q, db, strict);
    var r := OrderByAsIndexScan(db, q);
    if r != Ok(q) {
      assert Good(q.child, db, strict);
      var table := db.tables[q.child.tableOid];
      var column := q.orderBys[0].1.colIdx;
      assert TableOk(table) && IndexesOk(db, table);
      MatchKeyNameFound(db, TableIndexes(db, table.name), table.schema[column].name);
      KeyNameIsColumn(db, table, r.value.indexOid, column);
      CandidateServes(db, r.value.indexOid, q.child, column, strict);
      hide *;
      IndexScanStands(q.schema, q.orderBys, q.child, r.value.indexOid, db, strict);
    }
  }

  // ----- the pipeline -----

  lemma RulesSound(db: Database)
    requires DatabaseOk(db)
    ensures SoundRule(MergeProjection, db) && SoundRule(MergeFilterNLJ, db)
    ensures SoundRule(IndexJoinRule(db), db) && SoundRule(IndexScanRule(db), db)
  {
    hide Carries, Good, MergeProjection, MergeFilterNLJ, NLJAsIndexJoin, OrderByAsIndexScan, DatabaseOk;
    forall q, strict | Good(q, db, strict)
      ensures Carries(q, MergeProjection(q), db, strict)
      ensures Carries(q, MergeFilterNLJ(q), db, strict)
      ensures Carries(q, NLJAsIndexJoin(db, q), db, strict)
      ensures Carries(q, OrderByAsIndexScan(db, q), db, strict)
    {
      MergeProjectionSound(q, db, strict);
      MergeFilterNLJSound(q, db, strict);
      NLJAsIndexJoinSound(q, db, strict);
      OrderByAsIndexScanSound(q, db, strict);
    }
  }

  /** One pass of the pipeline. */
  lemma Pass(p: Plan, q: Plan, rule: Plan -> Result<Plan>, db: Database, strict: bool)
    requires SoundRule(rule, db) && Stands(p, q, db, strict)
    ensures Carries(p, Everywhere(q, rule), db, strict)
  {
    hide Good, Rows, Types, Everywhere, SoundRule, JoinConstant, Collides;
    EverywhereSound(q, rule, db, strict);
  }

  lemma FourPasses(p: Plan, db: Database, strict: bool)
    requires Stands(p, p, db, strict)
    requires SoundRule(MergeProjection, db) && SoundRule(MergeFilterNLJ, db)
    requires SoundRule(IndexJoinRule(db), db) && SoundRule(IndexScanRule(db), db)
    ensures Carries(p, OptimizeCustom(db, p), db, strict)
  {
    hide Stands, Everywhere, SoundRule, IndexJoinRule, IndexScanRule, Collides;
    Pass(p, p, MergeProjection, db, strict);
    if Everywhere(p, MergeProjection).Throws? { return; }
    var p1 := Everywhere(p, MergeProjection).value;
    Pass(p, p1, MergeFilterNLJ, db, strict);
    if Everywhere(p1, MergeFilterNLJ).Throws? { return; }
    var p2 := Everywhere(p1, MergeFilterNLJ).value;
    Pass(p, p2, IndexJoinRule(db), db, strict);
    if Everywhere(p2, IndexJoinRule(db)).Throws? { return; }
    var p3 := Everywhere(p2, IndexJoinRule(db)).value;
    Pass(p, p3, IndexScanRule(db), db, strict);
  }

  /**
   The optimizer keeps the meaning of a plan: on a strictly good plan over a faithful database the pipeline
   throws nowhere and returns a good plan with the same rows, in the same order, and the same types.
   */
  lemma OptimizeCustomSound(p: Plan, db: Database)
    requires DatabaseOk(db) && Good(p, db, true)
    ensures OptimizeCustom(db, p).Ok? && Stands(p, OptimizeCustom(db, p).value, db, true)
  {
    RulesSound(db);
    Itself(p, db, true);
    FourPasses(p, db, true);
    GoodIff(p, db);
  }

  // ----- when the optimizer throws -----

  /** No projection is left that only renames columns. */
  ghost predicate Slim(p: Plan) {
    match p
    case Filter(_, _, c) => Slim(c)
    case Projection(s, es, c) => Slim(c) && !(Types(c.schema) == Types(s) && IsIdentity(es, 0))
    case NestedLoopJoin(_, l, r, _, _) => Slim(l) && Slim(r)
    case HashJoin(_, l, r, _, _, _) => Slim(l) && Slim(r)
    case NestedIndexJoin(_, c, _, _, _, _, _) => Slim(c)
    case Sort(_, _, c) => Slim(c)
    case Limit(_, _, c) => Slim(c)
    case Aggregation(_, _, _, _, c) => Slim(c)
    case Modify(_, _, _, c) => Slim(c)
    case _ => true
  }

  lemma SlimRenamed(p: Plan, s: Schema)
    requires Slim(p) && Types(s) == Types(p.schema)
    ensures Slim(p.(schema := s))
  {
  }

  lemma {:induction false} MergedIsSlim(p: Plan)
    ensures Everywhere(p, MergeProjection).Ok? && Slim(Everywhere(p, MergeProjection).value)
  {
    match p
    case Filter(_, _, c) => MergedIsSlim(c);
    case Projection(s, _, c) =>
      MergedIsSlim(c);
      var c' := Everywhere(c, MergeProjection).value;
      if Types(c'.schema) == Types(s) { SlimRenamed(c', s); }
    case NestedLoopJoin(_, l, r, _, _) => MergedIsSlim(l); MergedIsSlim(r);
    case HashJoin(_, l, r, _, _, _) => MergedIsSlim(l); MergedIsSlim(r);
    case NestedIndexJoin(_, c, _, _, _, _, _) => MergedIsSlim(c);
    case Sort(_, _, c) => MergedIsSlim(c);
    case Limit(_, _, c) => MergedIsSlim(c);
    case Aggregation(_, _, _, _, c) => MergedIsSlim(c);
    case Modify(_, _, _, c) => MergedIsSlim(c);
    case _ =>
  }

  /**
   On a slim plan the filter pass does make the joins that `JoinConstant` foresees, and throws where a filter meets a
   refusing one.
   */
  lemma {:induction false} MergeThrows(p: Plan)
    requires Slim(p)
    ensures Collides(p) ==> Everywhere(p, MergeFilterNLJ).Throws?
    ensures Everywhere(p, MergeFilterNLJ).Ok? && JoinConstant(p).Some? ==>
              var q := Everywhere(p, MergeFilterNLJ).value;
              q.NestedLoopJoin? && q.pred == Constant(JoinConstant(p).value.0)
  {
    match p
    case Filter(_, e, c) => MergeThrows(c);
    case Projection(_, _, c) => MergeThrows(c);
    case NestedLoopJoin(_, l, r, _, _) => MergeThrows(l); MergeThrows(r);
    case HashJoin(_, l, r, _, _, _) => MergeThrows(l); MergeThrows(r);
    case NestedIndexJoin(_, c, _, _, _, _, _) => MergeThrows(c);
    case Sort(_, _, c) => MergeThrows(c);
    case Limit(_, _, c) => MergeThrows(c);
    case Aggregation(_, _, _, _, c) => MergeThrows(c);
    case Modify(_, _, _, c) => MergeThrows(c);
    case _ =>
  }

  /**
   The optimizer throws exactly on plans in which a filter ends up above a join on a constant without a truth value.
   */
  lemma OptimizeThrowsIff(p: Plan, db: Database)
    requires DatabaseOk(db) && Good(p, db, false)
    ensures OptimizeCustom(db, p).Throws? <==> Collides(p)
  {
    RulesSound(db);
    Itself(p, db, false);
    FourPasses(p, db, false);
    if Collides(p) {
      Pass(p, p, MergeProjection, db, false);
      MergedIsSlim(p);
      MergeThrows(Everywhere(p, MergeProjection).value);
      hide Everywhere, SoundRule, Good, JoinConstant, DatabaseOk, Slim;
    }
  }
}
