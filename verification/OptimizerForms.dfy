/**
 What the optimizer achieves: the patterns its rules look for do not occur in the plans it makes.  `Has` spells the
 patterns out, and a plan is `Free` of one if no node has it.
 */
module OptimizerForms {
  import opened Options
  import opened Expressions
  import opened Plans
  import opened Optimizer

  // ----- nodes and their children -----

  ghost function Children(p: Plan): seq<Plan> {
    match p
    case Filter(_, _, c) => [c]
    case Projection(_, _, c) => [c]
    case NestedLoopJoin(_, l, r, _, _) => [l, r]
    case HashJoin(_, l, r, _, _, _) => [l, r]
    case NestedIndexJoin(_, c, _, _, _, _, _) => [c]
    case Sort(_, _, c) => [c]
    case Limit(_, _, c) => [c]
    case Aggregation(_, _, _, _, c) => [c]
    case Modify(_, _, _, c) => [c]
    case _ => []
  }

  /** The same node, with other children perhaps. */
  ghost predicate SameNode(p: Plan, q: Plan) {
    match p
    case SeqScan(_, _, _, _) => q == p
    case MockScan(_, _) => q == p
    case IndexScan(_, _) => q == p
    case Values(_, _) => q == p
    case Filter(s, e, _) => q.Filter? && q == Filter(s, e, q.child)
    case Projection(s, es, _) => q.Projection? && q == Projection(s, es, q.child)
    case NestedLoopJoin(s, _, _, e, t) => q.NestedLoopJoin? && q == NestedLoopJoin(s, q.left, q.right, e, t)
    case HashJoin(s, _, _, lk, rk, t) => q.HashJoin? && q == HashJoin(s, q.left, q.right, lk, rk, t)
    case NestedIndexJoin(s, _, k, o, i, inner, t) =>
      q.NestedIndexJoin? && q == NestedIndexJoin(s, q.child, k, o, i, inner, t)
    case Sort(s, os, _) => q.Sort? && q == Sort(s, os, q.child)
    case Limit(s, n, _) => q.Limit? && q == Limit(s, n, q.child)
    case Aggregation(s, gs, es, ts, _) => q.Aggregation? && q == Aggregation(s, gs, es, ts, q.child)
    case Modify(s, k, o, _) => q.Modify? && q == Modify(s, k, o, q.child)
  }

  /** The traversal applies the rule to the node with its children traversed. */
  lemma EverywhereNode(p: Plan, rule: Plan -> Result<Plan>) returns (q: Plan)
    requires Everywhere(p, rule).Ok?
    ensures SameNode(p, q) && rule(q) == Everywhere(p, rule) && |Children(q)| == |Children(p)|
    ensures forall i :: 0 <= i < |Children(p)| ==>
              Everywhere(Children(p)[i], rule).Ok? && Children(q)[i] == Everywhere(Children(p)[i], rule).value
  {
    match p
    case Filter(s, e, c) => q := Filter(s, e, Everywhere(c, rule).value);
    case Projection(s, es, c) => q := Projection(s, es, Everywhere(c, rule).value);
    case NestedLoopJoin(s, l, r, e, t) =>
      q := NestedLoopJoin(s, Everywhere(l, rule).value, Everywhere(r, rule).value, e, t);
    case HashJoin(s, l, r, lk, rk, t) =>
      q := HashJoin(s, Everywhere(l, rule).value, Everywhere(r, rule).value, lk, rk, t);
    case NestedIndexJoin(s, c, k, o, i, inner, t) =>
      q := NestedIndexJoin(s, Everywhere(c, rule).value, k, o, i, inner, t);
    case Sort(s, os, c) => q := Sort(s, os, Everywhere(c, rule).value);
    case Limit(s, n, c) => q := Limit(s, n, Everywhere(c, rule).value);
    case Aggregation(s, gs, es, ts, c) => q := Aggregation(s, gs, es, ts, Everywhere(c, rule).value);
    case Modify(s, k, o, c) => q := Modify(s, k, o, Everywhere(c, rule).value);
    case _ => q := p;
  }

  // ----- patterns -----

  datatype Pattern = RenamingProjection | FilterOverTrueJoin | IndexedJoin | IndexedSort

  /** A table has an index on just this column. */
  ghost predicate Indexed(db: Database, table: string, column: nat) {
    exists i :: 0 <= i < |TableIndexes(db, table)| &&
      var oid := TableIndexes(db, table)[i]; oid in db.indexes && db.indexes[oid].keyAttrs == [column]
  }

  /** A table has an index whose only key column has this name. */
  ghost predicate IndexedByName(db: Database, table: string, name: string) {
    exists i :: 0 <= i < |TableIndexes(db, table)| &&
      var oid := TableIndexes(db, table)[i];
      oid in db.indexes && |db.indexes[oid].keySchema| == 1 && db.indexes[oid].keySchema[0].name == name
  }

  ghost predicate Has(p: Plan, pattern: Pattern, db: Database) {
    match pattern
    case RenamingProjection =>
      && p.Projection? && Types(p.schema) == Types(p.child.schema)
      && forall i :: 0 <= i < |p.expressions| ==>
           p.expressions[i].ColumnValue? && p.expressions[i].tupleIdx == 0 && p.expressions[i].colIdx == i
    case FilterOverTrueJoin =>
      p.Filter? && p.child.NestedLoopJoin? && p.child.pred.Constant? && CastToBool(p.child.pred.val) == Ok(true)
    case IndexedJoin =>
      && p.NestedLoopJoin? && p.right.SeqScan?
      && p.pred.Comparison? && p.pred.cmp == Equal && p.pred.left.ColumnValue? && p.pred.right.ColumnValue?
      && ((p.pred.left.tupleIdx == 0 && p.pred.right.tupleIdx == 1
           && Indexed(db, p.right.tableName, p.pred.right.colIdx))
          || (p.pred.left.tupleIdx == 1 && p.pred.right.tupleIdx == 0
              && Indexed(db, p.right.tableName, p.pred.left.colIdx)))
    case IndexedSort =>
      && p.Sort? && |p.orderBys| == 1 && p.orderBys[0].0 != DESC && p.orderBys[0].1.ColumnValue? && p.child.SeqScan?
      && p.child.tableOid in db.tables
      && var table := db.tables[p.child.tableOid];
         && p.orderBys[0].1.colIdx < |table.schema|
         && IndexedByName(db, table.name, table.schema[p.orderBys[0].1.colIdx].name)
  }

  ghost predicate Free(p: Plan, pattern: Pattern, db: Database)
    decreases p, 1
  {
    !Has(p, pattern, db) && FreeBelow(p, pattern, db)
  }

  ghost predicate FreeBelow(p: Plan, pattern: Pattern, db: Database)
    decreases p, 0
  {
    match p
    case Filter(_, _, c) => Free(c, pattern, db)
    case Projection(_, _, c) => Free(c, pattern, db)
    case NestedLoopJoin(_, l, r, _, _) => Free(l, pattern, db) && Free(r, pattern, db)
    case HashJoin(_, l, r, _, _, _) => Free(l, pattern, db) && Free(r, pattern, db)
    case NestedIndexJoin(_, c, _, _, _, _, _) => Free(c, pattern, db)
    case Sort(_, _, c) => Free(c, pattern, db)
    case Limit(_, _, c) => Free(c, pattern, db)
    case Aggregation(_, _, _, _, c) => Free(c, pattern, db)
    case Modify(_, _, _, c) => Free(c, pattern, db)
    case _ => true
  }

  lemma BelowIs(p: Plan, pattern: Pattern, db: Database)
    ensures FreeBelow(p, pattern, db) <==> forall i :: 0 <= i < |Children(p)| ==> Free(Children(p)[i], pattern, db)
  {
    hide Has, Free;
    match p
    case Filter(_, _, c) => assert Children(p)[0] == c;
    case Projection(_, _, c) => assert Children(p)[0] == c;
    case NestedLoopJoin(_, l, r, _, _) => assert Children(p)[0] == l && Children(p)[1] == r;
    case HashJoin(_, l, r, _, _, _) => assert Children(p)[0] == l && Children(p)[1] == r;
    case NestedIndexJoin(_, c, _, _, _, _, _) => assert Children(p)[0] == c;
    case Sort(_, _, c) => assert Children(p)[0] == c;
    case Limit(_, _, c) => assert Children(p)[0] == c;
    case Aggregation(_, _, _, _, c) => assert Children(p)[0] == c;
    case Modify(_, _, _, c) => assert Children(p)[0] == c;
    case _ =>
  }

  // ----- a pass removes its pattern -----

  /** Where no child has the pattern, the rule leaves none. */
  ghost predicate Removes(rule: Plan -> Result<Plan>, pattern: Pattern, db: Database) {
    forall q :: FreeBelow(q, pattern, db) && rule(q).Ok? ==> Free(rule(q).value, pattern, db)
  }

  lemma {:induction false} EverywhereFree(p: Plan, rule: Plan -> Result<Plan>, pattern: Pattern, db: Database)
    requires Removes(rule, pattern, db) && Everywhere(p, rule).Ok?
    ensures Free(Everywhere(p, rule).value, pattern, db)
  {
    var q := EverywhereNode(p, rule);
    forall i | 0 <= i < |Children(p)| ensures Free(Children(q)[i], pattern, db) {
      Smaller(p, i);
      EverywhereFree(Children(p)[i], rule, pattern, db);
    }
    hide Has, Everywhere, SameNode, Children, Free, FreeBelow;
    BelowIs(q, pattern, db);
  }

  lemma Smaller(p: Plan, i: nat)
    requires i < |Children(p)|
    ensures Children(p)[i] < p
  {
  }

  lemma {:induction false} IdentityIs(es: seq<Expr>, from: nat)
    ensures IsIdentity(es, from) <==>
            forall i :: 0 <= i < |es| ==> es[i].ColumnValue? && es[i].tupleIdx == 0 && es[i].colIdx == from + i
  {
    if es != [] {
      IdentityIs(es[1..], from + 1);
      assert forall i :: 0 <= i < |es[1..]| ==> es[1..][i] == es[i + 1];
      assert forall i :: 1 <= i < |es| ==> es[i] == es[1..][i - 1];
    }
  }

  /** With other names for its columns a plan has the same patterns. */
  lemma RenamedFree(p: Plan, schema: Schema, pattern: Pattern, db: Database)
    requires Free(p, pattern, db) && Types(schema) == Types(p.schema)
    ensures Free(p.(schema := schema), pattern, db)
  {
    hide Types, Indexed, IndexedByName, CastToBool;
  }

  lemma ProjectionRemoves(db: Database)
    ensures Removes(MergeProjection, RenamingProjection, db)
  {
    forall q | FreeBelow(q, RenamingProjection, db) && MergeProjection(q).Ok?
      ensures Free(MergeProjection(q).value, RenamingProjection, db)
    {
      if q.Projection? {
        IdentityIs(q.expressions, 0);
        if Has(q, RenamingProjection, db) { RenamedFree(q.child, q.schema, RenamingProjection, db); }
      }
      hide Types;
    }
  }

  lemma FilterRemoves(db: Database)
    ensures Removes(MergeFilterNLJ, FilterOverTrueJoin, db)
  {
    forall q | FreeBelow(q, FilterOverTrueJoin, db) && MergeFilterNLJ(q).Ok?
      ensures Free(MergeFilterNLJ(q).value, FilterOverTrueJoin, db)
    {
      hide CastToBool, RewriteForJoin;
      if q.Filter? && q.child.NestedLoopJoin? {
        assert Free(q.child, FilterOverTrueJoin, db);
        assert FreeBelow(q.child, FilterOverTrueJoin, db);
      }
    }
  }

  lemma {:induction false} MatchIndexIff(db: Database, candidates: seq<nat>, column: nat)
    ensures MatchIndex(db, candidates, column).Some? <==>
            exists i :: 0 <= i < |candidates| && candidates[i] in db.indexes
                        && db.indexes[candidates[i]].keyAttrs == [column]
  {
    if candidates != [] {
      MatchIndexIff(db, candidates[1..], column);
      assert forall i :: 0 <= i < |candidates[1..]| ==> candidates[1..][i] == candidates[i + 1];
      assert forall i :: 1 <= i < |candidates| ==> candidates[i] == candidates[1..][i - 1];
    }
  }

  lemma {:induction false} MatchKeyNameIff(db: Database, candidates: seq<nat>, name: string)
    ensures MatchKeyName(db, candidates, name).Some? <==>
            exists i :: 0 <= i < |candidates| && candidates[i] in db.indexes
                        && |db.indexes[candidates[i]].keySchema| == 1
                        && db.indexes[candidates[i]].keySchema[0].name == name
  {
    if candidates != [] {
      MatchKeyNameIff(db, candidates[1..], name);
      assert forall i :: 0 <= i < |candidates[1..]| ==> candidates[1..][i] == candidates[i + 1];
      assert forall i :: 1 <= i < |candidates| ==> candidates[i] == candidates[1..][i - 1];
    }
  }

  /** The rule applies exactly to joins that have the pattern. */
  lemma IndexJoinApplies(q: Plan, db: Database)
    ensures NLJAsIndexJoin(db, q).Ok?
    ensures var r := NLJAsIndexJoin(db, q).value;
            if Has(q, IndexedJoin, db) then r.NestedIndexJoin? && r.child == q.left && r.schema == q.schema else r == q
  {
    if q.NestedLoopJoin? && IsColumnEquality(q.pred) && q.right.SeqScan? {
      MatchIndexIff(db, TableIndexes(db, q.right.tableName), q.pred.left.colIdx);
      MatchIndexIff(db, TableIndexes(db, q.right.tableName), q.pred.right.colIdx);
    }
  }

  lemma IndexScanApplies(q: Plan, db: Database)
    requires OrderByAsIndexScan(db, q).Ok?
    ensures var r := OrderByAsIndexScan(db, q).value;
            if Has(q, IndexedSort, db) then r.IndexScan? && r.schema == q.schema else r == q
  {
    if q.Sort? && |q.orderBys| == 1 && q.orderBys[0].0 != DESC && q.orderBys[0].1.ColumnValue? && q.child.SeqScan? {
      var table := db.tables[q.child.tableOid];
      var column := q.orderBys[0].1.colIdx;
      if column < |table.schema| { MatchKeyNameIff(db, TableIndexes(db, table.name), table.schema[column].name); }
    }
  }

  lemma IndexJoinRemoves(db: Database)
    ensures Removes(IndexJoinRule(db), IndexedJoin, db)
  {
    forall q | FreeBelow(q, IndexedJoin, db) && IndexJoinRule(db)(q).Ok?
      ensures Free(IndexJoinRule(db)(q).value, IndexedJoin, db)
    {
      IndexJoinApplies(q, db);
      hide NLJAsIndexJoin, Indexed;
    }
  }

  lemma IndexScanRemoves(db: Database)
    ensures Removes(IndexScanRule(db), IndexedSort, db)
  {
    forall q | FreeBelow(q, IndexedSort, db) && IndexScanRule(db)(q).Ok?
      ensures Free(IndexScanRule(db)(q).value, IndexedSort, db)
    {
      IndexScanApplies(q, db);
      hide OrderByAsIndexScan, IndexedByName;
    }
  }

  // ----- later passes bring no pattern back -----

  /** All that patterns look at in a child; `joins` if the pass makes no joins. */
  ghost predicate Alike(c: Plan, c': Plan, joins: bool) {
    && c'.schema == c.schema && (c'.SeqScan? ==> c' == c)
    && (joins && c'.NestedLoopJoin? ==> c.NestedLoopJoin? && c'.pred == c.pred)
  }

  ghost predicate AllAlike(q: Plan, q': Plan, joins: bool) {
    && SameNode(q, q') && |Children(q')| == |Children(q)|
    && forall i :: 0 <= i < |Children(q)| ==> Alike(Children(q)[i], Children(q')[i], joins)
  }

  /** A node with children alike has a pattern only if it had it before. */
  lemma AlikeHas(q: Plan, q': Plan, pattern: Pattern, db: Database, joins: bool)
    requires AllAlike(q, q', joins) && (pattern.FilterOverTrueJoin? ==> joins)
    ensures Has(q', pattern, db) ==> Has(q, pattern, db)
  {
    hide Types, CastToBool, Indexed, IndexedByName;
    match q
    case Filter(_, _, c) => assert Children(q)[0] == c && Children(q')[0] == q'.child;
    case Projection(_, _, c) => assert Children(q)[0] == c && Children(q')[0] == q'.child;
    case Sort(_, _, c) => assert Children(q)[0] == c && Children(q')[0] == q'.child;
    case NestedLoopJoin(_, _, r, _, _) => assert Children(q)[1] == r && Children(q')[1] == q'.right;
    case _ =>
  }

  /** A rule that makes no new instance of the pattern, and no difference to the node above. */
  ghost predicate Keeps(rule: Plan -> Result<Plan>, pattern: Pattern, db: Database, joins: bool) {
    forall q :: rule(q).Ok? ==>
      Alike(q, rule(q).value, joins) && (Free(q, pattern, db) ==> Free(rule(q).value, pattern, db))
  }

  lemma {:induction false} EverywhereKeeps(p: Plan, rule: Plan -> Result<Plan>, pattern: Pattern, db: Database,
                                           joins: bool)
    requires Keeps(rule, pattern, db, joins) && Everywhere(p, rule).Ok? && (pattern.FilterOverTrueJoin? ==> joins)
    requires Free(p, pattern, db)
    ensures Free(Everywhere(p, rule).value, pattern, db) && Alike(p, Everywhere(p, rule).value, joins)
  {
    var q := EverywhereNode(p, rule);
    BelowIs(p, pattern, db);
    forall i | 0 <= i < |Children(p)|
      ensures Free(Children(q)[i], pattern, db) && Alike(Children(p)[i], Children(q)[i], joins)
    {
      Smaller(p, i);
      EverywhereKeeps(Children(p)[i], rule, pattern, db, joins);
    }
    assert Alike(p, q, joins);
    hide Has, Everywhere, SameNode, Children, FreeBelow, Alike;
    BelowIs(q, pattern, db);
    AlikeHas(p, q, pattern, db, joins);
    assert Free(q, pattern, db);
    AlikeTwice(p, q, rule(q).value, joins);
  }

  lemma AlikeTwice(a: Plan, b: Plan, c: Plan, joins: bool)
    requires Alike(a, b, joins) && Alike(b, c, joins)
    ensures Alike(a, c, joins)
  {
  }

  lemma FilterKeeps(db: Database)
    ensures Keeps(MergeFilterNLJ, RenamingProjection, db, false)
  {
    forall q | MergeFilterNLJ(q).Ok?
      ensures Alike(q, MergeFilterNLJ(q).value, false)
      ensures Free(q, RenamingProjection, db) ==> Free(MergeFilterNLJ(q).value, RenamingProjection, db)
    {
      hide Types, CastToBool, RewriteForJoin;
      if q.Filter? && q.child.NestedLoopJoin? && Free(q, RenamingProjection, db) {
        assert FreeBelow(q, RenamingProjection, db);
        assert Free(q.child, RenamingProjection, db);
        assert FreeBelow(q.child, RenamingProjection, db);
      }
    }
  }

  lemma IndexJoinKeeps(db: Database, pattern: Pattern)
    requires pattern.RenamingProjection? || pattern.FilterOverTrueJoin?
    ensures Keeps(IndexJoinRule(db), pattern, db, true)
  {
    forall q | IndexJoinRule(db)(q).Ok?
      ensures Alike(q, IndexJoinRule(db)(q).value, true)
      ensures Free(q, pattern, db) ==> Free(IndexJoinRule(db)(q).value, pattern, db)
    {
      IndexJoinApplies(q, db);
      hide NLJAsIndexJoin, Indexed, Types, CastToBool;
      if q.NestedLoopJoin? && Free(q, pattern, db) { assert FreeBelow(q, pattern, db); }
    }
  }

  lemma IndexScanKeeps(db: Database, pattern: Pattern)
    ensures Keeps(IndexScanRule(db), pattern, db, true)
  {
    forall q | IndexScanRule(db)(q).Ok?
      ensures Alike(q, IndexScanRule(db)(q).value, true)
      ensures Free(q, pattern, db) ==> Free(IndexScanRule(db)(q).value, pattern, db)
    {
      IndexScanApplies(q, db);
      hide OrderByAsIndexScan, IndexedByName, Indexed, Types, CastToBool;
    }
  }

  /** The plans the optimizer makes are free of all four patterns. */
  lemma OptimizedForm(db: Database, plan: Plan, pattern: Pattern)
    requires OptimizeCustom(db, plan).Ok?
    ensures Free(OptimizeCustom(db, plan).value, pattern, db)
  {
    var p1 := Everywhere(plan, MergeProjection).value;
    var p2 := Everywhere(p1, MergeFilterNLJ).value;
    var p3 := Everywhere(p2, IndexJoinRule(db)).value;
    hide Everywhere, Free, Removes, Keeps, IndexJoinRule, IndexScanRule;
    if pattern.RenamingProjection? {
      ProjectionRemoves(db);
      EverywhereFree(plan, MergeProjection, pattern, db);
      FilterKeeps(db);
      EverywhereKeeps(p1, MergeFilterNLJ, pattern, db, false);
    }
    if pattern.FilterOverTrueJoin? {
      FilterRemoves(db);
      EverywhereFree(p1, MergeFilterNLJ, pattern, db);
    }
    if pattern.RenamingProjection? || pattern.FilterOverTrueJoin? {
      IndexJoinKeeps(db, pattern);
      EverywhereKeeps(p2, IndexJoinRule(db), pattern, db, true);
    }
    if pattern.IndexedJoin? {
      IndexJoinRemoves(db);
      EverywhereFree(p2, IndexJoinRule(db), pattern, db);
    }
    if pattern.IndexedSort? {
      IndexScanRemoves(db);
      EverywhereFree(p3, IndexScanRule(db), pattern, db);
    } else {
      IndexScanKeeps(db, pattern);
      EverywhereKeeps(p3, IndexScanRule(db), pattern, db, true);
    }
  }
}
