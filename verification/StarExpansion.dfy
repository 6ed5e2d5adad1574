/** `select *`: the columns the binder puts in the select list are the columns the planner gives the tables. */
module StarExpansion {
  import opened Options
  import opened Expressions
  import opened Plans
  import opened Optimizer
  import opened BoundTree
  import opened AggregationPlanning
  import opened SelectPlanning

  /** Every column of the plan is called what the binder calls it. */
  ghost predicate NamesAgree(schema: Schema, columns: seq<seq<string>>) {
    |schema| == |columns| && forall i :: 0 <= i < |schema| ==> schema[i].name == Rendered(columns[i])
  }

  // ----- widths -----

  lemma {:induction false} NameAllSize(ps: seq<Planned>, id: nat)
    ensures |NameAll(ps, id).0| == |ps|
  {
    if ps != [] { NameAllSize(ps[1..], if ps[0].name == UNNAMED_COLUMN then id + 1 else id); }
  }

  lemma ItemsWidth(s: Select, plan: Plan, id: nat)
    requires PlanItems(s, plan, id).Ok?
    ensures |PlanItems(s, plan, id).value.0.schema| == |s.selectList|
  {
    if HasAggregation(s) {
      var g := Grouping(s.groupBy, s.having, s.selectList);
      PlanAggregationIff(g, plan);
      var agg := PlanAggregation(g, plan).value;
      OverAggregation(g, agg);
      var avail := CallColumns(|agg.groupBys|, 0, |agg.aggregates|);
      var used := if g.having.Invalid? then 0 else |Calls(g.having)|;
      PlanExprIff(g.having, [agg.schema], avail, 0);
      PlanExprsIff(g.selectList, [agg.schema], avail, used);
    } else {
      PlanExprsIff(s.selectList, [plan.schema], [], 0);
      NameAllSize(PlanExprs(s.selectList, [plan.schema], [], 0).value.0, id);
    }
  }

  /** A planned select statement has one column per item of its select list. */
  lemma SelectWidth(catalog: Catalog, s: Select, ctes: seq<Subquery>, id: nat, n: nat)
    requires WellBoundSelect(s) && WellBoundList(ctes) && EndsSelect(catalog, s, ctes, id, n)
             && PlanSelect(catalog, s, ctes, id, n).Ok?
    ensures |PlanSelect(catalog, s, ctes, id, n).value.0.schema| == |s.selectList|
  {
    hide PlanItems, PlanTableRef, PlanWhere;
    var (table, id1) := if s.table.EmptyRef? then (Values([], [[]]), id)
                        else PlanTableRef(catalog, s.table, Scope(s, ctes), id, n).value;
    ItemsWidth(s, PlanWhere(s, table).value, id1);
  }

  // ----- names -----

  lemma RenderedPrefix(alias: string, path: seq<string>)
    requires path != []
    ensures Rendered([alias] + path) == alias + "." + Rendered(path)
  {
    assert ([alias] + path)[1..] == path;
  }

  lemma QueryAgrees(select: Plan, alias: string, names: seq<seq<string>>)
    requires RenameQuery(select, alias, names).Ok?
    requires forall i :: 0 <= i < |names| ==> names[i] != []
    ensures NamesAgree(RenameQuery(select, alias, names).value.schema, QueryColumns(alias, names))
  {
    var schema := RenameQuery(select, alias, names).value.schema;
    forall i | 0 <= i < |schema| ensures schema[i].name == Rendered(QueryColumns(alias, names)[i]) {
      RenderedPrefix(alias, names[i]);
    }
  }

  lemma AliasedColumns(a: string, alias: string, names: seq<seq<string>>)
    ensures WithAlias(QueryColumns(a, names), alias) == QueryColumns(alias, names)
  {
    hide WithAlias, QueryColumns;
    var qs := QueryColumns(a, names);
    forall i | 0 <= i < |names| ensures WithAlias(qs, alias)[i] == QueryColumns(alias, names)[i] {
      assert qs[i] == [a] + names[i] && qs[i] != [];
      assert ([a] + names[i])[0 := alias] == [alias] + names[i];
    }
  }

  /** Where both lists have an entry for a name that the columns of `t` come from, the entries have the same columns. */
  ghost predicate SameColumns(t: TableRef, bound: seq<Subquery>, ctes: seq<Subquery>) {
    match t
    case CrossProduct(l, r) => SameColumns(l, bound, ctes) && SameColumns(r, bound, ctes)
    case JoinRef(l, r, _, _) => SameColumns(l, bound, ctes) && SameColumns(r, bound, ctes)
    case CteRef(name, _) =>
      FindCte(bound, name).Some? && FindCte(ctes, name).Some? ==>
        bound[FindCte(bound, name).value].names == ctes[FindCte(ctes, name).value].names
    case _ => true
  }

  lemma {:induction false} SameList(t: TableRef, ctes: seq<Subquery>)
    ensures SameColumns(t, ctes, ctes)
  {
    match t
    case CrossProduct(l, r) => SameList(l, ctes); SameList(r, ctes);
    case JoinRef(l, r, _, _) => SameList(l, ctes); SameList(r, ctes);
    case _ =>
  }

  /**
   The names of the expanded columns are those of the planned schema, in order, for every table reference.  The binder
   expands with the list `bound` and the planner plans with `ctes`, which are not the same inside a definition.
   */
  lemma {:induction false} StarAgrees(
      catalog: Catalog, t: TableRef, bound: seq<Subquery>, ctes: seq<Subquery>, id: nat, n: nat)
    requires WellBound(t) && WellBoundList(ctes) && Ends(catalog, t, ctes, id, n)
    requires GetAllColumns(t, bound).Ok? && PlanTableRef(catalog, t, ctes, id, n).Ok? && SameColumns(t, bound, ctes)
    ensures NamesAgree(PlanTableRef(catalog, t, ctes, id, n).value.0.schema, GetAllColumns(t, bound).value)
  {
    hide PlanSelect, NamesAgree;
    match t
    case BaseTable(_, _, schema) => BaseAgrees(catalog, t);
    case CrossProduct(l, r) =>
      StarAgrees(catalog, l, bound, ctes, id, n);
      var (l', id1) := PlanTableRef(catalog, l, ctes, id, n).value;
      StarAgrees(catalog, r, bound, ctes, id1, n);
      var r' := PlanTableRef(catalog, r, ctes, id1, n).value.0;
      ConcatAgrees(l'.schema, r'.schema, GetAllColumns(l, bound).value, GetAllColumns(r, bound).value);
    case JoinRef(l, r, _, _) =>
      StarAgrees(catalog, l, bound, ctes, id, n);
      var (l', id1) := PlanTableRef(catalog, l, ctes, id, n).value;
      StarAgrees(catalog, r, bound, ctes, id1, n);
      var r' := PlanTableRef(catalog, r, ctes, id1, n).value.0;
      ConcatAgrees(l'.schema, r'.schema, GetAllColumns(l, bound).value, GetAllColumns(r, bound).value);
    case SubqueryRef(q) =>
      assert WellBoundQuery(q);
      var (s, _) := PlanSelect(catalog, q.select, ctes, id, n).value;
      QueryAgrees(s, q.alias, q.names);
    case CteRef(name, alias) =>
      var q := ctes[FindCte(ctes, name).value];
      assert WellBoundQuery(q);
      var (s, _) := PlanSelect(catalog, q.select, ctes, id, n - 1).value;
      QueryAgrees(s, alias, q.names);
      AliasedColumns(bound[FindCte(bound, name).value].alias, alias, q.names);
  }

  lemma BaseAgrees(catalog: Catalog, t: TableRef)
    requires t.BaseTable? && PlanBaseTable(catalog, t).Ok?
    ensures NamesAgree(PlanBaseTable(catalog, t).value.schema, BaseColumns(BoundTableName(t), t.schema))
  {
    var name := BoundTableName(t);
    forall i | 0 <= i < |t.schema| ensures Rendered([name, t.schema[i].name]) == name + "." + t.schema[i].name {
      assert [name, t.schema[i].name] == [name] + [t.schema[i].name];
      RenderedPrefix(name, [t.schema[i].name]);
    }
  }

  lemma ConcatAgrees(l: Schema, r: Schema, ls: seq<seq<string>>, rs: seq<seq<string>>)
    requires NamesAgree(l, ls) && NamesAgree(r, rs)
    ensures NamesAgree(l + r, ls + rs)
  {
  }

  // ----- expanded columns have a dot in their names -----

  ghost predicate Qualified(columns: seq<seq<string>>) {
    forall i :: 0 <= i < |columns| ==> |columns[i]| >= 2
  }

  lemma QueryQualified(q: Subquery, alias: string)
    requires WellBoundQuery(q)
    ensures Qualified(QueryColumns(alias, q.names))
  {
    hide QueryColumns;
  }

  lemma {:induction false} ColumnsQualified(t: TableRef, ctes: seq<Subquery>)
    requires WellBound(t) && WellBoundList(ctes) && GetAllColumns(t, ctes).Ok?
    ensures Qualified(GetAllColumns(t, ctes).value)
  {
    hide WithAlias, QueryColumns, BaseColumns, FindCte;
    match t
    case CrossProduct(l, r) => ColumnsQualified(l, ctes); ColumnsQualified(r, ctes);
    case JoinRef(l, r, _, _) => ColumnsQualified(l, ctes); ColumnsQualified(r, ctes);
    case SubqueryRef(q) => QueryQualified(q, q.alias);
    case CteRef(name, alias) =>
      var q := ctes[FindCte(ctes, name).value];
      QueryQualified(q, alias);
      AliasedColumns(q.alias, alias, q.names);
    case _ =>
  }

  lemma QualifiedIsNamed(path: seq<string>)
    requires |path| >= 2
    ensures Rendered(path) != UNNAMED_COLUMN
  {
    var s := Rendered(path);
    assert s[|path[0]|] == '.';
    assert forall i :: 0 <= i < |UNNAMED_COLUMN| ==> UNNAMED_COLUMN[i] != '.';
  }

  // ----- the plan of `select *` -----

  function Refs(columns: seq<seq<string>>): (r: seq<BoundExpr>)
    ensures |r| == |columns| && forall i :: 0 <= i < |r| ==> r[i] == ColumnRef(columns[i])
  {
    if columns == [] then [] else [ColumnRef(columns[0])] + Refs(columns[1..])
  }

  ghost predicate DistinctNames(schema: Schema) {
    forall i, j :: 0 <= i < j < |schema| ==> schema[i].name != schema[j].name
  }

  lemma {:induction false} FindDistinct(schema: Schema, i: nat)
    requires DistinctNames(schema) && i < |schema|
    ensures Find(schema, schema[i].name) == Some(i) && !Duplicated(schema, schema[i].name)
  {
    if i > 0 {
      FindDistinct(schema[1..], i - 1);
    } else {
      FindInRange(schema[1..], schema[0].name);
    }
  }

  lemma {:induction false} FindPresent(schema: Schema, i: nat)
    requires i < |schema|
    ensures Find(schema, schema[i].name).Some?
  {
    if i > 0 { FindPresent(schema[1..], i - 1); }
  }

  lemma {:induction false} DuplicatedPresent(schema: Schema, i: nat, j: nat)
    requires i < j < |schema| && schema[i].name == schema[j].name
    ensures Duplicated(schema, schema[i].name)
  {
    if i > 0 && schema[0].name != schema[i].name {
      DuplicatedPresent(schema[1..], i - 1, j - 1);
    } else {
      FindPresent(schema[1..], j - 1);
    }
  }

  /** The columns `k`, `k + 1`, ... of a schema, planned. */
  function PlannedColumns(schema: Schema, k: nat): (r: seq<Planned>)
    requires k <= |schema|
    ensures |r| == |schema| - k
    ensures forall i :: 0 <= i < |r| ==> r[i] == Planned(schema[k + i].name, ColumnValue(0, k + i, schema[k + i].ty))
    decreases |schema| - k
  {
    if k == |schema| then []
    else [Planned(schema[k].name, ColumnValue(0, k, schema[k].ty))] + PlannedColumns(schema, k + 1)
  }

  lemma {:induction false} PlanRefs(columns: seq<seq<string>>, schema: Schema, k: nat)
    requires NamesAgree(schema, columns) && DistinctNames(schema) && k <= |columns|
    ensures PlanExprs(Refs(columns[k..]), [schema], [], 0) == Ok((PlannedColumns(schema, k), 0))
    decreases |columns| - k
  {
    if k < |columns| {
      FindDistinct(schema, k);
      PlanRefs(columns, schema, k + 1);
      assert columns[k..][1..] == columns[k + 1..];
      assert Refs(columns[k..])[0] == ColumnRef(columns[k]);
      assert PlanExpr(ColumnRef(columns[k]), [schema], [], 0) == Ok((PlannedColumns(schema, k)[0], 0));
      assert Refs(columns[k..])[1..] == Refs(columns[k + 1..]);
    }
  }

  lemma {:induction false} AllNamed(ps: seq<Planned>, id: nat)
    requires forall i :: 0 <= i < |ps| ==> ps[i].name != UNNAMED_COLUMN
    ensures NameAll(ps, id) == (NamesOf(ps), id)
  {
    if ps != [] { AllNamed(ps[1..], id); }
  }

  /** A statement of the form `select * from ...`. */
  ghost predicate IsStar(s: Select, columns: seq<seq<string>>) {
    && s.selectList == Refs(columns) && s.filter.Invalid? && s.groupBy == [] && s.having.Invalid? && !s.distinct
    && s.orderBys == [] && s.limit.Invalid? && s.offset.Invalid?
  }

  lemma {:induction false} NoCallsInRefs(columns: seq<seq<string>>)
    ensures AllCalls(Refs(columns)) == []
  {
    if columns != [] { NoCallsInRefs(columns[1..]); }
  }

  lemma StarClauses(s: Select, table: Plan, columns: seq<seq<string>>, id: nat)
    requires IsStar(s, columns)
    ensures PlanClauses(s, table, id) ==
            (var (items, _) :- PlanExprs(Refs(columns), [table.schema], [], 0);
             var (names, id') := NameAll(items, id);
             var schema :- RenameSchema(InferProjectionSchema(Exprs(items)), names);
             Ok((Projection(schema, Exprs(items), table), id')))
  {
    NoCallsInRefs(columns);
    assert PlanWhere(s, table) == Ok(table);
    hide PlanExprs, NameAll, InferProjectionSchema, RenameSchema, Exprs;
    assert !HasAggregation(s);
    var r := PlanItems(s, table, id);
    if r.Ok? {
      assert PlanDistinct(s, r.value.0) == r.value.0;
      assert PlanOrderBy(s, r.value.0) == Ok(r.value.0);
      assert PlanLimit(s, r.value.0) == Ok(r.value.0);
    }
  }

  lemma StarOnDistinct(table: Schema, columns: seq<seq<string>>, id: nat)
    requires NamesAgree(table, columns) && Qualified(columns) && DistinctNames(table)
    ensures var ps := PlannedColumns(table, 0);
            && PlanExprs(Refs(columns), [table], [], 0) == Ok((ps, 0))
            && NameAll(ps, id) == (NamesOf(ps), id)
            && RenameSchema(InferProjectionSchema(Exprs(ps)), NamesOf(ps)) == Ok(table)
            && Exprs(ps) == Columns(table, 0)
  {
    PlanRefs(columns, table, 0);
    assert columns[0..] == columns;
    var ps := PlannedColumns(table, 0);
    hide PlanExprs, Refs, PlannedColumns, InferProjectionSchema, Exprs, NamesOf, NameAll, Columns, Rendered, Renamed;
    forall i | 0 <= i < |ps| ensures ps[i].name != UNNAMED_COLUMN { QualifiedIsNamed(columns[i]); }
    AllNamed(ps, id);
    assert Exprs(ps) == Columns(table, 0);
    IdentitySchema(table);
  }

  lemma StarOnDuplicate(table: Schema, columns: seq<seq<string>>)
    requires NamesAgree(table, columns) && !DistinctNames(table)
    ensures PlanExprs(Refs(columns), [table], [], 0) == Throws
  {
    var i, j :| 0 <= i < j < |table| && table[i].name == table[j].name;
    DuplicatedPresent(table, i, j);
    assert !Plannable(ColumnRef(columns[i]), [table]);
    hide PlanExprs, Find, Duplicated, Plannable, Refs, AllCalls, Rendered;
    PlanExprsIff(Refs(columns), [table], [], 0);
    assert Refs(columns)[i] == ColumnRef(columns[i]);
  }

  /**
   Over a table with the agreed names, `*` is the identity projection if the names are distinct and an error otherwise.
   */
  lemma StarItems(s: Select, table: Plan, columns: seq<seq<string>>, id: nat)
    requires IsStar(s, columns) && NamesAgree(table.schema, columns) && Qualified(columns)
    ensures PlanClauses(s, table, id) ==
            if DistinctNames(table.schema) then Ok((Projection(table.schema, Columns(table.schema, 0), table), id))
            else Throws
  {
    StarClauses(s, table, columns, id);
    hide *;
    if DistinctNames(table.schema) {
      StarOnDistinct(table.schema, columns, id);
    } else {
      StarOnDuplicate(table.schema, columns);
    }
  }

  lemma {:induction false} InferredTypes(exprs: seq<Expr>)
    ensures forall i :: 0 <= i < |exprs| ==> InferProjectionSchema(exprs)[i].ty == ReturnType(exprs[i])
  {
    if exprs != [] { InferredTypes(exprs[1..]); }
  }

  lemma IdentitySchema(schema: Schema)
    ensures var ps := PlannedColumns(schema, 0);
            Renamed(InferProjectionSchema(Exprs(ps)), NamesOf(ps)) == schema
  {
    var ps := PlannedColumns(schema, 0);
    InferredTypes(Exprs(ps));
    var r := Renamed(InferProjectionSchema(Exprs(ps)), NamesOf(ps));
    assert forall i :: 0 <= i < |schema| ==> r[i] == schema[i];
  }

  lemma {:induction false} IdentityColumns(schema: Schema, from: nat)
    ensures IsIdentity(Columns(schema, from), from)
  {
    if schema != [] {
      IdentityColumns(schema[1..], from + 1);
      assert Columns(schema, from)[1..] == Columns(schema[1..], from + 1);
    }
  }

  /**
   `select *` plans exactly when the columns of its tables have distinct names; its plan is a projection that
   the optimizer takes away again, leaving the plan of the tables.
   */
  lemma SelectStar(catalog: Catalog, s: Select, ctes: seq<Subquery>, id: nat, n: nat)
    requires WellBoundSelect(s) && WellBoundList(ctes) && EndsSelect(catalog, s, ctes, id, n) && !s.table.EmptyRef?
    requires var list := Scope(s, ctes);
             && GetAllColumns(s.table, list).Ok? && IsStar(s, GetAllColumns(s.table, list).value)
             && PlanTableRef(catalog, s.table, list, id, n).Ok?
    ensures var (table, id') := PlanTableRef(catalog, s.table, Scope(s, ctes), id, n).value;
            && (PlanSelect(catalog, s, ctes, id, n).Ok? <==> DistinctNames(table.schema))
            && (PlanSelect(catalog, s, ctes, id, n).Ok? ==>
                  && PlanSelect(catalog, s, ctes, id, n).value.1 == id'
                  && MergeProjection(PlanSelect(catalog, s, ctes, id, n).value.0) == Ok(table))
  {
    var list := Scope(s, ctes);
    var columns := GetAllColumns(s.table, list).value;
    var (table, id') := PlanTableRef(catalog, s.table, list, id, n).value;
    assert PlanSelect(catalog, s, ctes, id, n) == PlanClauses(s, table, id') by {
      hide PlanClauses, PlanTableRef, GetAllColumns, IsStar, DistinctNames;
    }
    hide PlanClauses, PlanTableRef, PlanSelect, GetAllColumns, IsStar, NamesAgree, Qualified, DistinctNames,
         MergeProjection, WellBound;
    SameList(s.table, list);
    StarAgrees(catalog, s.table, list, list, id, n);
    ColumnsQualified(s.table, list);
    StarItems(s, table, columns, id');
    MergeIdentity(table);
  }

  lemma MergeIdentity(table: Plan)
    ensures MergeProjection(Projection(table.schema, Columns(table.schema, 0), table)) == Ok(table)
  {
    IdentityColumns(table.schema, 0);
  }
}
