/**
 Statements on which the planner's own lists and the binder's scopes part: a definition that is lost, one that is
 planned from itself without end, and one of another list that is planned in its place; and a definition with a call,
 which can be used only once.
 */
module CteStatements {
  import opened Options
  import opened Expressions
  import opened Plans
  import opened BoundTree
  import opened AggregationPlanning
  import opened SelectPlanning
  import opened StarExpansion
  import opened CteScopes
  import opened InPlacePlanning

  function SelectItem(table: TableRef, item: BoundExpr, ctes: seq<Subquery>): Select {
    Select(table, [item], Invalid, [], Invalid, false, [], Invalid, Invalid, ctes)
  }

  /** `a as (select v x)`. */
  function Define(v: int): Subquery {
    Subquery(SelectItem(EmptyRef, Alias("x", ConstantExpr(Int(v))), []), [["x"]], "a")
  }

  /** `name as (select * from a)`. */
  function UseOf(name: string): Subquery {
    Subquery(SelectItem(CteRef("a", "a"), ColumnRef(["a", "x"]), []), [["a", "x"]], name)
  }

  /** `with list select * from name`. */
  function Inner(name: string, list: seq<Subquery>): Select {
    SelectItem(CteRef(name, name), ColumnRef([name, "a", "x"]), list)
  }

  /** `with a as (select 1 x) select * from (with list select * from name) t`. */
  function Nested(name: string, list: seq<Subquery>): Select {
    SelectItem(SubqueryRef(Subquery(Inner(name, list), [[name, "a", "x"]], "t")), ColumnRef(["t", name, "a", "x"]),
               [Define(1)])
  }

  /** `select * from (select) alias`, where the statement inside has one column. */
  function Layer(select: Select, path: seq<string>, alias: string): Select {
    SelectItem(SubqueryRef(Subquery(select, [path], alias)), ColumnRef([alias] + path), [])
  }

  /** `select * from (select * from (select * from (select v x) a) name) t`. */
  function Through(v: int, name: string): Select {
    Layer(Layer(Layer(Define(v).select, ["x"], "a"), ["a", "x"], name), [name, "a", "x"], "t")
  }

  lemma FindOnly(q: Subquery, name: string)
    ensures FindCte([q], name) == if q.alias == name then Some(0) else None
  {
    assert [q][1..] == [];
  }

  // ----- what they return when planned -----

  /** A statement without tables of its own is planned, and returns one value. */
  ghost predicate Returns(catalog: Catalog, s: Select, id: nat, db: Database, v: Value) {
    && WellBoundSelect(s) && DirectSelect(s) && |s.selectList| == 1 && EndsSelect(catalog, s, [], id, 0)
    && PlanSelect(catalog, s, [], id, 0).Ok? && |PlanSelect(catalog, s, [], id, 0).value.0.schema| == 1
    && Rows(PlanSelect(catalog, s, [], id, 0).value.0, db) == Some([[v]])
  }

  lemma DefinePlanned(v: int, id: nat)
    ensures PlanClauses(Define(v).select, Values([], [[]]), id) ==
            Ok((Projection([Column("x", INTEGER)], [Constant(Int(v))], Values([], [[]])), id))
  {
    var s, table, item := Define(v).select, Values([], [[]]), Planned("x", Constant(Int(v)));
    var p := Projection([Column("x", INTEGER)], [item.expr], table);
    assert PlanItems(s, table, id) == Ok((p, id)) by {
      assert PlanExpr(s.selectList[0], [[]], [], 0) == Ok((item, 0));
      hide PlanExpr;
      assert s.selectList[1..] == [] && [item][1..] == [] && [item] + [] == [item];
      assert Calls(ConstantExpr(Int(v))) == [];
      assert AllCalls(s.selectList) == Calls(s.selectList[0]) + AllCalls(s.selectList[1..]);
      assert PlanExprs(s.selectList[1..], [[]], [], 0) == Ok(([], 0));
      assert PlanExprs(s.selectList, [[]], [], 0) == Ok(([item], 0));
      assert "x" != UNNAMED_COLUMN by { assert |"x"| != |UNNAMED_COLUMN|; }
      assert NameAll([item], id) == (["x"], id) by {
        assert NameAll([item][1..], id) == ([], id) && ["x"] + [] == ["x"];
      }
      assert Exprs([item]) == [item.expr];
      assert InferProjectionSchema([item.expr]) == [Column(UNNAMED_COLUMN, INTEGER)] by {
        assert [item.expr][1..] == [];
      }
      assert Renamed([Column(UNNAMED_COLUMN, INTEGER)], ["x"]) == [Column("x", INTEGER)];
      assert !HasAggregation(s);
      hide PlanExprs, NameAll, InferProjectionSchema, Exprs, HasAggregation;
    }
    hide PlanItems;
    assert PlanDistinct(s, p) == p && PlanOrderBy(s, p) == Ok(p) && PlanLimit(s, p) == Ok(p);
  }

  lemma DefineFormed(catalog: Catalog, v: int, id: nat)
    ensures var s := Define(v).select;
            WellBoundSelect(s) && DirectSelect(s) && EndsSelect(catalog, s, [], id, 0) && s.table.EmptyRef?
  {
  }

  lemma DefineReturns(catalog: Catalog, v: int, id: nat, db: Database)
    ensures Returns(catalog, Define(v).select, id, db, Int(v))
  {
    var none: seq<seq<Expr>>, row: seq<Row> := [[]], [[]];
    assert ValuesRows(none) == row by { assert none[1..] == []; }
    assert EvalAll([Constant(Int(v))], []) == [Int(v)] by { assert [Constant(Int(v))][1..] == []; }
    assert ProjectRows(row, [Constant(Int(v))]) == [[Int(v)]] by { assert row[1..] == []; }
    var s, p := Define(v).select, Projection([Column("x", INTEGER)], [Constant(Int(v))], Values([], none));
    assert Rows(p.child, db) == Some(row);
    assert Rows(p, db) == Some([[Int(v)]]);
    DefineFormed(catalog, v, id);
    DefinePlanned(v, id);
    PlanSelectIs(catalog, s, [], id, 0);
    hide PlanClauses, PlanSelect, Rows;
  }

  lemma OneValue(schema: Schema, v: Value)
    requires |schema| == 1
    ensures ProjectRows([[v]], Columns(schema, 0)) == [[v]]
  {
    var e := ColumnValue(0, 0, schema[0].ty);
    assert Columns(schema, 0) == [e] && [e][1..] == [];
    assert [[v]][1..] == [];
    hide Columns;
    assert Eval(e, [v]) == v;
    hide Eval;
    assert EvalAll([e], [v]) == [v];
  }

  lemma RenamedReturns(plan: Plan, path: seq<string>, alias: string, db: Database, v: Value)
    requires |plan.schema| == 1 && Rows(plan, db) == Some([[v]]) && path != []
    ensures var table := RenameQuery(plan, alias, [path]);
            && table.Ok? && |table.value.schema| == 1 && Rows(table.value, db) == Some([[v]])
            && NamesAgree(table.value.schema, QueryColumns(alias, [path]))
  {
    OneValue(plan.schema, v);
    QueryAgrees(plan, alias, [path]);
  }

  lemma LayerFormed(catalog: Catalog, s: Select, path: seq<string>, alias: string, id: nat)
    requires WellBoundSelect(s) && DirectSelect(s) && |s.selectList| == 1 && EndsSelect(catalog, s, [], id, 0)
             && path != []
    ensures var layer := Layer(s, path, alias);
            && WellBoundSelect(layer) && DirectSelect(layer) && EndsSelect(catalog, layer, [], id, 0)
            && |layer.selectList| == 1 && IsStar(layer, QueryColumns(alias, [path]))
  {
    hide PlanSelect;
    var layer := Layer(s, path, alias);
    assert WellBoundQuery(layer.table.query);
    assert EndsSelect(catalog, s, [], id, 0) ==> Ends(catalog, layer.table, [], id, 0);
  }

  lemma LayerTable(catalog: Catalog, s: Select, path: seq<string>, alias: string, id: nat)
    requires WellBoundSelect(s) && EndsSelect(catalog, s, [], id, 0) && PlanSelect(catalog, s, [], id, 0).Ok?
    requires WellBoundSelect(Layer(s, path, alias)) && EndsSelect(catalog, Layer(s, path, alias), [], id, 0)
    requires RenameQuery(PlanSelect(catalog, s, [], id, 0).value.0, alias, [path]).Ok?
    ensures var (plan, id1) := PlanSelect(catalog, s, [], id, 0).value;
            PlanFrom(catalog, Layer(s, path, alias), [], id, 0) == Ok((RenameQuery(plan, alias, [path]).value, id1))
  {
    hide PlanSelect, RenameQuery, WellBoundSelect;
  }

  lemma LayerReturns(catalog: Catalog, s: Select, path: seq<string>, alias: string, id: nat, db: Database, v: Value)
    requires Returns(catalog, s, id, db, v) && path != []
    ensures Returns(catalog, Layer(s, path, alias), id, db, v)
  {
    LayerFormed(catalog, s, path, alias, id);
    var layer := Layer(s, path, alias);
    var (plan, id1) := PlanSelect(catalog, s, [], id, 0).value;
    RenamedReturns(plan, path, alias, db, v);
    var table := RenameQuery(plan, alias, [path]).value;
    var projected := Projection(table.schema, Columns(table.schema, 0), table);
    OneValue(table.schema, v);
    assert Rows(projected, db) == Some([[v]]);
    hide WellBoundSelect, EndsSelect, DirectSelect, RenameQuery, PlanSelect, Rows, PlanFrom, PlanClauses, Layer, IsStar,
         NamesAgree;
    LayerTable(catalog, s, path, alias, id);
    StarItems(layer, table, QueryColumns(alias, [path]), id1);
    PlanSelectIs(catalog, layer, [], id, 0);
    assert PlanSelect(catalog, layer, [], id, 0) == Ok((projected, id1));
  }

  lemma ThroughReturns(catalog: Catalog, v: int, name: string, id: nat, db: Database)
    ensures Returns(catalog, Through(v, name), id, db, Int(v))
  {
    hide Returns, Layer, Define;
    DefineReturns(catalog, v, id, db);
    var a := Layer(Define(v).select, ["x"], "a");
    LayerReturns(catalog, Define(v).select, ["x"], "a", id, db, Int(v));
    LayerReturns(catalog, a, ["a", "x"], name, id, db, Int(v));
    LayerReturns(catalog, Layer(a, ["a", "x"], name), [name, "a", "x"], "t", id, db, Int(v));
  }

  /** The planner plans the statement and it returns one value. */
  ghost predicate QueryReturns(catalog: Catalog, s: Select, id: nat, n: nat, db: Database, v: Value) {
    && WellBoundSelect(s) && EndsQuery(catalog, s, id, n) && PlanQuery(catalog, s, id, n).Ok?
    && Rows(PlanQuery(catalog, s, id, n).value.0, db) == Some([[v]])
  }

  lemma ThroughQuery(catalog: Catalog, v: int, name: string, id: nat, db: Database)
    ensures Returns(catalog, Through(v, name), id, db, Int(v))
    ensures QueryReturns(catalog, Through(v, name), id, 0, db, Int(v))
  {
    ThroughReturns(catalog, v, name, id, db);
    hide Through, Rows, PlanSelect, PlanQuery, EndsSelect, EndsQuery, WellBoundSelect, DirectSelect;
    DirectQuery(catalog, Through(v, name), id, 0);
  }

  lemma PlainItem(table: TableRef, item: BoundExpr, ctes: seq<Subquery>)
    requires Calls(item) == []
    ensures !HasCalls(SelectItem(table, item, ctes))
  {
    assert [item][1..] == [];
    assert AllCalls([item]) == Calls(item) + AllCalls([]);
  }

  lemma UseAsBound(name: string)
    ensures ExpandSelect(UseOf(name).select, [[Define(1)]]) == Some(Layer(Define(1).select, ["x"], "a"))
  {
    FindOnly(Define(1), "a");
    var s1: Stack := [[Define(1)]];
    assert s1[..0] == [];
    assert Expand(CteRef("a", "a"), s1) == Some(Layer(Define(1).select, ["x"], "a").table);
    assert ["a"] + ["x"] == ["a", "x"];
  }

  /** As it is bound, the statement selects the value of the enclosing definition, whatever else the list holds. */
  lemma NestedAsBound(name: string, list: seq<Subquery>)
    requires FindCte(list, name).Some? && list[FindCte(list, name).value] == UseOf(name)
    ensures ExpandSelect(Nested(name, list), []) == Some(Through(1, name))
  {
    var s1: Stack, s2: Stack := [[Define(1)]], [[Define(1)], list];
    assert [] + [[Define(1)]] == s1 && s1 + [list] == s2 && s2[..1] == s1;
    var a := Layer(Define(1).select, ["x"], "a");
    assert ExpandSelect(UseOf(name).select, s1) == Some(a) by { UseAsBound(name); }
    assert [name] + ["a", "x"] == [name, "a", "x"] && ["t"] + [name, "a", "x"] == ["t", name, "a", "x"];
    var b := Layer(a, ["a", "x"], name);
    assert Expand(CteRef(name, name), s2) == Some(b.table);
    assert ExpandSelect(Inner(name, list), s1) == Some(b);
    assert Expand(Nested(name, list).table, s1) == Some(Through(1, name).table);
  }

  lemma NestedIsWellBound(name: string, list: seq<Subquery>)
    requires list == [UseOf(name)] || list == [Define(2), UseOf(name)]
    ensures WellBoundSelect(Nested(name, list)) && WellBoundList(list)
  {
    assert WellBoundQuery(Define(1)) && WellBoundQuery(Define(2)) && WellBoundQuery(UseOf(name));
    assert WellBoundSelect(Inner(name, list));
  }

  // ----- the statements -----

  /**
   `with a as (select 1 x) select * from (with b as (select * from a) select * from b) t` returns 1 as it is bound,
   but the planner does not find `a`.
   */
  lemma OuterNameIsLost(catalog: Catalog, id: nat, db: Database)
    ensures var s := Nested("b", [UseOf("b")]);
            && WellBoundSelect(s) && EndsQuery(catalog, s, id, 1) && PlanQuery(catalog, s, id, 1) == Throws
            && ExpandSelect(s, []).Some? && QueryReturns(catalog, ExpandSelect(s, []).value, id, 0, db, Int(1))
  {
    var list := [UseOf("b")];
    var s := Nested("b", list);
    FindOnly(UseOf("b"), "b");
    FindOnly(UseOf("b"), "a");
    NestedIsWellBound("b", list);
    NestedAsBound("b", list);
    assert FiniteSelect(UseOf("b").select, list, 0) && OwnSelect(UseOf("b").select, list, 0).None?;
    assert FiniteSelect(Inner("b", list), [Define(1)], 1) && OwnSelect(Inner("b", list), [Define(1)], 1).None?;
    assert FiniteSelect(s, [], 1) && OwnSelect(s, [], 1).None?;
    hide QueryReturns, PlanQuery, EndsQuery, ExpandSelect, FiniteSelect, OwnSelect, Nested;
    ThroughQuery(catalog, 1, "b", id, db);
    FiniteQueryEnds(catalog, s, id, 1);
    QueryPlannedIff(catalog, s, id, 1);
  }

  /**
   `with a as (select 1 x) select * from (with a as (select * from a) select * from a) t` returns 1 as it is bound,
   but the planner comes back to the inner definition again and again.
   */
  lemma NamesakeNeverEnds(catalog: Catalog, id: nat, db: Database, n: nat)
    ensures var s := Nested("a", [UseOf("a")]);
            && WellBoundSelect(s) && !EndsQuery(catalog, s, id, n)
            && ExpandSelect(s, []).Some? && QueryReturns(catalog, ExpandSelect(s, []).value, id, 0, db, Int(1))
  {
    var list := [UseOf("a")];
    FindOnly(UseOf("a"), "a");
    NestedIsWellBound("a", list);
    NestedAsBound("a", list);
    NestedNeverEnds(catalog, [], NO_LIST, Progress(id, {}), n);
    hide QueryReturns, EndsSelectInPlace, Nested, ExpandSelect, WellBoundSelect, Through;
    ThroughQuery(catalog, 1, "a", id, db);
  }

  lemma {:induction false} NoEnd(catalog: Catalog, at: Place, list: Place, st: Progress, n: nat)
    ensures WellBoundList([UseOf("a")])
    ensures !EndsInPlace(catalog, CteRef("a", "a"), at, CteList([UseOf("a")], list), st, n)
    decreases n
  {
    assert WellBoundQuery(UseOf("a"));
    FindOnly(UseOf("a"), "a");
    if n > 0 {
      NoEnd(catalog, list + [0] + [0], list, st, n - 1);
      assert !EndsSelectInPlace(catalog, UseOf("a").select, list + [0], CteList([UseOf("a")], list), st, n - 1);
    }
  }

  lemma InnerNeverEnds(catalog: Catalog, at: Place, list: CteList, st: Progress, n: nat)
    requires WellBoundSelect(Inner("a", [UseOf("a")])) && WellBoundList(list.entries)
    ensures !EndsSelectInPlace(catalog, Inner("a", [UseOf("a")]), at, list, st, n)
  {
    hide EndsInPlace, WellBoundSelect, UseOf;
    NoEnd(catalog, at + [0], at + [1], st, n);
  }

  lemma NestedNeverEnds(catalog: Catalog, at: Place, list: CteList, st: Progress, n: nat)
    requires WellBoundSelect(Nested("a", [UseOf("a")])) && WellBoundList(list.entries)
    ensures !EndsSelectInPlace(catalog, Nested("a", [UseOf("a")]), at, list, st, n)
  {
    var s := Nested("a", [UseOf("a")]);
    assert WellBoundQuery(s.table.query) && WellBoundList(s.ctes);
    InnerNeverEnds(catalog, at + [0] + [0], ScopeOf(s, at, list), st, n);
    hide EndsSelectInPlace, WellBoundQuery, Inner, Define;
    assert !EndsInPlace(catalog, s.table, at + [0], ScopeOf(s, at, list), st, n);
    NeverEndsAbove(catalog, s, at, list, st, n);
  }

  lemma NeverEndsAbove(catalog: Catalog, s: Select, at: Place, list: CteList, st: Progress, n: nat)
    requires WellBoundSelect(s) && WellBoundList(list.entries)
    requires !EndsInPlace(catalog, s.table, at + [0], ScopeOf(s, at, list), st, n)
    ensures !EndsSelectInPlace(catalog, s, at, list, st, n)
  {
  }

  /** Such a definition does no harm when the planner throws before it: with `c` missing, `c, a` ends. */
  lemma ThrowsFirst(catalog: Catalog, at: Place, place: Place, st: Progress, n: nat)
    ensures var t, list := CrossProduct(CteRef("c", "c"), CteRef("a", "a")), CteList([UseOf("a")], place);
            && WellBound(t) && WellBoundList(list.entries) && !Finite(t, list.entries, n)
            && EndsInPlace(catalog, t, at, list, st, n) && PlanTableInPlace(catalog, t, at, list, st, n) == Throws
  {
    FindOnly(UseOf("a"), "c");
    NoEnd(catalog, at + [1], place, st, n);
    if Finite(CteRef("a", "a"), [UseOf("a")], n) {
      FiniteEnds(catalog, CteRef("a", "a"), [UseOf("a")], st.id, n);
      EndsToo(catalog, CteRef("a", "a"), at + [1], CteList([UseOf("a")], place), st, n);
    }
  }

  /**
   `with a as (select 1 x) select * from (with a as (select 2 x), b as (select * from a) select * from b) t` returns 1
   as it is bound, and 2 as it is planned.
   */
  lemma OtherEntryIsPlanned(catalog: Catalog, id: nat, db: Database)
    ensures var s := Nested("b", [Define(2), UseOf("b")]);
            && QueryReturns(catalog, s, id, 2, db, Int(2))
            && ExpandSelect(s, []).Some? && QueryReturns(catalog, ExpandSelect(s, []).value, id, 0, db, Int(1))
  {
    var list := [Define(2), UseOf("b")];
    var s := Nested("b", list);
    assert FindCte(list, "a") == Some(0) && FindCte(list, "b") == Some(1) by {
      assert list[1..] == [UseOf("b")];
      FindOnly(UseOf("b"), "b");
    }
    NestedIsWellBound("b", list);
    NestedAsBound("b", list);
    OtherExpansion(list);
    NoneReached(list);
    ThroughQuery(catalog, 1, "b", id, db);
    ThroughQuery(catalog, 2, "b", id, db);
    hide PlanQuery, EndsQuery, ExpandSelect, OwnSelect, FiniteSelect, ReachedSelect, Nested, Through, PlanSelect, Rows,
         EndsSelect, WellBoundSelect, OwnSelectPlannable;
    FiniteQueryEnds(catalog, s, id, 2);
    QueryPlannedIff(catalog, s, id, 2);
  }

  lemma OtherExpansion(list: seq<Subquery>)
    requires list == [Define(2), UseOf("b")] && FindCte(list, "a") == Some(0) && FindCte(list, "b") == Some(1)
    ensures FiniteSelect(Nested("b", list), [], 2) && OwnSelect(Nested("b", list), [], 2) == Some(Through(2, "b"))
  {
    var a := Layer(Define(2).select, ["x"], "a");
    assert ["a"] + ["x"] == ["a", "x"] && ["b"] + ["a", "x"] == ["b", "a", "x"];
    assert ["t"] + ["b", "a", "x"] == ["t", "b", "a", "x"];
    assert FiniteSelect(Define(2).select, list, 0) && OwnSelect(Define(2).select, list, 0) == Some(Define(2).select);
    assert Finite(CteRef("a", "a"), list, 1) && Own(CteRef("a", "a"), list, 1) == Some(a.table);
    assert FiniteSelect(UseOf("b").select, list, 1) && OwnSelect(UseOf("b").select, list, 1) == Some(a);
    var b := Layer(a, ["a", "x"], "b");
    assert Finite(CteRef("b", "b"), list, 2) && Own(CteRef("b", "b"), list, 2) == Some(b.table);
    assert FiniteSelect(Inner("b", list), [Define(1)], 2) && OwnSelect(Inner("b", list), [Define(1)], 2) == Some(b);
    assert Finite(Nested("b", list).table, [Define(1)], 2);
  }

  lemma NoneReached(list: seq<Subquery>)
    requires list == [Define(2), UseOf("b")] && FindCte(list, "a") == Some(0) && FindCte(list, "b") == Some(1)
    requires FiniteSelect(Nested("b", list), [], 2)
    ensures ReachedSelect(Nested("b", list), [], NO_LIST, 2) == []
  {
    var s, outer := Nested("b", list), CteList([Define(1)], [] + [1]);
    PlainItem(s.table, ColumnRef(["t", "b", "a", "x"]), [Define(1)]);
    assert Finite(s.table, [Define(1)], 2) && FiniteSelect(Inner("b", list), [Define(1)], 2);
    NoneReachedInside(list, [] + [0] + [0], outer);
    hide HasCalls, FiniteSelect, Inner;
    assert Reached(s.table, [] + [0], outer, 2) == [];
  }

  lemma NoneReachedInside(list: seq<Subquery>, at: Place, outer: CteList)
    requires list == [Define(2), UseOf("b")] && FindCte(list, "a") == Some(0) && FindCte(list, "b") == Some(1)
    requires FiniteSelect(Inner("b", list), outer.entries, 2)
    ensures ReachedSelect(Inner("b", list), at, outer, 2) == []
  {
    PlainItem(EmptyRef, Alias("x", ConstantExpr(Int(2))), []);
    PlainItem(CteRef("a", "a"), ColumnRef(["a", "x"]), []);
    PlainItem(CteRef("b", "b"), ColumnRef(["b", "a", "x"]), list);
    hide HasCalls;
    var inner := CteList(list, at + [1]);
    assert Finite(CteRef("b", "b"), list, 2) && FiniteSelect(UseOf("b").select, list, 1);
    assert Finite(CteRef("a", "a"), list, 1) && FiniteSelect(Define(2).select, list, 0);
    assert ReachedSelect(Define(2).select, inner.at + [0], inner, 0) == [];
    assert Reached(CteRef("a", "a"), inner.at + [1] + [0], inner, 1) == [];
    assert ReachedSelect(UseOf("b").select, inner.at + [1], inner, 1) == [];
    assert Reached(CteRef("b", "b"), at + [0], inner, 2) == [];
  }

  lemma FiniteQueryEnds(catalog: Catalog, s: Select, id: nat, n: nat)
    requires WellBoundSelect(s) && FiniteSelect(s, [], n)
    ensures EndsQuery(catalog, s, id, n)
  {
    hide FiniteSelect, WellBoundSelect, EndsSelect, EndsSelectInPlace;
    FiniteSelectEnds(catalog, s, [], id, n);
    EndsSelectToo(catalog, s, [], NO_LIST, Progress(id, {}), n);
  }

  // ----- a definition with a call -----

  /** `a as (select count(*) c)`. */
  function Counting(): Subquery {
    Subquery(SelectItem(EmptyRef, Alias("c", AggCall("count_star", false, [])), []), [["c"]], "a")
  }

  /** `with list select * from ..`, where the tables have the columns `x.c` and `y.c`. */
  function Both(table: TableRef, list: seq<Subquery>): Select {
    Select(table, [ColumnRef(["x", "c"]), ColumnRef(["y", "c"])], Invalid, [], Invalid, false, [], Invalid, Invalid,
           list)
  }

  function Copy(alias: string): TableRef {
    SubqueryRef(Counting().(alias := alias))
  }

  lemma CountingCalls()
    ensures HasCalls(Counting().select) && HasAggregation(Counting().select)
    ensures GroupingCalls(GroupingOf(Counting().select)) == [AggCall("count_star", false, [])]
  {
    var item := Alias("c", AggCall("count_star", false, []));
    assert Calls(item.child) == [item.child];
    assert [item][1..] == [];
    assert AllCalls([item]) == Calls(item) + AllCalls([]);
    CallsAggregate(Counting().select);
  }

  lemma CountingItems(id: nat)
    ensures PlanItems(Counting().select, Values([], [[]]), id).Ok?
  {
    var table, call := Values([], [[]]), AggCall("count_star", false, []);
    var g := GroupingOf(Counting().select);
    CountingCalls();
    assert PlanExprs([], [[]], [], 0) == Ok(([], 0));
    assert PlanCall(call, []).Ok?;
    assert GroupingSupported(g);
    hide PlanCall, GroupingCalls, PlanAggregation, HasAggregation, PlanGrouping;
    PlanAggregationIff(g, table);
    PlanGroupingIff(g, table);
    assert Plannable(g.selectList[0], [PlanAggregation(g, table).value.schema]);
  }

  lemma CountingPlanned(catalog: Catalog, id: nat)
    ensures WellBoundSelect(Counting().select) && EndsSelect(catalog, Counting().select, [], id, 0)
    ensures var r := PlanSelect(catalog, Counting().select, [], id, 0); r.Ok? && |r.value.0.schema| == 1
  {
    var s, table := Counting().select, Values([], [[]]);
    assert EndsSelect(catalog, s, [], id, 0);
    CountingItems(id);
    hide PlanItems;
    assert PlanClauses(s, table, id).Ok?;
    PlanSelectIs(catalog, s, [], id, 0);
    hide PlanSelect, PlanClauses;
    SelectWidth(catalog, s, [], id, 0);
  }

  lemma CopyPlanned(catalog: Catalog, alias: string, id: nat)
    ensures WellBound(Copy(alias)) && Ends(catalog, Copy(alias), [], id, 0)
    ensures PlanTableRef(catalog, Copy(alias), [], id, 0).Ok?
  {
    CountingPlanned(catalog, id);
    var q := Counting().(alias := alias);
    assert WellBoundQuery(q);
    hide PlanSelect, EndsSelect, Counting;
    assert Ends(catalog, SubqueryRef(q), [], id, 0);
  }

  lemma PairPlanned(catalog: Catalog, l: TableRef, r: TableRef, id: nat)
    requires WellBound(l) && Ends(catalog, l, [], id, 0) && PlanTableRef(catalog, l, [], id, 0).Ok?
    requires WellBound(r) && Ends(catalog, r, [], PlanTableRef(catalog, l, [], id, 0).value.1, 0)
    requires PlanTableRef(catalog, r, [], PlanTableRef(catalog, l, [], id, 0).value.1, 0).Ok?
    ensures var t := CrossProduct(l, r);
            WellBound(t) && Ends(catalog, t, [], id, 0) && PlanTableRef(catalog, t, [], id, 0).Ok?
  {
  }

  lemma DistinctByName(schema: Schema, columns: seq<seq<string>>)
    requires NamesAgree(schema, columns) && columns == [["x", "c"], ["y", "c"]]
    ensures DistinctNames(schema)
  {
    assert Rendered(["x", "c"])[0] == 'x' && Rendered(["y", "c"])[0] == 'y';
  }

  /** With a copy of the definition for each use the statement can be planned. */
  lemma CopiesPlanned(catalog: Catalog, id: nat)
    ensures var s := Both(CrossProduct(Copy("x"), Copy("y")), []);
            && WellBoundSelect(s) && DirectSelect(s) && EndsSelect(catalog, s, [], id, 0)
            && PlanSelect(catalog, s, [], id, 0).Ok?
  {
    var t := CrossProduct(Copy("x"), Copy("y"));
    var s := Both(t, []);
    assert DirectSelect(s) by { assert DirectSelect(Counting().select); }
    hide Copy, PlanSelect, PlanTableRef, GetAllColumns, WellBound, Ends, NamesAgree, DistinctNames, DirectSelect;
    CopyPlanned(catalog, "x", id);
    CopyPlanned(catalog, "y", PlanTableRef(catalog, Copy("x"), [], id, 0).value.1);
    PairPlanned(catalog, Copy("x"), Copy("y"), id);
    CopiesColumns(t);
    hide IsStar;
    SelectStar(catalog, s, [], id, 0);
    SameList(t, []);
    StarAgrees(catalog, t, [], [], id, 0);
    DistinctByName(PlanTableRef(catalog, t, [], id, 0).value.0.schema, [["x", "c"], ["y", "c"]]);
  }

  lemma CopiesColumns(t: TableRef)
    requires t == CrossProduct(Copy("x"), Copy("y"))
    ensures GetAllColumns(t, []) == Ok([["x", "c"], ["y", "c"]])
    ensures IsStar(Both(t, []), [["x", "c"], ["y", "c"]])
  {
    assert ["x"] + ["c"] == ["x", "c"] && ["y"] + ["c"] == ["y", "c"];
    assert QueryColumns("x", [["c"]]) == [["x", "c"]] && QueryColumns("y", [["c"]]) == [["y", "c"]];
    assert GetAllColumns(t.left, []) == Ok([["x", "c"]]) && GetAllColumns(t.right, []) == Ok([["y", "c"]]);
    assert [["x", "c"]] + [["y", "c"]] == [["x", "c"], ["y", "c"]];
    assert Refs([["x", "c"], ["y", "c"]]) == [ColumnRef(["x", "c"]), ColumnRef(["y", "c"])];
  }

  /**
   `with a as (select count(*) c) select * from a x, a y` can be planned as it is bound, but the planner throws at the
   second use.
   */
  lemma SecondUseThrows(catalog: Catalog, id: nat)
    ensures var s := Both(CrossProduct(CteRef("a", "x"), CteRef("a", "y")), [Counting()]);
            && WellBoundSelect(s) && EndsQuery(catalog, s, id, 1) && PlanQuery(catalog, s, id, 1) == Throws
            && ExpandSelect(s, []).Some? && WellBoundSelect(ExpandSelect(s, []).value)
            && EndsQuery(catalog, ExpandSelect(s, []).value, id, 0)
            && PlanQuery(catalog, ExpandSelect(s, []).value, id, 0).Ok?
  {
    var t, list := CrossProduct(CteRef("a", "x"), CteRef("a", "y")), [Counting()];
    var s := Both(t, list);
    assert WellBoundQuery(Counting()) && WellBound(t);
    assert WellBoundSelect(s);
    FindOnly(Counting(), "a");
    SecondUseReached(s);
    SecondUseExpands(s);
    hide EndsQuery, PlanQuery, ExpandSelect, FiniteSelect, ReachedSelect, Both, WellBoundSelect, Counting;
    FiniteQueryEnds(catalog, s, id, 1);
    QueryPlannedIff(catalog, s, id, 1);
    CopiesPlanned(catalog, id);
    DirectQuery(catalog, Both(CrossProduct(Copy("x"), Copy("y")), []), id, 0);
  }

  lemma SecondUseReached(s: Select)
    requires s == Both(CrossProduct(CteRef("a", "x"), CteRef("a", "y")), [Counting()])
    requires FindCte([Counting()], "a") == Some(0)
    ensures FiniteSelect(s, [], 1) && !NoneTwice(ReachedSelect(s, [], NO_LIST, 1))
  {
    var list := CteList([Counting()], [] + [1]);
    CountingCalls();
    hide HasCalls;
    assert FiniteSelect(Counting().select, list.entries, 0);
    assert ReachedSelect(Counting().select, list.at + [0], list, 0) == [list.at + [0]] by {
      assert Reached(EmptyRef, list.at + [0] + [0], list, 0) == [];
    }
    hide FiniteSelect, Counting;
    assert Finite(CteRef("a", "x"), list.entries, 1) && Finite(CteRef("a", "y"), list.entries, 1);
    var ps := Reached(s.table, [] + [0], list, 1);
    assert ps == [list.at + [0], list.at + [0]];
    ReachedTwice(s, ps, list.at + [0]);
  }

  lemma ReachedTwice(s: Select, ps: seq<Place>, p: Place)
    requires FiniteSelect(s, [], 1) && ps == [p, p] && ps <= ReachedSelect(s, [], NO_LIST, 1)
    ensures !NoneTwice(ReachedSelect(s, [], NO_LIST, 1))
  {
    hide ReachedSelect;
    var all := ReachedSelect(s, [], NO_LIST, 1);
    assert all[0] == ps[0] && all[1] == ps[1];
  }

  lemma SecondUseExpands(s: Select)
    requires s == Both(CrossProduct(CteRef("a", "x"), CteRef("a", "y")), [Counting()])
    requires FindCte([Counting()], "a") == Some(0)
    ensures ExpandSelect(s, []) == Some(Both(CrossProduct(Copy("x"), Copy("y")), []))
  {
    var stack: Stack := [[Counting()]];
    assert [] + [[Counting()]] == stack && stack[..0] == [];
    assert ExpandSelect(Counting().select, []) == Some(Counting().select);
    hide Counting;
    assert Expand(CteRef("a", "x"), stack) == Some(Copy("x")) && Expand(CteRef("a", "y"), stack) == Some(Copy("y"));
  }
}
