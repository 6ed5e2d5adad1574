/**
 Two ways to look up a common table expression.  The binder binds the definitions of a WITH list in the scope
 around it; the planner plans them with the list itself in force.  `Expand` puts every definition in the place of
 its uses as the binder understands them, and `Own` as the planner does; as far as definitions are found, plans are
 those of the latter.
 */
module CteScopes {
  import opened Options
  import opened Plans
  import opened BoundTree
  import opened AggregationPlanning
  import opened SelectPlanning

  /** The WITH lists around a place, the innermost last. */
  type Stack = seq<seq<Subquery>>

  function Inside(s: Select, stack: Stack): Stack {
    if s.ctes != [] then stack + [s.ctes] else stack
  }

  // ----- termination -----

  ghost function Size(t: TableRef): nat {
    match t
    case CrossProduct(l, r) => 1 + Size(l) + Size(r)
    case JoinRef(l, r, _, _) => 1 + Size(l) + Size(r)
    case SubqueryRef(q) => 1 + SizeSelect(q.select)
    case _ => 1
  }

  ghost function SizeSelect(s: Select): nat {
    1 + Size(s.table) + SizeList(s.ctes)
  }

  ghost function SizeList(ctes: seq<Subquery>): nat {
    if ctes == [] then 0 else 1 + SizeSelect(ctes[0].select) + SizeList(ctes[1..])
  }

  ghost function SizeStack(stack: Stack): nat {
    if stack == [] then 0 else SizeStack(stack[..|stack| - 1]) + SizeList(stack[|stack| - 1])
  }

  lemma {:induction false} SizeOfMember(ctes: seq<Subquery>, i: nat)
    requires i < |ctes|
    ensures SizeSelect(ctes[i].select) < SizeList(ctes)
  {
    if i > 0 { SizeOfMember(ctes[1..], i - 1); }
  }

  lemma SizeInside(s: Select, stack: Stack)
    ensures SizeStack(Inside(s, stack)) + Size(s.table) < SizeStack(stack) + SizeSelect(s)
  {
    if s.ctes != [] { assert (stack + [s.ctes])[..|stack|] == stack; }
  }

  // ----- as bound -----

  /** The entry the binder means by a name: one of the innermost list. */
  function Bound(stack: Stack, name: string): Option<Subquery> {
    if stack == [] || FindCte(stack[|stack| - 1], name).None? then None
    else Some(stack[|stack| - 1][FindCte(stack[|stack| - 1], name).value])
  }

  /** The same table without common table expressions; none if a name is not bound. */
  function Expand(t: TableRef, stack: Stack): Option<TableRef>
    decreases SizeStack(stack) + Size(t), 0
  {
    match t
    case CrossProduct(l, r) =>
      var (l', r') := (Expand(l, stack), Expand(r, stack));
      if l'.None? || r'.None? then None else Some(CrossProduct(l'.value, r'.value))
    case JoinRef(l, r, e, ty) =>
      var (l', r') := (Expand(l, stack), Expand(r, stack));
      if l'.None? || r'.None? then None else Some(JoinRef(l'.value, r'.value, e, ty))
    case SubqueryRef(q) =>
      var s := ExpandSelect(q.select, stack);
      if s.None? then None else Some(SubqueryRef(q.(select := s.value)))
    case CteRef(name, alias) =>
      var q := Bound(stack, name);
      if q.None? then None
      else
        SizeOfMember(stack[|stack| - 1], FindCte(stack[|stack| - 1], name).value);
        var s := ExpandSelect(q.value.select, stack[..|stack| - 1]);
        if s.None? then None else Some(SubqueryRef(Subquery(s.value, q.value.names, alias)))
    case _ => Some(t)
  }

  function ExpandSelect(s: Select, stack: Stack): Option<Select>
    decreases SizeStack(stack) + SizeSelect(s), 1
  {
    SizeInside(s, stack);
    var t := Expand(s.table, Inside(s, stack));
    if t.None? then None else Some(s.(table := t.value, ctes := []))
  }

  // ----- as planned -----

  /** Going through the definitions by the planner's lists comes to an end after at most `n` in a row. */
  ghost predicate Finite(t: TableRef, ctes: seq<Subquery>, n: nat)
    decreases n, t, 0
  {
    match t
    case CrossProduct(l, r) => Finite(l, ctes, n) && Finite(r, ctes, n)
    case JoinRef(l, r, _, _) => Finite(l, ctes, n) && Finite(r, ctes, n)
    case SubqueryRef(q) => FiniteSelect(q.select, ctes, n)
    case CteRef(name, _) =>
      var i := FindCte(ctes, name);
      i.None? || (n > 0 && FiniteSelect(ctes[i.value].select, ctes, n - 1))
    case _ => true
  }

  ghost predicate FiniteSelect(s: Select, ctes: seq<Subquery>, n: nat)
    decreases n, s, 1
  {
    Finite(s.table, Scope(s, ctes), n)
  }

  /** The same table without common table expressions, by the planner's lists; none if a name is not found. */
  function Own(t: TableRef, ctes: seq<Subquery>, ghost n: nat): Option<TableRef>
    requires Finite(t, ctes, n)
    decreases n, t, 0
  {
    match t
    case CrossProduct(l, r) =>
      var (l', r') := (Own(l, ctes, n), Own(r, ctes, n));
      if l'.None? || r'.None? then None else Some(CrossProduct(l'.value, r'.value))
    case JoinRef(l, r, e, ty) =>
      var (l', r') := (Own(l, ctes, n), Own(r, ctes, n));
      if l'.None? || r'.None? then None else Some(JoinRef(l'.value, r'.value, e, ty))
    case SubqueryRef(q) =>
      var s := OwnSelect(q.select, ctes, n);
      if s.None? then None else Some(SubqueryRef(q.(select := s.value)))
    case CteRef(name, alias) =>
      var i := FindCte(ctes, name);
      if i.None? then None
      else
        var s := OwnSelect(ctes[i.value].select, ctes, n - 1);
        if s.None? then None else Some(SubqueryRef(Subquery(s.value, ctes[i.value].names, alias)))
    case _ => Some(t)
  }

  function OwnSelect(s: Select, ctes: seq<Subquery>, ghost n: nat): Option<Select>
    requires FiniteSelect(s, ctes, n)
    decreases n, s, 1
  {
    var t := Own(s.table, Scope(s, ctes), n);
    if t.None? then None else Some(s.(table := t.value, ctes := []))
  }

  // ----- tables without common table expressions -----

  ghost predicate Direct(t: TableRef) {
    match t
    case CrossProduct(l, r) => Direct(l) && Direct(r)
    case JoinRef(l, r, _, _) => Direct(l) && Direct(r)
    case SubqueryRef(q) => DirectSelect(q.select)
    case CteRef(_, _) => false
    case _ => true
  }

  ghost predicate DirectSelect(s: Select) {
    s.ctes == [] && Direct(s.table)
  }

  /** They can always be planned. */
  lemma {:induction false} DirectEnds(catalog: Catalog, t: TableRef, id: nat, n: nat)
    requires WellBound(t) && Direct(t)
    ensures Ends(catalog, t, [], id, n)
  {
    match t
    case CrossProduct(l, r) =>
      DirectEnds(catalog, l, id, n);
      var p := PlanTableRef(catalog, l, [], id, n);
      if p.Ok? { DirectEnds(catalog, r, p.value.1, n); }
    case JoinRef(l, r, _, _) =>
      DirectEnds(catalog, l, id, n);
      var p := PlanTableRef(catalog, l, [], id, n);
      if p.Ok? { DirectEnds(catalog, r, p.value.1, n); }
    case SubqueryRef(q) =>
      assert WellBoundQuery(q);
      DirectEnds(catalog, q.select.table, id, n);
    case _ =>
  }

  lemma {:induction false} OwnIsDirect(t: TableRef, ctes: seq<Subquery>, n: nat)
    requires WellBound(t) && WellBoundList(ctes) && Finite(t, ctes, n) && Own(t, ctes, n).Some?
    ensures WellBound(Own(t, ctes, n).value) && Direct(Own(t, ctes, n).value)
    decreases n, t, 0
  {
    match t
    case CrossProduct(l, r) => OwnIsDirect(l, ctes, n); OwnIsDirect(r, ctes, n);
    case JoinRef(l, r, _, _) => OwnIsDirect(l, ctes, n); OwnIsDirect(r, ctes, n);
    case SubqueryRef(q) =>
      assert WellBoundQuery(q);
      OwnSelectIsDirect(q.select, ctes, n);
    case CteRef(name, _) =>
      var q := ctes[FindCte(ctes, name).value];
      assert WellBoundQuery(q);
      OwnSelectIsDirect(q.select, ctes, n - 1);
    case _ =>
  }

  lemma {:induction false} OwnSelectIsDirect(s: Select, ctes: seq<Subquery>, n: nat)
    requires WellBoundSelect(s) && WellBoundList(ctes) && FiniteSelect(s, ctes, n) && OwnSelect(s, ctes, n).Some?
    ensures WellBoundSelect(OwnSelect(s, ctes, n).value) && DirectSelect(OwnSelect(s, ctes, n).value)
    decreases n, s, 1
  {
    OwnIsDirect(s.table, Scope(s, ctes), n);
  }

  // ----- what the planner plans -----

  lemma ClausesIgnoreTable(s: Select, t: TableRef, plan: Plan, id: nat)
    ensures PlanClauses(s.(table := t, ctes := []), plan, id) == PlanClauses(s, plan, id)
  {
    var s' := s.(table := t, ctes := []);
    hide PlanExpr, PlanExprs, PlanGrouping, PlanOrderBys;
    assert PlanWhere(s', plan) == PlanWhere(s, plan);
    assert forall p, n :: PlanItems(s', p, n) == PlanItems(s, p, n);
    assert forall p ::
        PlanDistinct(s', p) == PlanDistinct(s, p) && PlanOrderBy(s', p) == PlanOrderBy(s, p)
        && PlanLimit(s', p) == PlanLimit(s, p);
    hide PlanWhere, PlanItems, PlanDistinct, PlanOrderBy, PlanLimit;
  }

  /** The plan of the tables of a statement. */
  ghost function PlanFrom(catalog: Catalog, s: Select, ctes: seq<Subquery>, id: nat, n: nat): Result<(Plan, nat)>
    requires WellBoundSelect(s) && WellBoundList(ctes) && EndsSelect(catalog, s, ctes, id, n)
  {
    if s.table.EmptyRef? then Ok((Values([], [[]]), id)) else PlanTableRef(catalog, s.table, Scope(s, ctes), id, n)
  }

  lemma PlanSelectIs(catalog: Catalog, s: Select, ctes: seq<Subquery>, id: nat, n: nat)
    requires WellBoundSelect(s) && WellBoundList(ctes) && EndsSelect(catalog, s, ctes, id, n)
    ensures PlanSelect(catalog, s, ctes, id, n) ==
            match PlanFrom(catalog, s, ctes, id, n)
            case Throws => Throws
            case Ok((table, id1)) => PlanClauses(s, table, id1)
  {
    hide PlanClauses, PlanTableRef;
  }

  /** What `Own` makes can be planned. */
  ghost predicate OwnPlannable(catalog: Catalog, t: TableRef, ctes: seq<Subquery>, id: nat, n: nat) {
    && Finite(t, ctes, n) && Own(t, ctes, n).Some?
    && WellBound(Own(t, ctes, n).value) && Ends(catalog, Own(t, ctes, n).value, [], id, 0)
  }

  lemma OwnIsPlannable(catalog: Catalog, t: TableRef, ctes: seq<Subquery>, id: nat, n: nat)
    requires WellBound(t) && WellBoundList(ctes)
    ensures OwnPlannable(catalog, t, ctes, id, n) <==> Finite(t, ctes, n) && Own(t, ctes, n).Some?
  {
    hide Finite, Own, WellBound, WellBoundList, Ends;
    if Finite(t, ctes, n) && Own(t, ctes, n).Some? {
      OwnIsDirect(t, ctes, n);
      DirectEnds(catalog, Own(t, ctes, n).value, id, 0);
    }
  }

  /**
   A table is planned as if each name stood for a copy of the definition of that name in the list in force; planning
   throws when a name is not found, and when it ends although the definitions do not.
   */
  lemma {:induction false} PlannedByOwnLists(catalog: Catalog, t: TableRef, ctes: seq<Subquery>, id: nat, n: nat)
    requires WellBound(t) && WellBoundList(ctes) && Ends(catalog, t, ctes, id, n)
    ensures OwnPlannable(catalog, t, ctes, id, n) <==> Finite(t, ctes, n) && Own(t, ctes, n).Some?
    ensures PlanTableRef(catalog, t, ctes, id, n) ==
            if OwnPlannable(catalog, t, ctes, id, n) then PlanTableRef(catalog, Own(t, ctes, n).value, [], id, 0)
            else Throws
    decreases n, t, 0
  {
    OwnIsPlannable(catalog, t, ctes, id, n);
    hide PlanSelect, RenameQuery, PlanBaseTable, PlanRows, PlanExpr, WellBoundSelect;
    match t
    case CrossProduct(_, _) => PairPlannedByOwnLists(catalog, t, ctes, id, n);
    case JoinRef(_, _, _, _) => PairPlannedByOwnLists(catalog, t, ctes, id, n);
    case SubqueryRef(q) =>
      assert WellBoundQuery(q);
      SelectPlannedByOwnLists(catalog, q.select, ctes, id, n);
    case CteRef(_, _) => NamePlannedByOwnLists(catalog, t, ctes, id, n);
    case _ =>
  }

  lemma {:induction false} NamePlannedByOwnLists(catalog: Catalog, t: TableRef, ctes: seq<Subquery>, id: nat, n: nat)
    requires WellBound(t) && WellBoundList(ctes) && Ends(catalog, t, ctes, id, n) && t.CteRef?
    ensures PlanTableRef(catalog, t, ctes, id, n) ==
            if OwnPlannable(catalog, t, ctes, id, n) then PlanTableRef(catalog, Own(t, ctes, n).value, [], id, 0)
            else Throws
    decreases n, t, -1
  {
    OwnIsPlannable(catalog, t, ctes, id, n);
    hide PlanSelect, RenameQuery, WellBoundSelect;
    var i := FindCte(ctes, t.cteName);
    if i.Some? { SelectPlannedByOwnLists(catalog, ctes[i.value].select, ctes, id, n - 1); }
  }

  lemma {:induction false} PairPlannedByOwnLists(catalog: Catalog, t: TableRef, ctes: seq<Subquery>, id: nat, n: nat)
    requires WellBound(t) && WellBoundList(ctes) && Ends(catalog, t, ctes, id, n) && (t.CrossProduct? || t.JoinRef?)
    ensures PlanTableRef(catalog, t, ctes, id, n) ==
            if OwnPlannable(catalog, t, ctes, id, n) then PlanTableRef(catalog, Own(t, ctes, n).value, [], id, 0)
            else Throws
    decreases n, t, -1
  {
    OwnIsPlannable(catalog, t, ctes, id, n);
    hide PlanExpr, WellBoundList;
    PlannedByOwnLists(catalog, t.left, ctes, id, n);
    var l := PlanTableRef(catalog, t.left, ctes, id, n);
    if l.Ok? { PlannedByOwnLists(catalog, t.right, ctes, l.value.1, n); }
  }

  ghost predicate OwnSelectPlannable(catalog: Catalog, s: Select, ctes: seq<Subquery>, id: nat, n: nat) {
    && FiniteSelect(s, ctes, n) && OwnSelect(s, ctes, n).Some?
    && WellBoundSelect(OwnSelect(s, ctes, n).value) && EndsSelect(catalog, OwnSelect(s, ctes, n).value, [], id, 0)
  }

  lemma OwnSelectIsPlannable(catalog: Catalog, s: Select, ctes: seq<Subquery>, id: nat, n: nat)
    requires WellBoundSelect(s) && WellBoundList(ctes)
    ensures OwnSelectPlannable(catalog, s, ctes, id, n) <==> FiniteSelect(s, ctes, n) && OwnSelect(s, ctes, n).Some?
  {
    OwnIsPlannable(catalog, s.table, Scope(s, ctes), id, n);
  }

  lemma {:induction false} SelectPlannedByOwnLists(catalog: Catalog, s: Select, ctes: seq<Subquery>, id: nat, n: nat)
    requires WellBoundSelect(s) && WellBoundList(ctes) && EndsSelect(catalog, s, ctes, id, n)
    ensures OwnSelectPlannable(catalog, s, ctes, id, n) <==> FiniteSelect(s, ctes, n) && OwnSelect(s, ctes, n).Some?
    ensures PlanSelect(catalog, s, ctes, id, n) ==
            if OwnSelectPlannable(catalog, s, ctes, id, n)
            then PlanSelect(catalog, OwnSelect(s, ctes, n).value, [], id, 0)
            else Throws
    decreases n, s, 1
  {
    PlannedByOwnLists(catalog, s.table, Scope(s, ctes), id, n);
    PlanSelectIs(catalog, s, ctes, id, n);
    hide PlanSelect, PlanClauses, PlanTableRef;
    if OwnSelectPlannable(catalog, s, ctes, id, n) {
      var x := OwnSelect(s, ctes, n).value;
      PlanSelectIs(catalog, x, [], id, 0);
      var table := PlanFrom(catalog, s, ctes, id, n);
      if table.Ok? { ClausesIgnoreTable(s, x.table, table.value.0, table.value.1); }
    }
  }

  /** Planning ends where the definitions do. */
  lemma {:induction false} FiniteEnds(catalog: Catalog, t: TableRef, ctes: seq<Subquery>, id: nat, n: nat)
    requires WellBound(t) && WellBoundList(ctes) && Finite(t, ctes, n)
    ensures Ends(catalog, t, ctes, id, n)
    decreases n, t, 0
  {
    match t
    case CrossProduct(l, r) =>
      FiniteEnds(catalog, l, ctes, id, n);
      var p := PlanTableRef(catalog, l, ctes, id, n);
      if p.Ok? { FiniteEnds(catalog, r, ctes, p.value.1, n); }
    case JoinRef(l, r, _, _) =>
      FiniteEnds(catalog, l, ctes, id, n);
      var p := PlanTableRef(catalog, l, ctes, id, n);
      if p.Ok? { FiniteEnds(catalog, r, ctes, p.value.1, n); }
    case SubqueryRef(q) =>
      assert WellBoundQuery(q);
      assert FiniteSelect(q.select, ctes, n);
      FiniteEnds(catalog, q.select.table, Scope(q.select, ctes), id, n);
    case CteRef(name, _) =>
      var i := FindCte(ctes, name);
      if i.Some? {
        var s := ctes[i.value].select;
        assert WellBoundQuery(ctes[i.value]) && FiniteSelect(s, ctes, n - 1);
        FiniteEnds(catalog, s.table, Scope(s, ctes), id, n - 1);
      }
    case _ =>
  }

  lemma FiniteSelectEnds(catalog: Catalog, s: Select, ctes: seq<Subquery>, id: nat, n: nat)
    requires WellBoundSelect(s) && WellBoundList(ctes) && FiniteSelect(s, ctes, n)
    ensures EndsSelect(catalog, s, ctes, id, n)
  {
    FiniteEnds(catalog, s.table, Scope(s, ctes), id, n);
  }

  // ----- when that is what was bound -----

  /**
   Every name that planning comes to, with the list `ctes` in force, is that of the entry it was bound to; if
   `missing` is set, it may also have no entry in the list.
   */
  ghost predicate SameEntries(t: TableRef, stack: Stack, ctes: seq<Subquery>, missing: bool)
    decreases SizeStack(stack) + Size(t), 0
  {
    match t
    case CrossProduct(l, r) => SameEntries(l, stack, ctes, missing) && SameEntries(r, stack, ctes, missing)
    case JoinRef(l, r, _, _) => SameEntries(l, stack, ctes, missing) && SameEntries(r, stack, ctes, missing)
    case SubqueryRef(q) => SameSelect(q.select, stack, ctes, missing)
    case CteRef(name, _) =>
      var i := FindCte(ctes, name);
      if i.None? then missing
      else
        && Bound(stack, name) == Some(ctes[i.value])
        && (SizeOfMember(stack[|stack| - 1], FindCte(stack[|stack| - 1], name).value);
            SameSelect(ctes[i.value].select, stack[..|stack| - 1], ctes, missing))
    case _ => true
  }

  ghost predicate SameSelect(s: Select, stack: Stack, ctes: seq<Subquery>, missing: bool)
    decreases SizeStack(stack) + SizeSelect(s), 1
  {
    SizeInside(s, stack);
    SameEntries(s.table, Inside(s, stack), Scope(s, ctes), missing)
  }

  lemma {:induction false} FiniteLater(t: TableRef, ctes: seq<Subquery>, m: nat, n: nat)
    requires Finite(t, ctes, m) && m <= n
    ensures Finite(t, ctes, n)
    decreases m, t
  {
    match t
    case CrossProduct(l, r) => FiniteLater(l, ctes, m, n); FiniteLater(r, ctes, m, n);
    case JoinRef(l, r, _, _) => FiniteLater(l, ctes, m, n); FiniteLater(r, ctes, m, n);
    case SubqueryRef(q) =>
      assert FiniteSelect(q.select, ctes, m);
      FiniteLater(q.select.table, Scope(q.select, ctes), m, n);
      assert FiniteSelect(q.select, ctes, n);
    case CteRef(name, _) =>
      if FindCte(ctes, name).Some? {
        var s := ctes[FindCte(ctes, name).value].select;
        assert FiniteSelect(s, ctes, m - 1);
        FiniteLater(s.table, Scope(s, ctes), m - 1, n - 1);
        assert FiniteSelect(s, ctes, n - 1);
      }
    case _ =>
  }

  /** Where the entries are the same, the definitions come to an end. */
  lemma {:induction false} SameIsFinite(t: TableRef, stack: Stack, ctes: seq<Subquery>) returns (n: nat)
    requires SameEntries(t, stack, ctes, true)
    ensures Finite(t, ctes, n)
    decreases SizeStack(stack) + Size(t), 0
  {
    n := 0;
    match t {
      case CrossProduct(l, r) =>
        var a := SameIsFinite(l, stack, ctes);
        var b := SameIsFinite(r, stack, ctes);
        n := a + b;
        FiniteLater(l, ctes, a, n);
        FiniteLater(r, ctes, b, n);
      case JoinRef(l, r, _, _) =>
        var a := SameIsFinite(l, stack, ctes);
        var b := SameIsFinite(r, stack, ctes);
        n := a + b;
        FiniteLater(l, ctes, a, n);
        FiniteLater(r, ctes, b, n);
      case SubqueryRef(q) =>
        SizeInside(q.select, stack);
        n := SameIsFinite(q.select.table, Inside(q.select, stack), Scope(q.select, ctes));
        assert FiniteSelect(q.select, ctes, n);
      case CteRef(name, _) =>
        var i := FindCte(ctes, name);
        if i.Some? {
          var s := ctes[i.value].select;
          SizeOfMember(stack[|stack| - 1], FindCte(stack[|stack| - 1], name).value);
          SizeInside(s, stack[..|stack| - 1]);
          assert SameSelect(s, stack[..|stack| - 1], ctes, true);
          var m := SameIsFinite(s.table, Inside(s, stack[..|stack| - 1]), Scope(s, ctes));
          assert FiniteSelect(s, ctes, m);
          n := m + 1;
        }
      case _ =>
    }
  }

  /** Then the two expansions are the same, if all names are found. */
  lemma {:induction false} SameExpansions(t: TableRef, stack: Stack, ctes: seq<Subquery>, n: nat)
    requires SameEntries(t, stack, ctes, true) && Finite(t, ctes, n)
    ensures Own(t, ctes, n) == if SameEntries(t, stack, ctes, false) then Expand(t, stack) else None
    ensures SameEntries(t, stack, ctes, false) ==> Expand(t, stack).Some?
    decreases SizeStack(stack) + Size(t), 0
  {
    match t
    case CrossProduct(l, r) => SameExpansions(l, stack, ctes, n); SameExpansions(r, stack, ctes, n);
    case JoinRef(l, r, _, _) => SameExpansions(l, stack, ctes, n); SameExpansions(r, stack, ctes, n);
    case SubqueryRef(q) =>
      assert FiniteSelect(q.select, ctes, n);
      SameSelectExpansions(q.select, stack, ctes, n);
    case CteRef(name, _) =>
      var i := FindCte(ctes, name);
      if i.Some? {
        var s := ctes[i.value].select;
        SizeOfMember(stack[|stack| - 1], FindCte(stack[|stack| - 1], name).value);
        assert SameSelect(s, stack[..|stack| - 1], ctes, true) && FiniteSelect(s, ctes, n - 1);
        SameSelectExpansions(s, stack[..|stack| - 1], ctes, n - 1);
      }
    case _ =>
  }

  lemma {:induction false} SameSelectExpansions(s: Select, stack: Stack, ctes: seq<Subquery>, n: nat)
    requires SameSelect(s, stack, ctes, true) && FiniteSelect(s, ctes, n)
    ensures OwnSelect(s, ctes, n) == if SameSelect(s, stack, ctes, false) then ExpandSelect(s, stack) else None
    ensures SameSelect(s, stack, ctes, false) ==> ExpandSelect(s, stack).Some?
    decreases SizeStack(stack) + SizeSelect(s), 1
  {
    SizeInside(s, stack);
    SameExpansions(s.table, Inside(s, stack), Scope(s, ctes), n);
  }
}
