/**
 What planning does to the statements.  The planner replaces the aggregate calls of a statement where it stands, and
 the definitions of a WITH list stand there once for all their uses.  Here planning is told which statements have lost
 their calls; the lemmas say that it then makes the plans of `SelectPlanning`, or throws because it has come to a
 statement with calls for the second time.
 */
module InPlacePlanning {
  import opened Options
  import opened Expressions
  import opened Plans
  import opened BoundTree
  import opened AggregationPlanning
  import opened SelectPlanning
  import opened CteScopes

  /** The way down to a part of a statement, which stands for its address. */
  type Place = seq<nat>

  /** A WITH list, and where it stands. */
  datatype CteList = CteList(entries: seq<Subquery>, at: Place)

  const NO_LIST := CteList([], [])

  /** The counter for unnamed columns, and the places of the statements whose calls have been replaced. */
  datatype Progress = Progress(id: nat, replaced: set<Place>)

  /** The list in force inside the statement at the given place. */
  function ScopeOf(s: Select, at: Place, list: CteList): (r: CteList)
    ensures r.entries == Scope(s, list.entries)
  {
    if s.ctes != [] then CteList(s.ctes, at + [1]) else list
  }

  // ----- statements as they are by now -----

  function GroupingOf(s: Select): Grouping {
    Grouping(s.groupBy, s.having, s.selectList)
  }

  function Regrouped(s: Select, g: Grouping): Select {
    s.(groupBy := g.groupBy, having := g.having, selectList := g.selectList)
  }

  predicate HasCalls(s: Select) {
    GroupingCalls(GroupingOf(s)) != []
  }

  /** The statement bound as `s`, as it is by now. */
  function Now(s: Select, at: Place, replaced: set<Place>): Select {
    if at in replaced then Regrouped(s, AfterPlanning(GroupingOf(s))) else s
  }

  function Later(s: Select, at: Place, replaced: set<Place>): set<Place> {
    if HasCalls(s) then replaced + {at} else replaced
  }

  function PlanStatement(s: Select, at: Place, table: Plan, st: Progress): Result<(Plan, Progress)> {
    var (p, id) :- PlanClauses(Now(s, at, st.replaced), table, st.id);
    Ok((p, Progress(id, Later(s, at, st.replaced))))
  }

  // ----- table references and select statements -----

  /** Planning comes to an end, be it by throwing, and goes through at most `n` definitions in a row. */
  ghost predicate EndsInPlace(catalog: Catalog, t: TableRef, at: Place, list: CteList, st: Progress, n: nat)
    requires WellBound(t) && WellBoundList(list.entries)
    decreases n, t, 0
  {
    match t
    case CrossProduct(l, r) =>
      && EndsInPlace(catalog, l, at + [0], list, st, n)
      && var p := PlanTableInPlace(catalog, l, at + [0], list, st, n);
         p.Ok? ==> EndsInPlace(catalog, r, at + [1], list, p.value.1, n)
    case JoinRef(l, r, _, _) =>
      && EndsInPlace(catalog, l, at + [0], list, st, n)
      && var p := PlanTableInPlace(catalog, l, at + [0], list, st, n);
         p.Ok? ==> EndsInPlace(catalog, r, at + [1], list, p.value.1, n)
    case SubqueryRef(q) =>
      assert WellBoundQuery(q);
      EndsSelectInPlace(catalog, q.select, at + [0], list, st, n)
    case CteRef(name, _) =>
      var i := FindCte(list.entries, name);
      i.None?
      || (n > 0 && EndsSelectInPlace(catalog, list.entries[i.value].select, list.at + [i.value], list, st, n - 1))
    case _ => true
  }

  ghost predicate EndsSelectInPlace(catalog: Catalog, s: Select, at: Place, list: CteList, st: Progress, n: nat)
    requires WellBoundSelect(s) && WellBoundList(list.entries)
    decreases n, s, 2
  {
    EndsInPlace(catalog, s.table, at + [0], ScopeOf(s, at, list), st, n)
  }

  function PlanTableInPlace(catalog: Catalog, t: TableRef, at: Place, list: CteList, st: Progress,
                            ghost n: nat): Result<(Plan, Progress)>
    requires WellBound(t) && WellBoundList(list.entries) && EndsInPlace(catalog, t, at, list, st, n)
    decreases n, t, 1
  {
    match t
    case BaseTable(_, _, _) =>
      var p :- PlanBaseTable(catalog, t);
      Ok((p, st))
    case CrossProduct(l, r) =>
      var (l', st1) :- PlanTableInPlace(catalog, l, at + [0], list, st, n);
      var (r', st2) :- PlanTableInPlace(catalog, r, at + [1], list, st1, n);
      Ok((NestedLoopJoin(l'.schema + r'.schema, l', r', Constant(Bool(true)), INNER), st2))
    case JoinRef(l, r, condition, joinType) =>
      var (l', st1) :- PlanTableInPlace(catalog, l, at + [0], list, st, n);
      var (r', st2) :- PlanTableInPlace(catalog, r, at + [1], list, st1, n);
      var (e, _) :- PlanExpr(condition, [l'.schema, r'.schema], [], 0);
      Ok((NestedLoopJoin(l'.schema + r'.schema, l', r', e.expr, joinType), st2))
    case ExpressionList(values, identifier) =>
      var rows :- PlanRows(values);
      if rows == [] then Throws
      else Ok((Values(ListSchema(identifier, rows[0], 0), rows), st))
    case SubqueryRef(q) =>
      assert WellBoundQuery(q);
      var (s, st') :- PlanSelectInPlace(catalog, q.select, at + [0], list, st, n);
      var p :- RenameQuery(s, q.alias, q.names);
      Ok((p, st'))
    case CteRef(name, alias) =>
      var i := FindCte(list.entries, name);
      if i.None? then Throws
      else
        var q := list.entries[i.value];
        var (s, st') :- PlanSelectInPlace(catalog, q.select, list.at + [i.value], list, st, n - 1);
        var p :- RenameQuery(s, alias, q.names);
        Ok((p, st'))
    case EmptyRef => Throws
  }

  function PlanSelectInPlace(catalog: Catalog, s: Select, at: Place, list: CteList, st: Progress,
                             ghost n: nat): Result<(Plan, Progress)>
    requires WellBoundSelect(s) && WellBoundList(list.entries) && EndsSelectInPlace(catalog, s, at, list, st, n)
    decreases n, s, 3
  {
    var (table, st1) :-
      if s.table.EmptyRef? then Ok((Values([], [[]]), st))
      else PlanTableInPlace(catalog, s.table, at + [0], ScopeOf(s, at, list), st, n);
    PlanStatement(s, at, table, st1)
  }

  /** The plan does not depend on the bound. */
  lemma {:induction false} SamePlan(catalog: Catalog, t: TableRef, at: Place, list: CteList, st: Progress, m: nat,
                                    n: nat)
    requires WellBound(t) && WellBoundList(list.entries) && EndsInPlace(catalog, t, at, list, st, m) && m <= n
    ensures EndsInPlace(catalog, t, at, list, st, n)
    ensures PlanTableInPlace(catalog, t, at, list, st, n) == PlanTableInPlace(catalog, t, at, list, st, m)
    decreases m, t, 0
  {
    hide PlanSelectInPlace, RenameQuery, PlanBaseTable, PlanRows, PlanExpr, WellBoundSelect;
    match t
    case CrossProduct(l, r) =>
      SamePlan(catalog, l, at + [0], list, st, m, n);
      var p := PlanTableInPlace(catalog, l, at + [0], list, st, m);
      if p.Ok? { SamePlan(catalog, r, at + [1], list, p.value.1, m, n); }
    case JoinRef(l, r, _, _) =>
      SamePlan(catalog, l, at + [0], list, st, m, n);
      var p := PlanTableInPlace(catalog, l, at + [0], list, st, m);
      if p.Ok? { SamePlan(catalog, r, at + [1], list, p.value.1, m, n); }
    case SubqueryRef(q) =>
      assert WellBoundQuery(q);
      SameSelectPlan(catalog, q.select, at + [0], list, st, m, n);
    case CteRef(name, _) =>
      var i := FindCte(list.entries, name);
      if i.Some? {
        SameSelectPlan(catalog, list.entries[i.value].select, list.at + [i.value], list, st, m - 1, n - 1);
      }
    case _ =>
  }

  lemma {:induction false} SameSelectPlan(catalog: Catalog, s: Select, at: Place, list: CteList, st: Progress, m: nat,
                                          n: nat)
    requires WellBoundSelect(s) && WellBoundList(list.entries) && EndsSelectInPlace(catalog, s, at, list, st, m)
    requires m <= n
    ensures EndsSelectInPlace(catalog, s, at, list, st, n)
    ensures PlanSelectInPlace(catalog, s, at, list, st, n) == PlanSelectInPlace(catalog, s, at, list, st, m)
    decreases m, s, 1
  {
    SamePlan(catalog, s.table, at + [0], ScopeOf(s, at, list), st, m, n);
    hide PlanStatement;
  }

  // ----- a statement that is planned again -----

  /** The set of places says what is left of each statement: a planned one is what it is `Later`. */
  lemma LeftBehind(s: Select, at: Place, child: Plan, replaced: set<Place>)
    requires PlanGrouping(GroupingOf(Now(s, at, replaced)), child).Ok?
    ensures AfterPlanning(GroupingOf(Now(s, at, replaced))) == GroupingOf(Now(s, at, Later(s, at, replaced)))
  {
    hide PlanGrouping, AfterPlanning, GroupingCalls;
    PseudoAgain(GroupingOf(s));
    if at in replaced && HasCalls(s) { ReplanThrows(GroupingOf(s), child); }
  }

  lemma AgainThrows(s: Select, table: Plan, id: nat)
    requires HasCalls(s)
    ensures PlanClauses(Regrouped(s, AfterPlanning(GroupingOf(s))), table, id) == Throws
  {
    var s' := Regrouped(s, AfterPlanning(GroupingOf(s)));
    PseudoAgain(GroupingOf(s));
    assert HasAggregation(s') by { CallsAggregate(s'); }
    hide AfterPlanning, GroupingCalls, PlanGrouping, HasAggregation, PlanExpr;
    var p1 := PlanWhere(s', table);
    if p1.Ok? { ReplanThrows(GroupingOf(s), p1.value); }
  }

  lemma CallsAggregate(s: Select)
    requires HasCalls(s)
    ensures HasAggregation(s)
  {
  }

  lemma PlanStatementIs(s: Select, at: Place, table: Plan, st: Progress)
    ensures PlanStatement(s, at, table, st) ==
            if HasCalls(s) && at in st.replaced then Throws
            else match PlanClauses(s, table, st.id)
                 case Throws => Throws
                 case Ok((p, id)) => Ok((p, Progress(id, Later(s, at, st.replaced))))
  {
    hide PlanClauses, AfterPlanning, GroupingCalls;
    if at in st.replaced {
      if HasCalls(s) {
        AgainThrows(s, table, st.id);
      } else {
        PseudoAgain(GroupingOf(s));
      }
    }
  }

  // ----- the statements with calls that planning comes to -----

  /** Their places in the order in which they are planned, each as often as planning comes to it. */
  ghost function Reached(t: TableRef, at: Place, list: CteList, n: nat): seq<Place>
    requires Finite(t, list.entries, n)
    decreases n, t, 0
  {
    match t
    case CrossProduct(l, r) => Reached(l, at + [0], list, n) + Reached(r, at + [1], list, n)
    case JoinRef(l, r, _, _) => Reached(l, at + [0], list, n) + Reached(r, at + [1], list, n)
    case SubqueryRef(q) => ReachedSelect(q.select, at + [0], list, n)
    case CteRef(name, _) =>
      var i := FindCte(list.entries, name);
      if i.None? then [] else ReachedSelect(list.entries[i.value].select, list.at + [i.value], list, n - 1)
    case _ => []
  }

  ghost function ReachedSelect(s: Select, at: Place, list: CteList, n: nat): seq<Place>
    requires FiniteSelect(s, list.entries, n)
    decreases n, s, 1
  {
    Reached(s.table, at + [0], ScopeOf(s, at, list), n) + if HasCalls(s) then [at] else []
  }

  ghost function Places(ps: seq<Place>): set<Place> {
    set p | p in ps
  }

  ghost predicate NoneTwice(ps: seq<Place>) {
    forall i, j :: 0 <= i < j < |ps| ==> ps[i] != ps[j]
  }

  /** None is there twice, and none is there that was there before. */
  ghost predicate Fresh(ps: seq<Place>, replaced: set<Place>) {
    NoneTwice(ps) && Places(ps) !! replaced
  }

  lemma FreshParts(a: seq<Place>, b: seq<Place>, replaced: set<Place>)
    ensures Fresh(a + b, replaced) <==> Fresh(a, replaced) && Fresh(b, replaced + Places(a))
    ensures replaced + Places(a + b) == replaced + Places(a) + Places(b)
  {
    var ps := a + b;
    assert forall i :: 0 <= i < |a| ==> ps[i] == a[i];
    assert forall i :: 0 <= i < |b| ==> ps[|a| + i] == b[i];
    if Fresh(ps, replaced) {
      assert forall p :: p in a ==> p in ps;
      assert forall p :: p in b ==> p in ps;
      forall i, j | 0 <= i < j < |b| ensures b[i] != b[j] { assert ps[|a| + i] != ps[|a| + j]; }
      assert forall i, j :: 0 <= i < |a| && 0 <= j < |b| ==> a[i] != b[j];
    }
    if Fresh(a, replaced) && Fresh(b, replaced + Places(a)) {
      forall i, j | 0 <= i < j < |ps| ensures ps[i] != ps[j] {
        if i < |a| <= j { assert ps[i] in Places(a) && ps[j] in Places(b); }
      }
      assert forall p :: p in ps ==> p in a || p in b;
    }
  }

  // ----- what is planned -----

  /** The plan of `SelectPlanning`, if there is one and planning comes to no statement with calls again. */
  ghost function Once(catalog: Catalog, t: TableRef, at: Place, list: CteList, st: Progress,
                      n: nat): Result<(Plan, Progress)>
    requires WellBound(t) && WellBoundList(list.entries)
  {
    if && Ends(catalog, t, list.entries, st.id, n) && PlanTableRef(catalog, t, list.entries, st.id, n).Ok?
       && Finite(t, list.entries, n) && Fresh(Reached(t, at, list, n), st.replaced)
    then
      var (p, id) := PlanTableRef(catalog, t, list.entries, st.id, n).value;
      Ok((p, Progress(id, st.replaced + Places(Reached(t, at, list, n)))))
    else Throws
  }

  ghost function OnceSelect(catalog: Catalog, s: Select, at: Place, list: CteList, st: Progress,
                            n: nat): Result<(Plan, Progress)>
    requires WellBoundSelect(s) && WellBoundList(list.entries)
  {
    if && EndsSelect(catalog, s, list.entries, st.id, n) && PlanSelect(catalog, s, list.entries, st.id, n).Ok?
       && FiniteSelect(s, list.entries, n) && Fresh(ReachedSelect(s, at, list, n), st.replaced)
    then
      var (p, id) := PlanSelect(catalog, s, list.entries, st.id, n).value;
      Ok((p, Progress(id, st.replaced + Places(ReachedSelect(s, at, list, n)))))
    else Throws
  }

  lemma NothingReached(ps: seq<Place>, replaced: set<Place>)
    requires ps == []
    ensures Fresh(ps, replaced) && replaced + Places(ps) == replaced
  {
  }

  lemma {:induction false} TableInPlaceIs(catalog: Catalog, t: TableRef, at: Place, list: CteList, st: Progress, n: nat)
    requires WellBound(t) && WellBoundList(list.entries) && EndsInPlace(catalog, t, at, list, st, n)
    ensures PlanTableInPlace(catalog, t, at, list, st, n) == Once(catalog, t, at, list, st, n)
    decreases n, t, 0
  {
    hide PlanSelect, PlanSelectInPlace, RenameQuery, PlanBaseTable, PlanRows, PlanExpr, WellBoundSelect, Fresh, Places;
    match t
    case CrossProduct(_, _) => PairInPlaceIs(catalog, t, at, list, st, n);
    case JoinRef(_, _, _, _) => PairInPlaceIs(catalog, t, at, list, st, n);
    case SubqueryRef(q) =>
      assert WellBoundQuery(q);
      SelectInPlaceIs(catalog, q.select, at + [0], list, st, n);
    case CteRef(_, _) => NameInPlaceIs(catalog, t, at, list, st, n);
    case _ => NothingReached(Reached(t, at, list, n), st.replaced);
  }

  lemma {:induction false} PairInPlaceIs(catalog: Catalog, t: TableRef, at: Place, list: CteList, st: Progress, n: nat)
    requires WellBound(t) && WellBoundList(list.entries) && EndsInPlace(catalog, t, at, list, st, n)
    requires t.CrossProduct? || t.JoinRef?
    ensures PlanTableInPlace(catalog, t, at, list, st, n) == Once(catalog, t, at, list, st, n)
    decreases n, t, -1
  {
    hide PlanExpr, WellBoundList, Fresh, Places;
    TableInPlaceIs(catalog, t.left, at + [0], list, st, n);
    var l := PlanTableInPlace(catalog, t.left, at + [0], list, st, n);
    if l.Ok? { TableInPlaceIs(catalog, t.right, at + [1], list, l.value.1, n); }
    if Finite(t, list.entries, n) {
      FreshParts(Reached(t.left, at + [0], list, n), Reached(t.right, at + [1], list, n), st.replaced);
    }
  }

  lemma {:induction false} NameInPlaceIs(catalog: Catalog, t: TableRef, at: Place, list: CteList, st: Progress, n: nat)
    requires WellBound(t) && WellBoundList(list.entries) && EndsInPlace(catalog, t, at, list, st, n) && t.CteRef?
    ensures PlanTableInPlace(catalog, t, at, list, st, n) == Once(catalog, t, at, list, st, n)
    decreases n, t, -1
  {
    hide PlanSelect, PlanSelectInPlace, RenameQuery, WellBoundSelect, Fresh, Places;
    var i := FindCte(list.entries, t.cteName);
    if i.Some? { SelectInPlaceIs(catalog, list.entries[i.value].select, list.at + [i.value], list, st, n - 1); }
  }

  lemma {:induction false} SelectInPlaceIs(catalog: Catalog, s: Select, at: Place, list: CteList, st: Progress, n: nat)
    requires WellBoundSelect(s) && WellBoundList(list.entries) && EndsSelectInPlace(catalog, s, at, list, st, n)
    ensures PlanSelectInPlace(catalog, s, at, list, st, n) == OnceSelect(catalog, s, at, list, st, n)
    decreases n, s, 1
  {
    var scope := ScopeOf(s, at, list);
    SelectInPlaceStep(catalog, s, at, list, st, n);
    if s.table.EmptyRef? {
      EmptyOnce(catalog, s, at, list, st, n);
    } else {
      TableInPlaceIs(catalog, s.table, at + [0], scope, st, n);
      hide PlanSelectInPlace, PlanTableInPlace, PlanStatement, OnceSelect;
      OnceStep(catalog, s, at, list, st, n);
    }
  }

  lemma SelectInPlaceStep(catalog: Catalog, s: Select, at: Place, list: CteList, st: Progress, n: nat)
    requires WellBoundSelect(s) && WellBoundList(list.entries) && EndsSelectInPlace(catalog, s, at, list, st, n)
    ensures PlanSelectInPlace(catalog, s, at, list, st, n) ==
            if s.table.EmptyRef? then PlanStatement(s, at, Values([], [[]]), st)
            else match PlanTableInPlace(catalog, s.table, at + [0], ScopeOf(s, at, list), st, n)
                 case Throws => Throws
                 case Ok((table, st1)) => PlanStatement(s, at, table, st1)
  {
    hide PlanStatement, PlanTableInPlace;
  }

  lemma EmptyOnce(catalog: Catalog, s: Select, at: Place, list: CteList, st: Progress, n: nat)
    requires WellBoundSelect(s) && WellBoundList(list.entries) && s.table.EmptyRef?
    ensures OnceSelect(catalog, s, at, list, st, n) == PlanStatement(s, at, Values([], [[]]), st)
  {
    EmptyEnds(catalog, s, list, st.id, n);
    var ps := if HasCalls(s) then [at] else [];
    assert ReachedSelect(s, at, list, n) == ps by {
      hide HasCalls;
      assert Reached(EmptyRef, at + [0], ScopeOf(s, at, list), n) == [] && [] + ps == ps;
    }
    assert PlanSelect(catalog, s, list.entries, st.id, n) == PlanClauses(s, Values([], [[]]), st.id) by {
      hide PlanClauses;
    }
    hide *;
    PlanStatementIs(s, at, Values([], [[]]), st);
    LastFresh(at, st.replaced);
    NothingReached([], st.replaced);
    OnceEmpty(catalog, s, at, list, st, n, ps);
  }

  lemma EmptyEnds(catalog: Catalog, s: Select, list: CteList, id: nat, n: nat)
    requires WellBoundSelect(s) && WellBoundList(list.entries) && s.table.EmptyRef?
    ensures EndsSelect(catalog, s, list.entries, id, n) && FiniteSelect(s, list.entries, n)
  {
    hide WellBoundSelect;
    assert Finite(s.table, Scope(s, list.entries), n);
  }

  lemma OnceEmpty(catalog: Catalog, s: Select, at: Place, list: CteList, st: Progress, n: nat, ps: seq<Place>)
    requires WellBoundSelect(s) && WellBoundList(list.entries)
    requires EndsSelect(catalog, s, list.entries, st.id, n) && FiniteSelect(s, list.entries, n)
    requires ReachedSelect(s, at, list, n) == ps
    ensures OnceSelect(catalog, s, at, list, st, n) ==
            match PlanSelect(catalog, s, list.entries, st.id, n)
            case Throws => Throws
            case Ok((p, id)) =>
              if Fresh(ps, st.replaced) then Ok((p, Progress(id, st.replaced + Places(ps)))) else Throws
  {
    hide PlanSelect, ReachedSelect, Fresh, Places, EndsSelect, FiniteSelect, WellBoundSelect, WellBoundList;
  }

  lemma OnceStep(catalog: Catalog, s: Select, at: Place, list: CteList, st: Progress, n: nat)
    requires WellBoundSelect(s) && WellBoundList(list.entries) && !s.table.EmptyRef?
    ensures OnceSelect(catalog, s, at, list, st, n) ==
            match Once(catalog, s.table, at + [0], ScopeOf(s, at, list), st, n)
            case Throws => Throws
            case Ok((table, st1)) => PlanStatement(s, at, table, st1)
  {
    var scope := ScopeOf(s, at, list);
    if EndsSelect(catalog, s, list.entries, st.id, n) { PlanSelectIs(catalog, s, list.entries, st.id, n); }
    hide PlanStatement, PlanClauses, PlanSelect, PlanTableRef, HasCalls, Fresh, Places, Reached;
    if FiniteSelect(s, list.entries, n) {
      var ps := Reached(s.table, at + [0], scope, n);
      FreshParts(ps, if HasCalls(s) then [at] else [], st.replaced);
      LastFresh(at, st.replaced + Places(ps));
      NothingReached([], st.replaced + Places(ps));
    }
    var from := Once(catalog, s.table, at + [0], scope, st, n);
    if from.Ok? { PlanStatementIs(s, at, from.value.0, from.value.1); }
  }

  lemma LastFresh(at: Place, replaced: set<Place>)
    ensures Fresh([at], replaced) <==> at !in replaced
    ensures Places([at]) == {at}
  {
    assert [at][0] == at;
  }

  /** Planning in place ends wherever planning does. */
  lemma {:induction false} EndsToo(catalog: Catalog, t: TableRef, at: Place, list: CteList, st: Progress, n: nat)
    requires WellBound(t) && WellBoundList(list.entries) && Ends(catalog, t, list.entries, st.id, n)
    ensures EndsInPlace(catalog, t, at, list, st, n)
    decreases n, t, 0
  {
    hide PlanSelect, PlanTableRef, PlanTableInPlace, Fresh, Places, Reached;
    match t
    case CrossProduct(l, r) =>
      EndsToo(catalog, l, at + [0], list, st, n);
      TableInPlaceIs(catalog, l, at + [0], list, st, n);
      var p := PlanTableInPlace(catalog, l, at + [0], list, st, n);
      if p.Ok? { EndsToo(catalog, r, at + [1], list, p.value.1, n); }
    case JoinRef(l, r, _, _) =>
      EndsToo(catalog, l, at + [0], list, st, n);
      TableInPlaceIs(catalog, l, at + [0], list, st, n);
      var p := PlanTableInPlace(catalog, l, at + [0], list, st, n);
      if p.Ok? { EndsToo(catalog, r, at + [1], list, p.value.1, n); }
    case SubqueryRef(q) =>
      assert WellBoundQuery(q);
      EndsSelectToo(catalog, q.select, at + [0], list, st, n);
    case CteRef(name, _) =>
      var i := FindCte(list.entries, name);
      if i.Some? {
        assert WellBoundQuery(list.entries[i.value]);
        EndsSelectToo(catalog, list.entries[i.value].select, list.at + [i.value], list, st, n - 1);
      }
    case _ =>
  }

  lemma {:induction false} EndsSelectToo(catalog: Catalog, s: Select, at: Place, list: CteList, st: Progress, n: nat)
    requires WellBoundSelect(s) && WellBoundList(list.entries) && EndsSelect(catalog, s, list.entries, st.id, n)
    ensures EndsSelectInPlace(catalog, s, at, list, st, n)
    decreases n, s, 1
  {
    EndsToo(catalog, s.table, at + [0], ScopeOf(s, at, list), st, n);
  }

  // ----- the tables and statements the plans are of -----

  /** Planning of a whole statement, of which nothing was planned before. */
  ghost predicate EndsQuery(catalog: Catalog, s: Select, id: nat, n: nat)
    requires WellBoundSelect(s)
  {
    EndsSelectInPlace(catalog, s, [], NO_LIST, Progress(id, {}), n)
  }

  function PlanQuery(catalog: Catalog, s: Select, id: nat, ghost n: nat): Result<(Plan, nat)>
    requires WellBoundSelect(s) && EndsQuery(catalog, s, id, n)
  {
    Outcome(PlanSelectInPlace(catalog, s, [], NO_LIST, Progress(id, {}), n))
  }

  function Outcome(r: Result<(Plan, Progress)>): Result<(Plan, nat)> {
    match r
    case Throws => Throws
    case Ok((p, st)) => Ok((p, st.id))
  }

  lemma OutcomeOnce(catalog: Catalog, t: TableRef, at: Place, list: CteList, st: Progress, n: nat)
    requires WellBound(t) && WellBoundList(list.entries) && Ends(catalog, t, list.entries, st.id, n)
    ensures Outcome(Once(catalog, t, at, list, st, n)) ==
            if Finite(t, list.entries, n) && Fresh(Reached(t, at, list, n), st.replaced)
            then PlanTableRef(catalog, t, list.entries, st.id, n)
            else Throws
  {
    hide PlanTableRef, Fresh, Places, Reached, Ends, Finite, WellBound, WellBoundList;
    match PlanTableRef(catalog, t, list.entries, st.id, n)
    case Throws =>
    case Ok((p, id)) =>
  }

  lemma OutcomeOnceSelect(catalog: Catalog, s: Select, at: Place, list: CteList, st: Progress, n: nat)
    requires WellBoundSelect(s) && WellBoundList(list.entries) && EndsSelect(catalog, s, list.entries, st.id, n)
    ensures Outcome(OnceSelect(catalog, s, at, list, st, n)) ==
            if FiniteSelect(s, list.entries, n) && Fresh(ReachedSelect(s, at, list, n), st.replaced)
            then PlanSelect(catalog, s, list.entries, st.id, n)
            else Throws
  {
    hide PlanSelect, Fresh, Places, ReachedSelect, EndsSelect, FiniteSelect, WellBoundSelect, WellBoundList;
    match PlanSelect(catalog, s, list.entries, st.id, n)
    case Throws =>
    case Ok((p, id)) =>
  }

  /**
   The planner plans every table on which planning ends as if each name stood for a copy of its definition in the list
   in force.  It throws when a name is not found or the definitions do not end, and when it comes to a statement with
   calls again.
   */
  lemma TablePlannedIff(catalog: Catalog, t: TableRef, at: Place, list: CteList, st: Progress, n: nat)
    requires WellBound(t) && WellBoundList(list.entries) && EndsInPlace(catalog, t, at, list, st, n)
    ensures OwnPlannable(catalog, t, list.entries, st.id, n) <==>
            Finite(t, list.entries, n) && Own(t, list.entries, n).Some?
    ensures Outcome(PlanTableInPlace(catalog, t, at, list, st, n)) ==
            if && OwnPlannable(catalog, t, list.entries, st.id, n)
               && Fresh(Reached(t, at, list, n), st.replaced)
            then PlanTableRef(catalog, Own(t, list.entries, n).value, [], st.id, 0)
            else Throws
  {
    hide PlanTableInPlace, PlanTableRef, OwnPlannable, Own, Fresh, Places, Reached, Ends, EndsInPlace, Finite,
         WellBound,
         WellBoundList;
    OwnIsPlannable(catalog, t, list.entries, st.id, n);
    TableInPlaceIs(catalog, t, at, list, st, n);
    if Finite(t, list.entries, n) { FiniteEnds(catalog, t, list.entries, st.id, n); }
    if Ends(catalog, t, list.entries, st.id, n) {
      PlannedByOwnLists(catalog, t, list.entries, st.id, n);
      OutcomeOnce(catalog, t, at, list, st, n);
    }
  }

  lemma SelectPlannedIff(catalog: Catalog, s: Select, at: Place, list: CteList, st: Progress, n: nat)
    requires WellBoundSelect(s) && WellBoundList(list.entries) && EndsSelectInPlace(catalog, s, at, list, st, n)
    ensures OwnSelectPlannable(catalog, s, list.entries, st.id, n) <==>
            FiniteSelect(s, list.entries, n) && OwnSelect(s, list.entries, n).Some?
    ensures Outcome(PlanSelectInPlace(catalog, s, at, list, st, n)) ==
            if && OwnSelectPlannable(catalog, s, list.entries, st.id, n)
               && Fresh(ReachedSelect(s, at, list, n), st.replaced)
            then PlanSelect(catalog, OwnSelect(s, list.entries, n).value, [], st.id, 0)
            else Throws
  {
    hide PlanSelectInPlace, PlanSelect, OwnSelectPlannable, OwnSelect, Fresh, Places, ReachedSelect, EndsSelect,
         EndsSelectInPlace, FiniteSelect, WellBoundSelect, WellBoundList;
    OwnSelectIsPlannable(catalog, s, list.entries, st.id, n);
    SelectInPlaceIs(catalog, s, at, list, st, n);
    if FiniteSelect(s, list.entries, n) { FiniteSelectEnds(catalog, s, list.entries, st.id, n); }
    if EndsSelect(catalog, s, list.entries, st.id, n) {
      SelectPlannedByOwnLists(catalog, s, list.entries, st.id, n);
      OutcomeOnceSelect(catalog, s, at, list, st, n);
    }
  }

  /** The same of a whole statement. */
  lemma QueryPlannedIff(catalog: Catalog, s: Select, id: nat, n: nat)
    requires WellBoundSelect(s) && EndsQuery(catalog, s, id, n)
    ensures OwnSelectPlannable(catalog, s, [], id, n) <==> FiniteSelect(s, [], n) && OwnSelect(s, [], n).Some?
    ensures PlanQuery(catalog, s, id, n) ==
            if OwnSelectPlannable(catalog, s, [], id, n) && NoneTwice(ReachedSelect(s, [], NO_LIST, n))
            then PlanSelect(catalog, OwnSelect(s, [], n).value, [], id, 0)
            else Throws
  {
    hide PlanSelectInPlace, PlanSelect, OwnSelectPlannable, OwnSelect, NoneTwice, Places, ReachedSelect,
         EndsSelectInPlace, FiniteSelect, WellBoundSelect;
    SelectPlannedIff(catalog, s, [], NO_LIST, Progress(id, {}), n);
  }

  /** Every plan is one of `SelectPlanning`. */
  lemma QueryIs(catalog: Catalog, s: Select, id: nat, n: nat)
    requires WellBoundSelect(s) && EndsQuery(catalog, s, id, n) && PlanQuery(catalog, s, id, n).Ok?
    ensures EndsSelect(catalog, s, [], id, n) && PlanSelect(catalog, s, [], id, n) == PlanQuery(catalog, s, id, n)
  {
    hide PlanSelectInPlace, PlanSelect, Fresh, Places, ReachedSelect, EndsSelectInPlace, FiniteSelect, WellBoundSelect,
         EndsSelect;
    SelectInPlaceIs(catalog, s, [], NO_LIST, Progress(id, {}), n);
    OutcomeOnceSelect(catalog, s, [], NO_LIST, Progress(id, {}), n);
  }

  /**
   As bound, if every name in the planner's lists is that of the bound entry and no statement with calls comes again.
   */
  lemma PlannedAsBound(catalog: Catalog, t: TableRef, at: Place, stack: Stack, list: CteList, st: Progress)
    returns (n: nat)
    requires WellBound(t) && WellBoundList(list.entries) && SameEntries(t, stack, list.entries, true)
    ensures EndsInPlace(catalog, t, at, list, st, n) && Finite(t, list.entries, n)
    ensures if SameEntries(t, stack, list.entries, false) && Fresh(Reached(t, at, list, n), st.replaced) then
              && Expand(t, stack).Some? && WellBound(Expand(t, stack).value)
              && Ends(catalog, Expand(t, stack).value, [], st.id, 0)
              && Outcome(PlanTableInPlace(catalog, t, at, list, st, n)) ==
                 PlanTableRef(catalog, Expand(t, stack).value, [], st.id, 0)
            else PlanTableInPlace(catalog, t, at, list, st, n) == Throws
  {
    hide SameEntries, Ends, EndsInPlace, PlanTableRef, PlanTableInPlace, Own, Expand, Finite, WellBound, Fresh, Reached;
    n := SameIsFinite(t, stack, list.entries);
    FiniteEnds(catalog, t, list.entries, st.id, n);
    EndsToo(catalog, t, at, list, st, n);
    SameExpansions(t, stack, list.entries, n);
    TablePlannedIff(catalog, t, at, list, st, n);
  }

  lemma PlannedSelectAsBound(catalog: Catalog, s: Select, at: Place, stack: Stack, list: CteList, st: Progress)
    returns (n: nat)
    requires WellBoundSelect(s) && WellBoundList(list.entries) && SameSelect(s, stack, list.entries, true)
    ensures EndsSelectInPlace(catalog, s, at, list, st, n) && FiniteSelect(s, list.entries, n)
    ensures if SameSelect(s, stack, list.entries, false) && Fresh(ReachedSelect(s, at, list, n), st.replaced) then
              && ExpandSelect(s, stack).Some? && WellBoundSelect(ExpandSelect(s, stack).value)
              && EndsSelect(catalog, ExpandSelect(s, stack).value, [], st.id, 0)
              && Outcome(PlanSelectInPlace(catalog, s, at, list, st, n)) ==
                 PlanSelect(catalog, ExpandSelect(s, stack).value, [], st.id, 0)
            else PlanSelectInPlace(catalog, s, at, list, st, n) == Throws
  {
    n := SameIsFinite(s.table, Inside(s, stack), Scope(s, list.entries));
    assert FiniteSelect(s, list.entries, n);
    hide SameSelect, EndsSelect, EndsSelectInPlace, PlanSelect, PlanSelectInPlace, OwnSelect, ExpandSelect,
         FiniteSelect,
         WellBoundSelect, Fresh, ReachedSelect;
    FiniteSelectEnds(catalog, s, list.entries, st.id, n);
    EndsSelectToo(catalog, s, at, list, st, n);
    SameSelectExpansions(s, stack, list.entries, n);
    SelectPlannedIff(catalog, s, at, list, st, n);
  }

  // ----- places -----

  lemma PlacesApart(a: seq<Place>, b: seq<Place>, at: Place)
    requires NoneTwice(a) && NoneTwice(b)
    requires (forall p :: p in a ==> at + [0] <= p) && (forall p :: p in b ==> at + [1] <= p)
    ensures NoneTwice(a + b) && forall p :: p in a + b ==> at <= p
  {
    forall i, j | 0 <= i < |a| && 0 <= j < |b| ensures a[i] != b[j] {
      assert a[i] in a && b[j] in b;
      assert at + [0] <= a[i] && at + [1] <= b[j];
      assert a[i][|at|] == (at + [0])[|at|] && b[j][|at|] == (at + [1])[|at|];
    }
    forall p | p in a + b ensures at <= p {
      assert at <= at + [0] && at <= at + [1];
    }
  }

  lemma PlacesAbove(a: seq<Place>, at: Place)
    requires NoneTwice(a) && forall p :: p in a ==> at + [0] <= p
    ensures NoneTwice(a + [at]) && forall p :: p in a + [at] ==> at <= p
  {
    forall p | p in a ensures at <= p && |p| > |at| { assert at <= at + [0] <= p; }
  }

  /** Without common table expressions planning comes to each statement once, so that it makes the plan as bound. */
  lemma {:induction false} DirectOnce(t: TableRef, at: Place, list: CteList, n: nat)
    requires Direct(t)
    ensures Finite(t, list.entries, n) && NoneTwice(Reached(t, at, list, n))
    ensures forall p :: p in Reached(t, at, list, n) ==> at <= p
  {
    match t
    case CrossProduct(l, r) =>
      DirectOnce(l, at + [0], list, n);
      DirectOnce(r, at + [1], list, n);
      PlacesApart(Reached(l, at + [0], list, n), Reached(r, at + [1], list, n), at);
    case JoinRef(l, r, _, _) =>
      DirectOnce(l, at + [0], list, n);
      DirectOnce(r, at + [1], list, n);
      PlacesApart(Reached(l, at + [0], list, n), Reached(r, at + [1], list, n), at);
    case SubqueryRef(q) =>
      DirectSelectOnce(q.select, at + [0], list, n);
      assert at <= at + [0];
    case _ =>
  }

  lemma {:induction false} DirectSelectOnce(s: Select, at: Place, list: CteList, n: nat)
    requires DirectSelect(s)
    ensures FiniteSelect(s, list.entries, n) && NoneTwice(ReachedSelect(s, at, list, n))
    ensures forall p :: p in ReachedSelect(s, at, list, n) ==> at <= p
  {
    DirectOnce(s.table, at + [0], list, n);
    var ps := Reached(s.table, at + [0], list, n);
    PlacesAbove(ps, at);
    assert ps + [] == ps;
    assert at <= at + [0];
  }

  lemma DirectQuery(catalog: Catalog, s: Select, id: nat, n: nat)
    requires WellBoundSelect(s) && DirectSelect(s)
    ensures EndsQuery(catalog, s, id, n) && EndsSelect(catalog, s, [], id, n)
    ensures PlanQuery(catalog, s, id, n) == PlanSelect(catalog, s, [], id, n)
  {
    DirectSelectOnce(s, [], NO_LIST, n);
    hide PlanSelectInPlace, PlanSelect, NoneTwice, Places, ReachedSelect, EndsSelectInPlace, FiniteSelect,
         WellBoundSelect, EndsSelect, DirectSelect;
    FiniteSelectEnds(catalog, s, [], id, n);
    EndsSelectToo(catalog, s, [], NO_LIST, Progress(id, {}), n);
    SelectInPlaceIs(catalog, s, [], NO_LIST, Progress(id, {}), n);
    OutcomeOnceSelect(catalog, s, [], NO_LIST, Progress(id, {}), n);
  }

  /** What stands at a place of a statement. */
  datatype Part = Table(t: TableRef) | Statement(s: Select) | Entries(ctes: seq<Subquery>)

  function Below(part: Part, i: nat): Option<Part> {
    match part
    case Table(CrossProduct(l, r)) => if i == 0 then Some(Table(l)) else if i == 1 then Some(Table(r)) else None
    case Table(JoinRef(l, r, _, _)) => if i == 0 then Some(Table(l)) else if i == 1 then Some(Table(r)) else None
    case Table(SubqueryRef(q)) => if i == 0 then Some(Statement(q.select)) else None
    case Table(_) => None
    case Statement(s) => if i == 0 then Some(Table(s.table)) else if i == 1 then Some(Entries(s.ctes)) else None
    case Entries(ctes) => if i < |ctes| then Some(Statement(ctes[i].select)) else None
  }

  function PartAt(root: Select, at: Place): Option<Part> {
    if at == [] then Some(Statement(root))
    else match PartAt(root, at[..|at| - 1])
      case None => None
      case Some(part) => Below(part, at[|at| - 1])
  }

  lemma PartBelow(root: Select, at: Place, part: Part, i: nat)
    requires PartAt(root, at) == Some(part)
    ensures PartAt(root, at + [i]) == Below(part, i)
  {
    assert (at + [i])[..|at + [i]| - 1] == at;
  }

  ghost predicate ListStands(root: Select, list: CteList) {
    list.entries == [] || PartAt(root, list.at) == Some(Entries(list.entries))
  }

  ghost predicate CallsStand(root: Select, at: Place) {
    PartAt(root, at).Some? && PartAt(root, at).value.Statement? && HasCalls(PartAt(root, at).value.s)
  }

  /** Every place is that of a statement with calls. */
  lemma {:induction false} ReachedStand(root: Select, t: TableRef, at: Place, list: CteList, n: nat)
    requires PartAt(root, at) == Some(Table(t)) && ListStands(root, list) && Finite(t, list.entries, n)
    ensures forall p :: p in Reached(t, at, list, n) ==> CallsStand(root, p)
    decreases n, t, 0
  {
    hide HasCalls;
    match t
    case CrossProduct(l, r) =>
      PartBelow(root, at, Table(t), 0);
      PartBelow(root, at, Table(t), 1);
      ReachedStand(root, l, at + [0], list, n);
      ReachedStand(root, r, at + [1], list, n);
    case JoinRef(l, r, _, _) =>
      PartBelow(root, at, Table(t), 0);
      PartBelow(root, at, Table(t), 1);
      ReachedStand(root, l, at + [0], list, n);
      ReachedStand(root, r, at + [1], list, n);
    case SubqueryRef(q) =>
      PartBelow(root, at, Table(t), 0);
      ReachedSelectStand(root, q.select, at + [0], list, n);
    case CteRef(name, _) =>
      var i := FindCte(list.entries, name);
      if i.Some? {
        PartBelow(root, list.at, Entries(list.entries), i.value);
        ReachedSelectStand(root, list.entries[i.value].select, list.at + [i.value], list, n - 1);
      }
    case _ =>
  }

  lemma {:induction false} ReachedSelectStand(root: Select, s: Select, at: Place, list: CteList, n: nat)
    requires PartAt(root, at) == Some(Statement(s)) && ListStands(root, list) && FiniteSelect(s, list.entries, n)
    ensures forall p :: p in ReachedSelect(s, at, list, n) ==> CallsStand(root, p)
    decreases n, s, 1
  {
    PartBelow(root, at, Statement(s), 0);
    PartBelow(root, at, Statement(s), 1);
    ReachedStand(root, s.table, at + [0], ScopeOf(s, at, list), n);
  }
}
