/**
 What the aggregation executor is to do: the rows fall into groups by the values of the group-bys, and each group
 becomes one row, of those values and of its aggregates.
 */
module AggregateGroups {
  import opened Expressions
  import opened Plans
  import opened AggregateValues
  import opened AggregationPlanning

  ghost function Flat(groups: seq<seq<Row>>): seq<Row> {
    if groups == [] then [] else groups[0] + Flat(groups[1..])
  }

  lemma {:induction false} InFlat(groups: seq<seq<Row>>, i: nat, r: Row)
    requires i < |groups| && r in groups[i]
    ensures r in Flat(groups)
  {
    if i > 0 { InFlat(groups[1..], i - 1, r); }
  }

  lemma {:induction false} GroupOf(groups: seq<seq<Row>>, r: Row) returns (i: nat)
    requires r in Flat(groups)
    ensures i < |groups| && r in groups[i]
  {
    if r in groups[0] {
      i := 0;
    } else {
      i := GroupOf(groups[1..], r);
      i := i + 1;
    }
  }

  lemma {:induction false} EvalAllIs(es: seq<Expr>, row: Row)
    ensures |EvalAll(es, row)| == |es| && forall j :: 0 <= j < |es| ==> EvalAll(es, row)[j] == Eval(es[j], row)
  {
    hide Eval;
    if es != [] {
      EvalAllIs(es[1..], row);
      assert forall j :: 1 <= j < |es| ==> es[j] == es[1..][j - 1];
    }
  }

  /** A row that stands for a group: the values of its group-bys, then its aggregates. */
  ghost predicate StandsFor(row: Row, groupBys: seq<Expr>, aggregates: seq<Expr>, types: seq<AggregationType>,
                            group: seq<Row>)
    requires |aggregates| == |types|
  {
    && |row| == |groupBys| + |aggregates|
    && (forall r :: r in group ==> row[..|groupBys|] == EvalAll(groupBys, r))
    && forall j :: 0 <= j < |aggregates| ==>
         row[|groupBys| + j] == AggregateValue(types[j], Each(aggregates[j], group))
  }

  ghost predicate Apart(groupBys: seq<Expr>, a: Row, b: Row) {
    EvalAll(groupBys, a) != EvalAll(groupBys, b)
  }

  /** The rows fall into groups with one result each; without group-bys there is one group, even of no rows. */
  ghost predicate Groups(groupBys: seq<Expr>, aggregates: seq<Expr>, types: seq<AggregationType>, rows: seq<Row>,
                         results: seq<Row>, groups: seq<seq<Row>>)
    requires |aggregates| == |types|
  {
    && multiset(Flat(groups)) == multiset(rows) && |results| == |groups|
    && (if groupBys == [] then |groups| == 1 else forall i :: 0 <= i < |groups| ==> groups[i] != [])
    && (forall i :: 0 <= i < |groups| ==> StandsFor(results[i], groupBys, aggregates, types, groups[i]))
    && forall i, j, a, b :: 0 <= i < j < |groups| && a in groups[i] && b in groups[j] ==> Apart(groupBys, a, b)
  }

  ghost predicate HasGroups(groupBys: seq<Expr>, aggregates: seq<Expr>, types: seq<AggregationType>, rows: seq<Row>,
                            results: seq<Row>)
    requires |aggregates| == |types|
  {
    exists groups :: Groups(groupBys, aggregates, types, rows, results, groups)
  }

  ghost predicate Aggregates(db: Database) {
    forall groupBys, aggregates, types, rows :: |aggregates| == |types| ==>
      HasGroups(groupBys, aggregates, types, rows, db.aggregate(groupBys, aggregates, types, rows))
  }

  /** The rows of a group are not apart. */
  lemma {:induction false} OneGroup(groupBys: seq<Expr>, aggregates: seq<Expr>, types: seq<AggregationType>,
                                    group: seq<Row>, head: Row, a: Row, b: Row)
    requires |aggregates| == |types| && StandsFor(head, groupBys, aggregates, types, group) && a in group && b in group
    ensures !Apart(groupBys, a, b)
  {
  }

  // ----- a hash table does it -----

  /** The groups with one more row: in the group of its key, or in a new one. */
  ghost function Placed(groupBys: seq<Expr>, groups: seq<seq<Row>>, r: Row): seq<seq<Row>> {
    if groups == [] then [[r]]
    else if groups[0] == [] || EvalAll(groupBys, groups[0][0]) == EvalAll(groupBys, r) then
      [groups[0] + [r]] + groups[1..]
    else [groups[0]] + Placed(groupBys, groups[1..], r)
  }

  ghost function GroupRows(groupBys: seq<Expr>, rows: seq<Row>): seq<seq<Row>> {
    if rows == [] then (if groupBys == [] then [[]] else [])
    else Placed(groupBys, GroupRows(groupBys, rows[..|rows| - 1]), rows[|rows| - 1])
  }

  ghost function AggregatesOf(aggregates: seq<Expr>, types: seq<AggregationType>, group: seq<Row>): (r: Row)
    requires |aggregates| == |types|
    ensures |r| == |aggregates|
    ensures forall j :: 0 <= j < |r| ==> r[j] == AggregateValue(types[j], Each(aggregates[j], group))
  {
    if aggregates == [] then []
    else [AggregateValue(types[0], Each(aggregates[0], group))] + AggregatesOf(aggregates[1..], types[1..], group)
  }

  ghost function KeyOf(groupBys: seq<Expr>, group: seq<Row>): Row {
    if group == [] then [] else EvalAll(groupBys, group[0])
  }

  ghost function HashAggregate(groupBys: seq<Expr>, aggregates: seq<Expr>, types: seq<AggregationType>,
                               groups: seq<seq<Row>>): (r: seq<Row>)
    requires |aggregates| == |types|
    ensures |r| == |groups|
    ensures forall i :: 0 <= i < |r| ==> r[i] == KeyOf(groupBys, groups[i]) + AggregatesOf(aggregates, types, groups[i])
  {
    if groups == [] then []
    else
      [KeyOf(groupBys, groups[0]) + AggregatesOf(aggregates, types, groups[0])]
      + HashAggregate(groupBys, aggregates, types, groups[1..])
  }

  /** The rows of a group have one key, and no two groups the same. */
  ghost predicate ByKey(groupBys: seq<Expr>, groups: seq<seq<Row>>) {
    && (if groupBys == [] then |groups| == 1 else forall i :: 0 <= i < |groups| ==> groups[i] != [])
    && (forall i, a, b :: 0 <= i < |groups| && a in groups[i] && b in groups[i] ==> !Apart(groupBys, a, b))
    && forall i, j, a, b :: 0 <= i < j < |groups| && a in groups[i] && b in groups[j] ==> Apart(groupBys, a, b)
  }

  /** Where a row goes, if it is not to a new group. */
  ghost predicate Joins(groupBys: seq<Expr>, group: seq<Row>, r: Row) {
    group == [] || EvalAll(groupBys, group[0]) == EvalAll(groupBys, r)
  }

  /** Placing a row adds it to the first group it joins, or as a group of its own. */
  lemma {:induction false} PlacedIs(groupBys: seq<Expr>, groups: seq<seq<Row>>, r: Row) returns (i: nat)
    ensures i <= |groups| && forall j :: 0 <= j < i ==> !Joins(groupBys, groups[j], r)
    ensures i < |groups| ==> Joins(groupBys, groups[i], r)
    ensures Placed(groupBys, groups, r) ==
              if i < |groups| then groups[i := groups[i] + [r]] else groups + [[r]]
  {
    hide EvalAll;
    if groups == [] || Joins(groupBys, groups[0], r) {
      i := 0;
    } else {
      i := PlacedIs(groupBys, groups[1..], r);
      assert forall j :: 1 <= j < |groups| ==> groups[1..][j - 1] == groups[j];
      i := i + 1;
    }
  }

  lemma {:induction false} PlacedFlat(groupBys: seq<Expr>, groups: seq<seq<Row>>, r: Row)
    ensures multiset(Flat(Placed(groupBys, groups, r))) == multiset(Flat(groups)) + multiset{r}
  {
    hide EvalAll;
    if groups == [] {
      assert Flat([[r]]) == [r] + Flat([]);
    } else {
      PlacedFlat(groupBys, groups[1..], r);
      var placed := Placed(groupBys, groups, r);
      assert placed[1..] == groups[1..] || placed[1..] == Placed(groupBys, groups[1..], r);
    }
  }

  /** A row is apart from the rows of all groups but the one it joins. */
  lemma {:induction false} ApartUnless(groupBys: seq<Expr>, groups: seq<seq<Row>>, r: Row, i: nat, j: nat, a: Row)
    requires ByKey(groupBys, groups) && i <= |groups| && j < |groups| && a in groups[j]
    requires forall k :: 0 <= k < i ==> !Joins(groupBys, groups[k], r)
    requires i < |groups| ==> Joins(groupBys, groups[i], r)
    ensures Apart(groupBys, a, r) <==> j != i
  {
    hide EvalAll;
    assert groups[j][0] in groups[j];
    assert !Apart(groupBys, groups[j][0], a);
    if i < j {
      assert groups[i][0] in groups[i];
      assert Apart(groupBys, groups[i][0], a);
    }
  }

  lemma {:induction false} PlacedByKey(groupBys: seq<Expr>, groups: seq<seq<Row>>, r: Row)
    requires ByKey(groupBys, groups)
    ensures ByKey(groupBys, Placed(groupBys, groups, r))
  {
    var i := PlacedIs(groupBys, groups, r);
    var groups' := Placed(groupBys, groups, r);
    assert groupBys == [] ==> i < |groups| by { if groupBys == [] { KeyOfNone(groups[0], r); } }
    forall j, a | 0 <= j < |groups| && a in groups[j] ensures Apart(groupBys, a, r) <==> j != i {
      ApartUnless(groupBys, groups, r, i, j, a);
    }
    hide Placed, EvalAll, Joins;
    forall j, a | 0 <= j < |groups'| && a in groups'[j]
      ensures (j < |groups| && a in groups[j]) || (j == i && a == r)
    {
    }
    forall j, k, a, b | 0 <= j <= k < |groups'| && a in groups'[j] && b in groups'[k]
      ensures Apart(groupBys, a, b) <==> j != k
    {
      assert Apart(groupBys, b, r) <==> Apart(groupBys, r, b);
    }
  }

  lemma KeyOfNone(group: seq<Row>, r: Row)
    ensures Joins([], group, r)
  {
  }

  lemma {:induction false} GroupRowsByKey(groupBys: seq<Expr>, rows: seq<Row>)
    ensures ByKey(groupBys, GroupRows(groupBys, rows))
    ensures multiset(Flat(GroupRows(groupBys, rows))) == multiset(rows)
  {
    if rows == [] {
      assert Flat([[]]) == [] + Flat([]);
    } else {
      var init, last := rows[..|rows| - 1], rows[|rows| - 1];
      GroupRowsByKey(groupBys, init);
      PlacedByKey(groupBys, GroupRows(groupBys, init), last);
      PlacedFlat(groupBys, GroupRows(groupBys, init), last);
      hide ByKey, Placed, Flat;
      assert rows == init + [last];
    }
  }

  lemma {:induction false} HeadStands(groupBys: seq<Expr>, aggregates: seq<Expr>, types: seq<AggregationType>,
                                      group: seq<Row>, key: Row)
    requires |aggregates| == |types| && |key| == |groupBys|
    requires forall r :: r in group ==> EvalAll(groupBys, r) == key
    ensures StandsFor(key + AggregatesOf(aggregates, types, group), groupBys, aggregates, types, group)
  {
    hide EvalAll, AggregateValue, Each;
    var values := AggregatesOf(aggregates, types, group);
    assert (key + values)[..|key|] == key;
  }

  /** There is such an aggregation: the groups of a hash table over the keys. */
  lemma {:induction false} HashTableGroups(groupBys: seq<Expr>, aggregates: seq<Expr>, types: seq<AggregationType>,
                                           rows: seq<Row>)
    requires |aggregates| == |types|
    ensures Groups(groupBys, aggregates, types, rows,
                   HashAggregate(groupBys, aggregates, types, GroupRows(groupBys, rows)), GroupRows(groupBys, rows))
  {
    var groups := GroupRows(groupBys, rows);
    GroupRowsByKey(groupBys, rows);
    var results := HashAggregate(groupBys, aggregates, types, groups);
    hide GroupRows, HashAggregate, Flat, StandsFor, EvalAll, AggregatesOf;
    forall i | 0 <= i < |groups| ensures StandsFor(results[i], groupBys, aggregates, types, groups[i]) {
      var key := KeyOf(groupBys, groups[i]);
      if groups[i] != [] { EvalAllIs(groupBys, groups[i][0]); }
      forall r | r in groups[i] ensures EvalAll(groupBys, r) == key {
        assert groups[i][0] in groups[i];
        assert !Apart(groupBys, r, groups[i][0]);
      }
      HeadStands(groupBys, aggregates, types, groups[i], key);
    }
  }

  lemma {:induction false} AggregatorExists(db: Database) returns (db': Database)
    ensures Aggregates(db') && db' == db.(aggregate := db'.aggregate)
  {
    db' := db.(aggregate := (groupBys, aggregates, types, rows) =>
                 if |aggregates| != |types| then []
                 else HashAggregate(groupBys, aggregates, types, GroupRows(groupBys, rows)));
    hide HashAggregate, GroupRows, Groups;
    forall groupBys, aggregates, types, rows | |aggregates| == |types|
      ensures HasGroups(groupBys, aggregates, types, rows, db'.aggregate(groupBys, aggregates, types, rows))
    {
      HashTableGroups(groupBys, aggregates, types, rows);
    }
  }
}
