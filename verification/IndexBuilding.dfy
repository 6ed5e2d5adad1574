/**
 An index is built by inserting the rows of its table, and the tree refuses a key that it has.  So an index on a column
 with repeated values leads to the first row of each value only: the lemmas say exactly when plans that use it still
 have the right rows.
 */
module IndexBuilding {
  import opened Options
  import opened Expressions
  import opened Plans
  import opened Optimizer
  import opened OptimizerSoundness

  // ----- building -----

  function InsertEntry(entries: seq<Row>, row: Row, column: nat): seq<Row> {
    if entries == [] then [row]
    else if Less(At(row, column), At(entries[0], column)) then [row] + entries
    else if Less(At(entries[0], column), At(row, column)) then
      [entries[0]] + InsertEntry(entries[1..], row, column)
    else entries
  }

  function Populated(rows: seq<Row>, column: nat): seq<Row> {
    if rows == [] then [] else InsertEntry(Populated(rows[..|rows| - 1], column), rows[|rows| - 1], column)
  }

  /** Inserts all rows of a table. */
  method Populate(rows: seq<Row>, column: nat) returns (entries: seq<Row>)
    ensures entries == Populated(rows, column)
  {
    entries := [];
    var i := 0;
    while i < |rows|
      invariant 0 <= i <= |rows| && entries == Populated(rows[..i], column)
    {
      assert rows[..i + 1][..i] == rows[..i];
      entries := InsertEntry(entries, rows[i], column);
      i := i + 1;
    }
    assert rows[..|rows|] == rows;
  }

  ghost predicate SameKey(a: Row, b: Row, column: nat) {
    !Less(At(a, column), At(b, column)) && !Less(At(b, column), At(a, column))
  }

  ghost predicate HasKey(rows: seq<Row>, row: Row, column: nat) {
    exists i :: 0 <= i < |rows| && SameKey(rows[i], row, column)
  }

  lemma SameKeyTransitive(a: Row, b: Row, c: Row, column: nat)
    requires SameKey(a, b, column) && SameKey(b, c, column)
    ensures SameKey(a, c, column)
  {
    NotLessTransitive(At(a, column), At(b, column), At(c, column));
    NotLessTransitive(At(c, column), At(b, column), At(a, column));
  }

  lemma HasKeyFirst(rows: seq<Row>, row: Row, column: nat)
    requires rows != []
    ensures HasKey(rows, row, column) <==> SameKey(rows[0], row, column) || HasKey(rows[1..], row, column)
  {
    hide SameKey;
    if HasKey(rows, row, column) {
      var i :| 0 <= i < |rows| && SameKey(rows[i], row, column);
      if i > 0 { assert rows[1..][i - 1] == rows[i]; }
    }
    if HasKey(rows[1..], row, column) {
      var i :| 0 <= i < |rows[1..]| && SameKey(rows[1..][i], row, column);
      assert rows[i + 1] == rows[1..][i];
    }
  }

  lemma Tail(entries: seq<Row>, column: nat)
    requires Ascending(entries, column) && entries != []
    ensures Ascending(entries[1..], column)
    ensures forall i :: 0 <= i < |entries[1..]| ==> Less(At(entries[0], column), At(entries[1..][i], column))
  {
  }

  lemma Headed(row: Row, entries: seq<Row>, column: nat)
    requires Ascending(entries, column)
    requires forall i :: 0 <= i < |entries| ==> Less(At(row, column), At(entries[i], column))
    ensures Ascending([row] + entries, column)
  {
  }

  /** A row goes in exactly if its key is not there; the entries stay in order. */
  lemma {:induction false} InsertEntryEffect(entries: seq<Row>, row: Row, column: nat)
    requires Ascending(entries, column)
    ensures var entries' := InsertEntry(entries, row, column);
            && Ascending(entries', column)
            && (forall r :: r in entries' ==> r in entries || r == row)
            && (if HasKey(entries, row, column) then entries' == entries
                else multiset(entries') == multiset(entries) + multiset{row})
  {
    if entries == [] {
    } else {
      Tail(entries, column);
      var head, rest := entries[0], entries[1..];
      HasKeyFirst(entries, row, column);
      LessAsymmetric(At(row, column), At(head, column));
      assert entries == [head] + rest;
      if Less(At(row, column), At(head, column)) {
        forall i | 0 <= i < |rest| ensures Less(At(row, column), At(rest[i], column)) {
          LessTransitive(At(row, column), At(head, column), At(rest[i], column));
        }
        assert !HasKey(rest, row, column);
        Headed(row, entries, column);
      } else if Less(At(head, column), At(row, column)) {
        InsertEntryEffect(rest, row, column);
        var rest' := InsertEntry(rest, row, column);
        forall i | 0 <= i < |rest'| ensures Less(At(head, column), At(rest'[i], column)) {
          assert rest'[i] in rest' && (rest'[i] in rest || rest'[i] == row);
        }
        Headed(head, rest', column);
      }
    }
  }

  // ----- looking keys up -----

  lemma {:induction false} MatchesJoin(v: Value, a: seq<Row>, b: seq<Row>, key: Expr)
    ensures KeyMatches(v, a + b, key) == KeyMatches(v, a, key) + KeyMatches(v, b, key)
  {
    hide Compare, Eval;
    if a == [] {
      assert a + b == b;
    } else {
      assert (a + b)[1..] == a[1..] + b;
      MatchesJoin(v, a[1..], b, key);
    }
  }

  lemma {:induction false} MatchesAre(v: Value, rs: seq<Row>, key: Expr)
    ensures forall r :: r in KeyMatches(v, rs, key) ==> r in rs && Compare(Equal, v, Eval(key, r)) == CmpTrue
    ensures (exists r :: r in rs && Compare(Equal, v, Eval(key, r)) == CmpTrue) ==> KeyMatches(v, rs, key) != []
  {
    hide Compare, Eval;
    if rs != [] { MatchesAre(v, rs[1..], key); }
  }

  ghost function FirstOf(rows: seq<Row>): seq<Row> {
    if rows == [] then [] else [rows[0]]
  }

  /** A refused row has a namesake: the key is looked up with success before exactly if it is the key of an entry. */
  lemma MatchIsKey(v: Value, entries: seq<Row>, row: Row, column: nat)
    requires Compare(Equal, v, At(row, column)) == CmpTrue
    ensures HasKey(entries, row, column) <==> KeyMatches(v, entries, ColumnValue(0, column, INVALID)) != []
  {
    var key := ColumnValue(0, column, INVALID);
    MatchesAre(v, entries, key);
    if HasKey(entries, row, column) {
      var i :| 0 <= i < |entries| && SameKey(entries[i], row, column);
      LessTotal(At(entries[i], column), At(row, column));
      assert entries[i] in entries && Compare(Equal, v, Eval(key, entries[i])) == CmpTrue;
    }
    if KeyMatches(v, entries, key) != [] {
      var r := KeyMatches(v, entries, key)[0];
      assert r in KeyMatches(v, entries, key);
      var i :| 0 <= i < |entries| && entries[i] == r;
      LessAsymmetric(v, v);
      assert SameKey(entries[i], row, column);
    }
  }

  lemma InsertEntryMatches(v: Value, entries: seq<Row>, row: Row, column: nat)
    requires Ascending(entries, column)
    ensures var key := ColumnValue(0, column, INVALID);
            KeyMatches(v, InsertEntry(entries, row, column), key) ==
            FirstOf(KeyMatches(v, entries, key) + KeyMatches(v, [row], key))
  {
    var key := ColumnValue(0, column, INVALID);
    var entries' := InsertEntry(entries, row, column);
    InsertEntryEffect(entries, row, column);
    AtMostOneMatch(v, entries, key);
    AtMostOneMatch(v, entries', key);
    assert KeyMatches(v, [row], key) == if Compare(Equal, v, At(row, column)) == CmpTrue then [row] else [] by {
      assert [row][1..] == [];
    }
    hide KeyMatches, Compare, Ascending, InsertEntry, HasKey, FirstOf;
    var a, m := KeyMatches(v, entries, key), KeyMatches(v, [row], key);
    if m != [] { MatchIsKey(v, entries, row, column); }
    if HasKey(entries, row, column) {
      FirstOfJoin(a, m);
    } else {
      CountsJoin(v, entries, entries', row, key);
      FirstOfJoin(a + m, []);
      assert a + m + [] == a + m;
    }
  }

  lemma FirstOfJoin(a: seq<Row>, m: seq<Row>)
    requires |a| <= 1 && (a == [] ==> m == [])
    ensures FirstOf(a + m) == a
  {
    if a == [] { assert a + m == []; } else { assert (a + m)[0] == a[0]; }
  }

  lemma CountsJoin(v: Value, entries: seq<Row>, entries': seq<Row>, row: Row, key: Expr)
    requires multiset(entries') == multiset(entries) + multiset{row}
    requires |KeyMatches(v, entries', key)| <= 1
    ensures KeyMatches(v, entries', key) == KeyMatches(v, entries, key) + KeyMatches(v, [row], key)
  {
    var a, b := KeyMatches(v, entries, key) + KeyMatches(v, [row], key), KeyMatches(v, entries', key);
    MatchesJoin(v, entries, [row], key);
    forall r: Row ensures multiset(a)[r] == multiset(b)[r] {
      MatchCount(v, entries + [row], key, r);
      MatchCount(v, entries', key, r);
    }
    hide KeyMatches;
    assert multiset(a) == multiset(b);
    SmallSame(a, b);
  }

  /** The index finds the first row of a key. */
  lemma {:induction false} PopulatedFinds(v: Value, rows: seq<Row>, column: nat)
    ensures Ascending(Populated(rows, column), column)
    ensures var key := ColumnValue(0, column, INVALID);
            KeyMatches(v, Populated(rows, column), key) == FirstOf(KeyMatches(v, rows, key))
  {
    if rows != [] {
      var init, last, key := rows[..|rows| - 1], rows[|rows| - 1], ColumnValue(0, column, INVALID);
      assert rows == init + [last];
      PopulatedFinds(v, init, column);
      InsertEntryEffect(Populated(init, column), last, column);
      InsertEntryMatches(v, Populated(init, column), last, column);
      MatchesJoin(v, init, [last], key);
    }
  }

  // ----- joins -----

  ghost predicate KeyOnce(l: Row, rows: seq<Row>, outerCol: Expr, column: nat) {
    |KeyMatches(Eval(outerCol, l), rows, ColumnValue(0, column, INVALID))| <= 1
  }

  lemma {:induction false} ExtensionsSize(l: Row, matches: seq<Row>)
    ensures |Extensions(l, matches)| == |matches|
  {
    if matches != [] { ExtensionsSize(l, matches[1..]); }
  }

  lemma BlockByIndex(l: Row, matches: seq<Row>, outer: bool, nulls: Row)
    ensures |JoinBlock(l, FirstOf(matches), outer, nulls)| <= |JoinBlock(l, matches, outer, nulls)|
    ensures |JoinBlock(l, FirstOf(matches), outer, nulls)| == |JoinBlock(l, matches, outer, nulls)| <==> |matches| <= 1
    ensures |matches| <= 1 ==> FirstOf(matches) == matches
  {
    ExtensionsSize(l, matches);
    ExtensionsSize(l, FirstOf(matches));
  }

  lemma {:induction false} JoinByIndex(ls: seq<Row>, rows: seq<Row>, outerCol: Expr, column: nat, outer: bool,
                                       nulls: Row)
    ensures var key := ColumnValue(0, column, INVALID);
            var (a, b) := (KeyJoin(ls, outerCol, Populated(rows, column), key, outer, nulls),
                           KeyJoin(ls, outerCol, rows, key, outer, nulls));
            && |a| <= |b|
            && (|a| == |b| ==> forall i :: 0 <= i < |ls| ==> KeyOnce(ls[i], rows, outerCol, column))
            && ((forall i :: 0 <= i < |ls| ==> KeyOnce(ls[i], rows, outerCol, column)) ==> a == b)
  {
    if ls != [] {
      var key := ColumnValue(0, column, INVALID);
      var matches := KeyMatches(Eval(outerCol, ls[0]), rows, key);
      PopulatedFinds(Eval(outerCol, ls[0]), rows, column);
      BlockByIndex(ls[0], matches, outer, nulls);
      JoinByIndex(ls[1..], rows, outerCol, column, outer, nulls);
      hide JoinBlock, KeyMatches, Populated, Eval;
      assert KeyOnce(ls[0], rows, outerCol, column) <==> |matches| <= 1;
      assert forall i :: 0 <= i < |ls[1..]| ==> ls[1..][i] == ls[i + 1];
      assert forall i :: 1 <= i < |ls| ==> ls[i] == ls[1..][i - 1];
    }
  }

  /**
   Where the rule replaces a join by one over an index that was built from the rows of the table, the rows stay exactly
   if every key that is looked up is in the table at most once.
   */
  lemma IndexJoinIff(q: Plan, db: Database, column: nat)
    requires q.NestedLoopJoin? && NLJAsIndexJoin(db, q).Ok? && NLJAsIndexJoin(db, q).value.NestedIndexJoin?
    requires Rows(q.left, db).Some? && Joinable(q.joinType) && q.right.filter.None? && q.right.tableOid in db.tables
    requires var oid := NLJAsIndexJoin(db, q).value.indexOid;
             && oid in db.indexes && db.indexes[oid].keyAttrs == [column]
             && db.indexes[oid].entries == Populated(db.tables[q.right.tableOid].rows, column)
    ensures var p := NLJAsIndexJoin(db, q).value;
            Rows(p, db) == Rows(q, db) <==>
            forall i :: 0 <= i < |Rows(q.left, db).value| ==>
              KeyOnce(Rows(q.left, db).value[i], db.tables[q.right.tableOid].rows, p.key, column)
  {
    var p := NLJAsIndexJoin(db, q).value;
    var (a, b) := (q.pred.left, q.pred.right);
    var inner, attr := if a.tupleIdx == 0 then b else a, ColumnValue(0, column, INVALID);
    MatchIndexFound(db, TableIndexes(db, q.right.tableName), inner.colIdx);
    assert inner.colIdx == column;
    assert Equates(q.pred, p.key, attr);
    assert Rows(q.right, db) == Some(db.tables[q.right.tableOid].rows);
    var ls, rows := Rows(q.left, db).value, db.tables[q.right.tableOid].rows;
    var (outer, nulls) := (q.joinType == LEFT, Nulls(q.right.schema));
    RowsOfLoopJoin(q.schema, q.left, q.right, q.pred, q.joinType, db);
    RowsOfIndexJoin(q.schema, q.left, p.key, q.right.tableOid, p.indexOid, q.right.schema, q.joinType, db);
    hide Rows, LoopJoin, KeyJoin, Equates, KeyOnce, Populated, Nulls;
    LoopJoinByKey(ls, rows, q.pred, p.key, attr, outer, nulls);
    JoinByIndex(ls, rows, p.key, column, outer, nulls);
  }

  // ----- scans -----

  ghost predicate DistinctKeys(rows: seq<Row>, column: nat) {
    forall i, j :: 0 <= i < j < |rows| ==> !SameKey(rows[i], rows[j], column)
  }

  lemma DistinctLast(rows: seq<Row>, column: nat)
    requires rows != []
    ensures var (init, last) := (rows[..|rows| - 1], rows[|rows| - 1]);
            DistinctKeys(rows, column) <==> DistinctKeys(init, column) && !HasKey(init, last, column)
  {
    hide SameKey;
    var (init, last) := (rows[..|rows| - 1], rows[|rows| - 1]);
    if DistinctKeys(init, column) && !HasKey(init, last, column) {
      forall i, j | 0 <= i < j < |rows| ensures !SameKey(rows[i], rows[j], column) {
        assert rows[i] == init[i];
        if j < |init| { assert rows[j] == init[j]; }
      }
    }
    if HasKey(init, last, column) {
      var i :| 0 <= i < |init| && SameKey(init[i], last, column);
      assert rows[i] == init[i] && SameKey(rows[i], rows[|rows| - 1], column);
    }
    if DistinctKeys(rows, column) {
      forall i, j | 0 <= i < j < |init| ensures !SameKey(init[i], init[j], column) {
        assert rows[i] == init[i] && rows[j] == init[j];
      }
    }
  }

  lemma InsertEntryKeys(entries: seq<Row>, row: Row, r: Row, column: nat)
    requires Ascending(entries, column)
    ensures HasKey(InsertEntry(entries, row, column), r, column) <==>
            HasKey(entries, r, column) || SameKey(row, r, column)
  {
    var entries' := InsertEntry(entries, row, column);
    InsertEntryEffect(entries, row, column);
    if SameKey(row, r, column) && HasKey(entries, row, column) {
      var i :| 0 <= i < |entries| && SameKey(entries[i], row, column);
      SameKeyTransitive(entries[i], row, r, column);
    }
    hide SameKey, InsertEntry, Ascending;
    if !HasKey(entries, row, column) {
      assert (entries + [row])[..|entries|] == entries;
      SameMembers(entries', entries + [row]);
      if HasKey(entries', r, column) { KeysOfMembers(entries', entries + [row], r, column); }
      if HasKey(entries + [row], r, column) { KeysOfMembers(entries + [row], entries', r, column); }
      KeyAppended(entries, row, r, column);
    }
  }

  lemma SameMembers(a: seq<Row>, b: seq<Row>)
    requires b != [] && multiset(a) == multiset(b[..|b| - 1]) + multiset{b[|b| - 1]}
    ensures forall r :: r in a <==> r in b
  {
    assert b == b[..|b| - 1] + [b[|b| - 1]];
    assert multiset(a) == multiset(b);
    forall r ensures r in a <==> r in b { assert r in multiset(a) <==> r in multiset(b); }
  }

  lemma KeysOfMembers(a: seq<Row>, b: seq<Row>, r: Row, column: nat)
    requires HasKey(a, r, column) && forall x :: x in a ==> x in b
    ensures HasKey(b, r, column)
  {
    var i :| 0 <= i < |a| && SameKey(a[i], r, column);
    assert a[i] in b;
    var j :| 0 <= j < |b| && b[j] == a[i];
    assert SameKey(b[j], r, column);
  }

  lemma KeyAppended(entries: seq<Row>, row: Row, r: Row, column: nat)
    ensures HasKey(entries + [row], r, column) <==> HasKey(entries, r, column) || SameKey(row, r, column)
  {
    hide SameKey;
    var all := entries + [row];
    assert all[|entries|] == row;
    if HasKey(entries, r, column) {
      var i :| 0 <= i < |entries| && SameKey(entries[i], r, column);
      assert all[i] == entries[i];
    }
  }

  /** The index has the keys of the table; and it has all rows exactly if the keys are distinct. */
  lemma {:induction false} PopulatedIff(rows: seq<Row>, r: Row, column: nat)
    ensures Ascending(Populated(rows, column), column)
    ensures HasKey(Populated(rows, column), r, column) <==> HasKey(rows, r, column)
    ensures |Populated(rows, column)| <= |rows|
    ensures if DistinctKeys(rows, column) then multiset(Populated(rows, column)) == multiset(rows)
            else |Populated(rows, column)| < |rows|
  {
    if rows != [] {
      var (init, last) := (rows[..|rows| - 1], rows[|rows| - 1]);
      var entries := Populated(init, column);
      assert rows == init + [last];
      PopulatedIff(init, r, column);
      PopulatedIff(init, last, column);
      InsertEntryEffect(entries, last, column);
      InsertEntryKeys(entries, last, r, column);
      KeyAppended(init, last, r, column);
      DistinctLast(rows, column);
      hide HasKey, SameKey, DistinctKeys, Ascending, InsertEntry;
      var entries' := InsertEntry(entries, last, column);
      assert |entries'| == |multiset(entries')|;
    }
  }

  /** A sort can be replaced by a scan of an index that was built from the rows exactly if their keys are distinct. */
  lemma IndexScanIff(rows: seq<Row>, os: seq<(OrderByType, Expr)>)
    requires |os| == 1 && os[0].0 != DESC && os[0].1.ColumnValue?
    ensures Populated(rows, os[0].1.colIdx) == SortRows(os, rows) <==> DistinctKeys(rows, os[0].1.colIdx)
  {
    var column := os[0].1.colIdx;
    PopulatedIff(rows, [], column);
    SortInOrder(os, rows);
    hide Populated, SortRows, DistinctKeys, InOrder, Ascending, HasKey;
    assert |SortRows(os, rows)| == |multiset(rows)| == |rows|;
    if DistinctKeys(rows, column) { OnlyOrder(SortRows(os, rows), Populated(rows, column), column); }
  }

  // ----- a value that is there twice -----

  lemma RepeatedValue(row: Row)
    requires row == [Int(1)]
    ensures !KeyOnce(row, [row, row], ColumnValue(0, 0, INTEGER), 0)
  {
    var rows, key := [row, row], ColumnValue(0, 0, INVALID);
    assert rows[1..] == [row] && [row][1..] == [];
    assert KeyMatches(Int(1), [row], key) == [row];
    assert KeyMatches(Int(1), rows, key) == [row] + [row];
  }

  /** `(values (1)) join t on ..` over a table with the value 1 twice and an index: a row is lost. */
  lemma RepeatedValueLost(db: Database, schema: Schema, inner: Schema, name: string, oid: nat, index: nat)
    requires oid in db.tables && db.tables[oid].rows == [[Int(1)], [Int(1)]] && TableIndexes(db, name) == [index]
    requires index in db.indexes && db.indexes[index].keyAttrs == [0]
    requires db.indexes[index].entries == Populated(db.tables[oid].rows, 0)
    ensures var on := Comparison(Equal, ColumnValue(0, 0, INTEGER), ColumnValue(1, 0, INTEGER));
            var left := Values([Column("x", INTEGER)], [[Constant(Int(1))]]);
            var q := NestedLoopJoin(schema, left, SeqScan(inner, oid, name, None), on, INNER);
            NLJAsIndexJoin(db, q).Ok? && Rows(NLJAsIndexJoin(db, q).value, db) != Rows(q, db)
  {
    var on := Comparison(Equal, ColumnValue(0, 0, INTEGER), ColumnValue(1, 0, INTEGER));
    var left := Values([Column("x", INTEGER)], [[Constant(Int(1))]]);
    var q := NestedLoopJoin(schema, left, SeqScan(inner, oid, name, None), on, INNER);
    var row: Row := [Int(1)];
    assert Rows(left, db) == Some([row]) by {
      assert [[Constant(Int(1))]][1..] == [] && [Constant(Int(1))][1..] == [];
      assert EvalAll([Constant(Int(1))], []) == [Int(1)];
      assert ValuesRows([[Constant(Int(1))]]) == [[Int(1)]];
    }
    assert MatchIndex(db, [index], 0) == Some(index);
    var p := NestedIndexJoin(schema, left, ColumnValue(0, 0, INTEGER), oid, index, inner, INNER);
    assert NLJAsIndexJoin(db, q) == Ok(p);
    RepeatedValue(row);
    hide Rows, NLJAsIndexJoin, KeyOnce;
    IndexJoinIff(q, db, 0);
    assert [row][0] == row;
  }
}
