/** What a row is after a run of a transaction: the last operation that had an effect on it decides. */
module RowHistory {
  import opened Options
  import opened TablePages
  import opened TransactionUndo

  /** The operation had an effect on the row: the tuple went there, or the page accepted the mark or the update. */
  ghost predicate Affects(before: Txn, op: Op, after: Txn, r: Rid) {
    match op
    case Insert(_, _) => after.log == before.log + [InsertRec(r)]
    case Mark(rid) => rid == r && SlotAt(before.tables.pages, r).Some? && SlotAt(before.tables.pages, r).value.Live?
    case Update(rid, t) =>
      rid == r && rid.page in before.tables.pages && CanUpdate(before.tables.pages[rid.page], rid.slot, t)
  }

  /** What the operation makes of a row. */
  ghost function Written(op: Op, was: Option<Slot>): Slot {
    match op
    case Insert(_, t) => Live(t)
    case Mark(_) => Marked(if was.Some? && !was.value.Empty? then was.value.tuple else [])
    case Update(_, t) => Live(t)
  }

  lemma InsertWrites(s: Tables, table: nat, t: Tuple)
    requires TablesOk(s) && table in s.chains
    ensures var (s', rid) := InsertInto(s, table, t);
            Vacant(s.pages, rid) && Wrote(s.pages, s'.pages, rid, Live(t))
  {
    var chain := s.chains[table];
    var i := FirstRoom(s.pages, chain, t);
    if i < |chain| {
      var p := s.pages[chain[i]];
      assert PutAt(p, PageInsert(p, t), FirstEmpty(p), t);
      PutWrites(s.pages, chain[i], PageInsert(p, t), FirstEmpty(p), t);
    } else {
      PutWrites(s.pages, s.next, [Live(t)], 0, t);
    }
  }

  /** A step writes the row it has an effect on, which for an insert was vacant, and no other. */
  lemma StepWrites(s: Txn, op: Op, r: Rid)
    requires TablesOk(s.tables) && OpOk(s.tables, op)
    ensures var s' := Step(s, op);
            SlotAt(s'.tables.pages, r) ==
            if Affects(s, op, s', r) then Some(Written(op, SlotAt(s.tables.pages, r))) else SlotAt(s.tables.pages, r)
    ensures op.Insert? && Affects(s, op, Step(s, op), r) ==> Vacant(s.tables.pages, r)
  {
    match op
    case Insert(table, t) =>
      if !TooLarge(t) {
        InsertWrites(s.tables, table, t);
        var (_, rid) := InsertInto(s.tables, table, t);
        hide InsertInto;
        assert (s.log + [InsertRec(rid)])[|s.log|] == InsertRec(rid);
        if Affects(s, op, Step(s, op), r) { assert (s.log + [InsertRec(r)])[|s.log|] == InsertRec(r); }
      }
    case Mark(rid) =>
      var p := s.tables.pages[rid.page];
      if rid.slot < |p| && p[rid.slot].Live? { SlotWrites(s.tables.pages, rid, Marked(p[rid.slot].tuple)); }
    case Update(rid, t) =>
      if CanUpdate(s.tables.pages[rid.page], rid.slot, t) { SlotWrites(s.tables.pages, rid, Live(t)); }
  }

  lemma {:induction false} PrefixOk(s: Txn, ops: seq<Op>, i: nat)
    requires RunOk(s, ops) && i <= |ops|
    ensures RunOk(s, ops[..i]) && (i < |ops| ==> RunOk(s, ops[..i + 1]))
    ensures i < |ops| ==> OpOk(Run(s, ops[..i]).tables, ops[i])
    ensures i < |ops| ==> Run(s, ops[..i + 1]) == Step(Run(s, ops[..i]), ops[i])
    decreases |ops|
  {
    if i == |ops| {
      assert ops[..i] == ops;
    } else {
      var init := ops[..|ops| - 1];
      assert RunOk(s, init);
      hide Step, OpOk, TablesOk;
      if i < |init| {
        PrefixOk(s, init, i);
        assert init[..i] == ops[..i] && init[..i + 1] == ops[..i + 1] && init[i] == ops[i];
      } else {
        assert ops[..i] == init && ops[..i + 1] == ops;
      }
    }
  }

  /** The `i`-th operation of a run has an effect on the row. */
  ghost predicate AffectsAt(s: Txn, ops: seq<Op>, i: nat, r: Rid)
    requires i < |ops| && RunOk(s, ops)
  {
    PrefixOk(s, ops, i);
    Affects(Run(s, ops[..i]), ops[i], Run(s, ops[..i + 1]), r)
  }

  /** The row after the first `n` operations. */
  ghost function RowAfter(s: Txn, ops: seq<Op>, n: nat, r: Rid): Option<Slot>
    requires n <= |ops| && RunOk(s, ops)
  {
    PrefixOk(s, ops, n);
    SlotAt(Run(s, ops[..n]).tables.pages, r)
  }

  lemma RowStep(s: Txn, ops: seq<Op>, i: nat, r: Rid)
    requires i < |ops| && RunOk(s, ops)
    ensures RowAfter(s, ops, i + 1, r) ==
            if AffectsAt(s, ops, i, r) then Some(Written(ops[i], RowAfter(s, ops, i, r))) else RowAfter(s, ops, i, r)
  {
    PrefixOk(s, ops, i);
    PrefixOk(s, ops, i + 1);
    hide Step, Affects, Written, Run, RunOk, OpOk;
    StepWrites(Run(s, ops[..i]), ops[i], r);
  }

  /** Between operations that have an effect on it a row stays as it is. */
  lemma {:induction false} RowKeeps(s: Txn, ops: seq<Op>, m: nat, n: nat, r: Rid)
    requires m <= n <= |ops| && RunOk(s, ops)
    requires forall i :: m <= i < n ==> !AffectsAt(s, ops, i, r)
    ensures RowAfter(s, ops, n, r) == RowAfter(s, ops, m, r)
    decreases n
  {
    hide RowAfter, AffectsAt;
    if m < n {
      RowStep(s, ops, n - 1, r);
      RowKeeps(s, ops, m, n - 1, r);
    }
  }

  lemma RowAtEnds(s: Txn, ops: seq<Op>, r: Rid)
    requires RunOk(s, ops)
    ensures RowAfter(s, ops, 0, r) == SlotAt(s.tables.pages, r)
    ensures RowAfter(s, ops, |ops|, r) == SlotAt(Run(s, ops).tables.pages, r)
  {
    assert ops[..|ops|] == ops && ops[..0] == [];
  }

  /** A row that no operation has an effect on is after a run as before. */
  lemma NoneDecides(s: Txn, ops: seq<Op>, r: Rid)
    requires RunOk(s, ops) && forall i :: 0 <= i < |ops| ==> !AffectsAt(s, ops, i, r)
    ensures SlotAt(Run(s, ops).tables.pages, r) == SlotAt(s.tables.pages, r)
  {
    hide *;
    RowAtEnds(s, ops, r);
    RowKeeps(s, ops, 0, |ops|, r);
  }

  /** Otherwise it is what the last operation with an effect on it made of it. */
  lemma LastDecides(s: Txn, ops: seq<Op>, i: nat, r: Rid)
    requires RunOk(s, ops) && i < |ops| && AffectsAt(s, ops, i, r)
    requires forall j :: i < j < |ops| ==> !AffectsAt(s, ops, j, r)
    ensures SlotAt(Run(s, ops).tables.pages, r) == Some(Written(ops[i], RowAfter(s, ops, i, r)))
  {
    hide *;
    RowAtEnds(s, ops, r);
    RowStep(s, ops, i, r);
    RowKeeps(s, ops, i + 1, |ops|, r);
  }
}
