/**
 Abort, row by row and without conditions on the run: updates after the transaction was aborted and undo calls
 that fail are allowed, and the theorem says which rows come back all the same.
 */
module AbortExact {
  import opened Options
  import opened TablePages
  import opened TransactionUndo

  // ----- what one step does to a row -----

  ghost predicate Gone(slot: Option<Slot>) {
    slot.None? || slot.value.Empty?
  }

  /** The row an operation is about. */
  ghost function Target(s: Txn, op: Op): Option<Rid>
    requires TablesOk(s.tables) && OpOk(s.tables, op)
  {
    match op
    case Insert(table, t) => if TooLarge(t) then None else Some(InsertInto(s.tables, table, t).1)
    case Mark(rid) => Some(rid)
    case Update(rid, _) => Some(rid)
  }

  lemma Elsewhere(s: Txn, op: Op, r: Rid)
    requires TablesOk(s.tables) && OpOk(s.tables, op) && Target(s, op) != Some(r)
    ensures SlotAt(Step(s, op).tables.pages, r) == SlotAt(s.tables.pages, r)
  {
  }

  lemma UndoElsewhere(q: Pages, rec: Record, r: Rid)
    requires rec.rid != r
    ensures SlotAt(Undo(q, rec), r) == SlotAt(q, r)
  {
  }

  /** The same pages and more, none shorter. */
  ghost predicate Grown(f: Pages, q: Pages) {
    f.Keys <= q.Keys && forall id :: id in f ==> |f[id]| <= |q[id]|
  }

  lemma StepGrows(s: Txn, op: Op)
    requires TablesOk(s.tables) && OpOk(s.tables, op)
    ensures Grown(s.tables.pages, Step(s, op).tables.pages)
  {
  }

  lemma UndoKeepsGrown(f: Pages, q: Pages, rec: Record)
    requires Grown(f, q)
    ensures Grown(f, Undo(q, rec))
  {
  }

  // ----- the pages of an abort -----

  /** A row of the run and the same row when the abort has come to that point: it may have lost its mark already. */
  ghost predicate Alike(a: Option<Slot>, b: Option<Slot>) {
    if Gone(a) then Gone(b) else !Gone(b) && (a.value.Live? ==> b.value.Live?)
  }

  ghost predicate AllAlike(f: Pages, q: Pages) {
    && Grown(f, q) && (forall id :: id in q ==> PageOk(q[id]))
    && forall r: Rid :: Alike(SlotAt(f, r), SlotAt(q, r))
  }

  lemma UndoKeepsSpace(q: Pages, rec: Record)
    requires forall id :: id in q ==> PageOk(q[id])
    ensures forall id :: id in Undo(q, rec) ==> PageOk(Undo(q, rec)[id])
  {
    if rec.rid.page in q {
      var p, i := q[rec.rid.page], rec.rid.slot;
      if i < |p| {
        UsedUpdate(p, i, Empty);
        if !p[i].Empty? { UsedUpdate(p, i, Live(p[i].tuple)); }
        if rec.UpdateRec? { UsedUpdate(p, i, Live(rec.prior)); }
      }
    }
  }

  /** Going back over one operation. */
  lemma StepBack(s: Txn, op: Op, q: Pages)
    requires TablesOk(s.tables) && OpOk(s.tables, op) && AllAlike(Step(s, op).tables.pages, q)
    ensures if Step(s, op).log == s.log then AllAlike(s.tables.pages, q)
            else
              && |Step(s, op).log| == |s.log| + 1 && Step(s, op).log[..|s.log|] == s.log
              && var rec := Step(s, op).log[|s.log|];
                 Some(rec.rid) == Target(s, op) && AllAlike(s.tables.pages, Undo(q, rec))
  {
    var f, f' := s.tables.pages, Step(s, op).tables.pages;
    StepGrows(s, op);
    var q' := if Step(s, op).log == s.log then q else Undo(q, Step(s, op).log[|s.log|]);
    if Step(s, op).log != s.log {
      UndoKeepsSpace(q, Step(s, op).log[|s.log|]);
      UndoKeepsGrown(f', q, Step(s, op).log[|s.log|]);
    }
    forall r: Rid ensures Alike(SlotAt(f, r), SlotAt(q', r)) {
      assert Alike(SlotAt(f', r), SlotAt(q, r));
      if Target(s, op) != Some(r) {
        Elsewhere(s, op, r);
        if Step(s, op).log != s.log { UndoElsewhere(q, Step(s, op).log[|s.log|], r); }
      } else {
        TargetBack(s, op, q, r);
      }
    }
  }

  lemma TargetBack(s: Txn, op: Op, q: Pages, r: Rid)
    requires TablesOk(s.tables) && OpOk(s.tables, op) && Target(s, op) == Some(r)
    requires Alike(SlotAt(Step(s, op).tables.pages, r), SlotAt(q, r))
    ensures Alike(SlotAt(s.tables.pages, r),
                  SlotAt(if Step(s, op).log == s.log then q else Undo(q, Step(s, op).log[|s.log|]), r))
  {
  }

  // ----- the last operation and the last record -----

  lemma RunLast(s: Txn, ops: seq<Op>)
    requires RunOk(s, ops) && ops != []
    ensures var init, op := ops[..|ops| - 1], ops[|ops| - 1];
            && ops == init + [op] && RunOk(s, init) && TablesOk(Run(s, init).tables) && OpOk(Run(s, init).tables, op)
            && Run(s, ops) == Step(Run(s, init), op)
  {
    hide Step, TablesOk, OpOk;
  }

  lemma UndoLast(q: Pages, log: seq<Record>, log': seq<Record>)
    requires |log'| == |log| + 1 && log'[..|log|] == log
    ensures var rec := log'[|log|];
            && UndoAll(q, log') == UndoAll(Undo(q, rec), log)
            && (Abortable(q, log') <==>
                rec.rid.page in q && (rec.UpdateRec? || UndoOk(q, rec)) && Abortable(Undo(q, rec), log))
  {
    hide Undo, UndoOk;
  }

  // ----- one row -----

  /** The write set has an update of the row. */
  ghost predicate Updated(log: seq<Record>, r: Rid) {
    log != [] && ((log[|log| - 1].UpdateRec? && log[|log| - 1].rid == r) || Updated(log[..|log| - 1], r))
  }

  /** When the abort comes to the first update of the row, the page has room for the tuple of that time. */
  ghost predicate FirstHasRoom(q: Pages, log: seq<Record>, r: Rid) {
    log != [] &&
    var last, rest := log[|log| - 1], log[..|log| - 1];
    if last.UpdateRec? && last.rid == r && !Updated(rest, r) then UndoOk(q, last)
    else FirstHasRoom(Undo(q, last), rest, r)
  }

  /**
   A row live at the start stays, and keeps its tuple until an update of it is recorded or the transaction aborted.
   */
  lemma {:induction false} LiveStays(s: Txn, ops: seq<Op>, r: Rid)
    requires RunOk(s, ops) && SlotAt(s.tables.pages, r).Some? && SlotAt(s.tables.pages, r).value.Live?
    ensures !Gone(SlotAt(Run(s, ops).tables.pages, r))
    ensures !Run(s, ops).aborted && !Updated(Run(s, ops).log, r) ==>
              Unmarked(SlotAt(Run(s, ops).tables.pages, r).value) == SlotAt(s.tables.pages, r).value
    decreases |ops|
  {
    if ops != [] {
      var before, op := Run(s, ops[..|ops| - 1]), ops[|ops| - 1];
      LiveStays(s, ops[..|ops| - 1], r);
      LiveStep(before, op, r);
      hide Step, TablesOk, OpOk, SlotAt;
    }
  }

  lemma LiveStep(s: Txn, op: Op, r: Rid)
    requires TablesOk(s.tables) && OpOk(s.tables, op) && !Gone(SlotAt(s.tables.pages, r))
    ensures !Gone(SlotAt(Step(s, op).tables.pages, r))
    ensures !Step(s, op).aborted && !Updated(Step(s, op).log, r) ==>
              && !s.aborted && !Updated(s.log, r)
              && Unmarked(SlotAt(Step(s, op).tables.pages, r).value) == Unmarked(SlotAt(s.tables.pages, r).value)
  {
    if Target(s, op) != Some(r) { Elsewhere(s, op, r); }
    var log := Step(s, op).log;
    assert log == s.log || log[..|log| - 1] == s.log;
  }

  ghost predicate RowBack(a: Option<Slot>, b: Option<Slot>) {
    if Gone(a) then Gone(b) else a == b
  }

  lemma InsertsIntoGone(s: Tables, table: nat, t: Tuple)
    requires TablesOk(s) && table in s.chains
    ensures Gone(SlotAt(s.pages, InsertInto(s, table, t).1))
  {
  }

  /** A row that was `a`, live, comes back when the abort has come to the pages `q` and has `log` before it. */
  ghost predicate LiveBack(q: Pages, log: seq<Record>, r: Rid, a: Slot) {
    if Updated(log, r) then FirstHasRoom(q, log, r)
    else !Gone(SlotAt(q, r)) && Unmarked(SlotAt(q, r).value) == a
  }

  /** The row comes back when the abort, at pages `q`, has the records of `ops` before it. */
  ghost predicate ComesBack(s: Txn, ops: seq<Op>, q: Pages, r: Rid)
    requires RunOk(s, ops)
  {
    var a, b := SlotAt(s.tables.pages, r), SlotAt(q, r);
    if Gone(a) then true
    else if a.value.Marked? then Mark(r) !in ops && b == a
    else LiveBack(q, Run(s, ops).log, r, a.value)
  }

  lemma {:induction false} RowAfterAbort(s: Txn, ops: seq<Op>, q: Pages, r: Rid)
    requires RunOk(s, ops) && s.log == [] && AllAlike(Run(s, ops).tables.pages, q)
    ensures RowBack(SlotAt(s.tables.pages, r), SlotAt(UndoAll(q, Run(s, ops).log), r)) <==> ComesBack(s, ops, q, r)
    decreases |ops|
  {
    if ops != [] {
      RunLast(s, ops);
      var init := ops[..|ops| - 1];
      var before, op := Run(s, init), ops[|ops| - 1];
      var after := Step(before, op);
      StepBack(before, op, q);
      BackOverStep(s, ops, q, r);
      hide *;
      if after.log == before.log {
        RowAfterAbort(s, init, q, r);
      } else {
        UndoLast(q, before.log, after.log);
        RowAfterAbort(s, init, Undo(q, after.log[|before.log|]), r);
      }
    }
  }

  /** Whether a row comes back does not depend on where the abort has come to. */
  lemma BackOverStep(s: Txn, ops: seq<Op>, q: Pages, r: Rid)
    requires RunOk(s, ops) && ops != [] && s.log == [] && AllAlike(Run(s, ops).tables.pages, q)
    ensures var before := Run(s, ops[..|ops| - 1]);
            var after := Run(s, ops);
            ComesBack(s, ops, q, r) <==>
            ComesBack(s, ops[..|ops| - 1], if after.log == before.log then q
                                           else Undo(q, after.log[|after.log| - 1]), r)
  {
    var init := ops[..|ops| - 1];
    var before, op := Run(s, init), ops[|ops| - 1];
    var after := Step(before, op);
    assert ops == init + [op];
    assert after.log == before.log || after.log[..|after.log| - 1] == before.log;
    var a := SlotAt(s.tables.pages, r);
    if !Gone(a) {
      if a.value.Marked? {
        RunStaysMarked(s, init, r);
        MarkedOverStep(before, op, q, r, a);
      } else {
        LiveStays(s, init, r);
        LiveOverStep(before, op, q, r, a.value);
      }
      hide Step, Undo, TablesOk, OpOk, LiveBack, AllAlike, SlotAt;
    }
  }

  lemma MarkedOverStep(s: Txn, op: Op, q: Pages, r: Rid, a: Option<Slot>)
    requires TablesOk(s.tables) && OpOk(s.tables, op) && a.Some? && a.value.Marked? && SlotAt(s.tables.pages, r) == a
    ensures var q' := if Step(s, op).log == s.log then q else Undo(q, Step(s, op).log[|s.log|]);
            if op == Mark(r) then SlotAt(q', r) != a else SlotAt(q', r) == SlotAt(q, r)
  {
    if Target(s, op) != Some(r) && Step(s, op).log != s.log { UndoElsewhere(q, Step(s, op).log[|s.log|], r); }
  }

  lemma LiveOverStep(s: Txn, op: Op, q: Pages, r: Rid, a: Slot)
    requires TablesOk(s.tables) && OpOk(s.tables, op) && a.Live? && !Gone(SlotAt(s.tables.pages, r))
    requires !s.aborted && !Updated(s.log, r) ==> Unmarked(SlotAt(s.tables.pages, r).value) == a
    requires AllAlike(Step(s, op).tables.pages, q)
    ensures var log := Step(s, op).log;
            LiveBack(q, log, r, a) <==> LiveBack(if log == s.log then q else Undo(q, log[|log| - 1]), s.log, r, a)
  {
    RecordOf(s, op, r);
    var log := Step(s, op).log;
    if log != s.log {
      var rec := log[|s.log|];
      if rec.UpdateRec? && rec.rid == r && !Updated(s.log, r) { FirstUpdateOver(s, op, q, r, a); }
      hide *;
      LiveOverRecord(q, s.log, log, r, a);
    }
  }

  /**
   The record of an operation: an insert does not hit a row that is there, and nothing is recorded for an update of an
   aborted transaction.
   */
  lemma RecordOf(s: Txn, op: Op, r: Rid)
    requires TablesOk(s.tables) && OpOk(s.tables, op) && !Gone(SlotAt(s.tables.pages, r))
    ensures var log := Step(s, op).log;
            log != s.log ==>
              && |log| == |s.log| + 1 && log[..|s.log|] == s.log
              && var rec := log[|s.log|];
                 && (rec.rid == r ==> !rec.InsertRec?)
                 && (rec.UpdateRec? && rec.rid == r ==> op.Update? && op.rid == r && !s.aborted)
  {
    if op.Insert? && !TooLarge(op.tuple) { InsertsIntoGone(s.tables, op.table, op.tuple); }
    hide TablesOk, InsertInto, SlotAt;
  }

  /** Undoing one more record, not the first update of the row, makes no difference to whether the row comes back. */
  lemma LiveOverRecord(q: Pages, log: seq<Record>, log': seq<Record>, r: Rid, a: Slot)
    requires |log'| == |log| + 1 && log'[..|log|] == log && (log'[|log|].rid == r ==> !log'[|log|].InsertRec?)
    requires var rec := log'[|log|];
             rec.UpdateRec? && rec.rid == r && !Updated(log, r) ==>
               && SlotAt(Undo(q, rec), r).Some? && SlotAt(Undo(q, rec), r).value.Live?
               && (UndoOk(q, rec) <==> SlotAt(Undo(q, rec), r) == Some(a))
    ensures LiveBack(q, log', r, a) <==> LiveBack(Undo(q, log'[|log|]), log, r, a)
  {
    var rec := log'[|log|];
    if rec.rid != r { UndoElsewhere(q, rec, r); }
    if rec.DeleteRec? { UnmarkKeeps(q, rec, r); }
    hide Undo, UndoOk, SlotAt;
  }

  lemma UnmarkKeeps(q: Pages, rec: Record, r: Rid)
    requires rec.DeleteRec?
    ensures Gone(SlotAt(Undo(q, rec), r)) <==> Gone(SlotAt(q, r))
    ensures !Gone(SlotAt(q, r)) ==> Unmarked(SlotAt(Undo(q, rec), r).value) == Unmarked(SlotAt(q, r).value)
  {
  }

  /** The first recorded update of a row brings its tuple back exactly if the page has room for it. */
  lemma FirstUpdateOver(s: Txn, op: Op, q: Pages, r: Rid, a: Slot)
    requires TablesOk(s.tables) && OpOk(s.tables, op) && a.Live? && SlotAt(s.tables.pages, r).Some?
    requires Unmarked(SlotAt(s.tables.pages, r).value) == a && AllAlike(Step(s, op).tables.pages, q)
    requires op.Update? && op.rid == r && Step(s, op).log != s.log
    ensures var rec := Step(s, op).log[|s.log|];
            && SlotAt(Undo(q, rec), r).Some? && SlotAt(Undo(q, rec), r).value.Live?
            && (UndoOk(q, rec) <==> SlotAt(Undo(q, rec), r) == Some(a))
  {
    var rec := Step(s, op).log[|s.log|];
    assert rec == UpdateRec(r, a.tuple);
    assert Alike(SlotAt(Step(s, op).tables.pages, r), SlotAt(q, r));
    assert r.page in q && PageOk(q[r.page]);
  }

  // ----- the theorem -----

  /** A row of the start that the abort brings back. */
  ghost predicate RowKept(s: Txn, ops: seq<Op>, r: Rid)
    requires RunOk(s, ops)
  {
    var a, end := SlotAt(s.tables.pages, r), Run(s, ops);
    if Gone(a) then true
    else if a.value.Marked? then Mark(r) !in ops
    else LiveBack(end.tables.pages, end.log, r, a.value)
  }

  ghost predicate RowsKept(s: Txn, ops: seq<Op>)
    requires RunOk(s, ops)
  {
    forall r: Rid :: RowKept(s, ops, r)
  }

  lemma RestoredByRows(s: Pages, q: Pages)
    requires Grown(s, q)
    ensures Restored(s, q) <==> forall r: Rid :: RowBack(SlotAt(s, r), SlotAt(q, r))
  {
    if forall r: Rid :: RowBack(SlotAt(s, r), SlotAt(q, r)) {
      forall id | id in q ensures PageMatches(PageOf(s, id), q[id], id, {}) {
        forall i: nat | i < |q[id]|
          ensures if i < |PageOf(s, id)| then q[id][i] == PageOf(s, id)[i] else q[id][i].Empty? {
          assert RowBack(SlotAt(s, Rid(id, i)), SlotAt(q, Rid(id, i)));
        }
      }
    }
    if Restored(s, q) {
      forall r: Rid ensures RowBack(SlotAt(s, r), SlotAt(q, r)) {
        if r.page in q { assert PageMatches(PageOf(s, r.page), q[r.page], r.page, {}); }
      }
    }
  }

  lemma {:induction false} AbortGrown(s: Txn, ops: seq<Op>, q: Pages)
    requires RunOk(s, ops)
    ensures Grown(s.tables.pages, Run(s, ops).tables.pages)
    decreases |ops|
  {
    if ops != [] {
      AbortGrown(s, ops[..|ops| - 1], q);
      StepGrows(Run(s, ops[..|ops| - 1]), ops[|ops| - 1]);
    }
  }

  lemma {:induction false} UndoAllKeepsGrown(f: Pages, q: Pages, log: seq<Record>)
    requires Grown(f, q)
    ensures Grown(f, UndoAll(q, log))
    decreases |log|
  {
    if log != [] {
      UndoKeepsGrown(f, q, log[|log| - 1]);
      UndoAllKeepsGrown(f, Undo(q, log[|log| - 1]), log[..|log| - 1]);
    }
  }

  /**
   Abort restores all rows exactly when
   - the transaction tried to mark no row that was marked when it began,
   - for each row with a recorded update, the page has room for the first tuple again when its turn comes, and
   - each other row has its tuple at the end: it was not updated, or an unrecorded update wrote the same again.
   */
  lemma AbortRestoresIff(s: Txn, ops: seq<Op>)
    requires RunOk(s, ops) && s.log == []
    ensures Restored(s.tables.pages, UndoAll(Run(s, ops).tables.pages, Run(s, ops).log)) <==> RowsKept(s, ops)
  {
    var end := Run(s, ops);
    var pages := end.tables.pages;
    AbortGrown(s, ops, pages);
    UndoAllKeepsGrown(s.tables.pages, pages, end.log);
    RestoredByRows(s.tables.pages, UndoAll(pages, end.log));
    assert AllAlike(pages, pages);
    forall r: Rid
      ensures RowKept(s, ops, r) <==> RowBack(SlotAt(s.tables.pages, r), SlotAt(UndoAll(pages, end.log), r)) {
      RowAfterAbort(s, ops, pages, r);
      var a := SlotAt(s.tables.pages, r);
      if !Gone(a) {
        if a.value.Marked? { RunStaysMarked(s, ops, r); } else { LiveStays(s, ops, r); }
      }
    }
  }

  /** Every slot that is to be marked exists in these pages. */
  ghost predicate MarksExist(ops: seq<Op>, pages: Pages) {
    forall i :: 0 <= i < |ops| && ops[i].Mark? ==> ops[i].rid.slot < |PageOf(pages, ops[i].rid.page)|
  }

  lemma MarksExistLast(ops: seq<Op>, op: Op, pages: Pages)
    ensures MarksExist(ops + [op], pages) <==>
            MarksExist(ops, pages) && (op.Mark? ==> op.rid.slot < |PageOf(pages, op.rid.page)|)
  {
    hide PageOf;
    assert forall i :: 0 <= i < |ops| ==> (ops + [op])[i] == ops[i];
    assert (ops + [op])[|ops|] == op;
  }

  lemma MarksExistAlike(op: Op, q: Pages, final: Pages)
    requires op.Mark? && SameSizes(q, final)
    ensures |PageOf(q, op.rid.page)| == |PageOf(final, op.rid.page)|
  {
  }

  /** No assertion stops the abort exactly when every slot it was asked to mark exists at the end. */
  lemma {:induction false} AbortableIff(s: Txn, ops: seq<Op>, q: Pages, final: Pages)
    requires RunOk(s, ops) && s.log == [] && AllAlike(Run(s, ops).tables.pages, q) && SameSizes(q, final)
    ensures Abortable(q, Run(s, ops).log) <==> MarksExist(ops, final)
    decreases |ops|
  {
    if ops != [] {
      RunLast(s, ops);
      var init := ops[..|ops| - 1];
      var before, op := Run(s, init), ops[|ops| - 1];
      StepBack(before, op, q);
      AssertionOver(before, op, q);
      var after := Step(before, op);
      if op.Mark? { MarksExistAlike(op, q, final); }
      MarksExistLast(init, op, final);
      hide *;
      if after.log == before.log {
        AbortableIff(s, init, q, final);
      } else {
        var rec := after.log[|before.log|];
        UndoLast(q, before.log, after.log);
        UndoKeepsSizes(q, rec, final);
        AbortableIff(s, init, Undo(q, rec), final);
      }
    }
  }

  lemma AssertionOver(s: Txn, op: Op, q: Pages)
    requires TablesOk(s.tables) && OpOk(s.tables, op) && AllAlike(Step(s, op).tables.pages, q)
    ensures if Step(s, op).log == s.log then !op.Mark?
            else
              var rec := Step(s, op).log[|s.log|];
              && rec.rid.page in q
              && ((rec.UpdateRec? || UndoOk(q, rec)) <==> (op.Mark? ==> op.rid.slot < |PageOf(q, op.rid.page)|))
  {
    if op.Insert? && !TooLarge(op.tuple) {
      var rid := InsertInto(s.tables, op.table, op.tuple).1;
      assert Alike(SlotAt(Step(s, op).tables.pages, rid), SlotAt(q, rid));
    }
  }

  /** Every slot that is to be marked exists at the end, as an assertion in the abort demands. */
  ghost predicate MarksInRange(s: Txn, ops: seq<Op>)
    requires RunOk(s, ops)
  {
    MarksExist(ops, Run(s, ops).tables.pages)
  }

  lemma RunIsAbortable(s: Txn, ops: seq<Op>)
    requires RunOk(s, ops) && s.log == []
    ensures Abortable(Run(s, ops).tables.pages, Run(s, ops).log) <==> MarksInRange(s, ops)
  {
    var pages := Run(s, ops).tables.pages;
    assert AllAlike(pages, pages);
    AbortableIff(s, ops, pages, pages);
  }
}
