/**
 What one transaction does to tables, the records it leaves in its write set, and what popping those
 records from the back does when it aborts or commits.
 */
module TransactionUndo {
  import opened Options
  import opened TablePages

  datatype Record = InsertRec(rid: Rid) | DeleteRec(rid: Rid) | UpdateRec(rid: Rid, prior: Tuple)

  datatype Op = Insert(table: nat, tuple: Tuple) | Mark(rid: Rid) | Update(rid: Rid, tuple: Tuple)

  /** `aborted` is the state of the transaction, `log` its write set. */
  datatype Txn = Txn(tables: Tables, aborted: bool, log: seq<Record>)

  // ----- forward -----

  predicate OpOk(s: Tables, op: Op) {
    match op
    case Insert(table, t) => table in s.chains && |t| > 0
    case Mark(rid) => rid.page in s.pages
    case Update(rid, t) => rid.page in s.pages && |t| > 0
  }

  /** The tables after an insert that is not too large, and where the tuple went. */
  function InsertInto(s: Tables, table: nat, t: Tuple): (Tables, Rid)
    requires table in s.chains && forall i :: 0 <= i < |s.chains[table]| ==> s.chains[table][i] in s.pages
  {
    var chain := s.chains[table];
    var i := FirstRoom(s.pages, chain, t);
    if i < |chain| then
      var p := s.pages[chain[i]];
      (s.(pages := s.pages[chain[i] := PageInsert(p, t)]), Rid(chain[i], FirstEmpty(p)))
    else
      (Tables(s.pages[s.next := [Live(t)]], s.chains[table := chain + [s.next]], s.next + 1), Rid(s.next, 0))
  }

  function Step(s: Txn, op: Op): Txn
    requires TablesOk(s.tables) && OpOk(s.tables, op)
  {
    match op
    case Insert(table, t) =>
      if TooLarge(t) then s.(aborted := true)
      else
        var (tables, rid) := InsertInto(s.tables, table, t);
        Txn(tables, s.aborted, s.log + [InsertRec(rid)])
    case Mark(rid) =>
      var p := s.tables.pages[rid.page];
      // the record is written whether or not the page accepts the mark
      Txn(s.tables.(pages := s.tables.pages[rid.page := PageMark(p, rid.slot)]), s.aborted, s.log + [DeleteRec(rid)])
    case Update(rid, t) =>
      var p := s.tables.pages[rid.page];
      if !CanUpdate(p, rid.slot, t) then s
      else Txn(s.tables.(pages := s.tables.pages[rid.page := PageUpdate(p, rid.slot, t)]), s.aborted,
               if s.aborted then s.log else s.log + [UpdateRec(rid, p[rid.slot].tuple)])
  }

  // ----- backward -----

  /** The call that a record leads to on abort. */
  function Undo(pages: Pages, r: Record): Pages {
    if r.rid.page !in pages then pages
    else
      var p := pages[r.rid.page];
      pages[r.rid.page := match r
        case InsertRec(rid) => PageApplyDelete(p, rid.slot)
        case DeleteRec(rid) => PageRollbackDelete(p, rid.slot)
        case UpdateRec(rid, prior) => PageUpdate(p, rid.slot, prior)]
  }

  /** The call meets its assertions and, for an update, returns true. */
  predicate UndoOk(pages: Pages, r: Record) {
    && r.rid.page in pages
    && match r
       case InsertRec(rid) => rid.slot < |pages[rid.page]| && !pages[rid.page][rid.slot].Empty?
       case DeleteRec(rid) => rid.slot < |pages[rid.page]|
       case UpdateRec(rid, prior) => CanUpdate(pages[rid.page], rid.slot, prior)
  }

  function UndoAll(pages: Pages, log: seq<Record>): Pages {
    if log == [] then pages else UndoAll(Undo(pages, log[|log| - 1]), log[..|log| - 1])
  }

  predicate AllUndone(pages: Pages, log: seq<Record>) {
    log == [] || (UndoOk(pages, log[|log| - 1]) && AllUndone(Undo(pages, log[|log| - 1]), log[..|log| - 1]))
  }

  /** The assertions on the way of an abort hold; an update may fail. */
  ghost predicate Abortable(pages: Pages, log: seq<Record>) {
    log != [] ==>
      var r := log[|log| - 1];
      && r.rid.page in pages && (r.UpdateRec? || UndoOk(pages, r))
      && Abortable(Undo(pages, r), log[..|log| - 1])
  }

  // ----- steps keep the tables in order -----

  lemma InsertKeeps(s: Tables, table: nat, t: Tuple)
    requires TablesOk(s) && table in s.chains && !TooLarge(t)
    ensures TablesOk(InsertInto(s, table, t).0)
  {
    var chain := s.chains[table];
    var i := FirstRoom(s.pages, chain, t);
    if i < |chain| {
      InsertSpace(s.pages[chain[i]], t);
    } else {
      assert Used([Live(t)]) == |t| + Used([Live(t)][1..]);
    }
  }

  lemma StepKeeps(s: Txn, op: Op)
    requires TablesOk(s.tables) && OpOk(s.tables, op)
    ensures TablesOk(Step(s, op).tables)
  {
    match op
    case Insert(table, t) => if !TooLarge(t) { InsertKeeps(s.tables, table, t); }
    case Mark(rid) =>
      var p := s.tables.pages[rid.page];
      if rid.slot < |p| && p[rid.slot].Live? { UsedUpdate(p, rid.slot, Marked(p[rid.slot].tuple)); }
    case Update(rid, t) =>
      var p := s.tables.pages[rid.page];
      if CanUpdate(p, rid.slot, t) { UsedUpdate(p, rid.slot, Live(t)); }
  }

  // ----- runs -----

  ghost predicate RunOk(s: Txn, ops: seq<Op>)
    decreases |ops|, 0
  {
    && TablesOk(s.tables)
    && (ops != [] ==> RunOk(s, ops[..|ops| - 1]) && OpOk(Run(s, ops[..|ops| - 1]).tables, ops[|ops| - 1]))
  }

  ghost function Run(s: Txn, ops: seq<Op>): (s': Txn)
    requires RunOk(s, ops)
    ensures TablesOk(s'.tables)
    decreases |ops|, 1
  {
    if ops == [] then s
    else
      var before := Run(s, ops[..|ops| - 1]);
      StepKeeps(before, ops[|ops| - 1]);
      Step(before, ops[|ops| - 1])
  }

  // ----- matching an earlier state -----

  function Unmarked(s: Slot): Slot {
    if s.Marked? then Live(s.tuple) else s
  }

  /** The page `q` is the page `p` with the slots in `u` unmarked and empty slots behind. */
  ghost predicate PageMatches(p: Page, q: Page, id: nat, u: set<Rid>) {
    && |p| <= |q|
    && (forall i :: 0 <= i < |p| ==> q[i] == if Rid(id, i) in u then Unmarked(p[i]) else p[i])
    && (forall i :: |p| <= i < |q| ==> q[i].Empty?)
  }

  function PageOf(pages: Pages, id: nat): Page {
    if id in pages then pages[id] else []
  }

  /** The rows in `u` carry a mark. */
  ghost predicate AllMarked(pages: Pages, u: set<Rid>) {
    forall r :: r in u ==> SlotAt(pages, r).Some? && SlotAt(pages, r).value.Marked?
  }

  /** `q` is `s` with the rows in `u` unmarked, and more pages and slots, all empty. */
  ghost predicate Matches(s: Pages, q: Pages, u: set<Rid>) {
    && AllMarked(s, u) && s.Keys <= q.Keys
    && forall id :: id in q ==> PageMatches(PageOf(s, id), q[id], id, u)
  }

  /** All rows are as before, and there is nothing else but empty slots. */
  ghost predicate Restored(s: Pages, q: Pages) {
    Matches(s, q, {})
  }

  lemma MatchesItself(s: Pages)
    ensures Matches(s, s, {})
  {
  }

  /** Matching one page elsewhere does not depend on a change here. */
  lemma MatchesAt(s: Pages, s': Pages, q: Pages, q': Pages, u: set<Rid>, u': set<Rid>, at: nat)
    requires Matches(s', q, u) && AllMarked(s, u')
    requires at in q && at in q' && q' == q[at := q'[at]] && s.Keys <= q.Keys
    requires forall id :: id != at ==> PageOf(s, id) == PageOf(s', id)
    requires forall r :: r in u && r.page != at <==> r in u' && r.page != at
    requires PageMatches(PageOf(s, at), q'[at], at, u')
    ensures Matches(s, q', u')
  {
    forall id | id in q' ensures PageMatches(PageOf(s, id), q'[id], id, u') {
      if id != at {
        assert PageMatches(PageOf(s', id), q[id], id, u);
        assert q'[id] == q[id];
        forall i | 0 <= i < |PageOf(s, id)| ensures Rid(id, i) in u <==> Rid(id, i) in u' {
          assert Rid(id, i).page != at;
        }
      }
    }
  }

  // ----- free space of a matching page -----

  lemma {:induction false} UsedAlike(p: Page, q: Page)
    requires |p| == |q| && forall i :: 0 <= i < |p| ==> Size(p[i]) == Size(q[i])
    ensures Used(p) == Used(q)
  {
    if p != [] { UsedAlike(p[1..], q[1..]); }
  }

  lemma MatchingSpace(p: Page, q: Page, id: nat, u: set<Rid>)
    requires PageMatches(p, q, id, u)
    ensures Free(q) == Free(p) - SLOT * (|q| - |p|)
  {
    assert q == q[..|p|] + q[|p|..];
    UsedConcat(q[..|p|], q[|p|..]);
    UsedAlike(p, q[..|p|]);
    UsedEmpty(q[|p|..]);
  }

  // ----- undoing one operation -----

  /** The rows that end up without their marks when the marks of `op` are undone as well. */
  ghost function Losing(s: Pages, op: Op, u: set<Rid>): set<Rid> {
    if !op.Mark? then u
    else if SlotAt(s, op.rid).Some? && SlotAt(s, op.rid).value.Marked? then u + {op.rid}
    else u - {op.rid}
  }

  lemma UnmarkedMatches(p: Page, q: Page, rid: Rid, u: set<Rid>, u': set<Rid>)
    requires PageMatches(PageMark(p, rid.slot), q, rid.page, u) && rid.slot < |q|
    requires u' == if rid.slot < |p| && p[rid.slot].Marked? then u + {rid} else u - {rid}
    ensures PageMatches(p, PageRollbackDelete(q, rid.slot), rid.page, u')
  {
  }

  lemma UndoMark(s: Txn, rid: Rid, q: Pages, u: set<Rid>)
    requires TablesOk(s.tables) && OpOk(s.tables, Mark(rid))
    requires Matches(Step(s, Mark(rid)).tables.pages, q, u) && rid.slot < |PageOf(q, rid.page)|
    ensures Matches(s.tables.pages, Undo(q, DeleteRec(rid)), Losing(s.tables.pages, Mark(rid), u))
  {
    var pages, pages' := s.tables.pages, Step(s, Mark(rid)).tables.pages;
    var u' := Losing(pages, Mark(rid), u);
    var id, i := rid.page, rid.slot;
    var p, p', x := pages[id], pages'[id], q[id];
    assert PageMatches(p', x, id, u);
    assert AllMarked(pages, u') by {
      forall r | r in u' ensures SlotAt(pages, r).Some? && SlotAt(pages, r).value.Marked? {
        if r != rid { assert r in u; }
      }
    }
    UnmarkedMatches(p, x, rid, u, u');
    hide PageMatches, AllMarked, TablesOk, SlotAt, PageRollbackDelete;
    MatchesAt(pages, pages', q, Undo(q, DeleteRec(rid)), u, u', id);
  }

  lemma UndoInsert(s: Txn, table: nat, t: Tuple, q: Pages, u: set<Rid>)
    requires TablesOk(s.tables) && OpOk(s.tables, Insert(table, t)) && !TooLarge(t)
    requires Matches(Step(s, Insert(table, t)).tables.pages, q, u)
    ensures var r := InsertRec(InsertInto(s.tables, table, t).1);
            UndoOk(q, r) && Matches(s.tables.pages, Undo(q, r), u)
  {
    var pages, pages' := s.tables.pages, Step(s, Insert(table, t)).tables.pages;
    var rid := InsertInto(s.tables, table, t).1;
    var id, i := rid.page, rid.slot;
    var p, p', x := PageOf(pages, id), pages'[id], q[id];
    assert PageMatches(p', x, id, u);
    assert SlotAt(pages', rid) == Some(Live(t));
    assert rid !in u;
    assert AllMarked(pages, u) by {
      forall r | r in u ensures SlotAt(pages, r).Some? && SlotAt(pages, r).value.Marked? {
        assert SlotAt(pages', r).value.Marked?;
      }
    }
    assert PageMatches(p, PageApplyDelete(x, i), id, u);
    MatchesAt(pages, pages', q, Undo(q, InsertRec(rid)), u, u, id);
  }

  lemma UndoUpdate(s: Txn, rid: Rid, t: Tuple, q: Pages, u: set<Rid>)
    requires TablesOk(s.tables) && OpOk(s.tables, Update(rid, t)) && CanUpdate(s.tables.pages[rid.page], rid.slot, t)
    requires Matches(Step(s, Update(rid, t)).tables.pages, q, u)
    ensures var p := s.tables.pages[rid.page];
            var r := UpdateRec(rid, p[rid.slot].tuple);
            && (UndoOk(q, r) <==> Free(p) >= SLOT * (|q[rid.page]| - |p|))
            && (UndoOk(q, r) ==> Matches(s.tables.pages, Undo(q, r), u))
  {
    var pages, pages' := s.tables.pages, Step(s, Update(rid, t)).tables.pages;
    var id, i := rid.page, rid.slot;
    var p, p', x := pages[id], pages'[id], q[id];
    var r := UpdateRec(rid, p[i].tuple);
    assert PageMatches(p', x, id, u);
    assert SlotAt(pages', rid) == Some(Live(t));
    assert rid !in u;
    assert x[i] == Live(t);
    UsedUpdate(p, i, Live(t));
    MatchingSpace(p', x, id, u);
    if UndoOk(q, r) {
      assert AllMarked(pages, u) by {
        forall m | m in u ensures SlotAt(pages, m).Some? && SlotAt(pages, m).value.Marked? {
          assert SlotAt(pages', m).value.Marked?;
        }
      }
      assert PageMatches(p, PageUpdate(x, i, p[i].tuple), id, u);
      MatchesAt(pages, pages', q, Undo(q, r), u, u, id);
    }
  }

  // ----- undoing a run -----

  /** No update goes through after the transaction was aborted: such an update is not recorded. */
  ghost predicate NoneLost(s: Txn, ops: seq<Op>)
    requires RunOk(s, ops)
    decreases |ops|
  {
    ops != [] ==>
      var before, op := Run(s, ops[..|ops| - 1]), ops[|ops| - 1];
      && NoneLost(s, ops[..|ops| - 1])
      && !(before.aborted && op.Update? && CanUpdate(before.tables.pages[op.rid.page], op.rid.slot, op.tuple))
  }

  /**
   The operation can be undone when its page has as many slots as it has in `final`: an update needs the
   space it found to hold the slots that were added later, and a marked slot has to exist.
   */
  ghost predicate OpFits(s: Txn, op: Op, final: Pages)
    requires OpOk(s.tables, op)
  {
    match op
    case Insert(_, _) => true
    case Mark(rid) => rid.slot < |PageOf(final, rid.page)|
    case Update(rid, t) =>
      var p := s.tables.pages[rid.page];
      CanUpdate(p, rid.slot, t) ==> Free(p) >= SLOT * (|PageOf(final, rid.page)| - |p|)
  }

  ghost predicate AllFit(s: Txn, ops: seq<Op>, final: Pages)
    requires RunOk(s, ops)
    decreases |ops|
  {
    ops != [] ==>
      AllFit(s, ops[..|ops| - 1], final) && OpFits(Run(s, ops[..|ops| - 1]), ops[|ops| - 1], final)
  }

  ghost predicate SameSizes(q: Pages, final: Pages) {
    q.Keys == final.Keys && forall id :: id in q ==> |q[id]| == |final[id]|
  }

  lemma UndoKeepsSizes(q: Pages, r: Record, final: Pages)
    requires SameSizes(q, final)
    ensures SameSizes(Undo(q, r), final)
  {
  }

  ghost function LosingAll(s: Txn, ops: seq<Op>, u: set<Rid>): set<Rid>
    requires RunOk(s, ops)
    decreases |ops|
  {
    if ops == [] then u
    else LosingAll(s, ops[..|ops| - 1], Losing(Run(s, ops[..|ops| - 1]).tables.pages, ops[|ops| - 1], u))
  }

  /** One operation: its record, if it left one, can be undone exactly when the operation fits. */
  lemma UndoStep(s: Txn, op: Op, q: Pages, u: set<Rid>)
    requires TablesOk(s.tables) && OpOk(s.tables, op)
    requires !(s.aborted && op.Update? && CanUpdate(s.tables.pages[op.rid.page], op.rid.slot, op.tuple))
    requires Matches(Step(s, op).tables.pages, q, u)
    ensures if Step(s, op).log == s.log
            then OpFits(s, op, q) && Matches(s.tables.pages, q, Losing(s.tables.pages, op, u))
            else
              && |Step(s, op).log| == |s.log| + 1 && Step(s, op).log[..|s.log|] == s.log
              && var r := Step(s, op).log[|s.log|];
                 && (UndoOk(q, r) <==> OpFits(s, op, q))
                 && (UndoOk(q, r) ==> Matches(s.tables.pages, Undo(q, r), Losing(s.tables.pages, op, u)))
  {
    match op
    case Insert(table, t) => if !TooLarge(t) { UndoInsert(s, table, t, q, u); }
    case Mark(rid) => if rid.slot < |PageOf(q, rid.page)| { UndoMark(s, rid, q, u); }
    case Update(rid, t) => if CanUpdate(s.tables.pages[rid.page], rid.slot, t) { UndoUpdate(s, rid, t, q, u); }
  }

  /** Every call of the abort succeeds exactly when all operations fit; then the pages match those at the start. */
  lemma {:induction false} UndoRun(s: Txn, ops: seq<Op>, q: Pages, u: set<Rid>, final: Pages)
    requires RunOk(s, ops) && NoneLost(s, ops) && s.log == [] && SameSizes(q, final)
    requires Matches(Run(s, ops).tables.pages, q, u)
    ensures AllUndone(q, Run(s, ops).log) <==> AllFit(s, ops, final)
    ensures AllFit(s, ops, final) ==> Matches(s.tables.pages, UndoAll(q, Run(s, ops).log), LosingAll(s, ops, u))
    decreases |ops|
  {
    if ops != [] {
      var before, op := Run(s, ops[..|ops| - 1]), ops[|ops| - 1];
      var after := Step(before, op);
      UndoStep(before, op, q, u);
      assert OpFits(before, op, q) <==> OpFits(before, op, final);
      var u' := Losing(before.tables.pages, op, u);
      hide Matches, OpFits, Losing, Step, UndoOk, Undo, TablesOk, OpOk;
      if after.log == before.log {
        UndoRun(s, ops[..|ops| - 1], q, u', final);
      } else {
        var r := after.log[|before.log|];
        assert after.log[..|after.log| - 1] == before.log;
        if UndoOk(q, r) {
          UndoKeepsSizes(q, r, final);
          UndoRun(s, ops[..|ops| - 1], Undo(q, r), u', final);
        }
      }
    }
  }

  // ----- rows marked before the transaction began -----

  ghost predicate IsMarked(pages: Pages, r: Rid) {
    SlotAt(pages, r).Some? && SlotAt(pages, r).value.Marked?
  }

  /** A marked row stays as it is while the transaction runs. */
  lemma StaysMarked(s: Txn, op: Op, r: Rid)
    requires TablesOk(s.tables) && OpOk(s.tables, op) && IsMarked(s.tables.pages, r)
    ensures SlotAt(Step(s, op).tables.pages, r) == SlotAt(s.tables.pages, r)
  {
  }

  lemma {:induction false} RunStaysMarked(s: Txn, ops: seq<Op>, r: Rid)
    requires RunOk(s, ops) && IsMarked(s.tables.pages, r)
    ensures SlotAt(Run(s, ops).tables.pages, r) == SlotAt(s.tables.pages, r)
    decreases |ops|
  {
    if ops != [] {
      RunStaysMarked(s, ops[..|ops| - 1], r);
      StaysMarked(Run(s, ops[..|ops| - 1]), ops[|ops| - 1], r);
    }
  }

  /** The rows that lose their marks: those marked at the start that the transaction tried to mark again. */
  lemma {:induction false} LosingAllIff(s: Txn, ops: seq<Op>, u: set<Rid>, r: Rid)
    requires RunOk(s, ops) && (forall m :: m in u ==> IsMarked(Run(s, ops).tables.pages, m))
    ensures r in LosingAll(s, ops, u) ==> IsMarked(s.tables.pages, r)
    ensures IsMarked(s.tables.pages, r) ==> (r in LosingAll(s, ops, u) <==> r in u || Mark(r) in ops)
    decreases |ops|
  {
    if ops != [] {
      var init, op := ops[..|ops| - 1], ops[|ops| - 1];
      var before := Run(s, init);
      var u' := Losing(before.tables.pages, op, u);
      assert ops == init + [op];
      forall m | m in u' ensures IsMarked(before.tables.pages, m) {
        if !(op.Mark? && op.rid == m) { assert m in u; UnmarkedOnlyByMark(before, op, m); }
      }
      LosingAllIff(s, init, u', r);
      if IsMarked(s.tables.pages, r) { RunStaysMarked(s, init, r); }
    }
  }

  lemma UnmarkedOnlyByMark(s: Txn, op: Op, m: Rid)
    requires TablesOk(s.tables) && OpOk(s.tables, op) && IsMarked(Step(s, op).tables.pages, m)
             && !(op.Mark? && op.rid == m)
    ensures IsMarked(s.tables.pages, m)
  {
  }

  // ----- the theorem -----

  /**
   Abort.  Every call it makes succeeds exactly when the operations fit the pages as they are at the end;
   and then it restores all rows exactly when the transaction tried to mark no row that was already marked
   when it began.
   */
  lemma AbortRestores(s: Txn, ops: seq<Op>)
    requires RunOk(s, ops) && NoneLost(s, ops) && s.log == []
    ensures var end := Run(s, ops);
            && (AllUndone(end.tables.pages, end.log) <==> AllFit(s, ops, end.tables.pages))
            && (AllFit(s, ops, end.tables.pages) ==>
                  (Restored(s.tables.pages, UndoAll(end.tables.pages, end.log))
                   <==> forall i :: 0 <= i < |ops| && ops[i].Mark? ==> !IsMarked(s.tables.pages, ops[i].rid)))
  {
    var end := Run(s, ops);
    var pages := end.tables.pages;
    MatchesItself(pages);
    UndoRun(s, ops, pages, {}, pages);
    if AllFit(s, ops, pages) {
      var lost := LosingAll(s, ops, {});
      forall r ensures r in lost <==> IsMarked(s.tables.pages, r) && Mark(r) in ops { LosingAllIff(s, ops, {}, r); }
      RestoredIff(s.tables.pages, UndoAll(pages, end.log), lost);
      assert (forall i :: 0 <= i < |ops| && ops[i].Mark? ==> !IsMarked(s.tables.pages, ops[i].rid)) <==> lost == {} by {
        if lost != {} {
          var r :| r in lost;
          var i :| 0 <= i < |ops| && ops[i] == Mark(r);
          assert ops[i].Mark? && ops[i].rid == r;
        } else {
          forall i | 0 <= i < |ops| && ops[i].Mark? ensures !IsMarked(s.tables.pages, ops[i].rid) {
            assert ops[i] == Mark(ops[i].rid);
            assert ops[i].rid !in lost;
          }
        }
      }
    }
  }

  lemma RestoredIff(s: Pages, q: Pages, lost: set<Rid>)
    requires Matches(s, q, lost)
    ensures Restored(s, q) <==> lost == {}
  {
    if lost != {} {
      var r :| r in lost;
      assert SlotAt(s, r).Some? && SlotAt(s, r).value.Marked?;
      assert PageMatches(PageOf(s, r.page), q[r.page], r.page, lost);
      assert q[r.page][r.slot].Live?;
      assert !PageMatches(PageOf(s, r.page), q[r.page], r.page, {});
    }
  }

  // ----- three runs that are not undone -----

  /**
   A row that another transaction has marked: the mark is refused but recorded, and abort takes the other's mark away.
   */
  lemma ForeignMarkIsLost(t: Tuple)
    requires |t| == 1
    ensures var s := Txn(Tables(map[0 := [Marked(t)]], map[], 1), false, []);
            var ops := [Mark(Rid(0, 0))];
            && RunOk(s, ops) && NoneLost(s, ops) && Run(s, ops).tables == s.tables
            && UndoAll(Run(s, ops).tables.pages, Run(s, ops).log) == map[0 := [Live(t)]]
  {
    var s := Txn(Tables(map[0 := [Marked(t)]], map[], 1), false, []);
    var op := Mark(Rid(0, 0));
    assert Used([Marked(t)]) == |t| + Used([Marked(t)][1..]);
    assert [op][..0] == [] && RunOk(s, []);
    assert Run(s, [op]) == Step(s, op);
    var r := DeleteRec(Rid(0, 0));
    assert Step(s, op).log == [r] && [r][..0] == [];
    assert [Marked(t)][0 := Live(t)] == [Live(t)];
    assert Undo(s.tables.pages, r) == map[0 := [Live(t)]];
  }

  /** A table of one page. */
  function OnePage(p: Page): Tables {
    Tables(map[0 := p], map[0 := [0]], 1)
  }

  lemma FullPageForward(a: Tuple, b: Tuple, c: Tuple)
    requires |a| == PAGE_SIZE - HEADER - SLOT && |b| == 4000 && |c| == 10
    ensures TablesOk(OnePage([Live(a)])) && TablesOk(OnePage([Live(b)]))
    ensures Step(Txn(OnePage([Live(a)]), false, []), Update(Rid(0, 0), b))
            == Txn(OnePage([Live(b)]), false, [UpdateRec(Rid(0, 0), a)])
    ensures Step(Txn(OnePage([Live(b)]), false, [UpdateRec(Rid(0, 0), a)]), Insert(0, c))
            == Txn(OnePage([Live(b), Live(c)]), false, [UpdateRec(Rid(0, 0), a), InsertRec(Rid(0, 1))])
  {
    UsedOne(Live(a));
    UsedOne(Live(b));
    assert [Live(a)][0 := Live(b)] == [Live(b)];
    assert map[0 := [Live(a)]][0 := [Live(b)]] == map[0 := [Live(b)]];
    assert HasRoom([Live(b)], c) && FirstEmpty([Live(b)]) == 1;
    assert FirstRoom(OnePage([Live(b)]).pages, [0], c) == 0;
    assert [Live(b)] + [Live(c)] == [Live(b), Live(c)];
    assert map[0 := [Live(b)]][0 := [Live(b), Live(c)]] == map[0 := [Live(b), Live(c)]];
  }

  lemma FullPageBackward(a: Tuple, b: Tuple, c: Tuple)
    requires |a| == PAGE_SIZE - HEADER - SLOT && |b| == 4000 && |c| == 10
    ensures UndoAll(OnePage([Live(b), Live(c)]).pages, [UpdateRec(Rid(0, 0), a), InsertRec(Rid(0, 1))]) ==
            OnePage([Live(b), Empty]).pages
  {
    var r1, r2 := UpdateRec(Rid(0, 0), a), InsertRec(Rid(0, 1));
    var q := OnePage([Live(b), Empty]).pages;
    assert [Live(b), Live(c)][1 := Empty] == [Live(b), Empty];
    assert Undo(OnePage([Live(b), Live(c)]).pages, r2) == q;
    assert [r1, r2][..1] == [r1] && [r1][..0] == [];
    assert Used([Live(b), Empty]) == |b| by {
      UsedConcat([Live(b)], [Empty]);
      UsedOne(Live(b));
      UsedOne(Empty);
      assert [Live(b)] + [Empty] == [Live(b), Empty];
    }
    assert Undo(q, r1) == q;
    assert UndoAll(q, [r1]) == UndoAll(Undo(q, r1), []);
  }

  /**
   A full page: an update makes room, an insert takes a new slot, and undoing the update fails because the
   slot is still there.  The result of that call is not looked at.
   */
  lemma UpdateIsNotUndone(a: Tuple, b: Tuple, c: Tuple)
    requires |a| == PAGE_SIZE - HEADER - SLOT && |b| == 4000 && |c| == 10
    ensures var s := Txn(OnePage([Live(a)]), false, []);
            var ops := [Update(Rid(0, 0), b), Insert(0, c)];
            && RunOk(s, ops) && NoneLost(s, ops) && Run(s, ops).tables == OnePage([Live(b), Live(c)])
            && UndoAll(Run(s, ops).tables.pages, Run(s, ops).log) == OnePage([Live(b), Empty]).pages
  {
    FullPageForward(a, b, c);
    FullPageBackward(a, b, c);
    var s := Txn(OnePage([Live(a)]), false, []);
    var op1, op2 := Update(Rid(0, 0), b), Insert(0, c);
    hide Step, UndoAll, TablesOk;
    assert [op1, op2][..1] == [op1] && [op1][..0] == [];
    assert RunOk(s, []) && RunOk(s, [op1]) && NoneLost(s, []);
    assert Run(s, [op1]) == Step(s, op1) && NoneLost(s, [op1]);
    assert Run(s, [op1, op2]) == Step(Run(s, [op1]), op2);
  }

  /** A tuple that is too large aborts the transaction; an update after that goes through but is not recorded. */
  lemma LateUpdateIsLost(a: Tuple, b: Tuple, large: Tuple)
    requires |a| == |b| == 1 && |large| == PAGE_SIZE
    ensures var s := Txn(OnePage([Live(a)]), false, []);
            var ops := [Insert(0, large), Update(Rid(0, 0), b)];
            && RunOk(s, ops) && AllFit(s, ops, Run(s, ops).tables.pages)
            && Run(s, ops) == Txn(OnePage([Live(b)]), true, [])
            && UndoAll(Run(s, ops).tables.pages, Run(s, ops).log) == OnePage([Live(b)]).pages
  {
    var s := Txn(OnePage([Live(a)]), false, []);
    var op1, op2 := Insert(0, large), Update(Rid(0, 0), b);
    UsedOne(Live(a));
    assert [Live(a)][0 := Live(b)] == [Live(b)];
    assert map[0 := [Live(a)]][0 := [Live(b)]] == map[0 := [Live(b)]];
    assert [op1, op2][..1] == [op1] && [op1][..0] == [];
    assert RunOk(s, []) && RunOk(s, [op1]);
    assert Run(s, [op1]) == Step(s, op1) == s.(aborted := true);
    assert Run(s, [op1, op2]) == Step(Run(s, [op1]), op2);
    var end := Run(s, [op1, op2]).tables.pages;
    assert AllFit(s, [], end) && AllFit(s, [op1], end);
  }

  lemma UsedOne(s: Slot)
    ensures Used([s]) == Size(s)
  {
    assert Used([s]) == Size([s][0]) + Used([s][1..]);
  }

  // ----- commit -----

  /** Commit carries out the deletes from the back; an assertion stops it at a slot that is not there or empty. */
  function ApplyAll(pages: Pages, log: seq<Record>): Option<Pages> {
    if log == [] then Some(pages)
    else
      var r, rest := log[|log| - 1], log[..|log| - 1];
      if !r.DeleteRec? then ApplyAll(pages, rest)
      else if UndoOk(pages, InsertRec(r.rid)) then ApplyAll(Undo(pages, InsertRec(r.rid)), rest)
      else None
  }

  ghost predicate DeletesOnce(log: seq<Record>) {
    forall i, j :: 0 <= i < j < |log| && log[i].DeleteRec? && log[j].DeleteRec? ==> log[i].rid != log[j].rid
  }

  ghost predicate DeletesPresent(pages: Pages, log: seq<Record>) {
    forall i :: 0 <= i < |log| && log[i].DeleteRec? ==>
      SlotAt(pages, log[i].rid).Some? && !SlotAt(pages, log[i].rid).value.Empty?
  }

  /** The slots of deleted rows are empty, and all other slots are as before. */
  ghost predicate Deleted(pages: Pages, log: seq<Record>, pages': Pages) {
    && SameSizes(pages', pages)
    && forall r: Rid :: SlotAt(pages, r).Some? ==>
         SlotAt(pages', r) == if DeleteRec(r) in log then Some(Empty) else SlotAt(pages, r)
  }

  /**
   Commit goes through exactly when every row it deletes is there and none is deleted twice (a mark of a row
   that is already marked is recorded too); then it empties the slots of those rows and no others.
   */
  lemma {:induction false} CommitIff(pages: Pages, log: seq<Record>)
    ensures ApplyAll(pages, log).Some? <==> DeletesOnce(log) && DeletesPresent(pages, log)
    ensures ApplyAll(pages, log).Some? ==> Deleted(pages, log, ApplyAll(pages, log).value)
  {
    if log != [] {
      var r, rest := log[|log| - 1], log[..|log| - 1];
      assert log == rest + [r];
      if !r.DeleteRec? {
        CommitIff(pages, rest);
      } else if UndoOk(pages, InsertRec(r.rid)) {
        var pages1 := Undo(pages, InsertRec(r.rid));
        CommitIff(pages1, rest);
        SplitDeletes(pages, pages1, rest, r);
      }
    }
  }

  lemma SplitDeletes(pages: Pages, pages1: Pages, rest: seq<Record>, r: Record)
    requires r.DeleteRec? && UndoOk(pages, InsertRec(r.rid)) && pages1 == Undo(pages, InsertRec(r.rid))
    ensures DeletesOnce(rest + [r]) && DeletesPresent(pages, rest + [r]) <==>
            DeletesOnce(rest) && DeletesPresent(pages1, rest)
    ensures forall pages2 :: Deleted(pages1, rest, pages2) ==> Deleted(pages, rest + [r], pages2)
  {
    assert forall x: Rid :: SlotAt(pages1, x) == if x == r.rid then Some(Empty) else SlotAt(pages, x);
    var log := rest + [r];
    assert forall i :: 0 <= i < |rest| ==> log[i] == rest[i];
    assert log[|rest|] == r;
    if DeletesOnce(rest) && DeletesPresent(pages1, rest) {
      forall i | 0 <= i < |rest| && rest[i].DeleteRec? ensures rest[i].rid != r.rid {
        assert SlotAt(pages1, rest[i].rid).Some? && !SlotAt(pages1, rest[i].rid).value.Empty?;
      }
    }
    if DeletesOnce(log) && DeletesPresent(pages, log) {
      forall i | 0 <= i < |rest| && rest[i].DeleteRec?
        ensures SlotAt(pages1, rest[i].rid).Some? && !SlotAt(pages1, rest[i].rid).value.Empty?
      {
        assert log[i].rid != log[|rest|].rid;
      }
    }
  }
}
