/** Table heaps, transactions with their write sets, and the manager that commits and aborts them. */
module Transactions {
  import opened Options
  import opened TablePages
  import opened TransactionUndo
  import opened IndexUndo
  import opened AbortExact

  datatype TransactionState = GROWING | COMMITTED | ABORTED

  class Transaction {
    var state: TransactionState
    var writeSet: seq<Record>
    var indexWriteSet: seq<IndexRecord>

    constructor ()
      ensures state == GROWING && writeSet == [] && indexWriteSet == []
    {
      state, writeSet, indexWriteSet := GROWING, [], [];
    }
  }

  /** Inserts a tuple into a page if it has room; the first empty slot is used again. */
  method InsertIntoPage(p: Page, t: Tuple) returns (r: Option<(Page, nat)>)
    ensures r == if HasRoom(p, t) then Some((PageInsert(p, t), FirstEmpty(p))) else None
    ensures r.Some? ==> PutAt(p, r.value.0, r.value.1, t)
  {
    if Free(p) < |t| + SLOT { return None; }
    var i := 0;
    while i < |p| && !p[i].Empty?
      invariant 0 <= i <= |p| && forall j :: 0 <= j < i ==> !p[j].Empty?
    {
      i := i + 1;
    }
    assert i == FirstEmpty(p);
    if i == |p| && Free(p) < |t| + SLOT { return None; }
    return Some((if i < |p| then p[i := Live(t)] else p + [Live(t)], i));
  }

  /** The pages of all tables, with the operations of their heaps. */
  class TableHeaps {
    var tables: Tables

    constructor (tables: Tables)
      ensures this.tables == tables
    {
      this.tables := tables;
    }

    ghost function View(txn: Transaction): Txn
      reads this, txn
    {
      Txn(tables, txn.state == ABORTED, txn.writeSet)
    }

    /** Adds a page at the end of a chain. */
    method AddPage(table: nat)
      requires TablesOk(tables) && table in tables.chains
      modifies this
      ensures tables == Tables(old(tables).pages[old(tables).next := []],
                               old(tables).chains[table := old(tables).chains[table] + [old(tables).next]],
                                 old(tables).next + 1)
    {
      tables := Tables(tables.pages[tables.next := []], tables.chains[table := tables.chains[table] + [tables.next]],
                       tables.next + 1);
    }

    /** Inserts into the first page with room, and into a new page if there is none. */
    method Place(table: nat, t: Tuple) returns (rid: Rid)
      requires TablesOk(tables) && table in tables.chains && !TooLarge(t)
      modifies this
      ensures (tables, rid) == InsertInto(old(tables), table, t)
      ensures Vacant(old(tables).pages, rid) && Wrote(old(tables).pages, tables.pages, rid, Live(t))
    {
      ghost var chain := tables.chains[table];
      ghost var room := FirstRoom(tables.pages, chain, t);
      var i := 0;
      var id := tables.chains[table][0];
      var r := InsertIntoPage(tables.pages[id], t);
      while r.None?
        invariant tables == old(tables) || AddedPage(old(tables), table, tables)
        invariant tables == old(tables) ==> i < |chain| && i <= room && id == chain[i]
        invariant tables != old(tables) ==> i == room == |chain| && id == old(tables).next
        invariant r == if HasRoom(tables.pages[id], t)
                       then Some((PageInsert(tables.pages[id], t), FirstEmpty(tables.pages[id]))) else None
        invariant r.Some? ==> PutAt(tables.pages[id], r.value.0, r.value.1, t)
        decreases |chain| + 1 - i
      {
        if i + 1 == |tables.chains[table]| {
          assert Free([]) >= |t| + SLOT;
          AddPage(table);
        }
        i := i + 1;
        id := tables.chains[table][i];
        r := InsertIntoPage(tables.pages[id], t);
      }
      assert tables == old(tables) ==> i == room;
      assert FirstEmpty([]) == 0 && PageInsert([], t) == [] + [Live(t)] == [Live(t)];
      assert tables != old(tables) ==> tables.pages[id := [Live(t)]] == old(tables).pages[id := [Live(t)]];
      PutWrites(old(tables).pages, id, r.value.0, r.value.1, t);
      tables := tables.(pages := tables.pages[id := r.value.0]);
      return Rid(id, r.value.1);
    }

    method InsertTuple(table: nat, t: Tuple, txn: Transaction) returns (ok: bool)
      requires TablesOk(tables) && OpOk(tables, Insert(table, t))
      modifies this, txn
      ensures View(txn) == Step(old(View(txn)), Insert(table, t)) && TablesOk(tables)
      ensures ok == !TooLarge(t)
      ensures !ok ==> tables == old(tables) && txn.state == ABORTED && txn.writeSet == old(txn.writeSet)
      ensures ok ==> && |txn.writeSet| == |old(txn.writeSet)| + 1 && txn.writeSet[|old(txn.writeSet)|].InsertRec?
                     && var rid := txn.writeSet[|old(txn.writeSet)|].rid;
                        Vacant(old(tables).pages, rid) && Wrote(old(tables).pages, tables.pages, rid, Live(t))
      ensures txn.indexWriteSet == old(txn.indexWriteSet)
    {
      StepKeeps(View(txn), Insert(table, t));
      if |t| + 32 > PAGE_SIZE {
        txn.state := ABORTED;
        return false;
      }
      hide InsertInto;
      var rid := Place(table, t);
      txn.writeSet := txn.writeSet + [InsertRec(rid)];
      return true;
    }

    method MarkDelete(rid: Rid, txn: Transaction)
      requires TablesOk(tables) && OpOk(tables, Mark(rid))
      modifies this, txn
      ensures View(txn) == Step(old(View(txn)), Mark(rid)) && TablesOk(tables)
      ensures match SlotAt(old(tables).pages, rid)
              case Some(Live(t)) => Wrote(old(tables).pages, tables.pages, rid, Marked(t))
              case _ => SameSlots(old(tables).pages, tables.pages)
      ensures txn.writeSet == old(txn.writeSet) + [DeleteRec(rid)]
      ensures txn.state == old(txn.state) && txn.indexWriteSet == old(txn.indexWriteSet)
    {
      StepKeeps(View(txn), Mark(rid));
      var p := tables.pages[rid.page];
      if rid.slot < |p| && p[rid.slot].Live? {
        SlotWrites(tables.pages, rid, Marked(p[rid.slot].tuple));
        p := p[rid.slot := Marked(p[rid.slot].tuple)];
      } else {
        NothingWritten(tables.pages, rid.page);
      }
      tables := tables.(pages := tables.pages[rid.page := p]);
      txn.writeSet := txn.writeSet + [DeleteRec(rid)];
    }

    method UpdateTuple(t: Tuple, rid: Rid, txn: Transaction) returns (updated: bool)
      requires rid.page in tables.pages
      modifies this, txn
      ensures updated == CanUpdate(old(tables).pages[rid.page], rid.slot, t)
      ensures if updated then Wrote(old(tables).pages, tables.pages, rid, Live(t)) else tables == old(tables)
      ensures tables == old(tables).(pages := old(tables).pages[rid.page := PageUpdate(old(tables).pages[rid.page],
              rid.slot, t)])
      ensures txn.writeSet == if updated && old(txn.state) != ABORTED
              then old(txn.writeSet) + [UpdateRec(rid, old(tables).pages[rid.page][rid.slot].tuple)]
                else old(txn.writeSet)
      ensures txn.state == old(txn.state) && txn.indexWriteSet == old(txn.indexWriteSet)
    {
      var p := tables.pages[rid.page];
      updated := rid.slot < |p| && p[rid.slot].Live? && Free(p) + |p[rid.slot].tuple| >= |t|;
      if updated {
        SlotWrites(tables.pages, rid, Live(t));
        tables := tables.(pages := tables.pages[rid.page := p[rid.slot := Live(t)]]);
      } else {
        assert tables.pages == tables.pages[rid.page := p];
      }
      if updated && txn.state != ABORTED {
        txn.writeSet := txn.writeSet + [UpdateRec(rid, p[rid.slot].tuple)];
      }
    }

    /** An update as a step of the transaction. */
    lemma UpdateIsStep(before: Txn, rid: Rid, t: Tuple)
      requires TablesOk(before.tables) && OpOk(before.tables, Update(rid, t))
      ensures var p := before.tables.pages[rid.page];
              Step(before, Update(rid, t)) ==
              Txn(before.tables.(pages := before.tables.pages[rid.page := PageUpdate(p, rid.slot, t)]), before.aborted,
                  if CanUpdate(p, rid.slot, t) && !before.aborted then before.log + [UpdateRec(rid, p[rid.slot].tuple)]
                  else before.log)
    {
      assert before.tables.pages == before.tables.pages[rid.page := before.tables.pages[rid.page]];
    }

    method ApplyDelete(rid: Rid)
      requires UndoOk(tables.pages, InsertRec(rid))
      modifies this
      ensures tables == old(tables).(pages := Undo(old(tables).pages, InsertRec(rid)))
      ensures Wrote(old(tables).pages, tables.pages, rid, Empty)
    {
      SlotWrites(tables.pages, rid, Empty);
      tables := tables.(pages := tables.pages[rid.page := tables.pages[rid.page][rid.slot := Empty]]);
    }

    method RollbackDelete(rid: Rid)
      requires UndoOk(tables.pages, DeleteRec(rid))
      modifies this
      ensures tables == old(tables).(pages := Undo(old(tables).pages, DeleteRec(rid)))
      ensures match SlotAt(old(tables).pages, rid)
              case Some(Marked(t)) => Wrote(old(tables).pages, tables.pages, rid, Live(t))
              case _ => SameSlots(old(tables).pages, tables.pages)
    {
      var p := tables.pages[rid.page];
      if p[rid.slot].Marked? {
        SlotWrites(tables.pages, rid, Live(p[rid.slot].tuple));
        p := p[rid.slot := Live(p[rid.slot].tuple)];
      } else {
        NothingWritten(tables.pages, rid.page);
      }
      tables := tables.(pages := tables.pages[rid.page := p]);
    }
  }

  ghost predicate AddedPage(before: Tables, table: nat, after: Tables)
    requires table in before.chains
  {
    after == Tables(before.pages[before.next := []], before.chains[table := before.chains[table] + [before.next]],
                    before.next + 1)
  }

  class IndexStore {
    const keys: Keys
    var indexes: Indexes

    constructor (keys: Keys, indexes: Indexes)
      ensures this.keys == keys && this.indexes == indexes
    {
      this.keys, this.indexes := keys, indexes;
    }

    method Insert(index: nat, key: Key, rid: Rid)
      requires index in indexes
      modifies this
      ensures indexes == old(indexes)[index := InsertEntry(old(indexes)[index], key, rid)]
    {
      if key in indexes[index] {
        assert indexes == indexes[index := indexes[index]];
      } else {
        indexes := indexes[index := indexes[index][key := rid]];
      }
    }

    method Delete(index: nat, key: Key)
      requires index in indexes
      modifies this
      ensures indexes == old(indexes)[index := DeleteEntry(old(indexes)[index], key)]
    {
      indexes := indexes[index := indexes[index] - {key}];
    }

    /** Undoes one record. */
    method Rollback(r: IndexRecord)
      requires r.index in indexes
      modifies this
      ensures indexes == RevertAt(old(indexes), r, keys)
    {
      var key := keys(r.index, r.tuple);
      match r.wtype
      case DELETE => Insert(r.index, key, r.rid);
      case INSERT => Delete(r.index, key);
      case UPDATE =>
        Delete(r.index, key);
        Insert(r.index, keys(r.index, r.prior), r.rid);
    }
  }

  // ----- the transaction manager -----

  class TransactionManager {

    /** Takes back the table writes and then the index writes, the last ones first. */
    method Abort(txn: Transaction, heaps: TableHeaps, store: IndexStore)
      requires Abortable(heaps.tables.pages, txn.writeSet)
      requires forall i :: 0 <= i < |txn.indexWriteSet| ==> txn.indexWriteSet[i].index in store.indexes
      modifies txn, heaps, store
      ensures txn.state == ABORTED && txn.writeSet == [] && txn.indexWriteSet == []
      ensures heaps.tables == old(heaps.tables).(pages := UndoAll(old(heaps.tables.pages), old(txn.writeSet)))
      ensures store.indexes == RevertAll(old(store.indexes), old(txn.indexWriteSet), store.keys)
    {
      txn.state := ABORTED;
      RollbackTables(txn, heaps);
      RollbackIndexes(txn, store);
    }

    method RollbackTables(txn: Transaction, heaps: TableHeaps)
      requires Abortable(heaps.tables.pages, txn.writeSet) && txn.state == ABORTED
      modifies txn, heaps
      ensures txn.writeSet == [] && txn.state == ABORTED && txn.indexWriteSet == old(txn.indexWriteSet)
      ensures heaps.tables == old(heaps.tables).(pages := UndoAll(old(heaps.tables.pages), old(txn.writeSet)))
    {
      while txn.writeSet != []
        invariant txn.state == ABORTED && txn.indexWriteSet == old(txn.indexWriteSet)
        invariant Abortable(heaps.tables.pages, txn.writeSet)
        invariant heaps.tables == old(heaps.tables).(pages := heaps.tables.pages)
        invariant UndoAll(heaps.tables.pages, txn.writeSet) == UndoAll(old(heaps.tables.pages), old(txn.writeSet))
        decreases |txn.writeSet|
      {
        var n := |txn.writeSet| - 1;
        var item := txn.writeSet[n];
        match item {
          case DeleteRec(rid) => heaps.RollbackDelete(rid);
          case InsertRec(rid) => heaps.ApplyDelete(rid);
          case UpdateRec(rid, prior) => var _ := heaps.UpdateTuple(prior, rid, txn);
        }
        txn.writeSet := txn.writeSet[..n];
      }
    }

    method RollbackIndexes(txn: Transaction, store: IndexStore)
      requires forall i :: 0 <= i < |txn.indexWriteSet| ==> txn.indexWriteSet[i].index in store.indexes
      modifies txn`indexWriteSet, store
      ensures txn.indexWriteSet == []
      ensures store.indexes == RevertAll(old(store.indexes), old(txn.indexWriteSet), store.keys)
    {
      while txn.indexWriteSet != []
        invariant store.indexes.Keys == old(store.indexes).Keys
        invariant forall i :: 0 <= i < |txn.indexWriteSet| ==> txn.indexWriteSet[i].index in store.indexes
        invariant RevertAll(store.indexes, txn.indexWriteSet, store.keys) ==
                  RevertAll(old(store.indexes), old(txn.indexWriteSet), store.keys)
        decreases |txn.indexWriteSet|
      {
        var n := |txn.indexWriteSet| - 1;
        store.Rollback(txn.indexWriteSet[n]);
        txn.indexWriteSet := txn.indexWriteSet[..n];
      }
    }

    /** Carries out the deletes, the last ones first. */
    method Commit(txn: Transaction, heaps: TableHeaps)
      requires ApplyAll(heaps.tables.pages, txn.writeSet).Some?
      modifies txn, heaps
      ensures txn.state == COMMITTED && txn.writeSet == []
      ensures heaps.tables == old(heaps.tables).(pages := ApplyAll(old(heaps.tables.pages), old(txn.writeSet)).value)
    {
      txn.state := COMMITTED;
      while txn.writeSet != []
        invariant txn.state == COMMITTED
        invariant heaps.tables == old(heaps.tables).(pages := heaps.tables.pages)
        invariant ApplyAll(heaps.tables.pages, txn.writeSet) == ApplyAll(old(heaps.tables.pages), old(txn.writeSet))
        decreases |txn.writeSet|
      {
        var n := |txn.writeSet| - 1;
        var item := txn.writeSet[n];
        if item.DeleteRec? {
          heaps.ApplyDelete(item.rid);
        }
        txn.writeSet := txn.writeSet[..n];
      }
    }
  }

  // ----- whole transactions -----

  /** What a transaction does: an operation on a table, or a write to an index. */
  datatype Action = OnTable(op: Op) | OnIndex(write: IndexRecord)

  ghost function TableOps(actions: seq<Action>): seq<Op> {
    if actions == [] then []
    else
      var last, rest := actions[|actions| - 1], TableOps(actions[..|actions| - 1]);
      if last.OnTable? then rest + [last.op] else rest
  }

  ghost function IndexWrites(actions: seq<Action>): seq<IndexRecord> {
    if actions == [] then []
    else
      var last, rest := actions[|actions| - 1], IndexWrites(actions[..|actions| - 1]);
      if last.OnIndex? then rest + [last.write] else rest
  }

  lemma {:induction false} RunOkPrefix(s: Txn, ops: seq<Op>, i: nat)
    requires RunOk(s, ops) && i <= |ops|
    ensures RunOk(s, ops[..i])
    decreases |ops|
  {
    if i < |ops| {
      RunOkPrefix(s, ops[..|ops| - 1], i);
      assert ops[..|ops| - 1][..i] == ops[..i];
    } else {
      assert ops[..i] == ops;
    }
  }

  /** The first actions are an action longer than the ones before. */
  lemma NextAction(actions: seq<Action>, i: nat)
    requires i < |actions|
    ensures var action, done := actions[i], actions[..i];
            && TableOps(actions[..i + 1]) == (if action.OnTable? then TableOps(done) + [action.op] else TableOps(done))
            && IndexWrites(actions[..i + 1]) == (if action.OnIndex? then IndexWrites(done) + [action.write]
                                                 else IndexWrites(done))
  {
    assert actions[..i + 1][..i] == actions[..i];
  }

  lemma {:induction false} EarlierOps(actions: seq<Action>, i: nat)
    requires i <= |actions|
    ensures |TableOps(actions[..i])| <= |TableOps(actions)|
            && TableOps(actions[..i]) == TableOps(actions)[..|TableOps(actions[..i])|]
    decreases |actions| - i
  {
    if i < |actions| {
      NextAction(actions, i);
      EarlierOps(actions, i + 1);
    } else {
      assert actions[..i] == actions;
    }
  }

  lemma OneMoreOp(s: Txn, ops: seq<Op>, op: Op)
    requires RunOk(s, ops + [op])
    ensures RunOk(s, ops) && OpOk(Run(s, ops).tables, op) && Run(s, ops + [op]) == Step(Run(s, ops), op)
  {
    assert (ops + [op])[..|ops|] == ops;
  }

  lemma OneMoreWrite(s: Indexes, log: seq<IndexRecord>, r: IndexRecord, keys: Keys)
    ensures Write(s, log + [r], keys) == ApplyAt(Write(s, log, keys), r, keys)
  {
    assert (log + [r])[..|log|] == log;
  }

  /** A write to an index, with its record. */
  method WriteIndex(r: IndexRecord, txn: Transaction, store: IndexStore)
    requires r.index in store.indexes
    modifies txn`indexWriteSet, store
    ensures store.indexes == ApplyAt(old(store.indexes), r, store.keys) && store.indexes.Keys == old(store.indexes).Keys
    ensures txn.indexWriteSet == old(txn.indexWriteSet) + [r]
  {
    var key := store.keys(r.index, r.tuple);
    match r.wtype
    {
      case INSERT => store.Insert(r.index, key, r.rid);
      case DELETE => store.Delete(r.index, key);
      case UPDATE =>
        store.Delete(r.index, store.keys(r.index, r.prior));
        store.Insert(r.index, key, r.rid);
    }
    txn.indexWriteSet := txn.indexWriteSet + [r];
  }

  method PerformOne(op: Op, txn: Transaction, heaps: TableHeaps)
    requires TablesOk(heaps.tables) && OpOk(heaps.tables, op)
    modifies txn, heaps
    ensures heaps.View(txn) == Step(old(heaps.View(txn)), op)
    ensures txn.indexWriteSet == old(txn.indexWriteSet)
  {
    match op
    case Insert(table, t) => var _ := heaps.InsertTuple(table, t, txn);
    case Mark(rid) => heaps.MarkDelete(rid, txn);
    case Update(rid, t) =>
      heaps.UpdateIsStep(heaps.View(txn), rid, t);
      var _ := heaps.UpdateTuple(t, rid, txn);
  }

  method PerformAction(action: Action, txn: Transaction, heaps: TableHeaps, store: IndexStore)
    requires action.OnTable? ==> TablesOk(heaps.tables) && OpOk(heaps.tables, action.op)
    requires action.OnIndex? ==> action.write.index in store.indexes
    modifies txn, heaps, store
    ensures heaps.View(txn) == if action.OnTable? then Step(old(heaps.View(txn)), action.op) else old(heaps.View(txn))
    ensures store.indexes == if action.OnIndex? then ApplyAt(old(store.indexes), action.write, store.keys)
                             else old(store.indexes)
    ensures store.indexes.Keys == old(store.indexes).Keys
    ensures txn.indexWriteSet == if action.OnIndex? then old(txn.indexWriteSet) + [action.write]
                                 else old(txn.indexWriteSet)
  {
    if action.OnTable? {
      PerformOne(action.op, txn, heaps);
    } else {
      WriteIndex(action.write, txn, store);
    }
  }

  /** What the first actions have done, and the next one will do. */
  lemma Advance(s: Txn, indexes: Indexes, keys: Keys, actions: seq<Action>, i: nat)
    requires i < |actions| && RunOk(s, TableOps(actions))
    ensures RunOk(s, TableOps(actions[..i])) && RunOk(s, TableOps(actions[..i + 1]))
    ensures var before, after := Run(s, TableOps(actions[..i])), Run(s, TableOps(actions[..i + 1]));
            if actions[i].OnTable? then TablesOk(before.tables) && OpOk(before.tables, actions[i].op)
               && after == Step(before, actions[i].op)
            else after == before
    ensures var before, after := IndexWrites(actions[..i]), IndexWrites(actions[..i + 1]);
            if actions[i].OnIndex? then after == before + [actions[i].write]
               && Write(indexes, after, keys) == ApplyAt(Write(indexes, before, keys), actions[i].write, keys)
            else after == before
  {
    NextAction(actions, i);
    EarlierOps(actions, i);
    EarlierOps(actions, i + 1);
    RunOkPrefix(s, TableOps(actions), |TableOps(actions[..i])|);
    RunOkPrefix(s, TableOps(actions), |TableOps(actions[..i + 1])|);
    hide TableOps, IndexWrites, Step, OpOk, RunOk, Write, ApplyAt, TablesOk;
    if actions[i].OnTable? {
      OneMoreOp(s, TableOps(actions[..i]), actions[i].op);
    } else {
      OneMoreWrite(indexes, IndexWrites(actions[..i]), actions[i].write, keys);
    }
  }

  /** Carries out actions one after the other. */
  method Perform(actions: seq<Action>, txn: Transaction, heaps: TableHeaps, store: IndexStore)
    requires RunOk(heaps.View(txn), TableOps(actions))
    requires forall i :: 0 <= i < |actions| && actions[i].OnIndex? ==> actions[i].write.index in store.indexes
    modifies txn, heaps, store
    ensures heaps.View(txn) == Run(old(heaps.View(txn)), TableOps(actions))
    ensures store.indexes == Write(old(store.indexes), IndexWrites(actions), store.keys)
            && store.indexes.Keys == old(store.indexes).Keys
    ensures txn.indexWriteSet == old(txn.indexWriteSet) + IndexWrites(actions)
  {
    ghost var start, indexes := heaps.View(txn), store.indexes;
    RunsNothing(start, indexes, store.keys, TableOps(actions));
    assert actions[..0] == [] && TableOps([]) == [] && IndexWrites([]) == [];
    hide Step, OpOk, TablesOk, RunOk, Run, Write, ApplyAt, TableOps, IndexWrites;
    var i := 0;
    while i < |actions|
      invariant 0 <= i <= |actions| && RunOk(start, TableOps(actions[..i]))
      invariant heaps.View(txn) == Run(start, TableOps(actions[..i]))
      invariant store.indexes == Write(indexes, IndexWrites(actions[..i]), store.keys)
                && store.indexes.Keys == indexes.Keys
      invariant txn.indexWriteSet == old(txn.indexWriteSet) + IndexWrites(actions[..i])
    {
      Advance(start, indexes, store.keys, actions, i);
      PerformAction(actions[i], txn, heaps, store);
      i := i + 1;
    }
    assert actions[..i] == actions;
  }

  lemma RunsNothing(s: Txn, indexes: Indexes, keys: Keys, ops: seq<Op>)
    requires RunOk(s, ops)
    ensures RunOk(s, []) && Run(s, []) == s && Write(indexes, [], keys) == indexes
  {
  }

  lemma {:induction false} WritesOf(actions: seq<Action>, indexes: Indexes)
    requires forall i :: 0 <= i < |actions| && actions[i].OnIndex? ==> actions[i].write.index in indexes
    ensures forall i :: 0 <= i < |IndexWrites(actions)| ==> IndexWrites(actions)[i].index in indexes
  {
    if actions != [] { WritesOf(actions[..|actions| - 1], indexes); }
  }

  /** A transaction that runs and aborts, and exactly when its tables and its indexes are as they were. */
  method PerformAndAbort(actions: seq<Action>, heaps: TableHeaps, store: IndexStore, manager: TransactionManager)
    requires RunOk(Txn(heaps.tables, false, []), TableOps(actions))
             && MarksInRange(Txn(heaps.tables, false, []), TableOps(actions))
    requires forall i :: 0 <= i < |actions| && actions[i].OnIndex? ==> actions[i].write.index in store.indexes
    modifies heaps, store
    ensures Restored(old(heaps.tables.pages), heaps.tables.pages) <==>
            RowsKept(Txn(old(heaps.tables), false, []), TableOps(actions))
    ensures store.indexes == old(store.indexes) <==> KeysKept(old(store.indexes), IndexWrites(actions), store.keys)
  {
    var txn := new Transaction();
    ghost var start := heaps.View(txn);
    ghost var indexes := store.indexes;
    AbortRestoresIff(start, TableOps(actions));
    RunIsAbortable(start, TableOps(actions));
    WritesOf(actions, indexes);
    IndexesRestoredIff(indexes, IndexWrites(actions), store.keys);
    ViewIs(heaps, txn);
    hide *;
    assert [] + IndexWrites(actions) == IndexWrites(actions);
    Perform(actions, txn, heaps, store);
    ViewIs(heaps, txn);
    manager.Abort(txn, heaps, store);
  }

  lemma ViewIs(heaps: TableHeaps, txn: Transaction)
    ensures heaps.View(txn) == Txn(heaps.tables, txn.state == ABORTED, txn.writeSet)
  {
  }
}
