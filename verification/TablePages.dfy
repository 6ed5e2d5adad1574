/**
 Table pages as lists of slots, and the tables they make up.  The space a page has left is what the
 header, the slot directory and the tuples leave of it; a slot is never given back.
 */
module TablePages {
  import opened Options

  type Tuple = seq<bv8>

  const PAGE_SIZE := 4096
  const HEADER := 24
  const SLOT := 8

  datatype Slot = Empty | Live(tuple: Tuple) | Marked(tuple: Tuple)
  type Page = seq<Slot>

  datatype Rid = Rid(page: nat, slot: nat)

  function Size(s: Slot): nat {
    if s.Empty? then 0 else |s.tuple|
  }

  function Used(p: Page): nat {
    if p == [] then 0 else Size(p[0]) + Used(p[1..])
  }

  function Free(p: Page): int {
    PAGE_SIZE - HEADER - SLOT * |p| - Used(p)
  }

  // ----- operations of a page -----

  function FirstEmpty(p: Page): (i: nat)
    ensures i <= |p| && (i < |p| ==> p[i].Empty?) && forall j :: 0 <= j < i ==> !p[j].Empty?
  {
    if p == [] || p[0].Empty? then 0 else 1 + FirstEmpty(p[1..])
  }

  predicate HasRoom(p: Page, t: Tuple) {
    Free(p) >= |t| + SLOT
  }

  function PageInsert(p: Page, t: Tuple): Page {
    var i := FirstEmpty(p);
    if i < |p| then p[i := Live(t)] else p + [Live(t)]
  }

  function PageMark(p: Page, slot: nat): Page {
    if slot < |p| && p[slot].Live? then p[slot := Marked(p[slot].tuple)] else p
  }

  predicate CanUpdate(p: Page, slot: nat, t: Tuple) {
    slot < |p| && p[slot].Live? && Free(p) + |p[slot].tuple| >= |t|
  }

  function PageUpdate(p: Page, slot: nat, t: Tuple): Page {
    if CanUpdate(p, slot, t) then p[slot := Live(t)] else p
  }

  function PageApplyDelete(p: Page, slot: nat): Page {
    if slot < |p| then p[slot := Empty] else p
  }

  function PageRollbackDelete(p: Page, slot: nat): Page {
    if slot < |p| && p[slot].Marked? then p[slot := Live(p[slot].tuple)] else p
  }

  // ----- space -----

  lemma {:induction false} UsedConcat(p: Page, q: Page)
    ensures Used(p + q) == Used(p) + Used(q)
  {
    if p == [] {
      assert p + q == q;
    } else {
      assert (p + q)[1..] == p[1..] + q;
      UsedConcat(p[1..], q);
    }
  }

  lemma {:induction false} UsedUpdate(p: Page, i: nat, s: Slot)
    requires i < |p|
    ensures Used(p[i := s]) == Used(p) - Size(p[i]) + Size(s)
  {
    if i == 0 {
      assert p[0 := s][1..] == p[1..];
    } else {
      assert p[i := s][1..] == p[1..][i - 1 := s];
      UsedUpdate(p[1..], i - 1, s);
    }
  }

  lemma {:induction false} UsedEmpty(p: Page)
    requires forall i :: 0 <= i < |p| ==> p[i].Empty?
    ensures Used(p) == 0
  {
    if p != [] { UsedEmpty(p[1..]); }
  }

  lemma InsertSpace(p: Page, t: Tuple)
    requires HasRoom(p, t)
    ensures Free(PageInsert(p, t)) >= 0
    ensures Free(PageInsert(p, t)) == Free(p) - |t| - SLOT * (|PageInsert(p, t)| - |p|)
  {
    var i := FirstEmpty(p);
    if i < |p| { UsedUpdate(p, i, Live(t)); } else {
      UsedConcat(p, [Live(t)]); assert Used([Live(t)]) == |t| + Used([Live(t)][1..]);
    }
  }

  // ----- tables -----

  type Pages = map<nat, Page>

  /** `chains` lists the pages of each table; `next` is the page id to be allocated next. */
  datatype Tables = Tables(pages: Pages, chains: map<nat, seq<nat>>, next: nat)

  predicate PageOk(p: Page) {
    Free(p) >= 0
  }

  ghost predicate TablesOk(s: Tables) {
    && (forall id :: id in s.pages ==> id < s.next && PageOk(s.pages[id]))
    && (forall t :: t in s.chains ==> s.chains[t] != [] && forall i :: 0 <= i < |s.chains[t]| ==>
        s.chains[t][i] in s.pages)
  }

  /** The first page of a chain with room for the tuple. */
  function FirstRoom(pages: Pages, chain: seq<nat>, t: Tuple): (i: nat)
    requires forall j :: 0 <= j < |chain| ==> chain[j] in pages
    ensures i <= |chain| && (i < |chain| ==> HasRoom(pages[chain[i]], t)) && forall j :: 0 <= j < i ==>
            !HasRoom(pages[chain[j]], t)
  {
    if chain == [] || HasRoom(pages[chain[0]], t) then 0 else 1 + FirstRoom(pages, chain[1..], t)
  }

  predicate TooLarge(t: Tuple) {
    |t| + 32 > PAGE_SIZE
  }

  function SlotAt(pages: Pages, rid: Rid): Option<Slot> {
    if rid.page in pages && rid.slot < |pages[rid.page]| then Some(pages[rid.page][rid.slot]) else None
  }

  // ----- slots -----

  /** The slot at `rid` is `slot` now, and all others are as before. */
  ghost predicate Wrote(before: Pages, after: Pages, rid: Rid, slot: Slot) {
    SlotAt(after, rid) == Some(slot) && forall r :: r != rid ==> SlotAt(after, r) == SlotAt(before, r)
  }

  ghost predicate SameSlots(before: Pages, after: Pages) {
    forall r :: SlotAt(after, r) == SlotAt(before, r)
  }

  /** There is no row at `rid`. */
  ghost predicate Vacant(pages: Pages, rid: Rid) {
    SlotAt(pages, rid).None? || SlotAt(pages, rid).value.Empty?
  }

  /** `q` is `p` with `t` in its first empty slot, `i`, or in a new one if there is none. */
  ghost predicate PutAt(p: Page, q: Page, i: nat, t: Tuple) {
    && i <= |p| && |q| == (if i < |p| then |p| else |p| + 1) && q[i] == Live(t)
    && (i < |p| ==> p[i].Empty?) && (forall j :: 0 <= j < i ==> !p[j].Empty?)
    && forall j :: 0 <= j < |p| && j != i ==> q[j] == p[j]
  }

  /** What is put into one page is written to one slot. */
  lemma PutWrites(pages: Pages, id: nat, q: Page, i: nat, t: Tuple)
    requires PutAt(if id in pages then pages[id] else [], q, i, t)
    ensures Vacant(pages, Rid(id, i)) && Wrote(pages, pages[id := q], Rid(id, i), Live(t))
  {
    forall r: Rid | r != Rid(id, i) ensures SlotAt(pages[id := q], r) == SlotAt(pages, r) {
      if r.page == id { assert r.slot != i; }
    }
  }

  lemma SlotWrites(pages: Pages, rid: Rid, slot: Slot)
    requires rid.page in pages && rid.slot < |pages[rid.page]|
    ensures Wrote(pages, pages[rid.page := pages[rid.page][rid.slot := slot]], rid, slot)
  {
    forall r: Rid | r != rid
      ensures SlotAt(pages[rid.page := pages[rid.page][rid.slot := slot]], r) == SlotAt(pages, r)
    {
      if r.page == rid.page { assert r.slot != rid.slot; }
    }
  }

  lemma NothingWritten(pages: Pages, id: nat)
    requires id in pages
    ensures SameSlots(pages, pages[id := pages[id]])
  {
    assert pages == pages[id := pages[id]];
  }
}
