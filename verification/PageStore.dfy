/**
 What a client of the buffer pool may rely on: a store of pages with pins, in which frames, free
 list, page table, replacer, dirty flags and disk do not occur.  `Perform` and `PerformAll` show
 that every run of the pool is a run of this store, with the same answers.
 */
module PageStore {
  import opened BufferPool
  import opened PageUsage
  import opened BufferPoolManager
  import opened ExtendibleHash
  import opened LruK

  /** Live pages with their bytes, pin counts of the pinned ones, pages written but not reported, the next id. */
  datatype Store = Store(pages: map<int, Bytes>, pins: map<int, int>, unreported: set<int>, next: int, frames: nat)

  datatype Op = New | Fetch(p: int) | Unpin(p: int, dirty: bool) | Write(p: int, data: Bytes)
              | Flush(p: int) | FlushAll | Delete(p: int)

  datatype Answer = Null | Got(id: int, data: Bytes) | Said(yes: bool) | Silent

  /** The rules clients follow: live ids, writes under a pin, and a report before the last pin goes. */
  ghost predicate Allowed(s: Store, op: Op) {
    match op
    case New => s.next < MAX_PAGE_ID
    case Fetch(p) => p in s.pages
    case Unpin(p, dirty) => dirty || p !in s.pins || s.pins[p] > 1 || p !in s.unreported
    case Write(p, _) => p in s.pins
    case Flush(_) => true
    case FlushAll => true
    case Delete(_) => true
  }

  ghost function Step(s: Store, op: Op): (Store, Answer)
    requires Allowed(s, op)
  {
    match op
    case New =>
      if |s.pins| == s.frames then (s, Null)
      else (s.(pages := s.pages[s.next := Zeros()], pins := s.pins[s.next := 1], next := s.next + 1),
            Got(s.next, Zeros()))
    case Fetch(p) =>
      if p !in s.pins && |s.pins| == s.frames then (s, Null)
      else (s.(pins := s.pins[p := if p in s.pins then s.pins[p] + 1 else 1]), Got(p, s.pages[p]))
    case Unpin(p, dirty) =>
      if p !in s.pins then (s, Said(false))
      else (s.(pins := if s.pins[p] == 1 then s.pins - {p} else s.pins[p := s.pins[p] - 1],
               unreported := if dirty then s.unreported - {p} else s.unreported), Said(true))
    case Write(p, data) => (s.(pages := s.pages[p := data], unreported := s.unreported + {p}), Silent)
    case Flush(_) => (s, Silent)
    case FlushAll => (s, Silent)
    case Delete(p) => if p in s.pins then (s, Said(false)) else (s.(pages := s.pages - {p}), Said(true))
  }

  /** The pool state `s` implements the store `a`. */
  ghost predicate Represents(s: Pool, a: Store) {
    && Disciplined(s)
    && a.next == s.next && a.frames == |s.pages| && a.unreported == s.unreported && a.pins == Pins(s)
    && (forall p :: p in a.pins ==> p in a.pages)
    && (forall p :: p in a.pages ==> 0 <= p < s.next && a.pages[p] == View(s, p))
  }

  // What each operation's contract means for the store.

  lemma AfterNew(s: Pool, s': Pool, a: Store, f: int)
    requires Represents(s, a) && 0 <= s.next && PageArrived(s, s', s.next, f)
    requires s'.next == s.next + 1 && s'.unreported == s.unreported && |s'.pages| == |s.pages|
    requires s'.pages[f].data == Zeros()
    ensures Represents(s', a.(pages := a.pages[a.next := Zeros()], pins := a.pins[a.next := 1], next := a.next + 1))
    ensures PinnedStay(s, s')
  {
    hide Pins, Disciplined, OnDisk, Zeros;
    assert View(s', s.next) == Zeros();
  }

  lemma AfterFetch(s: Pool, s': Pool, a: Store, p: int)
    requires Represents(s, a) && p in a.pages
    requires s'.next == s.next && s'.unreported == s.unreported && |s'.pages| == |s.pages|
    requires Pins(s') == Pins(s)[p := if p in Pins(s) then Pins(s)[p] + 1 else 1]
    requires Disciplined(s') && SameViews(s, s')
    ensures Represents(s', a.(pins := a.pins[p := if p in a.pins then a.pins[p] + 1 else 1]))
  {
    hide Pins, Disciplined, View;
  }

  lemma AfterUnpin(s: Pool, s': Pool, a: Store, p: int, dirty: bool)
    requires Represents(s, a) && p in a.pins
    requires s'.next == s.next && |s'.pages| == |s.pages| && s'.table == s.table
    requires s'.unreported == if dirty then s.unreported - {p} else s.unreported
    requires Pins(s') == if Pins(s)[p] == 1 then Pins(s) - {p} else Pins(s)[p := Pins(s)[p] - 1]
    requires Disciplined(s') && SameViews(s, s')
    ensures Represents(s', a.(pins := if a.pins[p] == 1 then a.pins - {p} else a.pins[p := a.pins[p] - 1],
                              unreported := if dirty then a.unreported - {p} else a.unreported))
    ensures PinnedStay(s, s')
  {
    SameTableStays(s, s');
    hide Pins, Disciplined, View;
  }

  lemma AfterWrite(s: Pool, s': Pool, a: Store, p: int, data: Bytes)
    requires Represents(s, a) && p in a.pins
    requires s'.next == s.next && |s'.pages| == |s.pages| && s'.table == s.table
    requires s'.unreported == s.unreported + {p} && Pins(s') == Pins(s) && Disciplined(s')
    requires View(s', p) == data && forall q :: q != p ==> View(s', q) == View(s, q)
    ensures Represents(s', a.(pages := a.pages[p := data], unreported := a.unreported + {p})) && PinnedStay(s, s')
  {
    SameTableStays(s, s');
    hide Pins, Disciplined, View;
  }

  lemma AfterFlush(s: Pool, s': Pool, a: Store)
    requires Represents(s, a) && s' == s.(file := s'.file)
    requires Disciplined(s') && SameViews(s, s')
    ensures Represents(s', a) && PinnedStay(s, s')
  {
    assert Pins(s') == Pins(s);
    hide Pins, Disciplined, View;
  }

  lemma AfterDelete(s: Pool, s': Pool, a: Store, p: int)
    requires Represents(s, a) && p !in a.pins
    requires s'.next == s.next && s'.unreported == s.unreported && |s'.pages| == |s.pages|
    requires Pins(s') == Pins(s) && Disciplined(s')
    requires forall q :: q != p ==> View(s', q) == View(s, q)
    ensures Represents(s', a.(pages := a.pages - {p}))
  {
    hide Pins, Disciplined, View;
  }

  /** What an operation does to the uses of pages: an answered call uses its page, a deletion drops it. */
  ghost predicate Moves(s: Pool, s': Pool, op: Op, answer: Answer, k: nat) {
    if (op.New? || op.Fetch?) && answer.Got? then Came(s, s', answer.id, k)
    else if op.Delete? && answer == Said(true) then Went(s, s', op.p)
    else SameUses(s, s')
  }

  lemma MovesNot(s: Pool, s': Pool)
    requires s'.table == s.table && s'.log == s.log
    ensures SameUses(s, s')
  {
  }

  /** One operation of the pool, as the store sees it. */
  method Perform(pool: BufferPoolManagerInstance, op: Op, ghost a: Store) returns (answer: Answer)
    requires pool.Valid() && Represents(pool.State(), a) && Allowed(a, op)
    modifies pool, pool.pages, pool.pageTable, pool.pageTable.dir, pool.replacer, pool.disk
    ensures pool.Valid()
    ensures forall i :: 0 <= i < |pool.pageTable.dir| ==>
              pool.pageTable.dir[i] in old(pool.pageTable.dir) || fresh(pool.pageTable.dir[i])
    ensures Represents(pool.State(), Step(a, op).0)
    ensures answer == Step(a, op).1
    ensures PinnedStay(old(pool.State()), pool.State())
    ensures Moves(old(pool.State()), pool.State(), op, answer, pool.replacer.k)
  {
    hide ExtendibleHashTable.Valid, LRUKReplacer.Valid, Fits, Clean, Untouched, Disciplined, Zeros, OnDisk, HashInt;
    hide Represents, Pins, View, SameViews, PageArrived, PinnedStay, Came, Went, SameUses;
    ghost var s := pool.State();
    RepresentsFacts(s, a);
    match op
    case New =>
      var r := pool.NewPg();
      if r.None? {
        SameTableStays(s, s);
        MovesNot(s, s);
        return Null;
      }
      AfterNew(s, pool.State(), a, r.value.1);
      answer := Got(r.value.0, pool.pages[r.value.1].data);
    case Fetch(p) =>
      LivePage(s, a, p);
      var r := pool.FetchPg(p);
      if r.None? {
        SameTableStays(s, s);
        MovesNot(s, s);
        return Null;
      }
      AfterFetch(s, pool.State(), a, p);
      answer := Got(p, pool.pages[r.value].data);
    case _ =>
      hide Step, Moves;
      answer := PerformRest(pool, op, a);
  }

  /** The operations that bring no page. */
  method PerformRest(pool: BufferPoolManagerInstance, op: Op, ghost a: Store) returns (answer: Answer)
    requires pool.Valid() && Represents(pool.State(), a) && Allowed(a, op) && !op.New? && !op.Fetch?
    modifies pool, pool.pages, pool.pageTable, pool.pageTable.dir, pool.replacer, pool.disk
    ensures pool.Valid() && pool.pageTable.dir == old(pool.pageTable.dir)
    ensures Represents(pool.State(), Step(a, op).0)
    ensures answer == Step(a, op).1
    ensures PinnedStay(old(pool.State()), pool.State())
    ensures Moves(old(pool.State()), pool.State(), op, answer, pool.replacer.k)
  {
    hide ExtendibleHashTable.Valid, LRUKReplacer.Valid, Fits, Clean, Untouched, Disciplined, Zeros, OnDisk, HashInt;
    hide Represents, Pins, View, SameViews, PinnedStay, Came, Went, SameUses;
    ghost var s := pool.State();
    RepresentsFacts(s, a);
    MovesNot(s, s);
    match op
    case Unpin(p, dirty) =>
      var r := pool.UnpinPg(p, dirty);
      if r { AfterUnpin(s, pool.State(), a, p, dirty); } else { SameTableStays(s, s); }
      answer := Said(r);
    case Write(p, data) =>
      pool.ClientWrite(p, data);
      AfterWrite(s, pool.State(), a, p, data);
      MovesNot(s, pool.State());
      answer := Silent;
    case Flush(p) =>
      var _ := pool.FlushPg(p);
      AfterFlush(s, pool.State(), a);
      MovesNot(s, pool.State());
      answer := Silent;
    case FlushAll =>
      pool.FlushAllPgs();
      AfterFlush(s, pool.State(), a);
      MovesNot(s, pool.State());
      answer := Silent;
    case Delete(p) =>
      var r := pool.DeletePg(p);
      if r { AfterDelete(s, pool.State(), a, p); }
      answer := Said(r);
  }

  lemma RepresentsFacts(s: Pool, a: Store)
    requires Represents(s, a)
    ensures Disciplined(s) && a.next == s.next && a.frames == |s.pages| && a.unreported == s.unreported
            && a.pins == Pins(s)
  {
  }

  lemma LivePage(s: Pool, a: Store, p: int)
    requires Represents(s, a) && p in a.pages
    ensures 0 <= p < s.next && a.pages[p] == View(s, p)
  {
  }

  // ----- whole runs -----

  ghost predicate AllAllowed(s: Store, ops: seq<Op>)
    decreases |ops|
  {
    ops == [] || (Allowed(s, ops[0]) && AllAllowed(Step(s, ops[0]).0, ops[1..]))
  }

  ghost function Run(s: Store, ops: seq<Op>): (r: (Store, seq<Answer>))
    requires AllAllowed(s, ops)
    ensures |r.1| == |ops|
    decreases |ops|
  {
    if ops == [] then (s, [])
    else
      var (s1, a) := Step(s, ops[0]);
      var (s2, rest) := Run(s1, ops[1..]);
      (s2, [a] + rest)
  }

  /** The page is pinned at the start, at the end and in between. */
  ghost predicate PinnedThroughout(s: Store, ops: seq<Op>, p: int)
    requires AllAllowed(s, ops)
    decreases |ops|
  {
    p in s.pins && (ops == [] || PinnedThroughout(Step(s, ops[0]).0, ops[1..], p))
  }

  /** From the table `was` to the table `now` the pages pinned throughout did not move. */
  ghost predicate InPlace(was: map<int, int>, now: map<int, int>, s: Store, ops: seq<Op>)
    requires AllAllowed(s, ops)
  {
    forall p :: PinnedThroughout(s, ops, p) ==> p in was && p in now && now[p] == was[p]
  }

  /** The pages pinned from `s` on are pinned from `now` on, and have not moved since. */
  ghost predicate StillInPlace(was: map<int, int>, table: map<int, int>, s: Store, ops: seq<Op>, now: Store,
                               rest: seq<Op>)
    requires AllAllowed(s, ops) && AllAllowed(now, rest)
  {
    forall p :: PinnedThroughout(s, ops, p) ==>
      PinnedThroughout(now, rest, p) && p in was && p in table && table[p] == was[p]
  }

  lemma PinnedInTable(s: Pool, a: Store, ops: seq<Op>)
    requires Represents(s, a) && AllAllowed(a, ops)
    ensures StillInPlace(s.table, s.table, a, ops, a, ops)
  {
    forall p | PinnedThroughout(a, ops, p) ensures p in s.table { assert p in Pins(s); }
  }

  lemma OneStepInPlace(was: map<int, int>, s: Pool, s': Pool, a: Store, ops: seq<Op>, now: Store, rest: seq<Op>)
    requires AllAllowed(a, ops) && AllAllowed(now, rest) && rest != []
    requires StillInPlace(was, s.table, a, ops, now, rest) && Represents(s, now) && PinnedStay(s, s')
    ensures StillInPlace(was, s'.table, a, ops, Step(now, rest[0]).0, rest[1..])
  {
    RepresentsFacts(s, now);
    hide Represents, Step, Allowed, AllAllowed, Pins;
  }

  lemma EndsInPlace(was: map<int, int>, table: map<int, int>, s: Store, ops: seq<Op>, now: Store)
    requires AllAllowed(s, ops) && StillInPlace(was, table, s, ops, now, [])
    ensures InPlace(was, table, s, ops)
  {
    hide PinnedThroughout;
  }

  /**
   Every run of the pool from a state that implements `a` gives the answers of the store, and leaves every page
   that is pinned throughout in its frame.
   */
  method PerformAll(pool: BufferPoolManagerInstance, ops: seq<Op>, ghost a: Store) returns (answers: seq<Answer>)
    requires pool.Valid() && Represents(pool.State(), a) && AllAllowed(a, ops)
    modifies pool, pool.pages, pool.pageTable, pool.pageTable.dir, pool.replacer, pool.disk
    ensures pool.Valid()
    ensures Represents(pool.State(), Run(a, ops).0)
    ensures answers == Run(a, ops).1
    ensures InPlace(old(pool.pageTable.contents), pool.pageTable.contents, a, ops)
  {
    hide BufferPoolManagerInstance.Valid, Represents, Step, Allowed, PinnedStay, StillInPlace, InPlace,
         PinnedThroughout;
    answers := [];
    ghost var now := a;
    assert ops[0..] == ops;
    PinnedInTable(pool.State(), a, ops);
    for i := 0 to |ops|
      invariant pool.Valid() && Represents(pool.State(), now)
      invariant forall j :: 0 <= j < |pool.pageTable.dir| ==>
                  pool.pageTable.dir[j] in old(pool.pageTable.dir) || fresh(pool.pageTable.dir[j])
      invariant AllAllowed(now, ops[i..])
      invariant Run(a, ops).0 == Run(now, ops[i..]).0
      invariant Run(a, ops).1 == answers + Run(now, ops[i..]).1
      invariant StillInPlace(old(pool.pageTable.contents), pool.pageTable.contents, a, ops, now, ops[i..])
    {
      assert ops[i..][0] == ops[i] && ops[i..][1..] == ops[i + 1..];
      ghost var before := pool.State();
      var answer := Perform(pool, ops[i], now);
      OneStepInPlace(old(pool.pageTable.contents), before, pool.State(), a, ops, now, ops[i..]);
      answers := answers + [answer];
      now := Step(now, ops[i]).0;
    }
    assert ops[|ops|..] == [];
    EndsInPlace(old(pool.pageTable.contents), pool.pageTable.contents, a, ops, now);
  }

  /** A client's pointer stays good: a page pinned throughout keeps its frame, and its bytes are those of the store. */
  lemma PointerStaysGood(s: Pool, s': Pool, a: Store, ops: seq<Op>, p: int)
    requires Fits(s) && Fits(s') && Represents(s, a) && AllAllowed(a, ops) && Represents(s', Run(a, ops).0)
    requires InPlace(s.table, s'.table, a, ops) && PinnedThroughout(a, ops, p)
    ensures p in s.table && 0 <= s.table[p] < |s.pages| && |s'.pages| == |s.pages|
    ensures var f := s.table[p];
            s'.pages[f].pageId == p && p in Run(a, ops).0.pages && s'.pages[f].data == Run(a, ops).0.pages[p]
    ensures (forall i :: 0 <= i < |ops| ==> !Touches(ops[i], p)) ==>
            s'.pages[s.table[p]].data == s.pages[s.table[p]].data
  {
    FrameOfPage(s, p);
    FrameOfPage(s', p);
    PinnedAtEnds(a, ops, p);
    RunKeepsFrames(a, ops);
    if forall i :: 0 <= i < |ops| ==> !Touches(ops[i], p) { ReadYourWrites(a, ops, p); }
    hide Fits, Pins, Step, Allowed, Disciplined, Run;
  }

  lemma {:induction false} PinnedAtEnds(s: Store, ops: seq<Op>, p: int)
    requires AllAllowed(s, ops) && PinnedThroughout(s, ops, p)
    ensures p in s.pins && p in Run(s, ops).0.pins
    decreases |ops|
  {
    hide Step, Allowed;
    if ops != [] { PinnedAtEnds(Step(s, ops[0]).0, ops[1..], p); }
  }

  lemma {:induction false} RunKeepsFrames(s: Store, ops: seq<Op>)
    requires AllAllowed(s, ops)
    ensures Run(s, ops).0.frames == s.frames
    decreases |ops|
  {
    if ops != [] {
      assert Step(s, ops[0]).0.frames == s.frames;
      hide Step, Allowed;
      RunKeepsFrames(Step(s, ops[0]).0, ops[1..]);
    }
  }

  /** A new pool implements the empty store. */
  lemma EmptyStore(s: Pool)
    requires Disciplined(s) && s.next == 0 && s.table == map[] && s.unreported == {}
    ensures Represents(s, Store(map[], map[], {}, 0, |s.pages|))
  {
    assert Pins(s) == map[];
  }

  /** A run from the start: the answers of the empty store. */
  method PerformFromStart(poolSize: nat, replacerK: nat, ops: seq<Op>)
    returns (pool: BufferPoolManagerInstance, answers: seq<Answer>)
    requires replacerK != 1 && AllAllowed(Store(map[], map[], {}, 0, poolSize), ops)
    ensures pool.Valid() && answers == Run(Store(map[], map[], {}, 0, poolSize), ops).1
    ensures Represents(pool.State(), Run(Store(map[], map[], {}, 0, poolSize), ops).0)
  {
    var disk := new DiskManager();
    pool := new BufferPoolManagerInstance(poolSize, disk, replacerK);
    EmptyStore(pool.State());
    hide BufferPoolManagerInstance.Valid, Represents, AllAllowed, Run;
    answers := PerformAll(pool, ops, Store(map[], map[], {}, 0, poolSize));
  }

  // ----- a flush that other operations interrupt -----

  /**
   A flush takes no latch: it looks the frame up, and other operations may come before it writes the frame's bytes.
   If the page is pinned all the while, clients see nothing of it.
   */
  method FlushAcross(pool: BufferPoolManagerInstance, p: int, ops: seq<Op>, ghost a: Store)
    returns (answers: seq<Answer>)
    requires pool.Valid() && Represents(pool.State(), a) && AllAllowed(a, ops) && PinnedThroughout(a, ops, p)
    modifies pool, pool.pages, pool.pageTable, pool.pageTable.dir, pool.replacer, pool.disk
    ensures pool.Valid() && Represents(pool.State(), Run(a, ops).0) && answers == Run(a, ops).1
    ensures OnDisk(pool.disk.file, p) == View(pool.State(), p)
  {
    hide ExtendibleHashTable.Valid, LRUKReplacer.Valid, Fits, Clean, Untouched, Disciplined, Represents, Run,
         AllAllowed, PinnedThroughout;
    hide InPlace, SafeToLand, OnDisk, View, SameViews;
    ghost var s0 := pool.State();
    PinnedAtEnds(a, ops, p);
    RepresentsFacts(s0, a);
    var found := pool.pageTable.Find(p);
    answers := PerformAll(pool, ops, a);
    ghost var s := pool.State();
    PinnedFrameSafe(s0, s, a, ops, p);
    pool.LandFlush(p, found.value);
    AfterFlush(s, pool.State(), Run(a, ops).0);
  }

  /** Page 0 is made, left as zeros, and unpinned. */
  method PageZeroComes(pool: BufferPoolManagerInstance)
    requires pool.Valid() && Disciplined(pool.State()) && pool.poolSize == 1 && pool.nextPageId == 0
             && pool.unreported == {}
    requires Pins(pool.State()) == map[]
    modifies pool, pool.pages, pool.pageTable, pool.pageTable.dir, pool.replacer, pool.disk
    ensures pool.Valid() && Disciplined(pool.State()) && pool.nextPageId == 1 && pool.unreported == {}
    ensures forall i :: 0 <= i < |pool.pageTable.dir| ==>
              pool.pageTable.dir[i] in old(pool.pageTable.dir) || fresh(pool.pageTable.dir[i])
    ensures Pins(pool.State()) == map[] && 0 in pool.pageTable.contents && View(pool.State(), 0) == Zeros()
  {
    hide ExtendibleHashTable.Valid, LRUKReplacer.Valid, Fits, Clean, Untouched, Disciplined, Zeros, OnDisk, HashInt,
         SameViews;
    hide PinnedStay, Pins;
    var r := pool.NewPg();
    assert View(pool.State(), 0) == Zeros();
    ghost var s := pool.State();
    var _ := pool.UnpinPg(0, true);
    SameView(s, pool.State(), 0);
    assert map[0 := 1] - {0} == map[];
  }

  lemma SameView(s: Pool, s': Pool, p: int)
    requires SameViews(s, s')
    ensures View(s', p) == View(s, p)
  {
  }

  /** Page 1 comes into the frame, and a client writes to it. */
  method PageOneComes(pool: BufferPoolManagerInstance, data: Bytes)
    requires pool.Valid() && Disciplined(pool.State()) && pool.poolSize == 1 && pool.nextPageId == 1
             && pool.unreported == {}
    requires Pins(pool.State()) == map[]
    modifies pool, pool.pages, pool.pageTable, pool.pageTable.dir, pool.replacer, pool.disk
    ensures pool.Valid() && 1 in pool.pageTable.contents && View(pool.State(), 1) == data && pool.unreported == {1}
  {
    hide ExtendibleHashTable.Valid, LRUKReplacer.Valid, Fits, Clean, Untouched, Disciplined, Zeros, OnDisk, HashInt,
         View;
    var r := pool.NewPg();
    assert 1 in Pins(pool.State());
    pool.ClientWrite(1, data);
  }

  /**
   Unpinned it may hit another page: a flush of page 0 finds frame 0, the page is evicted, another one comes into the
   frame and is written to, and then the flush writes those bytes as page 0.
   */
  method FlushHitsOtherPage(pool: BufferPoolManagerInstance, data: Bytes) returns (before: Bytes)
    requires pool.Valid() && Disciplined(pool.State()) && pool.poolSize == 1 && pool.nextPageId == 0
             && pool.unreported == {}
    requires Pins(pool.State()) == map[]
    modifies pool, pool.pages, pool.pageTable, pool.pageTable.dir, pool.replacer, pool.disk
    ensures before == Zeros() && View(pool.State(), 0) == data
    ensures 0 !in pool.pageTable.contents && 0 !in pool.unreported
  {
    hide ExtendibleHashTable.Valid, LRUKReplacer.Valid, Fits, Clean, Untouched, Disciplined, Zeros, OnDisk, HashInt,
         Pins;
    PageZeroComes(pool);
    OnlyFrame(pool.State(), 0);
    var found := pool.pageTable.Find(0);
    before := pool.pages[found.value].data;
    PageOneComes(pool, data);
    OnlyFrame(pool.State(), 1);
    OnlyPage(pool.State(), 1);
    pool.disk.WritePage(0, pool.pages[found.value].data);
  }

  method SpoiledFromStart(data: Bytes) returns (pool: BufferPoolManagerInstance, before: Bytes)
    ensures before == Zeros() && View(pool.State(), 0) == data
  {
    var disk := new DiskManager();
    pool := new BufferPoolManagerInstance(1, disk, 2);
    NothingPinned(pool.State());
    hide BufferPoolManagerInstance.Valid, Disciplined, Pins, View, Zeros;
    before := FlushHitsOtherPage(pool, data);
  }

  lemma NothingPinned(s: Pool)
    requires s.table == map[]
    ensures Pins(s) == map[]
  {
  }

  /** In a pool of one frame a resident page is in frame 0. */
  lemma OnlyFrame(s: Pool, p: int)
    requires Fits(s) && |s.pages| == 1 && p in s.table
    ensures s.table[p] == 0 && s.pages[0].pageId == p
  {
    FrameOfPage(s, p);
  }

  /** And no other page is resident. */
  lemma OnlyPage(s: Pool, p: int)
    requires Fits(s) && |s.pages| == 1 && p in s.table
    ensures forall q :: q in s.table ==> q == p
  {
    OnlyFrame(s, p);
    forall q | q in s.table ensures q == p { OnlyFrame(s, q); }
  }

  /** The frame the flush looked up still holds the page. */
  lemma PinnedFrameSafe(s0: Pool, s: Pool, a: Store, ops: seq<Op>, p: int)
    requires Fits(s0) && Fits(s) && Represents(s0, a) && AllAllowed(a, ops) && Represents(s, Run(a, ops).0)
    requires InPlace(s0.table, s.table, a, ops) && PinnedThroughout(a, ops, p)
    ensures p in s0.table && 0 <= s0.table[p] < |s.pages| && p in s.table && s.table[p] == s0.table[p]
    ensures SafeToLand(s, s0.table[p], p) && Disciplined(s)
  {
    PointerStaysGood(s0, s, a, ops, p);
    FrameOfPage(s0, p);
    hide Fits, Represents, Run, Step;
  }

  ghost predicate Touches(op: Op, p: int) {
    (op.Write? || op.Delete?) && op.p == p
  }

  lemma StepKeepsPage(s: Store, op: Op, p: int)
    requires Allowed(s, op) && p in s.pages && p < s.next && !Touches(op, p)
    ensures var s' := Step(s, op).0; p in s'.pages && s'.pages[p] == s.pages[p] && p < s'.next
    ensures op == Fetch(p) && Step(s, op).1 != Null ==> Step(s, op).1 == Got(p, s.pages[p])
  {
  }

  /** Read your writes: through any run that neither writes nor deletes it, a live page keeps its bytes. */
  lemma {:induction false} ReadYourWrites(s: Store, ops: seq<Op>, p: int)
    requires AllAllowed(s, ops) && p in s.pages && p < s.next
    requires forall i :: 0 <= i < |ops| ==> !Touches(ops[i], p)
    ensures p in Run(s, ops).0.pages && Run(s, ops).0.pages[p] == s.pages[p]
    ensures forall i :: 0 <= i < |ops| && ops[i] == Fetch(p) && Run(s, ops).1[i] != Null ==>
            Run(s, ops).1[i] == Got(p, s.pages[p])
    decreases |ops|
  {
    hide Step, Allowed, Touches;
    if ops != [] {
      StepKeepsPage(s, ops[0], p);
      ReadYourWrites(Step(s, ops[0]).0, ops[1..], p);
    }
  }

  lemma StepHandsOut(s: Store, op: Op)
    requires Allowed(s, op)
    ensures Step(s, op).0.next >= s.next
    ensures op == New && Step(s, op).1 != Null ==>
            Step(s, op).1 == Got(s.next, Zeros()) && Step(s, op).0.next == s.next + 1
  {
    hide Zeros;
  }

  /** New pages are fresh: no id is handed out twice in a run, and each arrives as zeros. */
  lemma {:induction false} NewPagesAreFresh(s: Store, ops: seq<Op>)
    requires AllAllowed(s, ops)
    ensures forall i :: 0 <= i < |ops| && ops[i] == New && Run(s, ops).1[i] != Null ==>
              Run(s, ops).1[i].Got? && Run(s, ops).1[i].id >= s.next && Run(s, ops).1[i].data == Zeros()
    ensures forall i, j :: 0 <= i < j < |ops| && ops[i] == New && ops[j] == New
                           && Run(s, ops).1[i] != Null && Run(s, ops).1[j] != Null ==>
              Run(s, ops).1[i].id < Run(s, ops).1[j].id
    decreases |ops|
  {
    hide Step, Allowed, Zeros;
    if ops != [] {
      StepHandsOut(s, ops[0]);
      NewPagesAreFresh(Step(s, ops[0]).0, ops[1..]);
    }
  }
}
