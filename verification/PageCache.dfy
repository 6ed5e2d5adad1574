/**
 Which pages are in the pool, as a function of what clients ask for.  A cache counts the answered calls of each page
 and remembers the first and the last; it has no frames, replacer or log of its own.  Every run of the pool keeps the
 pages of this cache, and drops the page the cache says.
 */
module PageCache {
  import opened Options
  import opened LruK
  import opened BufferPool
  import opened BufferPoolManager
  import opened PageUsage
  import opened PageStore

  datatype Usage = Usage(uses: nat, first: nat, last: nat)

  /** `clock` counts calls. */
  datatype Cache = Cache(resident: map<int, Usage>, clock: nat)

  ghost predicate Droppable(c: Cache, pins: map<int, int>, p: int) {
    p in c.resident && p !in pins
  }

  /**
   The page to go: of the unpinned ones with fewer than `k` uses the one whose first use is earliest; if there is none,
   the one whose last use is.
   */
  ghost predicate IsNext(c: Cache, pins: map<int, int>, k: nat, v: int) {
    && Droppable(c, pins, v)
    && (if exists p :: Droppable(c, pins, p) && c.resident[p].uses < k
        then c.resident[v].uses < k && forall p :: Droppable(c, pins, p) && c.resident[p].uses < k && p != v ==>
               c.resident[v].first < c.resident[p].first
        else forall p :: Droppable(c, pins, p) && p != v ==> c.resident[v].last < c.resident[p].last)
  }

  /** There is at most one. */
  lemma OneNext(c: Cache, pins: map<int, int>, k: nat, v: int, w: int)
    requires IsNext(c, pins, k, v) && IsNext(c, pins, k, w)
    ensures v == w
  {
  }

  /** An answered call of a page that is not there drops the next page if the cache is full; no other call drops one. */
  ghost predicate Drops(c: Cache, a: Store, k: nat, op: Op, answer: Answer, v: Option<int>) {
    if (op.New? || op.Fetch?) && answer.Got? && answer.id !in c.resident && |c.resident| >= a.frames
    then v.Some? && IsNext(c, a.pins, k, v.value)
    else v.None?
  }

  ghost function Without(c: Cache, v: Option<int>): map<int, Usage> {
    if v.Some? then c.resident - {v.value} else c.resident
  }

  /** The cache after a call. */
  ghost function After(c: Cache, op: Op, answer: Answer, v: Option<int>): Cache {
    if (op.New? || op.Fetch?) && answer.Got? then
      var p := answer.id;
      var usage := if p in c.resident then Usage(c.resident[p].uses + 1, c.resident[p].first, c.clock)
                   else Usage(1, c.clock, c.clock);
      Cache(Without(c, v)[p := usage], c.clock + 1)
    else if op.Delete? && answer == Said(true) then Cache(c.resident - {op.p}, c.clock + 1)
    else Cache(c.resident, c.clock + 1)
  }

  /** The pages dropped in a run, call by call. */
  ghost predicate AllDrop(c: Cache, a: Store, k: nat, ops: seq<Op>, vs: seq<Option<int>>)
    requires AllAllowed(a, ops)
    decreases |ops|
  {
    && |vs| == |ops|
    && (ops != [] ==>
          var (a', answer) := Step(a, ops[0]);
          Drops(c, a, k, ops[0], answer, vs[0]) && AllDrop(After(c, ops[0], answer, vs[0]), a', k, ops[1..], vs[1..]))
  }

  ghost function CacheAfter(c: Cache, a: Store, ops: seq<Op>, vs: seq<Option<int>>): Cache
    requires AllAllowed(a, ops) && |vs| == |ops|
    decreases |ops|
  {
    if ops == [] then c
    else
      var (a', answer) := Step(a, ops[0]);
      CacheAfter(After(c, ops[0], answer, vs[0]), a', ops[1..], vs[1..])
  }

  // ----- the pool keeps the cache -----

  ghost predicate Earlier(s: Pool, c: Cache, p: int, q: int)
    requires p in c.resident && q in c.resident
  {
    && (c.resident[p].first < c.resident[q].first <==> FirstUse(s, p) < FirstUse(s, q))
    && (c.resident[p].last < c.resident[q].last <==> LastUse(s, p) < LastUse(s, q))
  }

  ghost predicate Timely(c: Cache) {
    forall p :: p in c.resident ==> c.resident[p].first < c.clock && c.resident[p].last < c.clock
  }

  /** The pages of the pool are those of the cache, with as many uses, in the same order. */
  ghost predicate Tracks(s: Pool, c: Cache) {
    && s.table.Keys == c.resident.Keys && Timely(c)
    && (forall p :: p in c.resident ==> c.resident[p].uses == Uses(s, p))
    && (forall p, q :: p in c.resident && q in c.resident ==> Earlier(s, c, p, q))
  }

  lemma VictimIsNext(s: Pool, c: Cache, k: nat, v: int)
    requires Tracks(s, c) && IsPageVictim(s, k, v)
    ensures IsNext(c, Pins(s), k, v)
  {
    assert forall p :: Droppable(c, Pins(s), p) <==> Unpinned(s, p);
    hide Uses, FirstUse, LastUse, Pins, Droppable, Unpinned;
    assert forall p :: Unpinned(s, p) ==> p in c.resident;
    if exists p :: Unpinned(s, p) && Uses(s, p) < k {
      forall p | Unpinned(s, p) && Uses(s, p) < k && p != v ensures c.resident[v].first < c.resident[p].first {
        assert Earlier(s, c, v, p);
      }
    } else {
      forall p | Unpinned(s, p) && p != v ensures c.resident[v].last < c.resident[p].last {
        assert Earlier(s, c, v, p);
      }
    }
  }

  lemma UsesAreBefore(s: Pool, p: int)
    ensures FirstUse(s, p) < |s.log| && LastUse(s, p) < |s.log|
  {
    if p in s.table { HistoryFacts(s.log, s.table[p]); }
  }

  /** Page `p` was used, and other pages that are still there were not. */
  ghost predicate Next(c: Cache, c': Cache, p: int) {
    && c'.clock == c.clock + 1 && p in c'.resident
    && c'.resident[p] == (if p in c.resident then Usage(c.resident[p].uses + 1, c.resident[p].first, c.clock)
                          else Usage(1, c.clock, c.clock))
    && forall q :: q in c'.resident && q != p ==> q in c.resident && c'.resident[q] == c.resident[q]
  }

  lemma EarlierAfterUse(s: Pool, s': Pool, c: Cache, c': Cache, p: int, q: int, r: int)
    requires Tracks(s, c) && UsedOnce(s, s', p) && Next(c, c', p)
    requires forall x :: x in c'.resident && x != p ==> SameUse(s, s', x)
    requires q in c'.resident && r in c'.resident
    ensures Earlier(s', c', q, r)
  {
    if q in c.resident { UsesAreBefore(s, q); }
    if r in c.resident { UsesAreBefore(s, r); }
    assert q in c.resident && r in c.resident ==> Earlier(s, c, q, r);
    hide Uses, FirstUse, LastUse;
  }

  lemma TracksAfterUse(s: Pool, s': Pool, c: Cache, c': Cache, p: int)
    requires Tracks(s, c) && UsedOnce(s, s', p) && Next(c, c', p) && s'.table.Keys == c'.resident.Keys
    requires forall x :: x in c'.resident && x != p ==> SameUse(s, s', x)
    ensures Tracks(s', c')
  {
    assert Uses(s, p) == if p in c.resident then c.resident[p].uses else 0;
    hide Uses, FirstUse, LastUse, Earlier;
    forall q, r | q in c'.resident && r in c'.resident ensures Earlier(s', c', q, r) {
      EarlierAfterUse(s, s', c, c', p, q, r);
    }
  }

  /** A page that comes, comes into the cache; and the page that goes for it is the next one. */
  lemma CameTracks(s: Pool, s': Pool, c: Cache, a: Store, k: nat, op: Op, answer: Answer) returns (v: Option<int>)
    requires Tracks(s, c) && a.pins == Pins(s) && a.frames == |s.pages| && |s.table| <= |s.pages|
    requires (op.New? || op.Fetch?) && answer.Got? && Came(s, s', answer.id, k)
    ensures Drops(c, a, k, op, answer, v) && Tracks(s', After(c, op, answer, v))
  {
    var p := answer.id;
    hide Tracks, IsPageVictim, IsNext, UsedOnce, SameUse, Pins, After;
    TracksKeys(s, c);
    if p in s.table || |s.table| < |s.pages| {
      v := None;
    } else {
      var w :| IsPageVictim(s, k, w) && s'.table.Keys == s.table.Keys - {w} + {p};
      VictimIsNext(s, c, k, w);
      v := Some(w);
    }
    AfterUse(c, op, answer, v);
    TracksAfterUse(s, s', c, After(c, op, answer, v), p);
  }

  lemma TracksKeys(s: Pool, c: Cache)
    requires Tracks(s, c)
    ensures s.table.Keys == c.resident.Keys && |c.resident| == |s.table|
  {
    hide Timely, Earlier;
    assert |c.resident| == |c.resident.Keys| && |s.table| == |s.table.Keys|;
  }

  lemma AfterUse(c: Cache, op: Op, answer: Answer, v: Option<int>)
    requires (op.New? || op.Fetch?) && answer.Got?
    ensures var c' := After(c, op, answer, v);
            && Next(c, c', answer.id)
            && c'.resident.Keys == (if v.Some? then c.resident.Keys - {v.value} else c.resident.Keys) + {answer.id}
  {
  }

  /** Other calls use no page. */
  lemma RestTracks(s: Pool, s': Pool, c: Cache, c': Cache)
    requires Tracks(s, c) && c'.clock == c.clock + 1 && s'.table.Keys == c'.resident.Keys
    requires forall p :: p in c'.resident ==> p in c.resident && c'.resident[p] == c.resident[p] && SameUse(s, s', p)
    ensures Tracks(s', c')
  {
    hide Uses, FirstUse, LastUse;
    forall q, r | q in c'.resident && r in c'.resident ensures Earlier(s', c', q, r) {
      assert Earlier(s, c, q, r);
    }
  }

  /** One call. */
  lemma MovesTracks(s: Pool, s': Pool, c: Cache, a: Store, k: nat, op: Op, answer: Answer) returns (v: Option<int>)
    requires Tracks(s, c) && a.pins == Pins(s) && a.frames == |s.pages| && |s.table| <= |s.pages|
    requires Moves(s, s', op, answer, k)
    ensures Drops(c, a, k, op, answer, v) && Tracks(s', After(c, op, answer, v))
  {
    if (op.New? || op.Fetch?) && answer.Got? {
      hide Tracks, Came, Drops, After;
      v := CameTracks(s, s', c, a, k, op, answer);
    } else {
      v := None;
      assert s.table.Keys == c.resident.Keys;
      hide Tracks, SameUse;
      RestTracks(s, s', c, After(c, op, answer, v));
    }
  }

  lemma FitsFacts(s: Pool, a: Store)
    requires Fits(s) && Represents(s, a)
    ensures a.pins == Pins(s) && a.frames == |s.pages| && |s.table| <= |s.pages|
  {
    FreeIff(s);
  }

  lemma {:induction false} DropsJoin(c: Cache, a: Store, k: nat, ops: seq<Op>, vs: seq<Option<int>>, op: Op,
                                     v: Option<int>)
    requires AllAllowed(a, ops + [op]) && AllAllowed(a, ops) && AllDrop(c, a, k, ops, vs)
    requires Allowed(Run(a, ops).0, op)
    requires var (_, answer) := Step(Run(a, ops).0, op);
             Drops(CacheAfter(c, a, ops, vs), Run(a, ops).0, k, op, answer, v)
    ensures AllDrop(c, a, k, ops + [op], vs + [v])
    ensures CacheAfter(c, a, ops + [op], vs + [v]) ==
            After(CacheAfter(c, a, ops, vs), op, Step(Run(a, ops).0, op).1, v)
    decreases |ops|
  {
    hide Step, Drops, After, Allowed;
    if ops == [] {
      assert [op][1..] == [] && [v][1..] == [] && ops + [op] == [op] && vs + [v] == [v];
    } else {
      var (a', answer) := Step(a, ops[0]);
      assert (ops + [op])[1..] == ops[1..] + [op] && (vs + [v])[1..] == vs[1..] + [v];
      DropsJoin(After(c, ops[0], answer, vs[0]), a', k, ops[1..], vs[1..], op, v);
    }
  }

  lemma {:induction false} PrefixAllowed(a: Store, ops: seq<Op>, i: nat)
    requires AllAllowed(a, ops) && i <= |ops|
    ensures AllAllowed(a, ops[..i])
    ensures i < |ops| ==> Allowed(Run(a, ops[..i]).0, ops[i])
    ensures i < |ops| ==> AllAllowed(a, ops[..i + 1]) && Run(a, ops[..i + 1]).0 == Step(Run(a, ops[..i]).0, ops[i]).0
    decreases |ops|
  {
    hide Step, Allowed;
    if i > 0 {
      PrefixAllowed(Step(a, ops[0]).0, ops[1..], i - 1);
      assert ops[..i][1..] == ops[1..][..i - 1] && ops[..i][0] == ops[0];
      if i < |ops| {
        assert ops[1..][i - 1] == ops[i] && ops[..i + 1][1..] == ops[1..][..i] && ops[..i + 1][0] == ops[0];
      }
    } else if ops != [] {
      assert ops[..1][1..] == [] && ops[..1][0] == ops[0] && ops[..0] == [];
    }
  }

  /**
   Over every run the pool has the pages of the cache, which knows nothing but the calls and their answers; and the
   pages it drops are those the cache drops.
   */
  method PerformCached(pool: BufferPoolManagerInstance, ops: seq<Op>, ghost a: Store, ghost c: Cache)
    returns (ghost dropped: seq<Option<int>>)
    requires pool.Valid() && Represents(pool.State(), a) && AllAllowed(a, ops) && Tracks(pool.State(), c)
    modifies pool, pool.pages, pool.pageTable, pool.pageTable.dir, pool.replacer, pool.disk
    ensures pool.Valid() && Represents(pool.State(), Run(a, ops).0)
    ensures AllDrop(c, a, pool.replacer.k, ops, dropped)
    ensures Tracks(pool.State(), CacheAfter(c, a, ops, dropped))
  {
    hide BufferPoolManagerInstance.Valid, Represents, Step, Allowed, Tracks, Drops, After, Moves, AllDrop, CacheAfter,
         PinnedStay;
    dropped := [];
    EmptyRun(c, a, pool.replacer.k);
    for i := 0 to |ops|
      invariant pool.Valid()
      invariant forall j :: 0 <= j < |pool.pageTable.dir| ==>
                  pool.pageTable.dir[j] in old(pool.pageTable.dir) || fresh(pool.pageTable.dir[j])
      invariant AllAllowed(a, ops[..i]) && Represents(pool.State(), Run(a, ops[..i]).0)
      invariant |dropped| == i && AllDrop(c, a, pool.replacer.k, ops[..i], dropped)
      invariant Tracks(pool.State(), CacheAfter(c, a, ops[..i], dropped))
    {
      PrefixAllowed(a, ops, i);
      ghost var now, s, before := Run(a, ops[..i]).0, pool.State(), CacheAfter(c, a, ops[..i], dropped);
      ValidFits(pool);
      FitsFacts(s, now);
      var answer := Perform(pool, ops[i], now);
      ghost var v := MovesTracks(s, pool.State(), before, now, pool.replacer.k, ops[i], answer);
      assert ops[..i + 1] == ops[..i] + [ops[i]];
      DropsJoin(c, a, pool.replacer.k, ops[..i], dropped, ops[i], v);
      dropped := dropped + [v];
    }
    assert ops[..|ops|] == ops;
  }

  lemma EmptyRun(c: Cache, a: Store, k: nat)
    ensures AllDrop(c, a, k, [], []) && CacheAfter(c, a, [], []) == c && Run(a, []).0 == a
  {
  }

  lemma ValidFits(pool: BufferPoolManagerInstance)
    requires pool.Valid()
    ensures Fits(pool.State())
  {
  }

  /** A new pool is an empty cache. */
  lemma EmptyCache(s: Pool)
    requires s.table == map[]
    ensures Tracks(s, Cache(map[], 0))
  {
  }

  /** The same from a new pool on. */
  method PerformCachedFromStart(poolSize: nat, replacerK: nat, ops: seq<Op>)
    returns (pool: BufferPoolManagerInstance, ghost dropped: seq<Option<int>>)
    requires replacerK != 1 && AllAllowed(Store(map[], map[], {}, 0, poolSize), ops)
    ensures AllDrop(Cache(map[], 0), Store(map[], map[], {}, 0, poolSize), replacerK, ops, dropped)
    ensures Tracks(pool.State(), CacheAfter(Cache(map[], 0), Store(map[], map[], {}, 0, poolSize), ops, dropped))
  {
    var disk := new DiskManager();
    pool := new BufferPoolManagerInstance(poolSize, disk, replacerK);
    EmptyStore(pool.State());
    EmptyCache(pool.State());
    hide BufferPoolManagerInstance.Valid, Represents, AllAllowed, AllDrop, CacheAfter, Tracks;
    dropped := PerformCached(pool, ops, Store(map[], map[], {}, 0, poolSize), Cache(map[], 0));
  }
}
