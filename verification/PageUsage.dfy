/**
 How often and when the pages in the pool were used, as the replacer has it, and what the steps of the pool do to that:
 a page that comes is used once more, one that goes is the victim, and nothing else changes.
 */
module PageUsage {
  import opened LruK
  import opened BufferPool
  import opened Sets

  ghost function Uses(s: Pool, p: int): nat {
    if p in s.table then Count(s.log, s.table[p]) else 0
  }

  ghost function FirstUse(s: Pool, p: int): int {
    if p in s.table then First(s.log, s.table[p]) else -1
  }

  ghost function LastUse(s: Pool, p: int): int {
    if p in s.table then Last(s.log, s.table[p]) else -1
  }

  /** From `s` to `s'` nothing happened to the page. */
  ghost predicate SameUse(s: Pool, s': Pool, p: int) {
    Uses(s', p) == Uses(s, p) && FirstUse(s', p) == FirstUse(s, p) && LastUse(s', p) == LastUse(s, p)
  }

  ghost predicate SameUses(s: Pool, s': Pool) {
    s'.table.Keys == s.table.Keys && forall p :: p in s.table ==> SameUse(s, s', p)
  }

  /** From `s` to `s'` the page was used once more, later than all uses before. */
  ghost predicate UsedOnce(s: Pool, s': Pool, p: int) {
    && p in s'.table && Uses(s', p) == Uses(s, p) + 1
    && (if p in s.table then FirstUse(s', p) == FirstUse(s, p) else FirstUse(s', p) >= |s.log|)
    && LastUse(s', p) >= |s.log|
  }

  ghost predicate Unpinned(s: Pool, p: int) {
    p in s.table && p !in Pins(s)
  }

  /** Of the unpinned pages with fewer than `k` uses the first used; without such a page, the one used longest ago. */
  ghost predicate IsPageVictim(s: Pool, k: nat, v: int) {
    && Unpinned(s, v)
    && (if exists p :: Unpinned(s, p) && Uses(s, p) < k
        then Uses(s, v) < k && forall p :: Unpinned(s, p) && Uses(s, p) < k && p != v ==>
          FirstUse(s, v) < FirstUse(s, p)
        else forall p :: Unpinned(s, p) && p != v ==> LastUse(s, v) < LastUse(s, p))
  }

  /** From `s` to `s'` a frame was made free: the victim's, if the pool is full. */
  ghost predicate Vacated(s: Pool, s': Pool, k: nat) {
    && |s.log| <= |s'.log|
    && (if |s.table| < |s.pages| then s'.table == s.table && s'.log == s.log
        else exists v :: IsPageVictim(s, k, v) && s'.table == s.table - {v})
    && forall p :: p in s'.table ==> SameUse(s, s', p)
  }

  /** From `s` to `s'` page `p` was asked for with success: it is used, and the victim goes if it needs room. */
  ghost predicate Came(s: Pool, s': Pool, p: int, k: nat) {
    && (if p in s.table || |s.table| < |s.pages| then s'.table.Keys == s.table.Keys + {p}
        else exists v :: IsPageVictim(s, k, v) && s'.table.Keys == s.table.Keys - {v} + {p})
    && UsedOnce(s, s', p)
    && forall q :: q in s'.table && q != p ==> SameUse(s, s', q)
  }

  /** From `s` to `s'` the page went, if it was there. */
  ghost predicate Went(s: Pool, s': Pool, p: int) {
    s'.table.Keys == s.table.Keys - {p} && forall q :: q in s'.table ==> SameUse(s, s', q)
  }

  // ----- frames and pages -----

  /** The pool has a free frame exactly if it has fewer pages than frames. */
  lemma FreeIff(s: Pool)
    requires Fits(s)
    ensures |s.table| <= |s.pages| && (s.free != [] <==> |s.table| < |s.pages|)
  {
    hide Count, Evictable, Zeros;
    var image := Image(s.table.Keys, s.table);
    var all := AllFrames(|s.pages|);
    forall p, q | p in s.table && q in s.table && s.table[p] == s.table[q] ensures p == q {
      assert s.pages[s.table[p]].pageId == p;
    }
    ImageSize(s.table.Keys, s.table);
    assert |s.table.Keys| == |s.table|;
    SubsetSize(image, all);
    if s.free != [] {
      assert s.free[0] !in image;
      SubsetSize(image, all - {s.free[0]});
    } else {
      forall f | f in all ensures f in image {
        assert FrameFits(s, f);
        assert s.pages[f].pageId in s.table.Keys;
      }
      SubsetSize(all, image);
    }
  }

  /** Unpinned pages are in the frames that may be evicted. */
  lemma UnpinnedPages(s: Pool, p: int)
    requires Fits(s)
    ensures Unpinned(s, p) <==> p in s.table && Evictable(s.log, s.table[p])
  {
    hide Count, Evictable, Zeros;
    if p in s.table {
      FrameOfPage(s, p);
      assert ReplacerFitsAt(s, s.table[p], NONE);
    }
  }

  lemma OneFrame(s: Pool, p: int, q: int)
    requires Fits(s) && p in s.table && q in s.table && p != q
    ensures s.table[p] != s.table[q]
  {
    FrameOfPage(s, p);
    FrameOfPage(s, q);
  }

  // ----- the elementary steps -----

  lemma TakeFreeVacates(s: Pool, k: nat)
    requires Fits(s) && s.free != []
    ensures Vacated(s, TakeFree(s), k)
  {
    FreeIff(s);
    hide Fits;
  }

  /** The victim among frames is the victim among pages. */
  lemma VictimPage(s: Pool, k: nat, E: set<int>, f: int)
    requires Fits(s) && IsVictim(s.log, k, E, f) && forall g :: g in E <==> Evictable(s.log, g)
    ensures Resident(s, f) && IsPageVictim(s, k, s.pages[f].pageId)
  {
    hide Count, First, Last, Evictable, Zeros;
    EvictableIsUnpinned(s, f);
    PageOfFrame(s, f);
    var v := s.pages[f].pageId;
    forall p ensures Unpinned(s, p) <==> p in s.table && s.table[p] in E { UnpinnedPages(s, p); }
    forall p | Unpinned(s, p) && p != v ensures s.table[p] != f { OneFrame(s, p, v); }
    forall g | g in E ensures exists p :: Unpinned(s, p) && s.table[p] == g {
      EvictableIsUnpinned(s, g);
      PageOfFrame(s, g);
      assert Unpinned(s, s.pages[g].pageId);
    }
    hide Fits, Unpinned;
    assert (exists p :: Unpinned(s, p) && Uses(s, p) < k) <==> (exists g :: g in E && Count(s.log, g) < k);
  }

  lemma EvictVacates(s: Pool, f: int, file: seq<Bytes>, k: nat, E: set<int>)
    requires Fits(s) && s.free == [] && Resident(s, f) && IsVictim(s.log, k, E, f)
    requires forall g :: g in E <==> Evictable(s.log, g)
    ensures Vacated(s, EvictFrame(s, f, file), k)
  {
    FreeIff(s);
    VictimPage(s, k, E, f);
    PageOfFrame(s, f);
    var s', v := EvictFrame(s, f, file), s.pages[f].pageId;
    forall p | p in s'.table ensures SameUse(s, s', p) {
      OneFrame(s, p, v);
      Extend(s.log, Drop(f), s.table[p]);
    }
    hide Fits, IsPageVictim, SameUse;
    assert s'.table == s.table - {v};
  }

  /** What a use of a frame does to the readings of the replacer. */
  lemma UseLogged(log: seq<Event>, f: int, g: int)
    ensures var log' := log + [Access(f)] + [Mark(f, false)];
            && |log'| >= |log|
            && (g != f ==> Count(log', g) == Count(log, g) && First(log', g) == First(log, g)
                           && Last(log', g) == Last(log, g))
            && Count(log', f) == Count(log, f) + 1 && Last(log', f) == |log|
            && First(log', f) == if Count(log, f) == 0 then |log| else First(log, f)
  {
    Extend(log, Access(f), f);
    Extend(log, Access(f), g);
    Extend(log + [Access(f)], Mark(f, false), f);
    Extend(log + [Access(f)], Mark(f, false), g);
    hide Count, First, Last, Evictable;
  }

  lemma PinComes(s: Pool, p: int, k: nat)
    requires Fits(s) && p in s.table
    ensures 0 <= s.table[p] < |s.pages| && Came(s, Pin(s, s.table[p]), p, k)
  {
    FrameOfPage(s, p);
    assert ReplacerFitsAt(s, s.table[p], NONE);
    UseLogged(s.log, s.table[p], s.table[p]);
    var s' := Pin(s, s.table[p]);
    forall q | q in s'.table && q != p ensures SameUse(s, s', q) {
      OneFrame(s, p, q);
      UseLogged(s.log, s.table[p], s.table[q]);
    }
    hide Fits, Count, First, Last, Evictable;
  }

  lemma WaitingFrame(s: Pool, f: int)
    requires Detached(s, f)
    ensures 0 <= f < |s.pages| && Count(s.log, f) == 0 && forall q :: q in s.table ==> s.table[q] != f
  {
    hide Count, First, Last, Evictable, Zeros;
    assert ReplacerFitsAt(s, f, f);
  }

  lemma InstalledUses(s: Pool, f: int, p: int, data: Bytes)
    requires 0 <= f < |s.pages| && Count(s.log, f) == 0 && (forall q :: q in s.table ==> s.table[q] != f)
    requires p !in s.table
    ensures var s' := Install(s, f, p, data);
            && s'.table.Keys == s.table.Keys + {p} && UsedOnce(s, s', p)
            && forall q :: q in s.table ==> SameUse(s, s', q)
  {
    var s' := Install(s, f, p, data);
    UseLogged(s.log, f, f);
    hide Count, First, Last, Evictable;
    forall q | q in s.table ensures SameUse(s, s', q) { UseLogged(s.log, f, s.table[q]); }
  }

  lemma InstallComes(s: Pool, s1: Pool, f: int, p: int, data: Bytes, k: nat)
    requires Vacated(s, s1, k) && Detached(s1, f) && p !in s.table
    ensures 0 <= f < |s1.pages| && Came(s, Install(s1, f, p, data), p, k)
  {
    hide Detached, Count, First, Last, Evictable, IsPageVictim, Install;
    WaitingFrame(s1, f);
    VacatedKeys(s, s1, k);
    hide Vacated;
    InstalledUses(s1, f, p, data);
    UsesInTurn(s, s1, Install(s1, f, p, data), p, k);
  }

  lemma VacatedKeys(s: Pool, s1: Pool, k: nat)
    requires Vacated(s, s1, k)
    ensures s1.table.Keys <= s.table.Keys
  {
    hide IsPageVictim, SameUse;
  }

  lemma UsesInTurn(s: Pool, s1: Pool, s': Pool, p: int, k: nat)
    requires Vacated(s, s1, k) && p !in s.table && p !in s1.table
    requires s'.table.Keys == s1.table.Keys + {p} && UsedOnce(s1, s', p)
    requires forall q :: q in s1.table ==> SameUse(s1, s', q)
    ensures Came(s, s', p, k)
  {
    assert UsedOnce(s, s', p);
    hide IsPageVictim, UsedOnce, Uses, FirstUse, LastUse;
    if !(|s.table| < |s.pages|) {
      var v :| IsPageVictim(s, k, v) && s1.table == s.table - {v};
      assert s'.table.Keys == s.table.Keys - {v} + {p};
    }
  }

  /** A mark changes no use. */
  lemma MarkUses(s: Pool, f: int, b: bool, s': Pool)
    requires s'.table == s.table && (s'.log == s.log || s'.log == s.log + [Mark(f, b)])
    ensures SameUses(s, s')
  {
    forall p | p in s.table ensures SameUse(s, s', p) { Extend(s.log, Mark(f, b), s.table[p]); }
  }

  lemma FreeGoes(s: Pool, f: int)
    requires Fits(s) && Resident(s, f)
    ensures Went(s, BufferPool.Free(s, f), s.pages[f].pageId)
  {
    PageOfFrame(s, f);
    var s', v := BufferPool.Free(s, f), s.pages[f].pageId;
    forall p | p in s'.table ensures SameUse(s, s', p) {
      OneFrame(s, p, v);
      Extend(s.log, Drop(f), s.table[p]);
    }
  }

  lemma AbsentWent(s: Pool, p: int)
    requires p !in s.table
    ensures Went(s, s, p)
  {
  }

  /** The next page id is no part of the uses. */
  lemma SameUsesBefore(s: Pool, s1: Pool, s': Pool, p: int, k: nat)
    requires Came(s1, s', p, k) && s1 == s.(next := s1.next)
    ensures Came(s, s', p, k)
  {
    hide IsPageVictim, UsedOnce, SameUse;
    if !(p in s.table || |s.table| < |s.pages|) {
      var v :| IsPageVictim(s1, k, v) && s'.table.Keys == s1.table.Keys - {v} + {p};
      SameVictim(s, s1, k, v);
    }
    assert UsedOnce(s, s', p) by { UsedBefore(s, s1, s', p); }
    forall q | q in s'.table && q != p ensures SameUse(s, s', q) { UsedBefore(s, s1, s', q); }
  }

  lemma UsedBefore(s: Pool, s1: Pool, s': Pool, p: int)
    requires s1 == s.(next := s1.next)
    ensures UsedOnce(s, s', p) == UsedOnce(s1, s', p) && SameUse(s, s', p) == SameUse(s1, s', p)
  {
  }

  lemma SameVictim(s: Pool, s1: Pool, k: nat, v: int)
    requires IsPageVictim(s1, k, v) && s1 == s.(next := s1.next)
    ensures IsPageVictim(s, k, v)
  {
    assert Pins(s1) == Pins(s);
    assert forall q :: Unpinned(s1, q) <==> Unpinned(s, q);
    hide Unpinned;
    assert forall q :: Uses(s1, q) == Uses(s, q);
    assert forall q :: FirstUse(s1, q) == FirstUse(s, q);
    assert forall q :: LastUse(s1, q) == LastUse(s, q);
    hide Uses, FirstUse, LastUse;
  }
}
