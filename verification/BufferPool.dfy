/**
 The buffer pool manager: frames, free list, page table, replacer and disk.  The page table is the
 extendible hash table and the replacer the LRU-K replacer of this project; the pool only uses what
 their contracts promise.

 The first part of the module is about values: how the four structures fit together and how that
 fit survives the elementary steps.  The class then runs those steps.
 */
module BufferPool {
  import opened LruK
  import opened Sets

  const PAGE_SIZE := 4096

  newtype Byte = b: int | 0 <= b < 256

  /** The bytes of one page. */
  type Bytes = s: seq<Byte> | |s| == PAGE_SIZE witness seq(PAGE_SIZE, i => 0)

  const INVALID_PAGE_ID := -1

  /** What `ResetMemory` leaves in a page. */
  function Zeros(): Bytes {
    seq(PAGE_SIZE, i => 0)
  }

  datatype Page = Page(data: Bytes, pageId: int, pinCount: int, isDirty: bool)

  function Blank(): Page {
    Page(Zeros(), INVALID_PAGE_ID, 0, false)
  }

  // ----- the disk -----

  /** A file of whole pages. */
  class DiskManager {
    var file: seq<Bytes>

    constructor ()
      ensures file == []
    {
      file := [];
    }

    /** Writing past the end leaves a hole that reads as zeros. */
    method WritePage(pageId: nat, data: Bytes)
      modifies this
      ensures forall p :: OnDisk(file, p) == if p == pageId then data else OnDisk(old(file), p)
    {
      while |file| <= pageId
        invariant forall p :: OnDisk(file, p) == OnDisk(old(file), p)
        decreases pageId - |file|
      {
        file := file + [Zeros()];
      }
      file := file[pageId := data];
    }

    /** Past the end of the file nothing is read and the buffer keeps its bytes. */
    method ReadPage(pageId: nat, buffer: Bytes) returns (data: Bytes)
      ensures data == if pageId > |file| then buffer else OnDisk(file, pageId)
    {
      if pageId > |file| {
        return buffer;
      }
      return if pageId < |file| then file[pageId] else Zeros();
    }
  }

  /** The bytes of a page on disk; a page that was never written reads as zeros. */
  ghost function OnDisk(file: seq<Bytes>, p: int): Bytes {
    if 0 <= p < |file| then file[p] else Zeros()
  }

  // ----- how the structures fit together -----

  /** Everything the pool keeps, as one value; `unreported` are pages written but not yet reported dirty. */
  datatype Pool = Pool(pages: seq<Page>, free: seq<int>, table: map<int, int>, log: seq<Event>, file: seq<Bytes>,
                       next: int, unreported: set<int>)

  const NONE := -1

  /**
   Free list and page table partition the frames: a frame without a page is blank and on the free
   list, once; a frame with a page is the one the page table gives for that page.  The frame `out`
   is exempt, which covers the moment between taking a frame and installing a page in it.
   */
  ghost predicate FramesFit(s: Pool, out: int) {
    && FreeFits(s, out)
    && (forall p :: p in s.table ==> 0 <= p < s.next && 0 <= s.table[p] < |s.pages| && s.table[p] != out
                                     && s.pages[s.table[p]].pageId == p)
    && (forall f :: 0 <= f < |s.pages| && f != out ==> FrameFits(s, f))
  }

  ghost predicate FreeFits(s: Pool, out: int) {
    && (forall i :: 0 <= i < |s.free| ==>
          0 <= s.free[i] < |s.pages| && s.free[i] != out && s.pages[s.free[i]] == Blank())
    && (forall i, j :: 0 <= i < j < |s.free| ==> s.free[i] != s.free[j])
  }

  ghost predicate FrameFits(s: Pool, f: int)
    requires 0 <= f < |s.pages|
  {
    var page := s.pages[f];
    && page.pinCount >= 0
    && if page.pageId == INVALID_PAGE_ID then f in s.free else page.pageId in s.table && s.table[page.pageId] == f
  }

  ghost predicate Resident(s: Pool, f: int) {
    0 <= f < |s.pages| && s.pages[f].pageId != INVALID_PAGE_ID
  }

  /** The replacer tracks exactly the frames with a page, and may evict exactly the unpinned ones. */
  ghost predicate ReplacerFits(s: Pool, out: int) {
    forall f :: ReplacerFitsAt(s, f, out)
  }

  ghost predicate ReplacerFitsAt(s: Pool, f: int, out: int) {
    && (Count(s.log, f) > 0 <==> Resident(s, f) && f != out)
    && (Evictable(s.log, f) <==> Resident(s, f) && f != out && s.pages[f].pinCount == 0)
  }

  /** Page ids that were never handed out have left no trace. */
  ghost predicate Untouched(s: Pool) {
    && (forall p :: p >= s.next ==> OnDisk(s.file, p) == Zeros())
    && (forall p :: p in s.unreported ==> p < s.next)
  }

  /** The joint invariant of the pool. */
  ghost predicate Fits(s: Pool) {
    0 <= s.next && FramesFit(s, NONE) && ReplacerFits(s, NONE)
  }

  /** Frame `f` has been taken off the free list or evicted, and waits for a page. */
  ghost predicate Detached(s: Pool, f: int) {
    && 0 <= s.next && 0 <= f < |s.pages|
    && FramesFit(s, f) && ReplacerFits(s, f)
    && s.pages[f].data == Zeros() && !s.pages[f].isDirty
  }

  /** A page that is neither dirty nor written behind the pool's back is the same on disk. */
  ghost predicate Clean(s: Pool) {
    forall p :: p in s.table && 0 <= s.table[p] < |s.pages| ==>
      s.pages[s.table[p]].isDirty || p in s.unreported || s.pages[s.table[p]].data == OnDisk(s.file, p)
  }

  /** No page lost its last pin with writes still unreported. */
  ghost predicate Disciplined(s: Pool) {
    forall p :: p in s.table && p in s.unreported && 0 <= s.table[p] < |s.pages| ==> s.pages[s.table[p]].pinCount > 0
  }

  /** The bytes of page `p`, wherever they are. */
  ghost function View(s: Pool, p: int): Bytes {
    if p in s.table && 0 <= s.table[p] < |s.pages| then s.pages[s.table[p]].data else OnDisk(s.file, p)
  }

  /** The pin counts of the pinned pages. */
  ghost function Pins(s: Pool): map<int, int> {
    map p | p in s.table && 0 <= s.table[p] < |s.pages| && s.pages[s.table[p]].pinCount > 0 ::
      s.pages[s.table[p]].pinCount
  }

  /** A new pool: every frame blank, every frame free. */
  lemma InitFits(s: Pool)
    requires |s.free| == |s.pages| && s.table == map[] && s.log == [] && s.next == 0 && s.unreported == {}
    requires forall f :: 0 <= f < |s.pages| ==> s.free[f] == f && s.pages[f] == Blank()
    requires forall p :: OnDisk(s.file, p) == Zeros()
    ensures Fits(s) && Clean(s) && Untouched(s) && Disciplined(s)
  {
    hide Zeros, OnDisk;
    forall f | 0 <= f < |s.pages| ensures FrameFits(s, f) {
      assert s.free[f] == f;
    }
  }

  // ----- the elementary steps -----

  /** Taking the first free frame. */
  ghost function TakeFree(s: Pool): Pool
    requires s.free != []
  {
    s.(free := s.free[1..])
  }

  lemma TakeFreeDetaches(s: Pool)
    requires Fits(s) && s.free != []
    ensures Detached(TakeFree(s), s.free[0])
  {
    hide Count, Evictable, Zeros;
    var s', f := TakeFree(s), s.free[0];
    assert forall i :: 0 <= i < |s'.free| ==> s'.free[i] == s.free[i + 1];
    forall g | 0 <= g < |s.pages| && g != f ensures FrameFits(s', g) {
      assert FrameFits(s, g);
      if g in s.free {
        var i :| 0 <= i < |s.free| && s.free[i] == g;
        assert s'.free[i - 1] == g;
      }
    }
    forall g ensures ReplacerFitsAt(s', g, f) {
      assert ReplacerFitsAt(s, g, NONE);
    }
  }

  /** Emptying an evictable frame: written back if dirty, wiped, and out of page table and replacer. */
  ghost function EvictFrame(s: Pool, f: int, file: seq<Bytes>): Pool
    requires 0 <= f < |s.pages|
  {
    var page := s.pages[f];
    s.(pages := s.pages[f := page.(data := Zeros(), isDirty := false)],
       table := s.table - {page.pageId},
       log := s.log + [Drop(f)],
       file := file)
  }

  lemma EvictDetaches(s: Pool, f: int, file: seq<Bytes>)
    requires Fits(s) && Evictable(s.log, f)
    ensures 0 <= f < |s.pages| && Detached(EvictFrame(s, f, file), f)
  {
    hide Count, First, Last, Evictable, Rank, Zeros;
    assert ReplacerFitsAt(s, f, NONE);
    assert FrameFits(s, f);
    var s' := EvictFrame(s, f, file);
    forall g | 0 <= g < |s.pages| && g != f ensures FrameFits(s', g) {
      assert FrameFits(s, g);
    }
    ExtendOthers(s.log, Drop(f));
    Extend(s.log, Drop(f), f);
    forall g ensures ReplacerFitsAt(s', g, f) {
      assert ReplacerFitsAt(s, g, NONE);
    }
  }

  /** Installing page `p` in a waiting frame, pinned once. */
  ghost function Install(s: Pool, f: int, p: int, data: Bytes): Pool
    requires 0 <= f < |s.pages|
  {
    s.(pages := s.pages[f := Page(data, p, 1, false)],
       table := s.table[p := f],
       log := s.log + [Access(f)] + [Mark(f, false)])
  }

  lemma InstallFits(s: Pool, f: int, p: int, data: Bytes)
    requires Detached(s, f) && 0 <= p < s.next && p !in s.table
    ensures Fits(Install(s, f, p, data))
  {
    hide Count, First, Last, Evictable, Rank, Zeros;
    var s' := Install(s, f, p, data);
    forall g | 0 <= g < |s.pages| ensures FrameFits(s', g) {
      if g != f { assert FrameFits(s, g); }
    }
    PinLogged(s.log, f);
    forall g ensures ReplacerFitsAt(s', g, NONE) {
      assert ReplacerFitsAt(s, g, f);
    }
  }

  /** What RecordAccess followed by SetEvictable(false) does to the replacer's readings. */
  lemma PinLogged(log: seq<Event>, f: int)
    ensures Count(log + [Access(f)] + [Mark(f, false)], f) > 0 && !Evictable(log + [Access(f)] + [Mark(f, false)], f)
    ensures forall g :: g != f ==>
              && Count(log + [Access(f)] + [Mark(f, false)], g) == Count(log, g)
              && Evictable(log + [Access(f)] + [Mark(f, false)], g) == Evictable(log, g)
  {
    hide Count, First, Last, Evictable, Rank;
    ExtendOthers(log, Access(f));
    Extend(log, Access(f), f);
    ExtendOthers(log + [Access(f)], Mark(f, false));
    Extend(log + [Access(f)], Mark(f, false), f);
  }

  /** One more pin on a resident page. */
  ghost function Pin(s: Pool, f: int): Pool
    requires 0 <= f < |s.pages|
  {
    s.(pages := s.pages[f := s.pages[f].(pinCount := s.pages[f].pinCount + 1)],
       log := s.log + [Access(f)] + [Mark(f, false)])
  }

  lemma PinFits(s: Pool, f: int)
    requires Fits(s) && Resident(s, f)
    ensures Fits(Pin(s, f))
  {
    hide Count, First, Last, Evictable, Rank, Zeros;
    var s' := Pin(s, f);
    assert FrameFits(s, f);
    forall g | 0 <= g < |s.pages| ensures FrameFits(s', g) {
      assert FrameFits(s, g);
    }
    PinLogged(s.log, f);
    forall g ensures ReplacerFitsAt(s', g, NONE) {
      assert ReplacerFitsAt(s, g, NONE);
    }
  }

  /** One pin less, with the caller's dirty report; the last one makes the frame evictable. */
  ghost function Unpin(s: Pool, f: int, dirty: bool): Pool
    requires 0 <= f < |s.pages|
  {
    var page := s.pages[f];
    s.(pages := s.pages[f := page.(pinCount := page.pinCount - 1, isDirty := page.isDirty || dirty)],
       log := if page.pinCount == 1 then s.log + [Mark(f, true)] else s.log,
       unreported := if dirty then s.unreported - {page.pageId} else s.unreported)
  }

  lemma UnpinFits(s: Pool, f: int, dirty: bool)
    requires Fits(s) && Resident(s, f) && s.pages[f].pinCount > 0
    ensures Fits(Unpin(s, f, dirty))
  {
    hide Count, First, Last, Evictable, Rank, Zeros;
    var s' := Unpin(s, f, dirty);
    forall g | 0 <= g < |s.pages| ensures FrameFits(s', g) {
      assert FrameFits(s, g);
    }
    ExtendOthers(s.log, Mark(f, true));
    Extend(s.log, Mark(f, true), f);
    forall g ensures ReplacerFitsAt(s', g, NONE) {
      assert ReplacerFitsAt(s, g, NONE);
    }
  }

  /** Deleting an unpinned resident page: its frame becomes blank and free. */
  ghost function Free(s: Pool, f: int): Pool
    requires 0 <= f < |s.pages|
  {
    s.(pages := s.pages[f := Blank()],
       table := s.table - {s.pages[f].pageId},
       free := s.free + [f],
       log := s.log + [Drop(f)])
  }

  lemma FreeFitsAfter(s: Pool, f: int)
    requires Fits(s) && Resident(s, f)
    ensures Fits(Free(s, f))
  {
    hide Count, First, Last, Evictable, Rank, Zeros;
    var s' := Free(s, f);
    assert FrameFits(s, f);
    assert s'.free[|s.free|] == f;
    forall g | 0 <= g < |s.pages| ensures FrameFits(s', g) {
      assert FrameFits(s, g);
      if g in s.free {
        var i :| 0 <= i < |s.free| && s.free[i] == g;
        assert s'.free[i] == g;
      }
    }
    ExtendOthers(s.log, Drop(f));
    Extend(s.log, Drop(f), f);
    forall g ensures ReplacerFitsAt(s', g, NONE) {
      assert ReplacerFitsAt(s, g, NONE);
    }
  }

  /** A client's write into a page. */
  ghost function Write(s: Pool, f: int, data: Bytes): Pool
    requires 0 <= f < |s.pages|
  {
    s.(pages := s.pages[f := s.pages[f].(data := data)],
       unreported := s.unreported + {s.pages[f].pageId})
  }

  lemma WriteFits(s: Pool, f: int, data: Bytes)
    requires Fits(s) && Resident(s, f)
    ensures Fits(Write(s, f, data))
  {
    hide Count, First, Last, Evictable, Rank, Zeros;
    var s' := Write(s, f, data);
    forall g | 0 <= g < |s.pages| ensures FrameFits(s', g) {
      assert FrameFits(s, g);
    }
    forall g ensures ReplacerFitsAt(s', g, NONE) {
      assert ReplacerFitsAt(s, g, NONE);
    }
  }

  // ----- what the steps do to the pages as clients see them -----

  ghost predicate SameViews(s: Pool, s': Pool) {
    forall q :: View(s', q) == View(s, q)
  }

  /** A pinned page stays in its frame. */
  ghost predicate PinnedStay(s: Pool, s': Pool) {
    forall p :: p in Pins(s) ==> p in s.table && p in s'.table && s'.table[p] == s.table[p]
  }

  /** `file` is the disk after writing back the page of frame `f`, or after leaving it alone. */
  ghost predicate WrittenBack(s: Pool, f: int, file: seq<Bytes>, write: bool) {
    && 0 <= f < |s.pages|
    && (forall q :: OnDisk(file, q) == if write && q == s.pages[f].pageId then s.pages[f].data else OnDisk(s.file, q))
  }

  /** A page of the table, and the frame that holds it. */
  lemma PageOfFrame(s: Pool, f: int)
    requires Fits(s) && Resident(s, f)
    ensures s.pages[f].pageId in s.table && s.table[s.pages[f].pageId] == f
    ensures 0 <= s.pages[f].pageId < s.next && s.pages[f].pinCount >= 0
    ensures forall q :: q in s.table && s.table[q] == f ==> q == s.pages[f].pageId
  {
    hide Count, Evictable, Zeros;
    assert FrameFits(s, f);
  }

  lemma FrameOfPage(s: Pool, p: int)
    requires Fits(s) && p in s.table
    ensures Resident(s, s.table[p]) && s.pages[s.table[p]].pageId == p && 0 <= p < s.next
    ensures s.pages[s.table[p]].pinCount >= 0
  {
    hide Count, Evictable, Zeros;
    assert FrameFits(s, s.table[p]);
  }

  lemma TakeFreeEffect(s: Pool)
    requires s.free != []
    ensures SameViews(s, TakeFree(s)) && Pins(TakeFree(s)) == Pins(s) && PinnedStay(s, TakeFree(s))
    ensures Clean(s) ==> Clean(TakeFree(s))
    ensures Disciplined(s) ==> Disciplined(TakeFree(s))
    ensures Untouched(s) ==> Untouched(TakeFree(s))
  {
    hide OnDisk, Zeros;
  }

  lemma EvictEffect(s: Pool, f: int, file: seq<Bytes>)
    requires Fits(s) && Resident(s, f) && s.pages[f].pinCount == 0
    requires WrittenBack(s, f, file, s.pages[f].isDirty)
    ensures Pins(EvictFrame(s, f, file)) == Pins(s) && PinnedStay(s, EvictFrame(s, f, file))
    ensures Clean(s) ==> Clean(EvictFrame(s, f, file))
    ensures Disciplined(s) ==> Disciplined(EvictFrame(s, f, file))
    ensures Untouched(s) ==> Untouched(EvictFrame(s, f, file))
    ensures forall q :: q != s.pages[f].pageId ==> View(EvictFrame(s, f, file), q) == View(s, q)
    ensures Clean(s) && Disciplined(s) ==> SameViews(s, EvictFrame(s, f, file))
  {
    PageOfFrame(s, f);
    hide Fits, OnDisk, Zeros;
  }

  lemma InstallEffect(s: Pool, f: int, p: int, data: Bytes)
    requires Detached(s, f) && p !in s.table
    ensures Pins(Install(s, f, p, data)) == Pins(s)[p := 1]
    ensures View(Install(s, f, p, data), p) == data
    ensures forall q :: q != p ==> View(Install(s, f, p, data), q) == View(s, q)
    ensures Clean(s) && data == OnDisk(s.file, p) ==> Clean(Install(s, f, p, data))
    ensures Disciplined(s) ==> Disciplined(Install(s, f, p, data))
    ensures Untouched(s) ==> Untouched(Install(s, f, p, data))
  {
    hide OnDisk, Zeros, ReplacerFits;
    var s' := Install(s, f, p, data);
    assert forall q :: q in s.table ==> s'.pages[s.table[q]] == s.pages[s.table[q]];
    assert Pins(s').Keys == Pins(s).Keys + {p};
  }

  lemma PinEffect(s: Pool, f: int)
    requires Fits(s) && Resident(s, f)
    ensures var p := s.pages[f].pageId; Pins(Pin(s, f)) == Pins(s)[p := if p in Pins(s) then Pins(s)[p] + 1 else 1]
    ensures SameViews(s, Pin(s, f))
    ensures Clean(s) ==> Clean(Pin(s, f))
    ensures Disciplined(s) ==> Disciplined(Pin(s, f))
    ensures Untouched(s) ==> Untouched(Pin(s, f))
  {
    PageOfFrame(s, f);
    hide Fits, OnDisk, Zeros;
    var s', p := Pin(s, f), s.pages[f].pageId;
    assert forall q :: q in s.table && q != p && 0 <= s.table[q] < |s.pages| ==>
           s'.pages[s.table[q]] == s.pages[s.table[q]];
    assert Pins(s').Keys == Pins(s).Keys + {p};
  }

  /** The discipline survives unless this call drops the last pin of a page with unreported writes, unreported. */
  lemma UnpinEffect(s: Pool, f: int, dirty: bool)
    requires Fits(s) && Resident(s, f) && s.pages[f].pinCount > 0
    ensures var p := s.pages[f].pageId;
            && p in Pins(s)
            && Pins(Unpin(s, f, dirty)) == if Pins(s)[p] == 1 then Pins(s) - {p} else Pins(s)[p := Pins(s)[p] - 1]
    ensures SameViews(s, Unpin(s, f, dirty))
    ensures Clean(s) ==> Clean(Unpin(s, f, dirty))
    ensures Untouched(s) ==> Untouched(Unpin(s, f, dirty))
    ensures Disciplined(s) ==>
              (Disciplined(Unpin(s, f, dirty)) <==>
               dirty || s.pages[f].pinCount > 1 || s.pages[f].pageId !in s.unreported)
  {
    PageOfFrame(s, f);
    hide Fits, OnDisk, Zeros;
    var s', p := Unpin(s, f, dirty), s.pages[f].pageId;
    assert forall q :: q in s.table && q != p && 0 <= s.table[q] < |s.pages| ==>
           s'.pages[s.table[q]] == s.pages[s.table[q]];
    assert Pins(s').Keys == if Pins(s)[p] == 1 then Pins(s).Keys - {p} else Pins(s).Keys;
    if Disciplined(Unpin(s, f, dirty)) && !dirty && s.pages[f].pinCount == 1 {
      assert s.pages[f].pageId in Unpin(s, f, dirty).table;
    }
  }

  lemma FreeEffect(s: Pool, f: int)
    requires Fits(s) && Resident(s, f) && s.pages[f].pinCount == 0
    ensures Pins(Free(s, f)) == Pins(s) && PinnedStay(s, Free(s, f))
    ensures forall q :: q != s.pages[f].pageId ==> View(Free(s, f), q) == View(s, q)
    ensures Clean(s) ==> Clean(Free(s, f))
    ensures Disciplined(s) ==> Disciplined(Free(s, f))
    ensures Untouched(s) ==> Untouched(Free(s, f))
  {
    PageOfFrame(s, f);
    hide Fits, OnDisk, Zeros;
  }

  lemma WriteEffect(s: Pool, f: int, data: Bytes)
    requires Fits(s) && Resident(s, f) && s.pages[f].pinCount > 0
    ensures Pins(Write(s, f, data)) == Pins(s)
    ensures View(Write(s, f, data), s.pages[f].pageId) == data
    ensures forall q :: q != s.pages[f].pageId ==> View(Write(s, f, data), q) == View(s, q)
    ensures Clean(s) ==> Clean(Write(s, f, data))
    ensures Disciplined(s) ==> Disciplined(Write(s, f, data))
    ensures Untouched(s) ==> Untouched(Write(s, f, data))
  {
    PageOfFrame(s, f);
    hide Fits, OnDisk, Zeros;
  }

  /** Flushing a resident page: the dirty flag stays as it is. */
  lemma FlushEffect(s: Pool, f: int, file: seq<Bytes>)
    requires Fits(s) && Resident(s, f) && WrittenBack(s, f, file, true)
    ensures Fits(s.(file := file))
    ensures Pins(s.(file := file)) == Pins(s)
    ensures SameViews(s, s.(file := file))
    ensures OnDisk(file, s.pages[f].pageId) == View(s, s.pages[f].pageId)
    ensures Clean(s) ==> Clean(s.(file := file))
    ensures Disciplined(s) ==> Disciplined(s.(file := file))
    ensures Untouched(s) ==> Untouched(s.(file := file))
  {
    PageOfFrame(s, f);
    FitsIgnoresDisk(s, file);
    hide Fits, OnDisk, Zeros;
  }

  lemma FitsIgnoresDisk(s: Pool, file: seq<Bytes>)
    requires Fits(s)
    ensures Fits(s.(file := file))
  {
    hide Count, Evictable, Zeros;
    var s' := s.(file := file);
    forall f | 0 <= f < |s.pages| ensures FrameFits(s', f) { assert FrameFits(s, f); }
    forall f ensures ReplacerFitsAt(s', f, NONE) { assert ReplacerFitsAt(s, f, NONE); }
  }

  // ----- flushing without the latch -----

  /** `file` is the disk after the bytes of frame `f` were written as page `p`, whatever `f` holds by then. */
  ghost predicate Landed(s: Pool, f: int, p: int, file: seq<Bytes>) {
    && 0 <= f < |s.pages|
    && (forall q :: OnDisk(file, q) == if q == p then s.pages[f].data else OnDisk(s.file, q))
  }

  /** The frame still holds the page, or the page is in another one and will be written again. */
  ghost predicate SafeToLand(s: Pool, f: int, p: int) {
    p in s.table && 0 <= s.table[p] < |s.pages| && (s.table[p] == f || s.pages[s.table[p]].isDirty || p in s.unreported)
  }

  lemma SafeLanding(s: Pool, f: int, p: int, file: seq<Bytes>)
    requires Fits(s) && Clean(s) && Landed(s, f, p, file) && SafeToLand(s, f, p)
    ensures SameViews(s, s.(file := file)) && Clean(s.(file := file))
  {
    FrameOfPage(s, p);
    hide Fits, OnDisk;
  }

  lemma UntouchedStays(s: Pool, p: int, file: seq<Bytes>)
    requires Untouched(s) && p < s.next && forall q :: q != p ==> OnDisk(file, q) == OnDisk(s.file, q)
    ensures Untouched(s.(file := file)) && (Disciplined(s) ==> Disciplined(s.(file := file)))
  {
    hide OnDisk, Zeros;
  }

  /** There is a file like `file` but for one page. */
  lemma {:induction false} FileWith(file: seq<Bytes>, p: nat, data: Bytes) returns (file': seq<Bytes>)
    ensures forall q :: OnDisk(file', q) == if q == p then data else OnDisk(file, q)
    decreases p - |file|
  {
    hide Zeros;
    if p < |file| {
      file' := file[p := data];
    } else {
      file' := FileWith(file + [Zeros()], p, data);
      assert forall q :: OnDisk(file + [Zeros()], q) == OnDisk(file, q);
    }
  }

  ghost predicate LandsOn(s: Pool, f: int, p: int) {
    forall file :: Landed(s, f, p, file) ==> SameViews(s, s.(file := file)) && Clean(s.(file := file))
  }

  /**
   The write lands without harm, whatever a client has put into the frame by then; only pinned frames are written to.
   */
  ghost predicate LandsWell(s: Pool, f: int, p: int)
    requires 0 <= f < |s.pages|
  {
    LandsOn(s, f, p) && (s.pages[f].pinCount > 0 ==> forall data :: LandsOn(Write(s, f, data), f, p))
  }

  /**
   A flush looks the frame up and writes its bytes in two steps, and other operations may come in between.
   It is harmless exactly when the frame still holds the page, or the page is to be written back anyway, or nobody can
   write to the frame and it happens to hold the bytes of the page on disk.
   */
  lemma LateFlushIff(s: Pool, f: int, p: nat)
    requires Fits(s) && Clean(s) && 0 <= f < |s.pages|
    ensures LandsWell(s, f, p) <==>
            SafeToLand(s, f, p) || (s.pages[f].pinCount <= 0 && s.pages[f].data == OnDisk(s.file, p))
  {
    if SafeToLand(s, f, p) {
      forall file | Landed(s, f, p, file) ensures SameViews(s, s.(file := file)) && Clean(s.(file := file)) {
        SafeLanding(s, f, p, file);
      }
      forall data ensures LandsOn(Write(s, f, data), f, p) {
        forall file | Landed(Write(s, f, data), f, p, file)
          ensures SameViews(Write(s, f, data), Write(s, f, data).(file := file))
                  && Clean(Write(s, f, data).(file := file))
        {
          WrittenIsClean(s, f, data, p, file);
        }
      }
    } else {
      if s.pages[f].pinCount > 0 { UnsafeLanding(s, f, p); }
      LandsUnwritten(s, f, p);
    }
  }

  /** If the bytes stay as they are, it is enough that they are those on disk. */
  lemma LandsUnwritten(s: Pool, f: int, p: nat)
    requires Fits(s) && Clean(s) && 0 <= f < |s.pages| && !SafeToLand(s, f, p)
    ensures LandsOn(s, f, p) <==> s.pages[f].data == OnDisk(s.file, p)
  {
    PagesHeld(s);
    hide Fits, OnDisk;
    var file := FileWith(s.file, p, s.pages[f].data);
    assert Landed(s, f, p, file);
    if s.pages[f].data == OnDisk(s.file, p) {
      forall file | Landed(s, f, p, file) ensures SameViews(s, s.(file := file)) && Clean(s.(file := file)) {
        assert forall q :: OnDisk(file, q) == OnDisk(s.file, q);
      }
    } else {
      var s' := s.(file := file);
      if p in s.table {
        assert s.pages[s.table[p]].data != OnDisk(file, p);
        assert !Clean(s');
      } else {
        assert View(s', p) != View(s, p);
      }
    }
  }

  lemma WrittenIsClean(s: Pool, f: int, data: Bytes, p: int, file: seq<Bytes>)
    requires Fits(s) && Clean(s) && 0 <= f < |s.pages| && SafeToLand(s, f, p) && Landed(Write(s, f, data), f, p, file)
    ensures SameViews(Write(s, f, data), Write(s, f, data).(file := file)) && Clean(Write(s, f, data).(file := file))
  {
    FrameOfPage(s, p);
    hide Fits, OnDisk, Count, Evictable;
    var s1 := Write(s, f, data);
    assert forall q :: q in s.table && s.table[q] == f ==> s.pages[f].pageId == q by { PagesHeld(s); }
    assert Clean(s1);
    assert SafeToLand(s1, f, p);
  }

  lemma PagesHeld(s: Pool)
    requires Fits(s)
    ensures forall q :: q in s.table ==> 0 <= s.table[q] < |s.pages| && s.pages[s.table[q]].pageId == q
  {
    hide Count, Evictable, Zeros;
  }

  /** Otherwise other bytes in the frame spoil the page. */
  lemma UnsafeLanding(s: Pool, f: int, p: nat)
    requires Fits(s) && Clean(s) && 0 <= f < |s.pages| && !SafeToLand(s, f, p)
    ensures exists data :: !LandsOn(Write(s, f, data), f, p)
  {
    PagesHeld(s);
    if Resident(s, f) { PageOfFrame(s, f); }
    hide Fits, OnDisk;
    var v := View(s, p);
    var data: Bytes := v[0 := if v[0] == 0 then 1 else 0];
    assert data[0] != v[0];
    var s1 := Write(s, f, data);
    var file := FileWith(s.file, p, data);
    assert Landed(s1, f, p, file);
    var s2 := s1.(file := file);
    assert View(s1, p) == View(s, p) != data;
    if p in s.table {
      assert p !in s1.unreported && !s1.pages[s.table[p]].isDirty && s1.pages[s.table[p]].data != OnDisk(file, p);
      assert !Clean(s2);
    } else {
      assert View(s2, p) == data;
    }
    assert !LandsOn(Write(s, f, data), f, p);
  }

  lemma SameTableStays(s: Pool, s': Pool)
    requires s'.table == s.table
    ensures PinnedStay(s, s')
  {
  }

  // ----- when a frame can be had -----

  ghost function PinnedFrames(s: Pool): set<int> {
    set f | 0 <= f < |s.pages| && s.pages[f].pinCount > 0
  }

  /** Pinned pages and pinned frames correspond one to one. */
  lemma PinnedPagesAndFrames(s: Pool)
    requires Fits(s)
    ensures |Pins(s)| == |PinnedFrames(s)|
  {
    hide Count, Evictable, Zeros;
    var ps := Pins(s).Keys;
    var image := Image(ps, s.table);
    assert forall p, q :: p in ps && q in ps && s.table[p] == s.table[q] ==> p == q;
    forall f | f in PinnedFrames(s) ensures f in image {
      assert FrameFits(s, f);
      assert s.pages[f] != Blank();
      assert s.pages[f].pageId in ps;
    }
    assert image == PinnedFrames(s);
    ImageSize(ps, s.table);
    assert |Pins(s)| == |ps|;
  }

  lemma {:induction false} AllFrames(n: nat) returns (all: set<int>)
    ensures forall f :: f in all <==> 0 <= f < n
    ensures |all| == n
  {
    if n == 0 {
      all := {};
    } else {
      var rest := AllFrames(n - 1);
      all := rest + {n - 1};
    }
  }

  /** Some frame is unpinned exactly when fewer pages are pinned than there are frames. */
  lemma RoomIff(s: Pool)
    requires Fits(s)
    ensures |Pins(s)| <= |s.pages|
    ensures |Pins(s)| == |s.pages| <==> forall f :: 0 <= f < |s.pages| ==> s.pages[f].pinCount != 0
  {
    PinnedPagesAndFrames(s);
    hide Count, Evictable, Zeros, Pins;
    var frames := PinnedFrames(s);
    var all := AllFrames(|s.pages|);
    SubsetSize(frames, all);
    forall f | 0 <= f < |s.pages| && s.pages[f].pinCount == 0 ensures |frames| < |all| {
      SubsetSize(frames, all - {f});
    }
    if forall f :: 0 <= f < |s.pages| ==> s.pages[f].pinCount != 0 {
      forall f | 0 <= f < |s.pages| ensures f in frames { assert FrameFits(s, f); }
      assert frames == all;
    }
  }

  lemma EvictableIsUnpinned(s: Pool, f: int)
    requires Fits(s) && Evictable(s.log, f)
    ensures Resident(s, f) && s.pages[f].pinCount == 0
  {
    hide Count, Evictable, Zeros;
    assert ReplacerFitsAt(s, f, NONE);
  }

  /** An unpinned frame can be had: if the free list is empty, the replacer has something to evict. */
  lemma UnpinnedIsEvictable(s: Pool, f: int)
    requires Fits(s) && 0 <= f < |s.pages| && s.pages[f].pinCount == 0 && s.free == []
    ensures Evictable(s.log, f)
  {
    hide Count, Evictable, Zeros;
    assert FrameFits(s, f);
    assert ReplacerFitsAt(s, f, NONE);
  }

  /** Handing out the next page id changes nothing else. */
  lemma NextIdFits(s: Pool)
    requires Fits(s) && Clean(s) && Untouched(s)
    ensures var s' := s.(next := s.next + 1);
            && Fits(s') && Clean(s') && Untouched(s')
            && Pins(s') == Pins(s) && SameViews(s, s') && PinnedStay(s, s')
            && (Disciplined(s) ==> Disciplined(s'))
            && s.next !in s.table
  {
    hide Count, Evictable, Zeros, OnDisk;
    var s' := s.(next := s.next + 1);
    forall f | 0 <= f < |s.pages| ensures FrameFits(s', f) { assert FrameFits(s, f); }
    forall f ensures ReplacerFitsAt(s', f, NONE) { assert ReplacerFitsAt(s, f, NONE); }
  }

  /** Pages outside the page table are left alone on disk. */
  ghost predicate SameOutside(s: Pool, s': Pool) {
    forall q :: q !in s.table ==> OnDisk(s'.file, q) == OnDisk(s.file, q)
  }

  /** From `s` to `s'` a frame was taken and nothing that a client could see changed. */
  ghost predicate FrameTaken(s: Pool, s': Pool, f: int) {
    && Detached(s', f) && Clean(s') && Untouched(s')
    && s'.next == s.next && s'.unreported == s.unreported && s'.table.Keys <= s.table.Keys
    && Pins(s') == Pins(s) && PinnedStay(s, s') && SameOutside(s, s')
    && (Disciplined(s) ==> Disciplined(s') && SameViews(s, s'))
  }

  lemma TakeFreeTakes(s: Pool)
    requires Fits(s) && Clean(s) && Untouched(s) && s.free != []
    ensures FrameTaken(s, TakeFree(s), s.free[0])
  {
    TakeFreeDetaches(s);
    TakeFreeEffect(s);
    hide Fits, Clean, Untouched, Detached, Pins, PinnedStay, Disciplined, SameViews, OnDisk;
  }

  lemma EvictTakes(s: Pool, f: int, file: seq<Bytes>)
    requires Fits(s) && Clean(s) && Untouched(s) && Resident(s, f) && Evictable(s.log, f)
    requires WrittenBack(s, f, file, s.pages[f].isDirty)
    ensures FrameTaken(s, EvictFrame(s, f, file), f)
  {
    EvictableIsUnpinned(s, f);
    EvictDetaches(s, f, file);
    EvictEffect(s, f, file);
    PageOfFrame(s, f);
    hide Fits, Clean, Untouched, Detached, Pins, PinnedStay, Disciplined, SameViews, OnDisk, Evictable, Zeros;
  }

  /** From `s` to `s'` page `p` arrived in frame `f`, pinned once; nothing else that a client could see changed. */
  ghost predicate PageArrived(s: Pool, s': Pool, p: int, f: int) {
    && p in s'.table && s'.table[p] == f && 0 <= f < |s'.pages|
    && s'.pages[f] == Page(OnDisk(s.file, p), p, 1, false)
    && Pins(s') == Pins(s)[p := 1] && PinnedStay(s, s')
    && (Disciplined(s) ==> Disciplined(s') && forall q :: q != p ==> View(s', q) == View(s, q))
  }

  lemma TakeAndInstall(s: Pool, s': Pool, f: int, p: int)
    requires FrameTaken(s, s', f) && p !in s.table
    ensures 0 <= f < |s'.pages| && PageArrived(s, Install(s', f, p, OnDisk(s'.file, p)), p, f)
  {
    InstallEffect(s', f, p, OnDisk(s'.file, p));
    hide Fits, Clean, Untouched, FramesFit, ReplacerFits, Pins, Disciplined, OnDisk, Zeros, View;
  }

  lemma ArrivedAfterNextId(s: Pool, s': Pool, p: int, f: int)
    requires PageArrived(s.(next := s.next + 1), s', p, f)
    ensures PageArrived(s, s', p, f)
  {
    var s1 := s.(next := s.next + 1);
    assert Pins(s1) == Pins(s);
    hide OnDisk, Pins;
  }

  /** Pinning a page that is already there does not move anything. */
  lemma PinnedStays(s: Pool, f: int)
    requires 0 <= f < |s.pages|
    ensures PinnedStay(s, Pin(s, f))
  {
  }

  /** If every frame is pinned, a resident page is a pinned page. */
  lemma ResidentHasRoom(s: Pool, p: int)
    requires Fits(s) && p in s.table
    ensures p in Pins(s) || |Pins(s)| < |s.pages|
  {
    FrameOfPage(s, p);
    RoomIff(s);
    hide Fits;
    if |Pins(s)| == |s.pages| {
      assert s.pages[s.table[p]].pinCount != 0;
    }
  }

  lemma ViewOfResident(s: Pool, p: int)
    requires Fits(s) && p in s.table
    ensures View(s, p) == s.pages[s.table[p]].data
  {
    FrameOfPage(s, p);
  }

  lemma NotPinned(s: Pool, p: int)
    requires p !in s.table
    ensures p !in Pins(s)
  {
  }

  /** A page that was fetched from disk shows the bytes it had before. */
  lemma FetchedView(s: Pool, s': Pool, p: int, f: int)
    requires PageArrived(s, s', p, f) && p !in s.table
    ensures s'.pages[f].data == View(s, p)
    ensures Disciplined(s) ==> SameViews(s, s')
  {
    hide OnDisk, Pins, Disciplined;
  }

  lemma InvalidNotResident(s: Pool)
    requires Fits(s)
    ensures INVALID_PAGE_ID !in s.table
  {
    hide ReplacerFits;
  }

  /** Different frames hold different pages. */
  lemma PagesDistinct(s: Pool, f: int)
    requires Fits(s) && 0 <= f < |s.pages|
    ensures forall p :: p in s.table && s.table[p] == f ==> p == s.pages[f].pageId
    ensures forall p :: p in s.table && s.table[p] != f ==> p != s.pages[f].pageId
  {
    hide ReplacerFits;
    assert FrameFits(s, f);
  }

  lemma UnpinnedIsTracked(s: Pool, f: int)
    requires Fits(s) && Resident(s, f) && s.pages[f].pinCount == 0
    ensures Count(s.log, f) > 0 && Evictable(s.log, f)
  {
    hide Count, Evictable, Zeros;
    assert ReplacerFitsAt(s, f, NONE);
  }
}
