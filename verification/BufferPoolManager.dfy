/**
 The methods of the buffer pool manager, each one atomic step: the original holds its latch across
 them.  Every method is tied to the value-level steps of `BufferPool`.
 */
module BufferPoolManager {
  import opened Options
  import opened Bits
  import opened ExtendibleHash
  import opened LruK
  import opened BufferPool
  import opened PageUsage
  import opened Sets

  const MAX_PAGE_ID := 0x7FFF_FFFF
  const BUCKET_SIZE: nat := 4

  /** `std::hash<int>`: the value as a 64-bit unsigned number. */
  function HashInt(k: int): nat {
    k % 0x1_0000_0000_0000_0000
  }

  class BufferPoolManagerInstance {
    const poolSize: nat
    const pages: array<Page>
    const pageTable: ExtendibleHashTable<int, int>
    const replacer: LRUKReplacer
    const disk: DiskManager
    var freeList: seq<int>
    var nextPageId: int

    /** Pages that clients wrote to since the last time they were reported dirty. */
    ghost var unreported: set<int>

    ghost function State(): Pool
      reads this, pages, pageTable, replacer, disk
    {
      Pool(pages[..], freeList, pageTable.contents, replacer.log, disk.file, nextPageId, unreported)
    }

    ghost predicate PartsValid()
      reads this, pages, pageTable, pageTable.dir, replacer, disk
    {
      && pages.Length == poolSize
      && pageTable.Valid() && pageTable.hash == HashInt && pageTable.bucketSize == BUCKET_SIZE
      && replacer.Valid() && replacer.replacerSize == poolSize
      && 0 <= nextPageId <= MAX_PAGE_ID
      && (forall p :: p in pageTable.seen ==> 0 <= p < nextPageId)
    }

    ghost predicate Valid()
      reads this, pages, pageTable, pageTable.dir, replacer, disk
    {
      PartsValid() && Fits(State()) && Clean(State()) && Untouched(State())
    }

    constructor (poolSize: nat, disk: DiskManager, replacerK: nat)
      requires replacerK != 1
      requires forall p :: OnDisk(disk.file, p) == Zeros()
      ensures Valid() && Disciplined(State())
      ensures this.poolSize == poolSize && this.disk == disk && replacer.k == replacerK
      ensures fresh(pages) && fresh(pageTable) && fresh(pageTable.dir) && fresh(replacer)
      ensures nextPageId == 0 && pageTable.contents == map[] && unreported == {}
    {
      hide ExtendibleHashTable.Valid, LRUKReplacer.Valid, Fits, Clean, Untouched, Disciplined, Zeros, OnDisk, HashInt;
      this.poolSize := poolSize;
      this.disk := disk;
      pages := new Page[poolSize](i => Blank());
      pageTable := new ExtendibleHashTable(HashInt, BUCKET_SIZE);
      replacer := new LRUKReplacer(poolSize, replacerK);
      freeList := [];
      nextPageId := 0;
      unreported := {};
      new;
      for i := 0 to poolSize
        invariant |freeList| == i && forall j :: 0 <= j < i ==> freeList[j] == j
        modifies `freeList
      {
        freeList := freeList + [i];
      }
      InitFits(State());
    }

    /** The scan for a frame with pin count zero. */
    method AnyUnpinned() returns (found: bool)
      requires PartsValid()
      ensures found <==> exists f :: 0 <= f < poolSize && pages[f].pinCount == 0
    {
      for i := 0 to poolSize
        invariant forall f :: 0 <= f < i ==> pages[f].pinCount != 0
      {
        if pages[i].pinCount == 0 {
          return true;
        }
      }
      return false;
    }

    /** The page ids in use do not collide in the page table. */
    lemma NoCollisions(p: int)
      requires PartsValid() && 0 <= p < nextPageId
      ensures |pageTable.Colliding(p)| < pageTable.bucketSize
    {
      hide LRUKReplacer.Valid, Placed;
      assert pageTable.Colliding(p) <= {p};
      SubsetSize(pageTable.Colliding(p), {p});
    }

    /** The 31-bit page ids keep the page table's directory within the reach of `int` shifts. */
    lemma PageTableDepth()
      requires PartsValid()
      ensures pageTable.globalDepth <= 30
    {
      hide LRUKReplacer.Valid, Placed;
      Pow2Of31();
      assert forall p :: p in pageTable.seen ==> HashInt(p) == p;
      pageTable.MaskFitsInt();
    }

    /**
     A frame for a new page: the first of the free list or, when that is empty, the replacer's
     victim.  The result of Evict is not checked by the original; there always is a victim here.
     */
    method AcquireFrame() returns (f: int)
      requires Valid()
      requires exists g :: 0 <= g < poolSize && pages[g].pinCount == 0
      modifies this`freeList, pages, pageTable, pageTable.dir, replacer, disk
      ensures PartsValid() && FrameTaken(old(State()), State(), f)
      ensures pageTable.dir == old(pageTable.dir)
      ensures old(freeList) != [] ==> f == old(freeList[0])
      ensures old(freeList) == [] ==> IsVictim(old(replacer.log), replacer.k, old(replacer.Evictables()), f)
      ensures Vacated(old(State()), State(), replacer.k)
    {
      hide ExtendibleHashTable.Valid, LRUKReplacer.Valid, Fits, Clean, Untouched, Disciplined, Zeros, OnDisk, HashInt;
      hide FrameTaken, IsVictim, Evictable, Count, Vacated;
      ghost var s := State();
      if freeList != [] {
        TakeFreeTakes(s);
        TakeFreeVacates(s, replacer.k);
        f := freeList[0];
        freeList := freeList[1..];
        assert State() == TakeFree(s);
        return;
      }
      ghost var g :| 0 <= g < poolSize && pages[g].pinCount == 0;
      UnpinnedIsEvictable(s, g);
      var victim := replacer.Evict();
      f := victim.value;
      EvictableIsUnpinned(s, f);
      PageOfFrame(s, f);
      var page := pages[f];
      if page.isDirty {
        disk.WritePage(page.pageId, page.data);
      }
      pages[f] := page.(data := Zeros(), isDirty := false);
      var _ := pageTable.Remove(page.pageId);
      EvictTakes(s, f, disk.file);
      EvictVacates(s, f, disk.file, replacer.k, old(replacer.Evictables()));
      assert State() == EvictFrame(s, f, disk.file);
    }

    /** Puts page `p` into a waiting frame, pinned; its bytes are those on disk, zeros for a page never written. */
    method InstallPage(f: int, p: int, read: bool)
      requires PartsValid() && Detached(State(), f) && Clean(State()) && Untouched(State())
      requires 0 <= p < nextPageId && p !in pageTable.contents
      requires !read ==> OnDisk(disk.file, p) == Zeros()
      modifies pages, pageTable, pageTable.dir, replacer
      ensures Valid()
      ensures forall i :: 0 <= i < |pageTable.dir| ==> pageTable.dir[i] in old(pageTable.dir) || fresh(pageTable.dir[i])
      ensures 0 <= f < poolSize && State() == Install(old(State()), f, p, OnDisk(disk.file, p))
    {
      hide ExtendibleHashTable.Valid, LRUKReplacer.Valid, Fits, Clean, Untouched, Disciplined, Zeros, HashInt;
      hide Pins, View, SameViews, PinnedStay, FramesFit, ReplacerFits;
      ghost var s := State();
      ghost var data := OnDisk(disk.file, p);
      InstallFits(s, f, p, data);
      InstallEffect(s, f, p, data);
      NoCollisions(p);
      pageTable.Insert(p, f);
      var bytes := pages[f].data;
      if read {
        bytes := disk.ReadPage(p, bytes);
      }
      pages[f] := pages[f].(data := bytes, pageId := p, pinCount := 1);
      var _ := replacer.RecordAccess(f);
      var _ := replacer.SetEvictable(f, false);
      assert State() == Install(s, f, p, data);
    }

    /** A new page, all zeros and pinned, under an id that was never used; null when every frame is pinned. */
    method NewPg() returns (r: Option<(int, int)>)
      requires Valid() && nextPageId < MAX_PAGE_ID
      modifies this`freeList, this`nextPageId, pages, pageTable, pageTable.dir, replacer, disk
      ensures Valid()
      ensures forall i :: 0 <= i < |pageTable.dir| ==> pageTable.dir[i] in old(pageTable.dir) || fresh(pageTable.dir[i])
      ensures r.None? <==> |old(Pins(State()))| == poolSize
      ensures r.None? ==> State() == old(State())
      ensures r.Some? ==> r.value.0 == old(nextPageId) && nextPageId == old(nextPageId) + 1
      ensures r.Some? ==> PageArrived(old(State()), State(), r.value.0, r.value.1)
      ensures r.Some? ==> 0 <= r.value.1 < poolSize && pages[r.value.1].data == Zeros()
      ensures r.Some? ==> Came(old(State()), State(), r.value.0, replacer.k)
      ensures unreported == old(unreported)
    {
      hide ExtendibleHashTable.Valid, LRUKReplacer.Valid, Fits, Clean, Disciplined, Zeros, OnDisk, HashInt;
      hide Detached, Pins, View, SameViews, PinnedStay, IsVictim, Came, Vacated;
      ghost var s := State();
      RoomIff(s);
      var isFreePage := AnyUnpinned();
      if !isFreePage {
        return None;
      }
      var p := nextPageId;
      nextPageId := nextPageId + 1;
      NextIdFits(s);
      ghost var s1 := State();
      assert s1 == s.(next := s.next + 1);
      var f := AcquireFrame();
      ghost var s2 := State();
      TakeAndInstall(s1, s2, f, p);
      InstallComes(s1, s2, f, p, OnDisk(s2.file, p), replacer.k);
      InstallPage(f, p, false);
      SameUsesBefore(s, s1, State(), p, replacer.k);
      ArrivedAfterNextId(s, State(), p, f);
      return Some((p, f));
    }

    /** The first branch of a fetch: the page is resident. */
    method PinResident(p: int, f: int)
      requires Valid() && p in pageTable.contents && pageTable.contents[p] == f
      modifies pages, replacer
      ensures Valid() && 0 <= f < poolSize && State() == Pin(old(State()), f)
      ensures Pins(State()) == old(Pins(State()))[p := if p in old(Pins(State())) then old(Pins(State()))[p] + 1 else 1]
      ensures PinnedStay(old(State()), State()) && SameViews(old(State()), State())
      ensures old(Disciplined(State())) ==> Disciplined(State())
      ensures Came(old(State()), State(), p, replacer.k)
    {
      hide ExtendibleHashTable.Valid, LRUKReplacer.Valid, Fits, Clean, Untouched, Disciplined, Zeros, OnDisk, HashInt;
      hide Pins, View, SameViews, PinnedStay, Came;
      ghost var s := State();
      FrameOfPage(s, p);
      PinFits(s, f);
      PinEffect(s, f);
      PinnedStays(s, f);
      PinComes(s, p, replacer.k);
      pages[f] := pages[f].(pinCount := pages[f].pinCount + 1);
      var _ := replacer.RecordAccess(f);
      var _ := replacer.SetEvictable(f, false);
      assert State() == Pin(s, f);
    }

    /** Page `p`, pinned once more; null when it is neither resident nor has a frame to go to. */
    method FetchPg(p: int) returns (r: Option<int>)
      requires Valid() && 0 <= p < nextPageId
      modifies this`freeList, pages, pageTable, pageTable.dir, replacer, disk
      ensures Valid()
      ensures forall i :: 0 <= i < |pageTable.dir| ==> pageTable.dir[i] in old(pageTable.dir) || fresh(pageTable.dir[i])
      ensures r.None? <==> p !in old(Pins(State())) && |old(Pins(State()))| == poolSize
      ensures r.None? ==> State() == old(State())
      ensures r.Some? ==> p in pageTable.contents && pageTable.contents[p] == r.value && 0 <= r.value < poolSize
      ensures r.Some? ==>
                && Pins(State()) == old(Pins(State()))[p := if p in old(Pins(State())) then old(Pins(State()))[p] + 1
                                                            else 1]
                && PinnedStay(old(State()), State())
      ensures r.Some? && old(Disciplined(State())) ==> Disciplined(State()) && SameViews(old(State()), State())
      ensures r.Some? && old(Disciplined(State())) ==> pages[r.value].data == View(old(State()), p)
      ensures r.Some? ==> Came(old(State()), State(), p, replacer.k)
      ensures nextPageId == old(nextPageId) && unreported == old(unreported)
    {
      hide ExtendibleHashTable.Valid, LRUKReplacer.Valid, Fits, Clean, Untouched, Disciplined, Zeros, OnDisk, HashInt;
      hide Detached, Pins, View, SameViews, PinnedStay, IsVictim, Came, Vacated;
      ghost var s := State();
      var found := pageTable.Find(p);
      if found.Some? {
        FrameOfPage(s, p);
        ResidentHasRoom(s, p);
        ViewOfResident(s, p);
        PinResident(p, found.value);
        return Some(found.value);
      }
      RoomIff(s);
      NotPinned(s, p);
      var isFreePage := AnyUnpinned();
      if !isFreePage {
        return None;
      }
      var f := AcquireFrame();
      ghost var s2 := State();
      TakeAndInstall(s, s2, f, p);
      InstallComes(s, s2, f, p, OnDisk(s2.file, p), replacer.k);
      InstallPage(f, p, true);
      FetchedView(s, State(), p, f);
      return Some(f);
    }

    /** True exactly for a pinned page; the discipline is lost only by dropping the last pin on unreported writes. */
    method UnpinPg(p: int, isDirty: bool) returns (r: bool)
      requires Valid()
      modifies this`unreported, pages, replacer
      ensures Valid()
      ensures r <==> p in old(Pins(State()))
      ensures !r ==> State() == old(State())
      ensures r ==> Pins(State()) == var pins := old(Pins(State()));
                                     if pins[p] == 1 then pins - {p} else pins[p := pins[p] - 1]
      ensures SameViews(old(State()), State())
      ensures pageTable.contents == old(pageTable.contents)
      ensures r && old(Disciplined(State())) ==>
                (Disciplined(State()) <==> isDirty || old(Pins(State()))[p] > 1 || p !in old(unreported))
      ensures unreported == if r && isDirty then old(unreported) - {p} else old(unreported)
      ensures SameUses(old(State()), State())
    {
      hide ExtendibleHashTable.Valid, LRUKReplacer.Valid, Fits, Clean, Untouched, Disciplined, Zeros, OnDisk, HashInt;
      hide View, Evictable, Count, SameUses;
      ghost var s := State();
      MarkUses(s, 0, true, s);
      var found := pageTable.Find(p);
      if found.None? {
        return false;
      }
      var f := found.value;
      FrameOfPage(s, p);
      if pages[f].pinCount <= 0 {
        return false;
      }
      UnpinFits(s, f, isDirty);
      UnpinEffect(s, f, isDirty);
      if isDirty {
        pages[f] := pages[f].(isDirty := isDirty);
        unreported := unreported - {p};
      }
      pages[f] := pages[f].(pinCount := pages[f].pinCount - 1);
      if pages[f].pinCount == 0 {
        var _ := replacer.SetEvictable(f, true);
      }
      assert State() == Unpin(s, f, isDirty);
      MarkUses(s, f, true, State());
      return true;
    }

    /** Writes a resident page to disk; the dirty flag is left as it is. */
    method FlushPg(p: int) returns (r: bool)
      requires Valid()
      modifies disk
      ensures Valid()
      ensures r <==> p in pageTable.contents
      ensures State() == old(State()).(file := disk.file)
      ensures SameViews(old(State()), State())
      ensures r ==> OnDisk(disk.file, p) == View(State(), p)
      ensures forall q :: q != p ==> OnDisk(disk.file, q) == OnDisk(old(disk.file), q)
      ensures old(Disciplined(State())) ==> Disciplined(State())
    {
      hide ExtendibleHashTable.Valid, LRUKReplacer.Valid, Fits, Clean, Untouched, Disciplined, Zeros, OnDisk, HashInt;
      hide View;
      ghost var s := State();
      if p == INVALID_PAGE_ID {
        InvalidNotResident(s);
        return false;
      }
      var found := pageTable.Find(p);
      if found.None? {
        return false;
      }
      FrameOfPage(s, p);
      disk.WritePage(p, pages[found.value].data);
      FlushEffect(s, found.value, disk.file);
      return true;
    }

    /** The second half of a flush, in a state in which the write may land: clients see nothing of it. */
    method LandFlush(p: int, f: int)
      requires Valid() && 0 <= f < poolSize && SafeToLand(State(), f, p)
      modifies disk
      ensures Valid() && State() == old(State()).(file := disk.file)
      ensures SameViews(old(State()), State())
      ensures pageTable.contents[p] == f ==> OnDisk(disk.file, p) == View(State(), p)
      ensures old(Disciplined(State())) ==> Disciplined(State())
    {
      hide ExtendibleHashTable.Valid, LRUKReplacer.Valid, Fits, Clean, Untouched, Disciplined, Zeros, OnDisk, HashInt;
      hide SameViews;
      ghost var s := State();
      FrameOfPage(s, p);
      disk.WritePage(p, pages[f].data);
      SafeLanding(s, f, p, disk.file);
      FitsIgnoresDisk(s, disk.file);
      UntouchedStays(s, p, disk.file);
    }

    /** Afterwards the disk alone has every page as clients see it. */
    method FlushAllPgs()
      requires Valid()
      modifies disk
      ensures Valid()
      ensures State() == old(State()).(file := disk.file)
      ensures SameViews(old(State()), State())
      ensures forall p :: OnDisk(disk.file, p) == View(State(), p)
      ensures old(Disciplined(State())) ==> Disciplined(State())
    {
      hide ExtendibleHashTable.Valid, LRUKReplacer.Valid, Fits, Clean, Untouched, Disciplined, Zeros, OnDisk, HashInt;
      ghost var s := State();
      for f := 0 to poolSize
        invariant Valid() && State() == s.(file := disk.file)
        invariant SameViews(s, State())
        invariant Disciplined(s) ==> Disciplined(State())
        invariant forall p :: p in s.table && 0 <= s.table[p] < f ==> OnDisk(disk.file, p) == View(s, p)
      {
        ghost var before := disk.file;
        PagesDistinct(s, f);
        var _ := FlushPg(pages[f].pageId);
      }
      forall p ensures OnDisk(disk.file, p) == View(State(), p) {
        if p in s.table { FrameOfPage(s, p); }
      }
    }

    /** False exactly for a pinned page; a resident unpinned page leaves its frame blank and free. */
    method DeletePg(p: int) returns (r: bool)
      requires Valid()
      modifies this`freeList, pages, pageTable, pageTable.dir, replacer
      ensures Valid()
      ensures pageTable.dir == old(pageTable.dir)
      ensures r <==> p !in old(Pins(State()))
      ensures !r ==> State() == old(State())
      ensures r ==> p !in pageTable.contents && Went(old(State()), State(), p)
      ensures Pins(State()) == old(Pins(State())) && PinnedStay(old(State()), State())
      ensures forall q :: q != p ==> View(State(), q) == View(old(State()), q)
      ensures old(Disciplined(State())) ==> Disciplined(State())
      ensures nextPageId == old(nextPageId)
    {
      hide ExtendibleHashTable.Valid, LRUKReplacer.Valid, Fits, Clean, Untouched, Disciplined, Zeros, OnDisk, HashInt;
      hide View, Evictable, Count, Went;
      ghost var s := State();
      var found := pageTable.Find(p);
      if found.None? {
        NotPinned(s, p);
        AbsentWent(s, p);
        return true;
      }
      var f := found.value;
      FrameOfPage(s, p);
      if pages[f].pinCount > 0 {
        return false;
      }
      FreeFitsAfter(s, f);
      FreeEffect(s, f);
      FreeGoes(s, f);
      UnpinnedIsTracked(s, f);
      var _ := replacer.Remove(f);
      pages[f] := Blank();
      var _ := pageTable.Remove(p);
      freeList := freeList + [f];
      assert State() == Free(s, f);
      return true;
    }

    /** A client writes to a page it holds a pin on, through the pointer it was given. */
    method ClientWrite(p: int, data: Bytes)
      requires Valid() && p in Pins(State())
      modifies this`unreported, pages
      ensures Valid()
      ensures View(State(), p) == data && forall q :: q != p ==> View(State(), q) == View(old(State()), q)
      ensures Pins(State()) == old(Pins(State())) && pageTable.contents == old(pageTable.contents)
      ensures unreported == old(unreported) + {p} && replacer.log == old(replacer.log)
      ensures old(Disciplined(State())) ==> Disciplined(State())
    {
      hide ExtendibleHashTable.Valid, LRUKReplacer.Valid, Fits, Clean, Untouched, Disciplined, Zeros, OnDisk, HashInt;
      hide View;
      ghost var s := State();
      FrameOfPage(s, p);
      var found := pageTable.Find(p);
      var f := found.value;
      WriteFits(s, f, data);
      WriteEffect(s, f, data);
      pages[f] := pages[f].(data := data);
      unreported := unreported + {p};
      assert State() == Write(s, f, data);
    }
  }
}
