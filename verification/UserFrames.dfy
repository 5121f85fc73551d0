/** The frames copy-on-write shares are the single pages of the buddy allocator's user pool. */
module UserFrames {
  import opened Bits
  import opened Blocks
  import opened Options
  import Vma
  import opened BuddySpec
  import opened BuddyTheorems
  import opened BuddyLists
  import opened Buddy
  import Cow = CowSpec
  import CowTheorems

  // ---------- one page ----------

  ghost predicate SinglePages(live: set<Block>) {
    forall b <- live :: b.o == 0
  }

  lemma PageBlock(f: nat, lo: nat, hi: nat)
    ensures InPool(Block(f, 0), lo, hi) <==> PageInPool(f, lo, hi)
    ensures Shr(f, 0) == f == Shl(f, 0)
  {
  }

  lemma RunOfOne(free: set<Block>, f: nat)
    ensures WhollyFree(free, Block(f, 0)) <==> PageIsFree(free, f)
  {
    assert PageInBlock(f, Block(f, 0));
  }

  // Where only single pages are allocated, a page lies in a free block exactly when it is not allocated.
  lemma FreeIffNotLive(areas: seq<Area>, live: set<Block>, f: nat, lo: nat, hi: nat)
    requires Inv(areas, live, lo, hi) && SinglePages(live) && PageInPool(f, lo, hi)
    ensures PageIsFree(FreeBlocks(areas), f) <==> Block(f, 0) !in live
  {
    hide ListsMatch, BitsMatch, FreeBlocks, NoBuddies;
    var free := FreeBlocks(areas);
    PageBlock(f, lo, hi);
    assert free + live + {} == free + live;
    var o: nat :| o <= MAX_ORDER && CoveredAt(free + live, f, o);
    assert Block(Shr(f, o), o) in free + live;
    if Block(f, 0) in live {
      assert o == 0;
    }
  }

  // ---------- the user pool and the frames ----------

  // s is what copy-on-write knows of the user pool: its pages are the frames, the frames in the pool are those
  // not allocated, and the others have the page's count.
  ghost predicate Tied(s: Cow.Frames, a: PageAllocator)
    reads a, a.kernelArea, a.userArea
  {
    && a.Valid() && SinglePages(a.userArea.live)
    && s.pool <= s.count.Keys
    && (forall f :: f in s.count <==> PageInPool(f, a.userArea.lo, a.userArea.hi))
    && (forall f | f in s.count :: f in s.pool <==> Block(f, 0) !in a.userArea.live)
    && (forall f | f in s.count && f !in s.pool :: f < |a.memMap| && s.count[f] == a.memMap[f].count)
  }

  // A frame is in the pool exactly when its page lies in a free block of the user pool.
  lemma PooledIsFree(s: Cow.Frames, a: PageAllocator, f: nat)
    requires Tied(s, a) && f in s.count
    ensures f in s.pool <==> PageIsFree(FreeBlocks(a.userArea.areas), f)
  {
    hide ListsMatch, BitsMatch, Tiled, FreeBlocks, PageIsFree;
    FreeIffNotLive(a.userArea.areas, a.userArea.live, f, a.userArea.lo, a.userArea.hi);
  }

  // At the start no frame is in use.
  lemma InitiallyTied(s: Cow.Frames, a: PageAllocator)
    requires a.Valid() && a.userArea.live == {} && s.pool == s.count.Keys
    requires forall f :: f in s.count <==> PageInPool(f, a.userArea.lo, a.userArea.hi)
    ensures Tied(s, a)
  {
  }

  // alloc_pages for one page fails exactly when no frame is in the pool.
  lemma ServedIffPooled(s: Cow.Frames, a: PageAllocator)
    requires Tied(s, a)
    ensures |a.userArea.areas| == MAX_ORDER + 1
    ensures forall o | 0 <= o <= MAX_ORDER :: a.userArea.areas[o].nrFree == |a.userArea.areas[o].pgList|
    ensures Alloc(a.userArea.areas, 0).Panic? <==> s.pool == {}
  {
    hide Mid, Alloc, FreeBlocks, PageIsFree, WhollyFree;
    var u := a.userArea;
    MidShape(u.areas, u.live, {}, u.lo, u.hi);
    PanicIffNoRun(u.areas, u.live, 0, u.lo, u.hi);
    forall f: nat | PageInPool(f, u.lo, u.hi)
      ensures WhollyFree(FreeBlocks(u.areas), Block(f, 0)) <==> f in s.pool
    {
      RunOfOne(FreeBlocks(u.areas), f);
      PooledIsFree(s, a, f);
    }
    forall f: nat
      ensures InPool(Block(f, 0), u.lo, u.hi) <==> PageInPool(f, u.lo, u.hi)
    {
      PageBlock(f, u.lo, u.hi);
    }
  }

  // get_free_page(USER_POOL)
  method GetFrame(a: PageAllocator, ghost s: Cow.Frames) returns (r: Option<nat>)
    requires Tied(s, a)
    modifies a`memMap, a.userArea
    ensures r == None <==> s.pool == {}
    ensures r == None ==> Tied(s, a)
    ensures r.Some? ==> r.value in s.pool && Tied(Cow.Frames(s.count[r.value := 1], s.pool - {r.value}), a)
  {
    hide Mid, Alloc, ServedFrom, NoneFrom;
    ServedIffPooled(s, a);
    ghost var u := a.userArea;
    ghost var areas, live := u.areas, u.live;
    if s.pool != {} {
      ghost var b := AllocKeepsInv(areas, live, 0, u.lo, u.hi);
      PageBlock(b.k, u.lo, u.hi);
    }
    r := a.AllocPages(true, 0);
    if r.Some? {
      PageBlock(r.value, u.lo, u.hi);
    }
  }

  // copy_pt's further reference on a page that is in use
  method ShareFrame(a: PageAllocator, ghost s: Cow.Frames, f: nat)
    requires Tied(s, a) && f in s.count && f !in s.pool
    modifies a`memMap
    ensures Tied(Cow.Frames(s.count[f := s.count[f] + 1], s.pool), a)
  {
    hide Mid;
    PageBlock(f, a.userArea.lo, a.userArea.hi);
    a.AddReference(f, 0, true);
  }

  // free_page on a page that is in use
  method FreeFrame(a: PageAllocator, ghost s: Cow.Frames, f: nat)
    requires Tied(s, a) && f in s.count && f !in s.pool
    modifies a`memMap, a.userArea
    ensures var (count, pool) := Cow.ReleaseFrame(s.count, s.pool, f); Tied(Cow.Frames(count, pool), a)
  {
    hide Mid, Release, MergedUpTo;
    PageBlock(f, a.userArea.lo, a.userArea.hi);
    a.FreePages(f, 0);
  }

  // When the frame's one entry goes, its page goes back: it lies in a free block of the user pool.
  method FreeLastEntry(a: PageAllocator, ghost w: Cow.World, ghost k: Cow.Page, f: nat)
    requires Cow.Inv(w) && Tied(Cow.Frames(w.count, w.pool), a)
    requires k in w.entries && w.entries[k].frame == f && f in w.count && Cow.Refs(w.entries, f) == {k}
    modifies a`memMap, a.userArea
    ensures var (count, pool) := Cow.ReleaseFrame(w.count, w.pool, f); f in pool && Tied(Cow.Frames(count, pool), a)
    ensures PageIsFree(FreeBlocks(a.userArea.areas), f)
  {
    hide Mid, Tied, PageIsFree;
    CowTheorems.MappedFrame(w, k);
    FreeFrame(a, Cow.Frames(w.count, w.pool), f);
    ghost var (count, pool) := Cow.ReleaseFrame(w.count, w.pool, f);
    PooledIsFree(Cow.Frames(count, pool), a, f);
  }

  // ---------- exec's releases ----------

  // Every mapped page of p that is still to be visited maps a frame in use, and no two of them the same.
  ghost predicate Pending(s: Cow.Frames, entries: map<Cow.Page, Cow.Pte>, p: nat, from: nat, to: nat) {
    && (forall k | k in entries && k.pid == p && from <= k.no < to ::
          entries[k].frame in s.count && entries[k].frame !in s.pool)
    && OneToOne(entries, p)
  }

  ghost predicate OneToOne(entries: map<Cow.Page, Cow.Pte>, p: nat) {
    forall k, m | k in entries && m in entries && k.pid == m.pid == p && k != m :: entries[k].frame != entries[m].frame
  }

  lemma ReleasedPage(s: Cow.Frames, entries: map<Cow.Page, Cow.Pte>, p: nat, from: nat, to: nat)
    requires Pending(s, entries, p, from, to) && from < to
    ensures Pending(Cow.ReleasePage(s, entries, Cow.Page(p, from)), entries, p, from + 1, to)
  {
  }

  // The pages from up to to of process p, in order
  method FreeRange(a: PageAllocator, ghost s: Cow.Frames, entries: map<Cow.Page, Cow.Pte>, p: nat, from: nat, to: nat)
      returns (ghost s': Cow.Frames)
    requires Tied(s, a) && Pending(s, entries, p, from, to)
    modifies a`memMap, a.userArea
    ensures s' == Cow.ReleaseRange(s, entries, p, from, to) && Tied(s', a)
  {
    hide Tied, Pending;
    s' := s;
    var i := from;
    while i < to
      invariant from <= i && Tied(s', a) && Pending(s', entries, p, i, to)
      invariant Cow.ReleaseRange(s', entries, p, i, to) == Cow.ReleaseRange(s, entries, p, from, to)
    {
      var k := Cow.Page(p, i);
      ReleasedPage(s', entries, p, i, to);
      ghost var next := Cow.ReleasePage(s', entries, k);
      if k in entries {
        PendingPage(s', entries, p, i, to);
        FreeFrame(a, s', entries[k].frame);
      }
      s' := next;
      i := i + 1;
    }
  }

  lemma PendingPage(s: Cow.Frames, entries: map<Cow.Page, Cow.Pte>, p: nat, i: nat, to: nat)
    requires Pending(s, entries, p, i, to) && i < to && Cow.Page(p, i) in entries
    ensures entries[Cow.Page(p, i)].frame in s.count && entries[Cow.Page(p, i)].frame !in s.pool
  {
  }

  // Every mapped page of the regions still to be visited maps a frame in use and is in one region only.
  ghost predicate RegionsPending(s: Cow.Frames, entries: map<Cow.Page, Cow.Pte>, p: nat, regions: seq<Vma.Region>) {
    && OneToOne(entries, p)
    && (forall k | k in entries && k.pid == p :: entries[k].frame in s.count && Vma.Covering(regions, k.no) <= 1)
    && (forall k | k in entries && k.pid == p && Vma.Covering(regions, k.no) == 1 :: entries[k].frame !in s.pool)
  }

  lemma FirstPending(s: Cow.Frames, entries: map<Cow.Page, Cow.Pte>, p: nat, regions: seq<Vma.Region>)
    requires RegionsPending(s, entries, p, regions) && regions != []
    ensures Pending(s, entries, p, Vma.FirstPage(regions[0]), Vma.PageAfter(regions[0]))
  {
    forall k | k in entries && k.pid == p && Vma.FirstPage(regions[0]) <= k.no < Vma.PageAfter(regions[0])
      ensures entries[k].frame in s.count && entries[k].frame !in s.pool
    {
      assert Vma.HasPage(regions[0], k.no);
    }
  }

  lemma RestPending(s: Cow.Frames, entries: map<Cow.Page, Cow.Pte>, p: nat, regions: seq<Vma.Region>)
    requires RegionsPending(s, entries, p, regions) && regions != []
    ensures var s' := Cow.ReleaseRange(s, entries, p, Vma.FirstPage(regions[0]), Vma.PageAfter(regions[0]));
            RegionsPending(s', entries, p, regions[1..])
  {
    var from, to := Vma.FirstPage(regions[0]), Vma.PageAfter(regions[0]);
    var s' := Cow.ReleaseRange(s, entries, p, from, to);
    CowTheorems.ReleaseRangeKeys(s, entries, p, from, to);
    forall k | k in entries && k.pid == p
      ensures entries[k].frame in s'.count && Vma.Covering(regions[1..], k.no) <= 1
      ensures Vma.Covering(regions[1..], k.no) == 1 ==> entries[k].frame !in s'.pool
    {
      if Vma.Covering(regions[1..], k.no) == 1 {
        assert !Vma.HasPage(regions[0], k.no);
        assert k == Cow.Page(p, k.no);
        CowTheorems.ReleaseRangeEffect(s, entries, p, from, to, entries[k].frame, k.no);
      }
    }
  }

  // exec_mmap's loop over the regions, on the allocator itself: every release is of a page in use, and what the
  // allocator is left with is what teardown says.
  method FreeRegions(a: PageAllocator, ghost w: Cow.World, entries: map<Cow.Page, Cow.Pte>, p: nat,
                     regions: seq<Vma.Region>)
    requires Cow.Safe(w) && Cow.AtMostOnce(w, p) && entries == w.entries && regions == w.spaces[p].regions
    requires Tied(Cow.Frames(w.count, w.pool), a)
    modifies a`memMap, a.userArea
    ensures Tied(Cow.Frames(Cow.Teardown(w, p).count, Cow.Teardown(w, p).pool), a)
  {
    hide Tied, RegionsPending, Pending, Cow.ReleaseRange;
    ghost var s := Cow.Frames(w.count, w.pool);
    AllPending(w, p);
    var j := 0;
    while j < |regions|
      invariant 0 <= j <= |regions| && Tied(s, a) && RegionsPending(s, entries, p, regions[j..])
      invariant Cow.ReleaseRegions(s, entries, p, regions[j..])
             == Cow.ReleaseRegions(Cow.Frames(w.count, w.pool), entries, p, regions)
    {
      FirstPending(s, entries, p, regions[j..]);
      RestPending(s, entries, p, regions[j..]);
      assert regions[j..][1..] == regions[j + 1..];
      s := FreeRange(a, s, entries, p, Vma.FirstPage(regions[j]), Vma.PageAfter(regions[j]));
      j := j + 1;
    }
  }

  lemma AllPending(w: Cow.World, p: nat)
    requires Cow.Safe(w) && Cow.AtMostOnce(w, p)
    ensures RegionsPending(Cow.Frames(w.count, w.pool), w.entries, p, w.spaces[p].regions)
  {
    hide Cow.Safe;
    forall k | k in w.entries && k.pid == p
      ensures w.entries[k].frame in w.count && w.entries[k].frame !in w.pool
    {
      CowTheorems.MappedFrame(w, k);
    }
    SpaceOneToOne(w, p);
  }

  lemma SpaceOneToOne(w: Cow.World, p: nat)
    requires Cow.Safe(w)
    ensures OneToOne(w.entries, p)
  {
  }
}
