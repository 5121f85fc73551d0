/** The page allocator of kernel/buddy.c: free areas and page descriptors changed in place. */
module Buddy {
  import opened Bits
  import opened Blocks
  import opened Options
  import opened Seqs
  import opened BuddySpec
  import opened BuddyTheorems
  import opened BuddyLists

  // The two fields of struct page the allocator uses.
  datatype Page = Page(count: int, priv: nat)

  // Whole MAX_ORDER blocks of the kernel and the user pool.
  function PoolSizes(pgCnt: nat): (nat, nat) {
    var nrMaxOrder := Shr(pgCnt, MAX_ORDER);
    (nrMaxOrder / 4, nrMaxOrder - nrMaxOrder / 4)
  }

  // bitmap_init refuses a size of 0, so buddy_init gets through exactly from 4096 pages (16 MiB) on;
  // the pools then share the whole blocks, a fourth of them, rounded down, being the kernel's.
  lemma PoolSizesFacts(pgCnt: nat)
    ensures var (kernel, user) := PoolSizes(pgCnt);
            && (kernel > 0 && user > 0 <==> pgCnt >= 4096)
            && 4 * kernel <= kernel + user < 4 * (kernel + 1)
            && Shl(kernel + user, MAX_ORDER) <= pgCnt < Shl(kernel + user + 1, MAX_ORDER)
  {
    ShrBounds(pgCnt, MAX_ORDER);
    var n := Shr(pgCnt, MAX_ORDER);
    assert Shl(4, 10) == 4096;
    if n >= 4 {
      ShlMonotone(4, n, MAX_ORDER);
    } else {
      ShlMonotone(n + 1, 4, MAX_ORDER);
    }
  }

  // One pool: the array of free areas that kernel_area or user_area names.
  class Pool {
    const lo: nat
    const hi: nat
    var areas: seq<Area>
    ghost var live: set<Block>

    ghost predicate Valid()
      reads this
    {
      Inv(areas, live, lo, hi)
    }

    constructor (lo: nat, hi: nat)
      requires 2 * lo <= hi && lo < hi
      ensures Valid() && this.lo == lo && this.hi == hi && live == {}
      ensures areas == InitialAreas(lo, hi)
    {
      var list: seq<nat> := [];
      var i := lo;
      while i < hi
        invariant lo <= i <= hi && |list| == i - lo
        invariant list == WholeList(lo, i)
      {
        list := list + [Shl(i, MAX_ORDER)];
        i := i + 1;
      }
      var blank := seq(MAX_ORDER + 1, _ => Area(0, [], []));
      var nr := hi - lo;
      var o: int := MAX_ORDER;
      while o >= 0
        invariant -1 <= o <= MAX_ORDER && |blank| == MAX_ORDER + 1
        invariant nr == Shl(hi - lo, MAX_ORDER - o)
        invariant forall q | o < q <= MAX_ORDER :: blank[q] == Area(0, seq(Shl(hi - lo, MAX_ORDER - q), _ => false), [])
      {
        blank := blank[o := Area(0, seq(nr, _ => false), [])];
        nr := 2 * nr;
        o := o - 1;
      }
      this.lo, this.hi := lo, hi;
      areas := blank[MAX_ORDER := blank[MAX_ORDER].(nrFree := hi - lo, pgList := list)];
      live := {};
      new;
      assert list == WholeList(lo, hi);
      assert forall q | 0 <= q <= MAX_ORDER :: areas[q] == InitialArea(q, lo, hi);
      assert areas == InitialAreas(lo, hi);
      InitialInv(lo, hi);
    }

    // bitmap_reverse on the bitmap of order o; returns the new bit
    method ReverseBit(o: nat, bit: nat) returns (r: bool)
      requires o < |areas| && bit < |areas[o].bmap|
      modifies this`areas
      ensures r == !old(areas)[o].bmap[bit]
      ensures areas == old(areas)[o := old(areas)[o].(bmap := Flip(old(areas)[o].bmap, bit))]
    {
      r := !areas[o].bmap[bit];
      areas := areas[o := areas[o].(bmap := areas[o].bmap[bit := r])];
    }

    // nr_free-- and list_pop_front on list o
    method PopFront(o: nat) returns (idx: nat)
      requires o < |areas| && areas[o].pgList != []
      modifies this`areas
      ensures var a := old(areas)[o];
              idx == a.pgList[0] && areas == old(areas)[o := Area(a.nrFree - 1, a.bmap, a.pgList[1..])]
    {
      idx := areas[o].pgList[0];
      areas := areas[o := areas[o].(nrFree := areas[o].nrFree - 1)];
      areas := areas[o := areas[o].(pgList := areas[o].pgList[1..])];
    }

    // list_push_back and nr_free++ on list o
    method PushBack(o: nat, idx: nat)
      requires o < |areas|
      modifies this`areas
      ensures var a := old(areas)[o]; areas == old(areas)[o := Area(a.nrFree + 1, a.bmap, a.pgList + [idx])]
    {
      areas := areas[o := areas[o].(pgList := areas[o].pgList + [idx])];
      areas := areas[o := areas[o].(nrFree := areas[o].nrFree + 1)];
    }

    // list_push_front and nr_free++ on list o
    method PushFront(o: nat, idx: nat)
      requires o < |areas|
      modifies this`areas
      ensures areas == PushedFront(old(areas), idx, o)
    {
      areas := areas[o := areas[o].(pgList := [idx] + areas[o].pgList)];
      areas := areas[o := areas[o].(nrFree := areas[o].nrFree + 1)];
    }

    // list_delete, whose assert wants the page on the list, and nr_free-- on list o
    method Delete(o: nat, idx: nat)
      requires o < |areas| && idx in areas[o].pgList
      modifies this`areas
      ensures var a := old(areas)[o]; areas == old(areas)[o := Area(a.nrFree - 1, a.bmap, Without(a.pgList, idx))]
    {
      areas := areas[o := areas[o].(pgList := Without(areas[o].pgList, idx))];
      areas := areas[o := areas[o].(nrFree := areas[o].nrFree - 1)];
    }

    // Head of list o out, its pair's bit turned over.
    method TakeHead(o: nat) returns (idx: nat)
      requires o < |areas| && areas[o].pgList != []
      requires Shr(areas[o].pgList[0], o + 1) < |areas[o].bmap|
      modifies this`areas
      ensures idx == old(areas)[o].pgList[0] && areas == Take(old(areas), o)
    {
      idx := PopFront(o);
      var r := ReverseBit(o, Shr(idx, o + 1));
    }

    // One turn of the splitting loop.
    method GiveBackUpper(o: nat, idx: nat, size: nat)
      requires o < |areas| && size == Shl(1, o) && Shr(idx, o + 1) < |areas[o].bmap|
      modifies this`areas
      ensures areas == PushUpper(old(areas), idx, o)
    {
      PushBack(o, idx + size);
      var r := ReverseBit(o, Shr(idx, o + 1));
    }

    // One test of the merging loop's condition and, if it holds, the loop's body.
    method TryMerge(o: nat, idx: nat) returns (merged: bool)
      requires o < MAX_ORDER && o < |areas| && Shr(idx, o + 1) < |areas[o].bmap|
      requires Merges(areas, idx, o) ==> FlipBit(idx, o) in areas[o].pgList
      modifies this`areas
      ensures merged == Merges(old(areas), idx, o)
      ensures merged ==> areas == TakeBuddy(old(areas), idx, o)
      ensures !merged ==> areas == old(areas)[o := old(areas)[o].(bmap := Flip(old(areas)[o].bmap, Shr(idx, o + 1)))]
    {
      var ret := ReverseBit(o, Shr(idx, o + 1));
      merged := !ret;
      if merged {
        Delete(o, FlipBit(idx, o));
      }
    }

    // The body of alloc_pages once list o is known to serve.
    method CutBlock(start: nat, order: nat) returns (idx: nat)
      requires Inv(areas, live, lo, hi) && order <= start <= MAX_ORDER
      requires |areas| == MAX_ORDER + 1 && areas[start].nrFree > 0
      modifies this`areas
      ensures old(areas)[start].pgList != [] && idx == old(areas)[start].pgList[0]
      ensures areas == SplitDown(Take(old(areas), start), idx, start, order)
    {
      hide *;
      ghost var cur := SplitStarts(areas, live, start, order, lo, hi);
      ghost var after := SplitDown(Take(areas, start), areas[start].pgList[0], start, order);
      idx := TakeHead(start);
      var size := Shl(1, start) / 2;
      var o: int := start - 1;
      while o >= order
        invariant order - 1 <= o < start && |areas| == MAX_ORDER + 1
        invariant cur.o == o + 1 && Shl(cur.k, cur.o) == idx && Mid(areas, live, {cur}, lo, hi)
        invariant size == Shl(1, o + 1) / 2
        invariant SplitDown(areas, idx, o + 1, order) == after
      {
        SplitTurn(areas, live, cur, order, lo, hi);
        GiveBackUpper(o, idx, size);
        cur := Lower(cur);
        size := size / 2;
        o := o - 1;
      }
      SplitEnds(areas, idx, order);
    }

    // The merging loop of __free_pages.
    method MergeUp(start: nat, order: nat, ghost b: Block)
      requires Mid(areas, live, {b}, lo, hi) && b.o == order && Shl(b.k, order) == start
      modifies this`areas
      ensures order <= MAX_ORDER && |old(areas)| == MAX_ORDER + 1 && areas == Release(old(areas), start, order)
    {
      hide *;
      MidShape(areas, live, {b}, lo, hi);
      assert b in live + {b};
      ghost var after := Release(areas, start, order);
      ghost var cur := b;
      var idx, o := start, order;
      var merged := true;
      while o < MAX_ORDER && merged
        invariant order <= o <= MAX_ORDER && |areas| == MAX_ORDER + 1
        invariant Shl(cur.k, o) == idx
        invariant merged ==> cur.o == o && Mid(areas, live, {cur}, lo, hi) && Release(areas, idx, o) == after
        invariant !merged ==> o < MAX_ORDER && PushedFront(areas, idx, o) == after
        decreases MAX_ORDER - o, merged
      {
        MergeTurn(areas, live, cur, lo, hi);
        merged := TryMerge(o, idx);
        if merged {
          idx := ClearBit(idx, o);
          o := o + 1;
          cur := Block(cur.k / 2, o);
        }
      }
      if o == MAX_ORDER {
        ReleaseEnds(areas, idx);
      }
      PushFront(o, idx);
    }

    method PutBlock(start: nat, order: nat)
      requires Valid() && Block(Shr(start, order), order) in live && Shl(Shr(start, order), order) == start
      modifies this
      ensures order <= MAX_ORDER && |old(areas)| == MAX_ORDER + 1 && areas == Release(old(areas), start, order)
      ensures exists n: nat :: MergedUpTo(old(areas), areas, Block(Shr(start, order), order), n)
      ensures live == old(live) - {Block(Shr(start, order), order)}
      ensures Valid()
    {
      ghost var b := Block(Shr(start, order), order);
      PickLive(FreeBlocks(areas), live, b, lo, hi);
      ReleaseKeepsInv(areas, live, b, lo, hi);
      ghost var n := ReleaseMerges(areas, live, b, lo, hi);
      live := live - {b};
      MergeUp(start, order, b);
    }

    // The searching loop of alloc_pages.
    method FindList(order: nat) returns (o: nat)
      requires |areas| == MAX_ORDER + 1 && order <= MAX_ORDER
      ensures o == FindOrder(areas, order)
    {
      o := order;
      while o <= MAX_ORDER && areas[o].nrFree <= 0
        invariant order <= o <= MAX_ORDER + 1
        invariant FindOrder(areas, order) == FindOrder(areas, o)
      {
        o := o + 1;
      }
    }

    method Allocate(order: nat) returns (r: Option<nat>)
      requires Valid() && order <= MAX_ORDER
      modifies this
      ensures Valid()
      ensures match Alloc(old(areas), order)
              case Panic => r == None && areas == old(areas) && live == old(live)
              case Allocated(idx, areas') =>
                && r == Some(idx) && areas == areas'
                && Shl(Shr(idx, order), order) == idx
                && live == old(live) + {Block(Shr(idx, order), order)}
      ensures r == None <==> NoneFrom(old(areas), order)
      ensures r.Some? ==> exists o: nat :: ServedFrom(old(areas), areas, r.value, order, o)
    {
      AllocTakesLeast(areas, live, order, lo, hi);
      MidShape(areas, live, {}, lo, hi);
      var o := FindList(order);
      if o > MAX_ORDER {
        return None;
      }
      ghost var b := AllocKeepsInv(areas, live, order, lo, hi);
      ShrShl(b.k, order);
      var idx := CutBlock(o, order);
      live := live + {b};
      r := Some(idx);
    }
  }

  lemma SplitStarts(areas: seq<Area>, live: set<Block>, o: nat, order: nat, lo: nat, hi: nat) returns (cur: Block)
    requires Inv(areas, live, lo, hi) && order <= o <= MAX_ORDER
    requires |areas| == MAX_ORDER + 1 && areas[o].nrFree > 0
    ensures areas[o].pgList != []
    ensures var idx := areas[o].pgList[0];
            && Shr(idx, o + 1) < |areas[o].bmap|
            && |Take(areas, o)| == |areas|
            && cur.o == o && Shl(cur.k, o) == idx && Mid(Take(areas, o), live, {cur}, lo, hi)
  {
    MidShape(areas, live, {}, lo, hi);
    cur := TakeKeeps(areas, live, o, lo, hi);
  }

  lemma SplitTurn(areas: seq<Area>, live: set<Block>, cur: Block, order: nat, lo: nat, hi: nat)
    requires Mid(areas, live, {cur}, lo, hi) && order < cur.o
    ensures cur.o <= MAX_ORDER && |areas| == MAX_ORDER + 1
    ensures Shr(Shl(cur.k, cur.o), cur.o) < |areas[cur.o - 1].bmap|
    ensures Shl(1, cur.o) / 2 == Shl(1, cur.o - 1)
    ensures Shl(Lower(cur).k, Lower(cur).o) == Shl(cur.k, cur.o) && Lower(cur).o == cur.o - 1
    ensures var idx := Shl(cur.k, cur.o);
            var next := PushUpper(areas, idx, cur.o - 1);
            && |next| == |areas|
            && Mid(next, live, {Lower(cur)}, lo, hi)
            && SplitDown(areas, idx, cur.o, order) == SplitDown(next, idx, cur.o - 1, order)
  {
    MidShape(areas, live, {cur}, lo, hi);
    PushUpperKeeps(areas, live, cur, lo, hi);
  }

  lemma SplitEnds(areas: seq<Area>, idx: nat, order: nat)
    requires order <= |areas|
    ensures SplitDown(areas, idx, order, order) == areas
  {
  }

  function PushedFront(areas: seq<Area>, idx: nat, o: nat): seq<Area>
    requires o < |areas|
  {
    areas[o := Area(areas[o].nrFree + 1, areas[o].bmap, [idx] + areas[o].pgList)]
  }

  lemma PairBitInRange(areas: seq<Area>, live: set<Block>, cur: Block, lo: nat, hi: nat)
    requires Mid(areas, live, {cur}, lo, hi) && cur.o < MAX_ORDER
    ensures |areas| == MAX_ORDER + 1 && Shr(Shl(cur.k, cur.o), cur.o + 1) < |areas[cur.o].bmap|
  {
    PartitionInPool(FreeBlocks(areas), live, {cur}, cur, lo, hi);
    PairIndex(cur, lo, hi);
  }

  lemma MergeTurn(areas: seq<Area>, live: set<Block>, cur: Block, lo: nat, hi: nat)
    requires Mid(areas, live, {cur}, lo, hi) && cur.o < MAX_ORDER
    ensures |areas| == MAX_ORDER + 1
    ensures var idx, o := Shl(cur.k, cur.o), cur.o;
            && Shr(idx, o + 1) < |areas[o].bmap|
            && if Merges(areas, idx, o) then
                 var next := TakeBuddy(areas, idx, o);
                 && FlipBit(idx, o) in areas[o].pgList
                 && |next| == |areas|
                 && Mid(next, live, {Block(cur.k / 2, o + 1)}, lo, hi)
                 && ClearBit(idx, o) == Shl(cur.k / 2, o + 1)
                 && Release(areas, idx, o) == Release(next, ClearBit(idx, o), o + 1)
               else
                 var next := areas[o := areas[o].(bmap := Flip(areas[o].bmap, Shr(idx, o + 1)))];
                 |next| == |areas| && Release(areas, idx, o) == PushedFront(next, idx, o)
  {
    hide Mid;
    MidShape(areas, live, {cur}, lo, hi);
    PairBitInRange(areas, live, cur, lo, hi);
    if Merges(areas, Shl(cur.k, cur.o), cur.o) {
      TakeBuddyKeeps(areas, live, cur, lo, hi);
    }
  }

  lemma ReleaseEnds(areas: seq<Area>, idx: nat)
    requires |areas| == MAX_ORDER + 1
    ensures Release(areas, idx, MAX_ORDER) == PushedFront(areas, idx, MAX_ORDER)
  {
  }

  // Every allocated block is referenced and remembers its order.
  ghost predicate HeadsMatch(memMap: seq<Page>, live: set<Block>) {
    forall b <- live ::
      var page := Shl(b.k, b.o);
      page < |memMap| && memMap[page].count >= 1 && memMap[page].priv == b.o
  }

  lemma HeadInPool(b: Block, lo: nat, hi: nat)
    requires InPool(b, lo, hi)
    ensures Shl(lo, MAX_ORDER) <= Shl(b.k, b.o) < Shl(hi, MAX_ORDER)
  {
    FirstPage(b);
    PageOfBlock(Shl(b.k, b.o), b, lo, hi);
  }

  // No two allocated blocks start at the same page.
  lemma HeadsDiffer(areas: seq<Area>, live: set<Block>, b: Block, lo: nat, hi: nat)
    requires Inv(areas, live, lo, hi) && b in live
    ensures InPool(b, lo, hi)
    ensures forall c <- live - {b} :: Shl(c.k, c.o) != Shl(b.k, b.o)
  {
    var tiles := FreeBlocks(areas) + live + {};
    assert b in tiles;
    forall c | c in live - {b}
      ensures Shl(c.k, c.o) != Shl(b.k, b.o)
    {
      FirstPage(b);
      FirstPage(c);
      if Shl(c.k, c.o) == Shl(b.k, b.o) {
        assert c in tiles;
        TilesDisjoint(tiles, b, c, Shl(b.k, b.o), lo, hi);
      }
    }
  }

  // The other pool's blocks start elsewhere.
  lemma HeadsElsewhere(areas: seq<Area>, live: set<Block>, p: nat, lo: nat, hi: nat)
    requires Inv(areas, live, lo, hi) && !PageInPool(p, lo, hi)
    ensures forall c <- live :: Shl(c.k, c.o) != p
  {
    forall c | c in live
      ensures Shl(c.k, c.o) != p
    {
      PartitionInPool(FreeBlocks(areas), live, {}, c, lo, hi);
      HeadInPool(c, lo, hi);
    }
  }

  class PageAllocator {
    var memMap: seq<Page>
    const userStartIdx: nat
    const kernelArea: Pool
    const userArea: Pool

    ghost predicate Valid()
      reads this, kernelArea, userArea
    {
      && kernelArea != userArea
      && kernelArea.lo == 0 && kernelArea.hi == userArea.lo
      && userStartIdx == Shl(userArea.lo, MAX_ORDER)
      && Shl(userArea.hi, MAX_ORDER) <= |memMap|
      && kernelArea.Valid() && userArea.Valid()
      && HeadsMatch(memMap, kernelArea.live) && HeadsMatch(memMap, userArea.live)
    }

    constructor (pgCnt: nat)
      requires pgCnt >= 4096
      ensures Valid() && |memMap| == pgCnt && fresh(kernelArea) && fresh(userArea)
      ensures (kernelArea.hi, userArea.hi - userArea.lo) == PoolSizes(pgCnt)
      ensures kernelArea.live == {} && userArea.live == {}
    {
      hide Mid, Shl, Shr, InitialAreas;
      PoolSizesFacts(pgCnt);
      var nrMaxOrder := Shr(pgCnt, MAX_ORDER);
      var kernelNr := nrMaxOrder / 4;
      userStartIdx := Shl(kernelNr, MAX_ORDER);
      kernelArea := new Pool(0, kernelNr);
      userArea := new Pool(kernelNr, nrMaxOrder);
      memMap := seq(pgCnt, _ => Page(0, 0));
    }

    ghost function PoolOf(userPool: bool): Pool {
      if userPool then userArea else kernelArea
    }

    // alloc_pages; None is its PANIC
    method AllocPages(userPool: bool, order: nat) returns (r: Option<nat>)
      requires Valid() && order <= MAX_ORDER
      modifies this`memMap, PoolOf(userPool)
      ensures Valid()
      ensures match Alloc(old(PoolOf(userPool).areas), order)
              case Panic =>
                && r == None && memMap == old(memMap)
                && PoolOf(userPool).areas == old(PoolOf(userPool).areas)
                && PoolOf(userPool).live == old(PoolOf(userPool).live)
              case Allocated(idx, areas) =>
                && r == Some(idx) && idx < |old(memMap)| && memMap == old(memMap)[idx := Page(1, order)]
                && PoolOf(userPool).areas == areas
                && PoolOf(userPool).live == old(PoolOf(userPool).live) + {Block(Shr(idx, order), order)}
      ensures r == None <==> NoneFrom(old(PoolOf(userPool).areas), order)
      ensures r.Some? ==>
                exists o: nat ::
                  ServedFrom(old(PoolOf(userPool).areas), PoolOf(userPool).areas, r.value, order, o)
    {
      hide Alloc, Mid, InPool, Shl, Shr, ServedFrom, NoneFrom;
      var area := if userPool then userArea else kernelArea;
      r := area.Allocate(order);
      if r.Some? {
        ghost var b := Block(Shr(r.value, order), order);
        HeadsDiffer(area.areas, area.live, b, area.lo, area.hi);
        HeadInPool(b, area.lo, area.hi);
        OtherPoolElsewhere(userPool, r.value);
        memMap := memMap[r.value := Page(1, order)];
      }
    }

    lemma OtherPoolElsewhere(userPool: bool, p: nat)
      requires kernelArea.Valid() && userArea.Valid()
      requires kernelArea.lo == 0 && kernelArea.hi == userArea.lo
      requires PageInPool(p, PoolOf(userPool).lo, PoolOf(userPool).hi)
      ensures forall c <- PoolOf(!userPool).live :: Shl(c.k, c.o) != p
      ensures p < Shl(userArea.hi, MAX_ORDER)
    {
      ShlMonotone(userArea.lo, userArea.hi, MAX_ORDER);
      var other := PoolOf(!userPool);
      HeadsElsewhere(other.areas, other.live, p, other.lo, other.hi);
    }

    // atomic_inc on an allocated page, as copy_pt does for a page it shares
    method AddReference(idx: nat, ghost order: nat, ghost userPool: bool)
      requires Valid() && Block(Shr(idx, order), order) in PoolOf(userPool).live && Shl(Shr(idx, order), order) == idx
      modifies this`memMap
      ensures Valid()
      ensures idx < |memMap| && memMap == old(memMap)[idx := old(memMap)[idx].(count := old(memMap)[idx].count + 1)]
    {
      memMap := memMap[idx := memMap[idx].(count := memMap[idx].count + 1)];
    }

    // __free_pages
    method FreePages(idx: nat, order: nat)
      requires Valid() && Block(Shr(idx, order), order) in PoolOf(idx >= userStartIdx).live
      requires Shl(Shr(idx, order), order) == idx
      modifies this`memMap, PoolOf(idx >= userStartIdx)
      ensures Valid() && |memMap| == |old(memMap)| && idx < |memMap| && order <= MAX_ORDER
      ensures memMap == old(memMap)[idx := old(memMap)[idx].(count := old(memMap)[idx].count - 1)]
      ensures old(memMap)[idx].count <= 1 ==>
                var pool := PoolOf(idx >= userStartIdx);
                exists n: nat :: MergedUpTo(old(pool.areas), pool.areas, Block(Shr(idx, order), order), n)
      ensures var pool := PoolOf(idx >= userStartIdx);
              if old(memMap)[idx].count > 1 then
                pool.areas == old(pool.areas) && pool.live == old(pool.live)
              else
                && pool.areas == Release(old(pool.areas), idx, order)
                && pool.live == old(pool.live) - {Block(Shr(idx, order), order)}
    {
      hide MergedUpTo, Release, Mid;
      ghost var b := Block(Shr(idx, order), order);
      ghost var pool := PoolOf(idx >= userStartIdx);
      HeadsDiffer(pool.areas, pool.live, b, pool.lo, pool.hi);
      HeadInPool(b, pool.lo, pool.hi);
      OtherPoolElsewhere(idx >= userStartIdx, idx);
      memMap := memMap[idx := memMap[idx].(count := memMap[idx].count - 1)];
      if memMap[idx].count > 0 {
        return;
      }
      var area;
      if idx >= userStartIdx {
        area := userArea;
      } else {
        area := kernelArea;
      }
      assert order == memMap[idx].priv;
      area.PutBlock(idx, order);
    }

    // Freeing a block just allocated restores the pool, whatever the state it was allocated from.
    method AllocThenFree(userPool: bool, order: nat) returns (ok: bool)
      requires Valid() && order <= MAX_ORDER
      modifies this`memMap, PoolOf(userPool)
      ensures Valid() && PoolOf(userPool).live == old(PoolOf(userPool).live)
      ensures SameBelowMax(PoolOf(userPool).areas, old(PoolOf(userPool).areas))
    {
      hide MergedUpTo, ServedFrom, NoneFrom;
      ghost var pool := PoolOf(userPool);
      ghost var areas, live := pool.areas, pool.live;
      var r := AllocPages(userPool, order);
      ok := r.Some?;
      if r.Some? {
        ghost var b := AllocKeepsInv(areas, live, order, pool.lo, pool.hi);
        ShrShl(b.k, order);
        HeadInPool(b, pool.lo, pool.hi);
        ReleaseUndoesAlloc(areas, live, order, pool.lo, pool.hi);
        FreePages(r.value, order);
      }
    }
  }
}
