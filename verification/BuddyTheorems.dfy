/** What the pool operations of BuddySpec keep, and what they undo. */
module BuddyTheorems {
  import opened Bits
  import opened Blocks
  import opened Seqs
  import opened BuddySpec

  // ---------- single steps ----------

  lemma TakeKeeps(areas: seq<Area>, live: set<Block>, o: nat, lo: nat, hi: nat) returns (cur: Block)
    requires Inv(areas, live, lo, hi) && o <= MAX_ORDER && areas[o].pgList != []
    ensures cur.o == o && Shl(cur.k, o) == areas[o].pgList[0]
    ensures cur in FreeBlocks(areas) && InPool(cur, lo, hi)
    ensures Shr(areas[o].pgList[0], o + 1) < |areas[o].bmap|
    ensures Mid(Take(areas, o), live, {cur}, lo, hi)
  {
    var free, after := FreeBlocks(areas), Take(areas, o);
    cur := Block(Shr(areas[o].pgList[0], o), o);
    assert cur in free;
    PartitionInPool(free, live, {}, cur, lo, hi);
    PairIndex(cur, lo, hi);
    HeadNotInTail(areas[o].pgList);
    Toggle(areas, after[o], cur, false, lo, hi);
    PickFree(free, live, cur, lo, hi);
  }

  lemma PushUpperKeeps(areas: seq<Area>, live: set<Block>, cur: Block, lo: nat, hi: nat)
    requires Mid(areas, live, {cur}, lo, hi) && cur.o > 0
    ensures cur.o <= MAX_ORDER && |areas| == MAX_ORDER + 1
    ensures Shr(Shl(cur.k, cur.o), cur.o) == cur.k < |areas[cur.o - 1].bmap|
    ensures !areas[cur.o - 1].bmap[cur.k]
    ensures Mid(PushUpper(areas, Shl(cur.k, cur.o), cur.o - 1), live, {Lower(cur)}, lo, hi)
    ensures Shl(Lower(cur).k, Lower(cur).o) == Shl(cur.k, cur.o)
  {
    hide ListsMatch, BitsMatch, Partition, InPool, Toggled, Shl, Shr, FreeBlocks, PushUpper;
    var free, up := FreeBlocks(areas), Upper(cur);
    MidShape(areas, live, {cur}, lo, hi);
    assert cur in live + {cur};
    PushUpperAt(areas, Shl(cur.k, cur.o), cur.o - 1);
    SplitCurrent(free, live, cur, lo, hi);
    PartitionInPool(free + {up}, live, {Lower(cur)}, up, lo, hi);
    HalfAddresses(cur);
    PairIndex(up, lo, hi);
    BitmapSize(areas, free, up.o, lo, hi);
    PairBit(areas, free, up, lo, hi);
    ListShape(areas, free, up.o);
    OnList(areas, up);
    PushIsToggle(areas, cur, lo, hi);
    Toggle(areas, PushUpper(areas, Shl(cur.k, cur.o), cur.o - 1)[cur.o - 1], up, true, lo, hi);
  }

  lemma PushUpperAt(areas: seq<Area>, idx: nat, o: nat)
    requires o < |areas|
    ensures PushUpper(areas, idx, o) == areas[o := PushUpper(areas, idx, o)[o]]
  {
  }

  lemma ListShape(areas: seq<Area>, free: set<Block>, o: nat)
    requires ListsMatch(areas, free) && o <= MAX_ORDER
    ensures areas[o].nrFree == |areas[o].pgList| && NoRepeats(areas[o].pgList)
  {
  }

  lemma BitmapSize(areas: seq<Area>, free: set<Block>, o: nat, lo: nat, hi: nat)
    requires |areas| == MAX_ORDER + 1 && BitsMatch(areas, free, lo, hi) && o <= MAX_ORDER
    ensures |areas[o].bmap| == Shl(Monus(hi, lo), MAX_ORDER - o)
  {
  }

  lemma PushIsToggle(areas: seq<Area>, cur: Block, lo: nat, hi: nat)
    requires 0 < cur.o <= MAX_ORDER && |areas| == MAX_ORDER + 1
    requires NoRepeats(areas[cur.o - 1].pgList) && areas[cur.o - 1].nrFree == |areas[cur.o - 1].pgList|
    requires Shl(Upper(cur).k, cur.o - 1) !in areas[cur.o - 1].pgList
    ensures Toggled(areas[cur.o - 1], PushUpper(areas, Shl(cur.k, cur.o), cur.o - 1)[cur.o - 1], Upper(cur), true)
  {
    HalfAddresses(cur);
    AddToBack(areas[cur.o - 1].pgList, Shl(Upper(cur).k, cur.o - 1));
  }

  lemma TakeBuddyKeeps(areas: seq<Area>, live: set<Block>, cur: Block, lo: nat, hi: nat)
    requires Mid(areas, live, {cur}, lo, hi)
    requires cur.o <= MAX_ORDER && Merges(areas, Shl(cur.k, cur.o), cur.o)
    ensures FlipBit(Shl(cur.k, cur.o), cur.o) in areas[cur.o].pgList
    ensures ClearBit(Shl(cur.k, cur.o), cur.o) == Shl(cur.k / 2, cur.o + 1)
    ensures Mid(TakeBuddy(areas, Shl(cur.k, cur.o), cur.o), live, {Block(cur.k / 2, cur.o + 1)}, lo, hi)
  {
    var free, buddy := FreeBlocks(areas), BuddyOf(cur);
    PartitionInPool(free, live, {cur}, cur, lo, hi);
    PairIndex(cur, lo, hi);
    BuddyAddress(cur);
    PairBit(areas, free, cur, lo, hi);
    PartitionInPool(free, live, {cur}, buddy, lo, hi);
    OnList(areas, buddy);
    WithoutFacts(areas[cur.o].pgList, Shl(buddy.k, cur.o));
    Toggle(areas, TakeBuddy(areas, Shl(cur.k, cur.o), cur.o)[cur.o], buddy, false, lo, hi);
    MergeCurrent(free, live, cur, lo, hi);
  }

  // For a block that is not free, its pair's bit says whether the buddy is.
  lemma PairBit(areas: seq<Area>, free: set<Block>, b: Block, lo: nat, hi: nat)
    requires |areas| == MAX_ORDER + 1 && BitsMatch(areas, free, lo, hi)
    requires b.o < MAX_ORDER && b.k / 2 < |areas[b.o].bmap|
    ensures areas[b.o].bmap[b.k / 2] <==> (b in free) != (BuddyOf(b) in free)
  {
    var j := b.k / 2;
    assert b == Block(2 * j, b.o) || b == Block(2 * j + 1, b.o);
  }

  lemma SettleKeeps(areas: seq<Area>, live: set<Block>, cur: Block, lo: nat, hi: nat)
    requires Mid(areas, live, {cur}, lo, hi)
    requires cur.o <= MAX_ORDER && !Merges(areas, Shl(cur.k, cur.o), cur.o)
    ensures cur.o < MAX_ORDER ==> Shr(Shl(cur.k, cur.o), cur.o + 1) < |areas[cur.o].bmap|
    ensures Inv(Settle(areas, Shl(cur.k, cur.o), cur.o), live, lo, hi)
  {
    var free := FreeBlocks(areas);
    PartitionInPool(free, live, {cur}, cur, lo, hi);
    PairIndex(cur, lo, hi);
    OnList(areas, cur);
    AddToFront(areas[cur.o].pgList, Shl(cur.k, cur.o));
    Toggle(areas, Settle(areas, Shl(cur.k, cur.o), cur.o)[cur.o], cur, true, lo, hi);
    if cur.o < MAX_ORDER {
      PairBit(areas, free, cur, lo, hi);
    }
    SettleCurrent(free, live, cur, lo, hi);
  }

  // ---------- whole operations ----------

  // The block of the given order at the start of cur.
  function FirstPart(cur: Block, order: nat): Block
    requires order <= cur.o
  {
    Block(Shl(cur.k, cur.o - order), order)
  }

  lemma FirstPartOfLower(cur: Block, order: nat)
    requires order < cur.o
    ensures FirstPart(Lower(cur), order) == FirstPart(cur, order)
  {
    ShlTwice(cur.k, cur.o - 1 - order);
  }

  lemma FirstPartWhole(cur: Block)
    ensures FirstPart(cur, cur.o) == cur
  {
  }

  lemma {:induction false} SplitDownKeeps(areas: seq<Area>, live: set<Block>, idx: nat, cur: Block, order: nat,
                                          lo: nat, hi: nat)
    requires Mid(areas, live, {cur}, lo, hi) && order <= cur.o && idx == Shl(cur.k, cur.o)
    ensures cur.o <= |areas|
    ensures Mid(SplitDown(areas, idx, cur.o, order), live, {FirstPart(cur, order)}, lo, hi)
    decreases cur.o
  {
    hide Mid, InPool, PushUpper, Shl, FirstPart, FreeBlocks;
    MidShape(areas, live, {cur}, lo, hi);
    assert cur in live + {cur};
    FirstPartWhole(cur);
    if order == cur.o {
    } else {
      PushUpperKeeps(areas, live, cur, lo, hi);
      FirstPartOfLower(cur, order);
      SplitDownKeeps(PushUpper(areas, idx, cur.o - 1), live, idx, Lower(cur), order, lo, hi);
    }
  }

  // A successful allocation hands out an aligned block of the pool that nobody had.
  lemma AllocKeepsInv(areas: seq<Area>, live: set<Block>, order: nat, lo: nat, hi: nat) returns (b: Block)
    requires Inv(areas, live, lo, hi) && order <= MAX_ORDER
    requires Alloc(areas, order).Allocated?
    ensures b.o == order && Shl(b.k, order) == Alloc(areas, order).idx && InPool(b, lo, hi)
    ensures b !in live && WhollyFree(FreeBlocks(areas), b)
    ensures Inv(Alloc(areas, order).areas, live + {b}, lo, hi)
  {
    hide ListsMatch, BitsMatch, Tiled, NoBuddies, FreeBlocks, SplitDown, Shl, Shr, WhollyFree;
    MidShape(areas, live, {}, lo, hi);
    var o := FindOrder(areas, order);
    var cur := TakeKeeps(areas, live, o, lo, hi);
    SplitDownKeeps(Take(areas, o), live, Shl(cur.k, o), cur, order, lo, hi);
    b := FirstPart(cur, order);
    ShlShl(cur.k, o - order, order);
    ShrShl(cur.k, o - order);
    PartOfFreeBlock(FreeBlocks(areas), b, o);
    var free' := FreeBlocks(Alloc(areas, order).areas);
    PartitionInPool(free', live, {b}, b, lo, hi);
    HandOut(free', live, b, lo, hi);
  }

  lemma {:induction false} ReleaseFrom(areas: seq<Area>, live: set<Block>, cur: Block, lo: nat, hi: nat)
    requires Mid(areas, live, {cur}, lo, hi) && cur.o <= MAX_ORDER
    ensures Inv(Release(areas, Shl(cur.k, cur.o), cur.o), live, lo, hi)
    decreases MAX_ORDER - cur.o
  {
    if Merges(areas, Shl(cur.k, cur.o), cur.o) {
      TakeBuddyKeeps(areas, live, cur, lo, hi);
      ReleaseFrom(TakeBuddy(areas, Shl(cur.k, cur.o), cur.o), live, Block(cur.k / 2, cur.o + 1), lo, hi);
    } else {
      SettleKeeps(areas, live, cur, lo, hi);
    }
  }

  lemma ReleaseKeepsInv(areas: seq<Area>, live: set<Block>, b: Block, lo: nat, hi: nat)
    requires Inv(areas, live, lo, hi) && b in live
    ensures b.o <= MAX_ORDER
    ensures Inv(Release(areas, Shl(b.k, b.o), b.o), live - {b}, lo, hi)
  {
    PartitionInPool(FreeBlocks(areas), live, {}, b, lo, hi);
    PickLive(FreeBlocks(areas), live, b, lo, hi);
    ReleaseFrom(areas, live - {b}, b, lo, hi);
  }

  // ---------- completeness ----------

  // Whoever holds a wholly free aligned run is served.
  lemma FreeRunServes(areas: seq<Area>, live: set<Block>, b: Block, lo: nat, hi: nat)
    requires Inv(areas, live, lo, hi) && b.o <= MAX_ORDER && WhollyFree(FreeBlocks(areas), b)
    ensures Alloc(areas, b.o).Allocated?
  {
    var o := FreeRunIsInOneBlock(FreeBlocks(areas), b);
    OnList(areas, Block(Shr(b.k, o - b.o), o));
    assert areas[o].nrFree > 0;
  }

  // alloc_pages panics exactly when the pool has no aligned, wholly free run of that size.
  lemma PanicIffNoRun(areas: seq<Area>, live: set<Block>, order: nat, lo: nat, hi: nat)
    requires Inv(areas, live, lo, hi) && order <= MAX_ORDER
    ensures Alloc(areas, order).Panic? <==>
            forall k: nat | InPool(Block(k, order), lo, hi) :: !WhollyFree(FreeBlocks(areas), Block(k, order))
  {
    if Alloc(areas, order).Panic? {
      forall k: nat | InPool(Block(k, order), lo, hi)
        ensures !WhollyFree(FreeBlocks(areas), Block(k, order))
      {
        if WhollyFree(FreeBlocks(areas), Block(k, order)) {
          FreeRunServes(areas, live, Block(k, order), lo, hi);
        }
      }
    } else {
      var b := AllocKeepsInv(areas, live, order, lo, hi);
      assert b == Block(b.k, order);
    }
  }

  // ---------- release undoes allocation ----------

  lemma AreaBack(a: Area, bit: nat, x: nat)
    requires x !in a.pgList
    ensures Area((a.nrFree + 1) - 1, Flip(Flip(a.bmap, bit), bit), Without(a.pgList + [x], x)) == a
  {
    AppendAndTakeBack(a.pgList, x);
    assert Flip(Flip(a.bmap, bit), bit) == a.bmap;
  }

  lemma PushThenTakeBack(areas: seq<Area>, idx: nat, o: nat)
    requires o < MAX_ORDER < |areas| && Shr(idx, o + 1) < |areas[o].bmap| && !areas[o].bmap[Shr(idx, o + 1)]
    requires FlipBit(idx, o) == idx + Shl(1, o) && idx + Shl(1, o) !in areas[o].pgList
    ensures Merges(PushUpper(areas, idx, o), idx, o)
    ensures TakeBuddy(PushUpper(areas, idx, o), idx, o) == areas
  {
    hide Shl, Shr, FlipBit, Without;
    AreaBack(areas[o], Shr(idx, o + 1), idx + Shl(1, o));
  }

  lemma UpperIsNotListed(areas: seq<Area>, live: set<Block>, cur: Block, lo: nat, hi: nat)
    requires Mid(areas, live, {cur}, lo, hi) && 0 < cur.o <= MAX_ORDER
    ensures |areas| == MAX_ORDER + 1
    ensures var idx, o := Shl(cur.k, cur.o), cur.o - 1;
            && Shr(idx, o + 1) == cur.k
            && FlipBit(idx, o) == idx + Shl(1, o) && ClearBit(idx, o) == idx
            && idx + Shl(1, o) !in areas[o].pgList
  {
    hide ListsMatch, BitsMatch, Partition, FreeBlocks, Shl, Shr, FlipBit, ClearBit;
    MidShape(areas, live, {cur}, lo, hi);
    SplitCurrent(FreeBlocks(areas), live, cur, lo, hi);
    OnList(areas, Upper(cur));
    HalfAddresses(cur);
    BuddyAddress(Lower(cur));
  }

  lemma UnsplitOnce(areas: seq<Area>, live: set<Block>, cur: Block, lo: nat, hi: nat)
    requires Mid(areas, live, {cur}, lo, hi) && 0 < cur.o
    ensures cur.o <= MAX_ORDER && |areas| == MAX_ORDER + 1
    ensures var idx := Shl(cur.k, cur.o);
            Release(PushUpper(areas, idx, cur.o - 1), idx, cur.o - 1) == Release(areas, idx, cur.o)
  {
    hide Mid, Shl, Shr, FlipBit, ClearBit, TakeBuddy, Merges;
    PushUpperKeeps(areas, live, cur, lo, hi);
    UpperIsNotListed(areas, live, cur, lo, hi);
    PushThenTakeBack(areas, Shl(cur.k, cur.o), cur.o - 1);
  }

  lemma {:induction false} Unsplit(areas: seq<Area>, live: set<Block>, cur: Block, order: nat, lo: nat, hi: nat)
    requires Mid(areas, live, {cur}, lo, hi) && order <= cur.o <= MAX_ORDER
    ensures var idx := Shl(cur.k, cur.o);
            Release(SplitDown(areas, idx, cur.o, order), idx, order) == Release(areas, idx, cur.o)
    decreases cur.o
  {
    hide Mid, Shl, PushUpper, Release, FreeBlocks;
    if order < cur.o {
      PushUpperKeeps(areas, live, cur, lo, hi);
      Unsplit(PushUpper(areas, Shl(cur.k, cur.o), cur.o - 1), live, Lower(cur), order, lo, hi);
      UnsplitOnce(areas, live, cur, lo, hi);
    }
  }

  // The same free lists, counters and, below MAX_ORDER, bits.
  predicate SameBelowMax(a: seq<Area>, b: seq<Area>)
    requires |a| == |b| == MAX_ORDER + 1
  {
    && a[..MAX_ORDER] == b[..MAX_ORDER]
    && a[MAX_ORDER].pgList == b[MAX_ORDER].pgList
    && a[MAX_ORDER].nrFree == b[MAX_ORDER].nrFree
  }

  // A head put straight back: its buddy is not free, so it stays at its order.
  lemma TakeThenSettle(areas: seq<Area>, o: nat)
    requires |areas| == MAX_ORDER + 1 && o <= MAX_ORDER && areas[o].pgList != []
    requires var bit := Shr(areas[o].pgList[0], o + 1);
             bit < |areas[o].bmap| && (o < MAX_ORDER ==> areas[o].bmap[bit])
    ensures Release(Take(areas, o), areas[o].pgList[0], o) == Settle(Take(areas, o), areas[o].pgList[0], o)
    ensures SameBelowMax(Settle(Take(areas, o), areas[o].pgList[0], o), areas)
  {
    hide Shr;
    var a := areas[o];
    assert [a.pgList[0]] + a.pgList[1..] == a.pgList;
    assert Flip(Flip(a.bmap, Shr(a.pgList[0], o + 1)), Shr(a.pgList[0], o + 1)) == a.bmap;
  }

  // Releasing the block just allocated puts every list back exactly, order of entries included.
  lemma ReleaseUndoesAlloc(areas: seq<Area>, live: set<Block>, order: nat, lo: nat, hi: nat)
    requires Inv(areas, live, lo, hi) && order <= MAX_ORDER
    requires Alloc(areas, order).Allocated?
    ensures var r := Alloc(areas, order);
            |r.areas| == MAX_ORDER + 1 && SameBelowMax(Release(r.areas, r.idx, order), areas)
  {
    var o := FindOrder(areas, order);
    var cur := TakeKeeps(areas, live, o, lo, hi);
    Unsplit(Take(areas, o), live, cur, order, lo, hi);
    PairIndex(cur, lo, hi);
    if o < MAX_ORDER {
      PairBit(areas, FreeBlocks(areas), cur, lo, hi);
      FreePair(FreeBlocks(areas), cur);
    }
    TakeThenSettle(areas, o);
  }

  lemma FreePair(free: set<Block>, b: Block)
    requires NoBuddies(free) && b in free && b.o < MAX_ORDER
    ensures BuddyOf(b) !in free
  {
    if b.k % 2 == 0 {
      assert b == Block(2 * (b.k / 2), b.o);
    } else {
      assert b == Block(2 * (b.k / 2) + 1, b.o);
    }
  }

  lemma FreeEntry(areas: seq<Area>, o: nat)
    requires ListsMatch(areas, FreeBlocks(areas)) && o <= MAX_ORDER && areas[o].pgList != []
    ensures exists b :: b in FreeBlocks(areas) && b.o == o
  {
    assert Block(Shr(areas[o].pgList[0], o), o) in FreeBlocks(areas);
  }

  // With nothing allocated, the pool is back to its MAX_ORDER blocks.
  lemma AllReleased(areas: seq<Area>, lo: nat, hi: nat)
    requires Inv(areas, {}, lo, hi)
    ensures FreeBlocks(areas) == WholeBlocks(lo, hi)
    ensures forall o | 0 <= o < MAX_ORDER :: areas[o].pgList == [] && areas[o].nrFree == 0
  {
    var free := FreeBlocks(areas);
    assert free + {} + {} == free;
    forall k: nat | lo <= k < hi
      ensures Block(k, MAX_ORDER) in free
    {
      var b := Block(k, MAX_ORDER);
      forall p: nat | PageInBlock(p, b)
        ensures PageIsFree(free, p)
      {
        PageOfBlock(p, b, lo, hi);
        var o: nat :| o <= MAX_ORDER && CoveredAt(free, p, o);
        assert Block(Shr(p, o), o) in free;
      }
      var o := FreeRunIsInOneBlock(free, b);
    }
    forall b | b in free
      ensures b in WholeBlocks(lo, hi)
    {
      var p := Shl(b.k, b.o);
      FirstPage(b);
      PageOfBlock(p, b, lo, hi);
      var top := Block(Shr(p, MAX_ORDER), MAX_ORDER);
      ShrMonotone(Shl(lo, MAX_ORDER), p, MAX_ORDER);
      ShrShl(lo, MAX_ORDER);
      ShrBounds(p, MAX_ORDER);
      if hi <= top.k {
        ShlMonotone(hi, top.k, MAX_ORDER);
      }
      TilesDisjoint(free, b, top, p, lo, hi);
    }
    forall o | 0 <= o < MAX_ORDER
      ensures areas[o].pgList == []
    {
      if areas[o].pgList != [] {
        FreeEntry(areas, o);
        assert false;
      }
    }
  }

  // ---------- every run ----------

  lemma InitialInv(lo: nat, hi: nat)
    requires 2 * lo <= hi
    ensures Inv(InitialAreas(lo, hi), {}, lo, hi) && FreeBlocks(InitialAreas(lo, hi)) == WholeBlocks(lo, hi)
  {
    hide Tiled;
    var areas, free := InitialAreas(lo, hi), WholeBlocks(lo, hi);
    var list := WholeList(lo, hi);
    assert areas[MAX_ORDER] == InitialArea(MAX_ORDER, lo, hi);
    assert |areas[MAX_ORDER].bmap| == Shl(hi - lo, 0) == hi - lo;
    forall i, j | 0 <= i < j < |list|
      ensures list[i] != list[j]
    {
      ShlMonotone(lo + i, lo + j, MAX_ORDER);
    }
    forall i | 0 <= i < |list|
      ensures list[i] == Shl(Shr(list[i], MAX_ORDER), MAX_ORDER) && Block(Shr(list[i], MAX_ORDER), MAX_ORDER) in free
    {
      ShrShl(lo + i, MAX_ORDER);
    }
    forall b | b in free
      ensures Shl(b.k, b.o) in areas[b.o].pgList
    {
      assert list[b.k - lo] == Shl(b.k, MAX_ORDER);
    }
    assert ListsMatch(areas, free);
    MatchedFree(areas, free);
    WholeBlocksTile(lo, hi);
    assert free + {} + {} == free;
  }

  datatype Op = AllocOp(order: nat) | FreeOp(b: Block)

  datatype PoolState = PoolState(areas: seq<Area>, live: set<Block>)

  // Callers ask for orders up to MAX_ORDER and free what they hold; after a panic nothing changes any more.
  ghost function Step(s: PoolState, op: Op, lo: nat, hi: nat): (s': PoolState)
    requires Inv(s.areas, s.live, lo, hi)
    ensures Inv(s'.areas, s'.live, lo, hi)
  {
    match op
    case AllocOp(order) =>
      MidShape(s.areas, s.live, {}, lo, hi);
      if order <= MAX_ORDER && Alloc(s.areas, order).Allocated? then
        var r := Alloc(s.areas, order);
        AllocatedBlock(s.areas, s.live, order, lo, hi);
        PoolState(r.areas, s.live + {Block(Shr(r.idx, order), order)})
      else s
    case FreeOp(b) =>
      if b in s.live then
        ReleaseKeepsInv(s.areas, s.live, b, lo, hi);
        PoolState(Release(s.areas, Shl(b.k, b.o), b.o), s.live - {b})
      else s
  }

  lemma AllocatedBlock(areas: seq<Area>, live: set<Block>, order: nat, lo: nat, hi: nat)
    requires Inv(areas, live, lo, hi) && order <= MAX_ORDER
    requires |areas| == MAX_ORDER + 1 && Alloc(areas, order).Allocated?
    ensures var r := Alloc(areas, order);
            var b := Block(Shr(r.idx, order), order);
            Shl(b.k, order) == r.idx && b !in live && Inv(r.areas, live + {b}, lo, hi)
  {
    var b := AllocKeepsInv(areas, live, order, lo, hi);
    ShrShl(b.k, order);
  }

  ghost function Run(ops: seq<Op>, lo: nat, hi: nat): (s: PoolState)
    requires 2 * lo <= hi
    ensures Inv(s.areas, s.live, lo, hi)
  {
    InitialInv(lo, hi);
    if ops == [] then PoolState(InitialAreas(lo, hi), {})
    else Step(Run(ops[..|ops| - 1], lo, hi), ops[|ops| - 1], lo, hi)
  }

  // The bit the code looks up for block b, by its page's index, says whether exactly one of b and its buddy
  // is free.
  ghost predicate BitTells(areas: seq<Area>, b: Block)
    requires |areas| == MAX_ORDER + 1 && b.o < MAX_ORDER
  {
    var j := Shr(Shl(b.k, b.o), b.o + 1);
    j < |areas[b.o].bmap| && (areas[b.o].bmap[j] <==> (b in FreeBlocks(areas)) != (BuddyOf(b) in FreeBlocks(areas)))
  }

  // In every state a run reaches: free and allocated blocks together cover each page of the pool exactly
  // once, nr_free counts each list, every pair's bit tells whether one of the two is free, no two buddies lie
  // free side by side, and a state with nothing allocated has its free blocks back in one piece.
  lemma EveryRun(ops: seq<Op>, lo: nat, hi: nat)
    requires 2 * lo <= hi
    ensures var s := Run(ops, lo, hi);
            && |s.areas| == MAX_ORDER + 1
            && (forall o | 0 <= o <= MAX_ORDER :: s.areas[o].nrFree == |s.areas[o].pgList|)
            && FreeBlocks(s.areas) !! s.live
            && Tiled(FreeBlocks(s.areas) + s.live, lo, hi)
            && NoBuddies(FreeBlocks(s.areas))
            && (forall b | InPool(b, lo, hi) && b.o < MAX_ORDER :: BitTells(s.areas, b))
            && (s.live == {} ==> FreeBlocks(s.areas) == WholeBlocks(lo, hi))
  {
    var s := Run(ops, lo, hi);
    var free := FreeBlocks(s.areas);
    assert free + s.live + {} == free + s.live;
    forall b | InPool(b, lo, hi) && b.o < MAX_ORDER
      ensures BitTells(s.areas, b)
    {
      PairIndex(b, lo, hi);
      PairBit(s.areas, free, b, lo, hi);
    }
    if s.live == {} {
      AllReleased(s.areas, lo, hi);
    }
  }
}
