/** Which block alloc_pages hands out, where its rest goes, and how far a released block merges: the free lists
    before and after, without the loops in between. */
module BuddyLists {
  import opened Bits
  import opened Blocks
  import opened Seqs
  import opened BuddySpec
  import opened BuddyTheorems

  // ---------- allocation ----------

  // A request was served from list o: the first list from its order up that was not empty. The head of that
  // list is cut down to the order, and of each cut the upper half is all there now is on its list.
  ghost predicate ServedFrom(areas: seq<Area>, areas': seq<Area>, idx: nat, order: nat, o: nat) {
    && |areas| == |areas'| == MAX_ORDER + 1
    && order <= o <= MAX_ORDER
    && (forall q | order <= q < o :: areas[q].pgList == [])
    && areas[o].pgList != [] && idx == areas[o].pgList[0]
    && areas'[o].pgList == areas[o].pgList[1..]
    && (forall q: nat | order <= q < o :: areas'[q].pgList == [idx + Shl(1, q)])
    && (forall q: nat | q < order || o < q <= MAX_ORDER :: areas'[q] == areas[q])
  }

  ghost predicate NoneFrom(areas: seq<Area>, order: nat) {
    forall q | order <= q < |areas| :: areas[q].pgList == []
  }

  // The upper halves cut off a block of order o that starts at idx.
  ghost function UpperHalves(idx: nat, order: nat, o: nat): set<Block> {
    set q: nat | order <= q < o :: Block(Shr(idx, q) + 1, q)
  }

  lemma {:induction false} SplitDownLists(areas: seq<Area>, idx: nat, o: nat, order: nat)
    requires order <= o <= |areas|
    ensures var r := SplitDown(areas, idx, o, order);
            && (forall q: nat | order <= q < o :: r[q].pgList == areas[q].pgList + [idx + Shl(1, q)])
            && (forall q: nat | q < order || o <= q < |areas| :: r[q] == areas[q])
    decreases o
  {
    if order < o {
      SplitDownLists(PushUpper(areas, idx, o - 1), idx, o - 1, order);
    }
  }

  // The least order that serves, the head of its list, and one remainder per split; the panic iff every list
  // from the order up is empty.
  lemma AllocTakesLeast(areas: seq<Area>, live: set<Block>, order: nat, lo: nat, hi: nat)
    requires Inv(areas, live, lo, hi) && order <= MAX_ORDER
    ensures |areas| == MAX_ORDER + 1
    ensures forall o | 0 <= o <= MAX_ORDER :: areas[o].nrFree == |areas[o].pgList|
    ensures Alloc(areas, order).Panic? <==> NoneFrom(areas, order)
    ensures Alloc(areas, order).Allocated? ==>
              exists o: nat :: ServedFrom(areas, Alloc(areas, order).areas, Alloc(areas, order).idx, order, o)
  {
    hide Alloc, ServedFrom, NoneFrom;
    MidShape(areas, live, {}, lo, hi);
    AllocLists(areas, order);
  }

  lemma AllocLists(areas: seq<Area>, order: nat)
    requires |areas| == MAX_ORDER + 1 && order <= MAX_ORDER
    requires forall o | 0 <= o <= MAX_ORDER :: areas[o].nrFree == |areas[o].pgList|
    ensures Alloc(areas, order).Panic? <==> NoneFrom(areas, order)
    ensures Alloc(areas, order).Allocated? ==>
              exists o: nat :: ServedFrom(areas, Alloc(areas, order).areas, Alloc(areas, order).idx, order, o)
  {
    hide Take, SplitDown, Shl, Shr, ServedFrom;
    var o := FindOrder(areas, order);
    if o <= MAX_ORDER {
      TakeThenSplit(areas, order, o);
    }
  }

  lemma TakeThenSplit(areas: seq<Area>, order: nat, o: nat)
    requires |areas| == MAX_ORDER + 1 && order <= o <= MAX_ORDER && areas[o].pgList != []
    requires forall q | order <= q < o :: areas[q].pgList == []
    ensures |Take(areas, o)| == |areas|
    ensures var idx := areas[o].pgList[0];
            ServedFrom(areas, SplitDown(Take(areas, o), idx, o, order), idx, order, o)
  {
    hide SplitDown, Shl, Shr;
    SplitDownLists(Take(areas, o), areas[o].pgList[0], o, order);
  }

  // The same in blocks: of all free blocks one of the least sufficient order goes, and comes back as the upper
  // half of each split.
  lemma AllocSplits(areas: seq<Area>, areas': seq<Area>, idx: nat, order: nat, o: nat)
    requires ServedFrom(areas, areas', idx, order, o)
    requires ListsMatch(areas, FreeBlocks(areas)) && ListsMatch(areas', FreeBlocks(areas'))
    ensures forall b <- FreeBlocks(areas) :: b.o < order || b.o >= o
    ensures Block(Shr(idx, o), o) in FreeBlocks(areas)
    ensures FreeBlocks(areas') == FreeBlocks(areas) - {Block(Shr(idx, o), o)} + UpperHalves(idx, order, o)
  {
    hide FreeBlocks, Shl, Shr;
    HeadIsAligned(areas, o);
    OnList(areas, Block(Shr(idx, o), o));
    forall b: Block
      ensures b in FreeBlocks(areas) ==> b.o < order || b.o >= o
      ensures b in FreeBlocks(areas') <==>
              (b in FreeBlocks(areas) && b != Block(Shr(idx, o), o)) || b in UpperHalves(idx, order, o)
    {
      if b.o <= MAX_ORDER {
        SplitsAt(areas, areas', idx, order, o, b);
      }
    }
  }

  lemma AllocTakes(areas: seq<Area>, live: set<Block>, order: nat, lo: nat, hi: nat) returns (o: nat)
    requires Inv(areas, live, lo, hi) && order <= MAX_ORDER
    requires Alloc(areas, order).Allocated?
    ensures var r := Alloc(areas, order);
            && ServedFrom(areas, r.areas, r.idx, order, o)
            && (forall b <- FreeBlocks(areas) :: b.o < order || b.o >= o)
            && Block(Shr(r.idx, o), o) in FreeBlocks(areas)
            && FreeBlocks(r.areas)
               == FreeBlocks(areas) - {Block(Shr(r.idx, o), o)} + UpperHalves(r.idx, order, o)
  {
    hide Alloc, ServedFrom, FreeBlocks, ListsMatch, BitsMatch, Partition, Shr;
    AllocTakesLeast(areas, live, order, lo, hi);
    var r := Alloc(areas, order);
    o :| ServedFrom(areas, r.areas, r.idx, order, o);
    var b := AllocKeepsInv(areas, live, order, lo, hi);
    AllocSplits(areas, r.areas, r.idx, order, o);
  }

  lemma HeadIsAligned(areas: seq<Area>, o: nat)
    requires ListsMatch(areas, FreeBlocks(areas)) && o <= MAX_ORDER && areas[o].pgList != []
    ensures Shl(Shr(areas[o].pgList[0], o), o) == areas[o].pgList[0]
    ensures NoRepeats(areas[o].pgList)
  {
    assert areas[o].pgList[0] in areas[o].pgList;
  }

  lemma SplitsAt(areas: seq<Area>, areas': seq<Area>, idx: nat, order: nat, o: nat, b: Block)
    requires ServedFrom(areas, areas', idx, order, o) && b.o <= MAX_ORDER
    requires NoRepeats(areas[o].pgList) && Shl(Shr(idx, o), o) == idx
    requires ListsMatch(areas, FreeBlocks(areas)) && ListsMatch(areas', FreeBlocks(areas'))
    ensures b in FreeBlocks(areas) ==> b.o < order || b.o >= o
    ensures b in FreeBlocks(areas') <==>
            (b in FreeBlocks(areas) && b != Block(Shr(idx, o), o)) || b in UpperHalves(idx, order, o)
  {
    hide FreeBlocks, Shl, Shr, ListsMatch;
    OnList(areas, b);
    OnList(areas', b);
    ShrShl(b.k, b.o);
    if b.o == o {
      HeadNotInTail(areas[o].pgList);
    } else if order <= b.o < o {
      HalfIndex(idx, o, b.o);
    }
  }

  // The one block of order q whose first page is 1 << q behind idx.
  lemma HalfIndex(idx: nat, o: nat, q: nat)
    requires q < o && Shl(Shr(idx, o), o) == idx
    ensures Shr(idx + Shl(1, q), q) == Shr(idx, q) + 1
    ensures Shl(Shr(idx, q) + 1, q) == idx + Shl(1, q)
  {
    var k := Shl(Shr(idx, o), o - q);
    ShlShl(Shr(idx, o), o - q, q);
    ShrShl(k, q);
    ShlAdd(k, 1, q);
    ShrShl(k + 1, q);
  }

  // ---------- release ----------

  // The block of order q >= b.o that contains b.
  function Around(b: Block, q: nat): Block
    requires b.o <= q
  {
    Block(Shr(b.k, q - b.o), q)
  }

  // A released block b has grown to order n: on the way every buddy was free and left its list; the buddy at
  // order n is not free, and the whole goes to the front of list n.
  ghost predicate MergedUpTo(areas: seq<Area>, areas': seq<Area>, b: Block, n: nat) {
    && |areas| == |areas'| == MAX_ORDER + 1
    && b.o <= n <= MAX_ORDER
    && (forall q: nat | b.o <= q < n ::
          var buddy := BuddyOf(Around(b, q));
          buddy in FreeBlocks(areas) && areas'[q].pgList == Without(areas[q].pgList, Shl(buddy.k, q)))
    && (n < MAX_ORDER ==> BuddyOf(Around(b, n)) !in FreeBlocks(areas))
    && areas'[n].pgList == [Shl(Around(b, n).k, n)] + areas[n].pgList
    && (forall q: nat | q < b.o || n < q <= MAX_ORDER :: areas'[q] == areas[q])
  }

  lemma {:induction false} MergesUp(areas: seq<Area>, live: set<Block>, cur: Block, lo: nat, hi: nat) returns (n: nat)
    requires Mid(areas, live, {cur}, lo, hi)
    ensures cur.o <= MAX_ORDER && |areas| == MAX_ORDER + 1
    ensures MergedUpTo(areas, Release(areas, Shl(cur.k, cur.o), cur.o), cur, n)
    decreases MAX_ORDER - cur.o
  {
    hide Mid, MergedUpTo, Merges, TakeBuddy, Shl, Shr, FlipBit, ClearBit, FreeBlocks;
    MidShape(areas, live, {cur}, lo, hi);
    assert cur in live + {cur};
    if cur.o < MAX_ORDER {
      MergeLooksAtBuddy(areas, live, cur, lo, hi);
    }
    if Merges(areas, Shl(cur.k, cur.o), cur.o) {
      var parent, next := Block(cur.k / 2, cur.o + 1), TakeBuddy(areas, Shl(cur.k, cur.o), cur.o);
      TakeBuddyKeeps(areas, live, cur, lo, hi);
      MergesBelowMax(areas, Shl(cur.k, cur.o), cur.o);
      TakeBuddyLists(areas, cur);
      n := MergesUp(next, live, parent, lo, hi);
      MergedOneMore(areas, next, Release(next, Shl(parent.k, parent.o), parent.o), cur, n);
    } else {
      n := cur.o;
      SettleLists(areas, cur);
    }
  }

  lemma MergesBelowMax(areas: seq<Area>, idx: nat, o: nat)
    requires o < |areas| && Merges(areas, idx, o)
    ensures o < MAX_ORDER
  {
  }

  lemma TakeBuddyLists(areas: seq<Area>, cur: Block)
    requires cur.o < |areas| && FlipBit(Shl(cur.k, cur.o), cur.o) == Shl(BuddyOf(cur).k, cur.o)
    ensures var next := TakeBuddy(areas, Shl(cur.k, cur.o), cur.o);
            && |next| == |areas| && next == areas[cur.o := next[cur.o]]
            && next[cur.o].pgList == Without(areas[cur.o].pgList, Shl(BuddyOf(cur).k, cur.o))
  {
  }

  lemma SettleLists(areas: seq<Area>, cur: Block)
    requires |areas| == MAX_ORDER + 1 && cur.o <= MAX_ORDER
    requires cur.o < MAX_ORDER ==> BuddyOf(cur) !in FreeBlocks(areas)
    ensures MergedUpTo(areas, Settle(areas, Shl(cur.k, cur.o), cur.o), cur, cur.o)
  {
    hide FreeBlocks, Shl;
    assert Around(cur, cur.o) == cur;
  }

  lemma MergeLooksAtBuddy(areas: seq<Area>, live: set<Block>, cur: Block, lo: nat, hi: nat)
    requires Mid(areas, live, {cur}, lo, hi) && cur.o < MAX_ORDER && |areas| == MAX_ORDER + 1
    ensures Merges(areas, Shl(cur.k, cur.o), cur.o) <==> BuddyOf(cur) in FreeBlocks(areas)
    ensures FlipBit(Shl(cur.k, cur.o), cur.o) == Shl(BuddyOf(cur).k, cur.o)
  {
    PartitionInPool(FreeBlocks(areas), live, {cur}, cur, lo, hi);
    PairIndex(cur, lo, hi);
    PairBit(areas, FreeBlocks(areas), cur, lo, hi);
    BuddyAddress(cur);
  }

  lemma MergedOneMore(areas: seq<Area>, next: seq<Area>, areas': seq<Area>, cur: Block, n: nat)
    requires MergedUpTo(next, areas', Block(cur.k / 2, cur.o + 1), n)
    requires |areas| == MAX_ORDER + 1 && cur.o < MAX_ORDER
    requires BuddyOf(cur) in FreeBlocks(areas)
    requires next == areas[cur.o := next[cur.o]]
    requires next[cur.o].pgList == Without(areas[cur.o].pgList, Shl(BuddyOf(cur).k, cur.o))
    ensures MergedUpTo(areas, areas', cur, n)
  {
    hide FreeBlocks, Shl, Without;
    var parent := Block(cur.k / 2, cur.o + 1);
    assert Around(cur, cur.o) == cur;
    SameHigher(areas, next, cur.o);
    forall q: nat | cur.o < q <= n
      ensures Around(cur, q) == Around(parent, q)
    {
      ShrInner(cur.k, q - cur.o - 1);
    }
  }

  lemma SameHigher(areas: seq<Area>, next: seq<Area>, o: nat)
    requires o < |areas| && |next| == |areas| && next == areas[o := next[o]]
    ensures forall b: Block | b.o > o :: b in FreeBlocks(next) <==> b in FreeBlocks(areas)
  {
  }

  // __free_pages merges a block with its buddy for as long as the buddy is free, and no further.
  lemma ReleaseMerges(areas: seq<Area>, live: set<Block>, b: Block, lo: nat, hi: nat) returns (n: nat)
    requires Inv(areas, live, lo, hi) && b in live
    ensures b.o <= MAX_ORDER && |areas| == MAX_ORDER + 1
    ensures MergedUpTo(areas, Release(areas, Shl(b.k, b.o), b.o), b, n)
  {
    PickLive(FreeBlocks(areas), live, b, lo, hi);
    n := MergesUp(areas, live - {b}, b, lo, hi);
  }
}
