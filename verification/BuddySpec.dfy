/** What kernel/buddy.c does to one pool's free areas, as functions, and what those functions keep. */
module BuddySpec {
  import opened Bits
  import opened Blocks
  import opened Seqs

  // struct free_area; pages are named by their index in mem_map
  datatype Area = Area(nrFree: int, bmap: seq<bool>, pgList: seq<nat>)

  function Flip(bmap: seq<bool>, i: nat): seq<bool> {
    if i < |bmap| then bmap[i := !bmap[i]] else bmap
  }

  // ---------- the operations ----------

  // What buddy_init leaves: all the whole blocks on the last list, every bit 0.
  function InitialArea(o: nat, lo: nat, hi: nat): Area
    requires o <= MAX_ORDER && lo <= hi
  {
    var bmap := seq(Shl(hi - lo, MAX_ORDER - o), _ => false);
    if o < MAX_ORDER then Area(0, bmap, []) else Area(hi - lo, bmap, WholeList(lo, hi))
  }

  function InitialAreas(lo: nat, hi: nat): seq<Area>
    requires lo <= hi
  {
    seq(MAX_ORDER + 1, o requires 0 <= o <= MAX_ORDER => InitialArea(o, lo, hi))
  }

  function WholeList(lo: nat, hi: nat): (list: seq<nat>)
    requires lo <= hi
    ensures |list| == hi - lo
    ensures forall i | 0 <= i < |list| :: list[i] == Shl(lo + i, MAX_ORDER)
  {
    if lo == hi then [] else WholeList(lo, hi - 1) + [Shl(hi - 1, MAX_ORDER)]
  }

  // The order at which the search of alloc_pages stops; MAX_ORDER + 1 if no list serves.
  function FindOrder(areas: seq<Area>, order: nat): (o: nat)
    requires |areas| == MAX_ORDER + 1 && order <= MAX_ORDER + 1
    ensures order <= o <= MAX_ORDER + 1
    ensures forall q | order <= q < o :: areas[q].nrFree <= 0
    ensures o <= MAX_ORDER ==> areas[o].nrFree > 0
    decreases MAX_ORDER + 1 - order
  {
    if order <= MAX_ORDER && areas[order].nrFree <= 0 then FindOrder(areas, order + 1) else order
  }

  // The head of list o leaves it.
  function Take(areas: seq<Area>, o: nat): seq<Area>
    requires o < |areas| && areas[o].pgList != []
  {
    var a := areas[o];
    areas[o := Area(a.nrFree - 1, Flip(a.bmap, Shr(a.pgList[0], o + 1)), a.pgList[1..])]
  }

  // The upper half of the block of order o + 1 at idx joins list o.
  function PushUpper(areas: seq<Area>, idx: nat, o: nat): seq<Area>
    requires o < |areas|
  {
    var a := areas[o];
    areas[o := Area(a.nrFree + 1, Flip(a.bmap, Shr(idx, o + 1)), a.pgList + [idx + Shl(1, o)])]
  }

  function SplitDown(areas: seq<Area>, idx: nat, o: nat, order: nat): (r: seq<Area>)
    requires o <= |areas|
    ensures |r| == |areas|
    decreases o
  {
    if o <= order then areas else SplitDown(PushUpper(areas, idx, o - 1), idx, o - 1, order)
  }

  datatype AllocResult = Panic | Allocated(idx: nat, areas: seq<Area>)

  function Alloc(areas: seq<Area>, order: nat): AllocResult
    requires |areas| == MAX_ORDER + 1 && order <= MAX_ORDER
    requires forall o | 0 <= o <= MAX_ORDER :: areas[o].nrFree == |areas[o].pgList|
  {
    var o := FindOrder(areas, order);
    if o > MAX_ORDER then Panic
    else
      var idx := areas[o].pgList[0];
      Allocated(idx, SplitDown(Take(areas, o), idx, o, order))
  }

  // A free buddy leaves its list and the pair's bit goes to 0.
  function TakeBuddy(areas: seq<Area>, idx: nat, o: nat): seq<Area>
    requires o < |areas|
  {
    var a := areas[o];
    areas[o := Area(a.nrFree - 1, Flip(a.bmap, Shr(idx, o + 1)), Without(a.pgList, FlipBit(idx, o)))]
  }

  // The block joins the front of list o; at MAX_ORDER the bitmap is left alone.
  function Settle(areas: seq<Area>, idx: nat, o: nat): seq<Area>
    requires o < |areas|
  {
    var a := areas[o];
    var bmap := if o < MAX_ORDER then Flip(a.bmap, Shr(idx, o + 1)) else a.bmap;
    areas[o := Area(a.nrFree + 1, bmap, [idx] + a.pgList)]
  }

  predicate Merges(areas: seq<Area>, idx: nat, o: nat)
    requires o < |areas|
  {
    o < MAX_ORDER && Shr(idx, o + 1) < |areas[o].bmap| && areas[o].bmap[Shr(idx, o + 1)]
  }

  function Release(areas: seq<Area>, idx: nat, o: nat): (r: seq<Area>)
    requires |areas| == MAX_ORDER + 1 && o <= MAX_ORDER
    ensures |r| == |areas|
    decreases MAX_ORDER - o
  {
    if Merges(areas, idx, o) then Release(TakeBuddy(areas, idx, o), ClearBit(idx, o), o + 1)
    else Settle(areas, idx, o)
  }

  // ---------- the invariant ----------

  ghost function FreeBlocks(areas: seq<Area>): set<Block> {
    set o: nat, x | 0 <= o < |areas| && x in areas[o].pgList :: Block(Shr(x, o), o)
  }

  // List o holds exactly the free blocks of order o, each once, and nr_free counts them.
  ghost predicate ListsMatch(areas: seq<Area>, free: set<Block>) {
    && |areas| == MAX_ORDER + 1
    && (forall o | 0 <= o <= MAX_ORDER :: areas[o].nrFree == |areas[o].pgList| && NoRepeats(areas[o].pgList))
    && (forall o, x | 0 <= o <= MAX_ORDER && x in areas[o].pgList ::
          x == Shl(Shr(x, o), o) && Block(Shr(x, o), o) in free)
    && (forall b <- free :: b.o <= MAX_ORDER && Shl(b.k, b.o) in areas[b.o].pgList)
  }

  // Below MAX_ORDER a pair's bit is 1 iff exactly one of the two buddies is free.
  ghost predicate BitsMatch(areas: seq<Area>, free: set<Block>, lo: nat, hi: nat)
    requires |areas| == MAX_ORDER + 1
  {
    && (forall o | 0 <= o <= MAX_ORDER :: |areas[o].bmap| == Shl(Monus(hi, lo), MAX_ORDER - o))
    && (forall o, j | 0 <= o < MAX_ORDER && 0 <= j < |areas[o].bmap| ::
          areas[o].bmap[j] <==> (Block(2 * j, o) in free) != (Block(2 * j + 1, o) in free))
  }

  function Monus(x: nat, y: nat): nat {
    if x < y then 0 else x - y
  }

  // The state while the block cur is in nobody's hands: neither free nor allocated.
  ghost predicate Mid(areas: seq<Area>, live: set<Block>, cur: set<Block>, lo: nat, hi: nat) {
    var free := FreeBlocks(areas);
    && 2 * lo <= hi
    && ListsMatch(areas, free)
    && BitsMatch(areas, free, lo, hi)
    && Partition(free, live, cur, lo, hi)
  }

  ghost predicate Inv(areas: seq<Area>, live: set<Block>, lo: nat, hi: nat) {
    Mid(areas, live, {}, lo, hi)
  }

  lemma MidShape(areas: seq<Area>, live: set<Block>, cur: set<Block>, lo: nat, hi: nat)
    requires Mid(areas, live, cur, lo, hi)
    ensures |areas| == MAX_ORDER + 1
    ensures forall o | 0 <= o <= MAX_ORDER :: areas[o].nrFree == |areas[o].pgList| && NoRepeats(areas[o].pgList)
    ensures forall b <- live + cur :: InPool(b, lo, hi) && b.o <= MAX_ORDER
  {
    assert forall b <- live + cur :: b in FreeBlocks(areas) + live + cur;
  }

  // ---------- one list changing by one block ----------

  lemma MatchedFree(areas: seq<Area>, free: set<Block>)
    requires ListsMatch(areas, free)
    ensures FreeBlocks(areas) == free
  {
    forall b | b in free
      ensures b in FreeBlocks(areas)
    {
      ShrShl(b.k, b.o);
      assert Shl(b.k, b.o) in areas[b.o].pgList;
    }
  }

  lemma PairIndex(b: Block, lo: nat, hi: nat)
    requires InPool(b, lo, hi) && 2 * lo <= hi
    ensures Shr(Shl(b.k, b.o), b.o + 1) == b.k / 2 < Shl(Monus(hi, lo), MAX_ORDER - b.o)
  {
    var n := MAX_ORDER - b.o;
    ShrShl(b.k, b.o);
    ShlMonotone(hi, (hi - lo) + (hi - lo), n);
    ShlAdd(hi - lo, hi - lo, n);
  }

  // What it means for list b.o to gain or lose b, with the pair's bit flipped below MAX_ORDER.
  ghost predicate Toggled(a: Area, a': Area, b: Block, joins: bool) {
    && NoRepeats(a'.pgList)
    && a'.nrFree == |a'.pgList|
    && |a'.bmap| == |a.bmap|
    && (b.o < MAX_ORDER ==> a'.bmap == Flip(a.bmap, b.k / 2))
    && (forall x :: x in a'.pgList <==> if x == Shl(b.k, b.o) then joins else x in a.pgList)
  }

  ghost function With(free: set<Block>, b: Block, joins: bool): set<Block> {
    if joins then free + {b} else free - {b}
  }

  lemma ToggleKeepsLists(areas: seq<Area>, a': Area, b: Block, joins: bool)
    requires ListsMatch(areas, FreeBlocks(areas))
    requires b.o <= MAX_ORDER && Toggled(areas[b.o], a', b, joins)
    ensures ListsMatch(areas[b.o := a'], FreeBlocks(areas[b.o := a']))
    ensures FreeBlocks(areas[b.o := a']) == With(FreeBlocks(areas), b, joins)
  {
    var after := areas[b.o := a'];
    var free := With(FreeBlocks(areas), b, joins);
    ShrShl(b.k, b.o);
    forall c | c in free
      ensures c.o <= MAX_ORDER && Shl(c.k, c.o) in after[c.o].pgList
    {
      ShrShl(c.k, c.o);
    }
    MatchedFree(after, free);
  }

  lemma ToggleKeepsBits(areas: seq<Area>, a': Area, b: Block, joins: bool, free: set<Block>, free': set<Block>,
                        lo: nat, hi: nat)
    requires |areas| == MAX_ORDER + 1 && InPool(b, lo, hi) && 2 * lo <= hi
    requires BitsMatch(areas, free, lo, hi)
    requires Toggled(areas[b.o], a', b, joins)
    requires joins <==> b !in free
    requires free' == With(free, b, joins)
    ensures BitsMatch(areas[b.o := a'], free', lo, hi)
  {
    PairIndex(b, lo, hi);
    var after := areas[b.o := a'];
    forall o, j | 0 <= o < MAX_ORDER && 0 <= j < |after[o].bmap|
      ensures after[o].bmap[j] <==> (Block(2 * j, o) in free') != (Block(2 * j + 1, o) in free')
    {
      assert areas[o].bmap[j] <==> (Block(2 * j, o) in free) != (Block(2 * j + 1, o) in free);
      if o == b.o && j == b.k / 2 {
        assert b in {Block(2 * j, o), Block(2 * j + 1, o)};
      } else if o == b.o {
        assert b !in {Block(2 * j, o), Block(2 * j + 1, o)};
      }
    }
  }

  lemma Toggle(areas: seq<Area>, a': Area, b: Block, joins: bool, lo: nat, hi: nat)
    requires ListsMatch(areas, FreeBlocks(areas)) && BitsMatch(areas, FreeBlocks(areas), lo, hi)
    requires InPool(b, lo, hi) && 2 * lo <= hi
    requires Toggled(areas[b.o], a', b, joins)
    requires joins <==> b !in FreeBlocks(areas)
    ensures ListsMatch(areas[b.o := a'], FreeBlocks(areas[b.o := a']))
    ensures BitsMatch(areas[b.o := a'], FreeBlocks(areas[b.o := a']), lo, hi)
    ensures FreeBlocks(areas[b.o := a']) == With(FreeBlocks(areas), b, joins)
  {
    ToggleKeepsLists(areas, a', b, joins);
    ToggleKeepsBits(areas, a', b, joins, FreeBlocks(areas), FreeBlocks(areas[b.o := a']), lo, hi);
  }

  // Whether a page index heads a free block can be read off its list.
  lemma OnList(areas: seq<Area>, b: Block)
    requires ListsMatch(areas, FreeBlocks(areas)) && b.o <= MAX_ORDER
    ensures Shl(b.k, b.o) in areas[b.o].pgList <==> b in FreeBlocks(areas)
  {
    ShrShl(b.k, b.o);
  }
}
