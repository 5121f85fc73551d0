/** Aligned blocks of pages and what it means for a set of them to tile a pool. */
module Blocks {
  import opened Bits

  const MAX_ORDER: nat := 10

  // The pages k << o up to (k + 1) << o.
  datatype Block = Block(k: nat, o: nat)

  // The pool holds the MAX_ORDER blocks lo up to hi.
  predicate InPool(b: Block, lo: nat, hi: nat) {
    b.o <= MAX_ORDER && Shl(lo, MAX_ORDER - b.o) <= b.k < Shl(hi, MAX_ORDER - b.o)
  }

  predicate PageInPool(p: nat, lo: nat, hi: nat) {
    Shl(lo, MAX_ORDER) <= p < Shl(hi, MAX_ORDER)
  }

  predicate PageInBlock(p: nat, b: Block) {
    Shr(p, b.o) == b.k
  }

  // Block sizes by which page p could be covered: exactly o is used.
  ghost predicate CoveredAt(blocks: set<Block>, p: nat, o: nat) {
    forall q: nat | q <= MAX_ORDER :: Block(Shr(p, q), q) in blocks <==> q == o
  }

  // Every page of the pool lies in exactly one block, and no block leaves the pool.
  ghost predicate Tiled(blocks: set<Block>, lo: nat, hi: nat) {
    && (forall b <- blocks :: InPool(b, lo, hi))
    && (forall p: nat | PageInPool(p, lo, hi) :: exists o: nat :: o <= MAX_ORDER && CoveredAt(blocks, p, o))
  }

  lemma PageOfBlock(p: nat, b: Block, lo: nat, hi: nat)
    requires InPool(b, lo, hi) && PageInBlock(p, b)
    ensures PageInPool(p, lo, hi)
  {
    var n := MAX_ORDER - b.o;
    ShrBounds(p, b.o);
    ShlShl(lo, n, b.o);
    ShlShl(hi, n, b.o);
    ShlMonotone(Shl(lo, n), b.k, b.o);
    ShlMonotone(b.k + 1, Shl(hi, n), b.o);
  }

  lemma FirstPage(b: Block)
    ensures PageInBlock(Shl(b.k, b.o), b)
  {
    ShrShl(b.k, b.o);
  }

  // Tiles do not overlap.
  lemma TilesDisjoint(blocks: set<Block>, b: Block, c: Block, p: nat, lo: nat, hi: nat)
    requires Tiled(blocks, lo, hi) && b in blocks && c in blocks
    requires PageInBlock(p, b) && PageInBlock(p, c)
    ensures b == c
  {
    PageOfBlock(p, b, lo, hi);
    var o: nat :| o <= MAX_ORDER && CoveredAt(blocks, p, o);
    assert Block(Shr(p, b.o), b.o) in blocks;
    assert Block(Shr(p, c.o), c.o) in blocks;
  }

  function Lower(b: Block): Block
    requires b.o > 0
  {
    Block(2 * b.k, b.o - 1)
  }

  function Upper(b: Block): Block
    requires b.o > 0
  {
    Block(2 * b.k + 1, b.o - 1)
  }

  // A tile's halves are not tiles as well.
  lemma HalvesAreNew(blocks: set<Block>, b: Block, lo: nat, hi: nat)
    requires Tiled(blocks, lo, hi) && b in blocks && b.o > 0
    ensures Lower(b) !in blocks && Upper(b) !in blocks
  {
    forall h | h in {Lower(b), Upper(b)}
      ensures h !in blocks
    {
      FirstPage(h);
      assert PageInBlock(Shl(h.k, h.o), b);
      if h in blocks {
        TilesDisjoint(blocks, b, h, Shl(h.k, h.o), lo, hi);
      }
    }
  }

  lemma SplitTile(blocks: set<Block>, b: Block, lo: nat, hi: nat)
    requires Tiled(blocks, lo, hi) && b in blocks && b.o > 0
    ensures Tiled(blocks - {b} + {Lower(b), Upper(b)}, lo, hi)
  {
    var after := blocks - {b} + {Lower(b), Upper(b)};
    forall p: nat | PageInPool(p, lo, hi)
      ensures exists o: nat :: o <= MAX_ORDER && CoveredAt(after, p, o)
    {
      var o: nat :| o <= MAX_ORDER && CoveredAt(blocks, p, o);
      assert Shr(p, b.o) == Shr(p, b.o - 1) / 2;
      if PageInBlock(p, b) {
        assert Block(Shr(p, b.o), b.o) == b;
        assert CoveredAt(after, p, b.o - 1);
      } else {
        assert CoveredAt(after, p, o);
      }
    }
  }

  lemma MergeTiles(blocks: set<Block>, b: Block, lo: nat, hi: nat)
    requires Tiled(blocks, lo, hi) && 0 < b.o <= MAX_ORDER
    requires Lower(b) in blocks && Upper(b) in blocks
    ensures Tiled(blocks - {Lower(b), Upper(b)} + {b}, lo, hi)
    ensures b !in blocks
  {
    var after := blocks - {Lower(b), Upper(b)} + {b};
    FirstPage(Lower(b));
    if b in blocks {
      assert PageInBlock(Shl(2 * b.k, b.o - 1), b);
      TilesDisjoint(blocks, b, Lower(b), Shl(2 * b.k, b.o - 1), lo, hi);
    }
    forall p: nat | PageInPool(p, lo, hi)
      ensures exists o: nat :: o <= MAX_ORDER && CoveredAt(after, p, o)
    {
      var o: nat :| o <= MAX_ORDER && CoveredAt(blocks, p, o);
      assert Shr(p, b.o) == Shr(p, b.o - 1) / 2;
      if PageInBlock(p, b) {
        assert Block(Shr(p, b.o - 1), b.o - 1) in {Lower(b), Upper(b)};
        assert CoveredAt(after, p, b.o);
      } else {
        assert CoveredAt(after, p, o);
      }
    }
  }

  // The pool as MAX_ORDER blocks.
  ghost function WholeBlocks(lo: nat, hi: nat): set<Block> {
    set k: nat | lo <= k < hi :: Block(k, MAX_ORDER)
  }

  lemma WholeBlocksTile(lo: nat, hi: nat)
    ensures Tiled(WholeBlocks(lo, hi), lo, hi)
  {
    var blocks := WholeBlocks(lo, hi);
    forall p: nat | PageInPool(p, lo, hi)
      ensures exists o: nat :: o <= MAX_ORDER && CoveredAt(blocks, p, o)
    {
      ShrMonotone(Shl(lo, MAX_ORDER), p, MAX_ORDER);
      ShrShl(lo, MAX_ORDER);
      ShrBounds(p, MAX_ORDER);
      if hi <= Shr(p, MAX_ORDER) {
        ShlMonotone(hi, Shr(p, MAX_ORDER), MAX_ORDER);
      }
      assert CoveredAt(blocks, p, MAX_ORDER);
    }
  }

  // No two buddies below MAX_ORDER are both in the set.
  ghost predicate NoBuddies(free: set<Block>) {
    forall k: nat, o: nat | o < MAX_ORDER && Block(2 * k, o) in free :: Block(2 * k + 1, o) !in free
  }

  ghost predicate PageIsFree(free: set<Block>, p: nat) {
    exists o: nat :: o <= MAX_ORDER && Block(Shr(p, o), o) in free
  }

  ghost predicate WhollyFree(free: set<Block>, b: Block) {
    forall p: nat | PageInBlock(p, b) :: PageIsFree(free, p)
  }

  // With merging kept maximal, a wholly free aligned run lies inside one free block.
  lemma {:induction false} FreeRunIsInOneBlock(free: set<Block>, b: Block) returns (o: nat)
    requires NoBuddies(free) && b.o <= MAX_ORDER && WhollyFree(free, b)
    ensures b.o <= o <= MAX_ORDER && Block(Shr(b.k, o - b.o), o) in free
    decreases b.o
  {
    if b.o == 0 {
      assert PageInBlock(b.k, b);
      o :| o <= MAX_ORDER && Block(Shr(b.k, o), o) in free;
    } else {
      assert forall p: nat | PageInBlock(p, Lower(b)) :: PageInBlock(p, b);
      assert forall p: nat | PageInBlock(p, Upper(b)) :: PageInBlock(p, b);
      o := FreeRunIsInOneBlock(free, Lower(b));
      if o < b.o {
        o := FreeRunIsInOneBlock(free, Upper(b));
        assert o >= b.o;
        ShrInner(2 * b.k + 1, o - b.o);
      } else {
        ShrInner(2 * b.k, o - b.o);
      }
    }
  }

  lemma PartOfFreeBlock(free: set<Block>, b: Block, o: nat)
    requires b.o <= o <= MAX_ORDER && Block(Shr(b.k, o - b.o), o) in free
    ensures WhollyFree(free, b)
  {
    forall p: nat | PageInBlock(p, b)
      ensures PageIsFree(free, p)
    {
      ShrShr(p, b.o, o - b.o);
    }
  }

  // ---------- free blocks, allocated blocks and one block in transit ----------

  ghost predicate Partition(free: set<Block>, live: set<Block>, cur: set<Block>, lo: nat, hi: nat) {
    && NoBuddies(free)
    && free !! live && cur !! free && cur !! live
    && Tiled(free + live + cur, lo, hi)
  }

  lemma PartitionInPool(free: set<Block>, live: set<Block>, cur: set<Block>, b: Block, lo: nat, hi: nat)
    requires Partition(free, live, cur, lo, hi)
    requires b in free || b in live || b in cur
    ensures InPool(b, lo, hi)
  {
    assert b in free + live + cur;
  }

  lemma PickFree(free: set<Block>, live: set<Block>, b: Block, lo: nat, hi: nat)
    requires Partition(free, live, {}, lo, hi) && b in free
    ensures Partition(free - {b}, live, {b}, lo, hi)
  {
    assert free - {b} + live + {b} == free + live + {};
  }

  lemma PickLive(free: set<Block>, live: set<Block>, b: Block, lo: nat, hi: nat)
    requires Partition(free, live, {}, lo, hi) && b in live
    ensures Partition(free, live - {b}, {b}, lo, hi)
  {
    assert free + (live - {b}) + {b} == free + live + {};
  }

  lemma HandOut(free: set<Block>, live: set<Block>, b: Block, lo: nat, hi: nat)
    requires Partition(free, live, {b}, lo, hi)
    ensures Partition(free, live + {b}, {}, lo, hi)
  {
    assert free + (live + {b}) + {} == free + live + {b};
  }

  lemma SplitCurrent(free: set<Block>, live: set<Block>, cur: Block, lo: nat, hi: nat)
    requires Partition(free, live, {cur}, lo, hi) && cur.o > 0
    ensures Upper(cur) !in free && Lower(cur) !in free
    ensures Partition(free + {Upper(cur)}, live, {Lower(cur)}, lo, hi)
  {
    var tiles := free + live + {cur};
    SplitTile(tiles, cur, lo, hi);
    HalvesAreNew(tiles, cur, lo, hi);
    assert free + {Upper(cur)} + live + {Lower(cur)} == tiles - {cur} + {Lower(cur), Upper(cur)};
  }

  function BuddyOf(b: Block): Block {
    Block(if b.k % 2 == 0 then b.k + 1 else b.k - 1, b.o)
  }

  lemma MergeCurrent(free: set<Block>, live: set<Block>, cur: Block, lo: nat, hi: nat)
    requires Partition(free, live, {cur}, lo, hi) && cur.o < MAX_ORDER && BuddyOf(cur) in free
    ensures Partition(free - {BuddyOf(cur)}, live, {Block(cur.k / 2, cur.o + 1)}, lo, hi)
  {
    var tiles, parent := free + live + {cur}, Block(cur.k / 2, cur.o + 1);
    assert {cur, BuddyOf(cur)} == {Lower(parent), Upper(parent)};
    MergeTiles(tiles, parent, lo, hi);
    assert free - {BuddyOf(cur)} + live + {parent} == tiles - {Lower(parent), Upper(parent)} + {parent};
  }

  lemma SettleCurrent(free: set<Block>, live: set<Block>, cur: Block, lo: nat, hi: nat)
    requires Partition(free, live, {cur}, lo, hi)
    requires cur.o < MAX_ORDER ==> BuddyOf(cur) !in free
    ensures Partition(free + {cur}, live, {}, lo, hi)
  {
    assert free + {cur} + live + {} == free + live + {cur};
  }

  // The addresses of a block's halves.
  lemma HalfAddresses(b: Block)
    requires b.o > 0
    ensures Shl(2 * b.k, b.o - 1) == Shl(b.k, b.o)
    ensures Shl(2 * b.k + 1, b.o - 1) == Shl(b.k, b.o) + Shl(1, b.o - 1)
    ensures Shr(Shl(b.k, b.o), b.o) == b.k
  {
    ShlTwice(b.k, b.o - 1);
    ShlAdd(2 * b.k, 1, b.o - 1);
    ShrShl(b.k, b.o);
  }

  lemma BuddyAddress(b: Block)
    ensures FlipBit(Shl(b.k, b.o), b.o) == Shl(BuddyOf(b).k, b.o)
    ensures ClearBit(Shl(b.k, b.o), b.o) == Shl(b.k / 2, b.o + 1)
  {
    BitOfShl(b.k, b.o);
  }
}
