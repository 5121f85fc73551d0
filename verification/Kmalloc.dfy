/** kmalloc and kfree of kernel/memory.c: pages cut into equal blocks behind a 32-byte descriptor. */
module Kmalloc {
  import opened Seqs
  import opened Bits
  import LinkedList

  const PG_SIZE := 4096
  const DESC_SIZE := 32
  const MAX_BLOCK_SIZE := 2032

  function Size(idx: nat): nat
    requires idx < 7
  {
    [32, 64, 116, 238, 508, 1016, 2032][idx]
  }

  function Count(idx: nat): nat
    requires idx < 7
  {
    [127, 63, 35, 17, 8, 4, 2][idx]
  }

  // mem_block_desc of a page of blocks; blocks is its block_list, by address.
  datatype Desc = Desc(count: nat, remain: nat, idx: nat, blocks: seq<nat>)

  // The address of block i of page p
  function Block(p: nat, idx: nat, i: nat): nat
    requires idx < 7
  {
    PG_SIZE * p + DESC_SIZE + Size(idx) * i
  }

  ghost predicate IsBlock(p: nat, idx: nat, a: nat)
    requires idx < 7
  {
    exists i :: 0 <= i < Count(idx) && a == Block(p, idx, i)
  }

  // addr & 0xfffff000, as a page number
  function PageOf(a: nat): nat {
    a / PG_SIZE
  }

  // ---------- where blocks lie ----------

  lemma MulMonotone(a: nat, b: nat, c: nat)
    requires a <= b
    ensures c * a <= c * b
  {
  }

  // The blocks of a page stand side by side from behind the descriptor on, and no further one would fit.
  lemma BlocksFillPage(p: nat, idx: nat, i: nat)
    requires idx < 7
    ensures Block(p, idx, 0) == 4096 * p + 32 && Block(p, idx, i + 1) == Block(p, idx, i) + Size(idx)
    ensures Block(p, idx, Count(idx)) <= 4096 * (p + 1) < Block(p, idx, Count(idx)) + Size(idx)
    ensures 32 <= Size(idx) <= MAX_BLOCK_SIZE && forall k | 0 <= k < idx :: Size(k) < Size(idx)
  {
    assert Size(idx) * (i + 1) == Size(idx) * i + Size(idx);
  }

  // A block is clear of the descriptor and inside its page.
  lemma BlockInside(p: nat, idx: nat, a: nat)
    requires idx < 7 && IsBlock(p, idx, a)
    ensures PG_SIZE * p + DESC_SIZE <= a && a + Size(idx) <= PG_SIZE * (p + 1) && PageOf(a) == p
  {
    var i :| 0 <= i < Count(idx) && a == Block(p, idx, i);
    MulMonotone(i + 1, Count(idx), Size(idx));
    assert Size(idx) * Count(idx) + DESC_SIZE <= PG_SIZE;
  }

  // Different blocks of a page do not overlap.
  lemma BlocksApart(p: nat, idx: nat, i: nat, j: nat)
    requires idx < 7 && i != j
    ensures Block(p, idx, i) != Block(p, idx, j)
    ensures i < j ==> Block(p, idx, i) + Size(idx) <= Block(p, idx, j)
  {
    if i < j {
      MulMonotone(i + 1, j, Size(idx));
    } else {
      MulMonotone(j + 1, i, Size(idx));
    }
  }

  // ---------- the invariant ----------

  type Pages = map<nat, Desc>
  type Live = map<nat, nat>

  ghost function LiveIn(live: Live, p: nat): set<nat> {
    set a | a in live && PageOf(a) == p
  }

  // Every block of the page is on its block_list or in use, and remain counts the former.
  ghost predicate PageOk(p: nat, d: Desc, live: Live) {
    && d.idx < 7 && d.count == Count(d.idx) && d.remain == |d.blocks| && NoRepeats(d.blocks)
    && d.remain + |LiveIn(live, p)| == d.count && d.remain < d.count
    && (forall j | 0 <= j < |d.blocks| :: IsBlock(p, d.idx, d.blocks[j]) && d.blocks[j] !in live)
  }

  ghost predicate PagesOk(pages: Pages, live: Live) {
    forall p | p in pages :: PageOk(p, pages[p], live)
  }

  // Every block in use belongs to a page and is big enough.
  ghost predicate LiveOk(pages: Pages, live: Live) {
    forall a | a in live ::
      PageOf(a) in pages && pages[PageOf(a)].idx < 7
      && IsBlock(PageOf(a), pages[PageOf(a)].idx, a) && live[a] <= Size(pages[PageOf(a)].idx)
  }

  // A page is on the full list of its size when nothing remains, else on the part list.
  ghost predicate ListOk(pages: Pages, part: seq<nat>, full: seq<nat>, k: nat) {
    && NoRepeats(part) && NoRepeats(full)
    && (forall p :: p in part <==> p in pages && pages[p].idx == k && pages[p].remain > 0)
    && (forall p :: p in full <==> p in pages && pages[p].idx == k && pages[p].remain == 0)
  }

  ghost predicate Inv(pages: Pages, part: seq<seq<nat>>, full: seq<seq<nat>>, live: Live) {
    && |part| == |full| == 7
    && PagesOk(pages, live)
    && LiveOk(pages, live)
    && (forall k | 0 <= k < 7 :: ListOk(pages, part[k], full[k], k))
  }

  // ---------- kmalloc ----------

  // A page's first free block goes to the caller.
  lemma TakeBlock(p: nat, d: Desc, live: Live, size: nat)
    requires d.idx < 7 && d.count == Count(d.idx) && |d.blocks| > 0 && NoRepeats(d.blocks) && d.remain == |d.blocks| - 1
    requires |d.blocks| + |LiveIn(live, p)| == d.count
    requires forall j | 0 <= j < |d.blocks| :: IsBlock(p, d.idx, d.blocks[j]) && d.blocks[j] !in live
    ensures PageOk(p, d.(blocks := d.blocks[1..]), live[d.blocks[0] := size])
  {
    var a, rest := d.blocks[0], d.blocks[1..];
    HeadNotInTail(d.blocks);
    BlockInside(p, d.idx, a);
    assert LiveIn(live[a := size], p) == LiveIn(live, p) + {a};
    forall j | 0 <= j < |rest|
      ensures IsBlock(p, d.idx, rest[j]) && rest[j] !in live[a := size]
    {
      assert rest[j] in rest && rest[j] == d.blocks[j + 1];
    }
  }

  // Other pages do not notice.
  lemma OtherPage(p: nat, d: Desc, live: Live, live': Live, a: nat)
    requires PageOk(p, d, live) && PageOf(a) != p
    requires live'.Keys + {a} == live.Keys + {a}
    ensures PageOk(p, d, live')
  {
    assert LiveIn(live', p) == LiveIn(live, p);
    forall j | 0 <= j < |d.blocks|
      ensures d.blocks[j] !in live'
    {
      assert IsBlock(p, d.idx, d.blocks[j]);
      BlockInside(p, d.idx, d.blocks[j]);
    }
  }

  lemma PagesAfter(pages: Pages, p: nat, d: Desc, live: Live, live': Live, a: nat)
    requires PagesOk(pages, live)
    requires PageOf(a) == p && live'.Keys + {a} == live.Keys + {a} && PageOk(p, d, live')
    ensures PagesOk(pages[p := d], live')
  {
    hide PageOk;
    forall q | q in pages && q != p
      ensures PageOk(q, pages[q], live')
    {
      OtherPage(q, pages[q], live, live', a);
    }
  }

  lemma LiveAfterTake(pages: Pages, p: nat, d: Desc, live: Live, a: nat, size: nat)
    requires LiveOk(pages, live) && PageOf(a) == p && d.idx < 7 && IsBlock(p, d.idx, a) && size <= Size(d.idx)
    requires p in pages ==> pages[p].idx == d.idx
    ensures LiveOk(pages[p := d], live[a := size])
  {
  }

  // A new page joins the empty part list.
  lemma ListsGain(pages: Pages, part: seq<nat>, full: seq<nat>, k: nat, p: nat, d: Desc)
    requires ListOk(pages, part, full, k) && p !in pages
    requires d.idx == k ==> part == [] && d.remain > 0
    ensures ListOk(pages[p := d], if d.idx == k then [p] else part, full, k)
  {
  }

  // A page whose remain goes down moves to the full list at 0.
  lemma ListsTake(pages: Pages, part: seq<nat>, full: seq<nat>, k: nat, p: nat, d: Desc)
    requires ListOk(pages, part, full, k) && p in pages && pages[p].remain == d.remain + 1 && pages[p].idx == d.idx
    ensures d.idx != k || d.remain > 0 ==> ListOk(pages[p := d], part, full, k)
    ensures d.idx == k && d.remain == 0 ==> p in part && ListOk(pages[p := d], Without(part, p), full + [p], k)
  {
    if d.idx == k && d.remain == 0 {
      assert p in part && p !in full;
      WithoutFacts(part, p);
      AddToBack(full, p);
    }
  }

  // ---------- kfree ----------

  lemma LiveWithout(live: Live, p: nat, a: nat)
    requires a in live && PageOf(a) == p
    ensures LiveIn(live - {a}, p) == LiveIn(live, p) - {a} && a in LiveIn(live, p)
    ensures |LiveIn(live - {a}, p)| == |LiveIn(live, p)| - 1
    ensures |LiveIn(live, p)| == 1 <==> LiveIn(live, p) == {a}
  {
    assert LiveIn(live - {a}, p) == LiveIn(live, p) - {a};
    if |LiveIn(live, p)| == 1 {
      assert |LiveIn(live, p) - {a}| == 0;
    }
  }

  // A block comes back to a page that keeps others in use.
  lemma GiveBlock(p: nat, d: Desc, live: Live, a: nat)
    requires PageOk(p, d, live) && a in live && PageOf(a) == p && IsBlock(p, d.idx, a) && d.remain + 1 < d.count
    ensures PageOk(p, d.(remain := d.remain + 1, blocks := d.blocks + [a]), live - {a})
  {
    LiveWithout(live, p, a);
    assert a !in d.blocks;
    AddToBack(d.blocks, a);
  }

  lemma LiveAfterGive(pages: Pages, p: nat, d: Desc, live: Live, a: nat)
    requires LiveOk(pages, live) && p in pages && pages[p].idx == d.idx
    ensures LiveOk(pages[p := d], live - {a})
    ensures LiveIn(live, p) == {a} ==> LiveOk(pages - {p}, live - {a})
  {
    if LiveIn(live, p) == {a} {
      forall b | b in live - {a}
        ensures PageOf(b) in pages - {p}
      {
        assert b !in LiveIn(live, p);
      }
    }
  }

  // A page whose remain goes up leaves the full list.
  lemma ListsGive(pages: Pages, part: seq<nat>, full: seq<nat>, k: nat, p: nat, d: Desc)
    requires ListOk(pages, part, full, k) && p in pages && d.remain == pages[p].remain + 1 && pages[p].idx == d.idx
    ensures d.idx != k || pages[p].remain > 0 ==> ListOk(pages[p := d], part, full, k)
    ensures d.idx == k && pages[p].remain == 0 ==>
              p in full && p !in part && ListOk(pages[p := d], part + [p], Without(full, p), k)
  {
    if d.idx == k && pages[p].remain == 0 {
      assert p in full && p !in part;
      WithoutFacts(full, p);
      AddToBack(part, p);
    }
  }

  // A page that goes leaves its part list.
  lemma ListsDrop(pages: Pages, part: seq<nat>, full: seq<nat>, k: nat, p: nat)
    requires ListOk(pages, part, full, k) && p in pages && pages[p].remain > 0
    ensures pages[p].idx != k ==> ListOk(pages - {p}, part, full, k)
    ensures pages[p].idx == k ==> p in part && ListOk(pages - {p}, Without(part, p), full, k)
  {
    if pages[p].idx == k {
      WithoutFacts(part, p);
    }
  }

  lemma PagesWithout(pages: Pages, p: nat, live: Live, a: nat)
    requires PagesOk(pages, live)
    requires PageOf(a) == p && a in live
    ensures PagesOk(pages - {p}, live - {a})
  {
    hide PageOk;
    forall q | q in pages && q != p
      ensures PageOk(q, pages[q], live - {a})
    {
      OtherPage(q, pages[q], live, live - {a}, a);
    }
  }

  // ---------- consequences ----------

  // Two blocks in use do not overlap, are as large as asked for, and lie in their pages behind the descriptor.
  lemma LiveBlocksApart(pages: Pages, part: seq<seq<nat>>, full: seq<seq<nat>>, live: Live, a: nat, b: nat)
    requires Inv(pages, part, full, live) && a in live && b in live && a < b
    ensures PageOf(a) in pages && pages[PageOf(a)].idx < 7
    ensures live[a] <= Size(pages[PageOf(a)].idx) && a + Size(pages[PageOf(a)].idx) <= b
    ensures PG_SIZE * PageOf(a) + DESC_SIZE <= a && a + Size(pages[PageOf(a)].idx) <= PG_SIZE * (PageOf(a) + 1)
  {
    var p, q := PageOf(a), PageOf(b);
    BlockInside(p, pages[p].idx, a);
    BlockInside(q, pages[q].idx, b);
    if p == q {
      var i :| 0 <= i < Count(pages[p].idx) && a == Block(p, pages[p].idx, i);
      var j :| 0 <= j < Count(pages[p].idx) && b == Block(p, pages[p].idx, j);
      if i != j {
        BlocksApart(p, pages[p].idx, i, j);
        BlocksApart(p, pages[p].idx, j, i);
      }
    }
  }

  class Heap {
    var pages: Pages
    var part: seq<seq<nat>>
    var full: seq<seq<nat>>
    // The blocks in use and the sizes asked for
    ghost var live: Live

    ghost predicate Valid()
      reads this
    {
      Inv(pages, part, full, live)
    }

    // memory_init's part of it
    constructor ()
      ensures Valid() && live == map[] && pages == map[]
    {
      pages, live := map[], map[];
      part, full := [[], [], [], [], [], [], []], [[], [], [], [], [], [], []];
    }

    // The smallest block size that fits
    method SizeIndex(size: nat) returns (idx: nat)
      requires size <= MAX_BLOCK_SIZE
      ensures idx < 7 && size <= Size(idx) && (idx > 0 ==> Size(idx - 1) < size)
    {
      idx := 0;
      while idx < 7 && size > Size(idx)
        invariant idx <= 7 && (idx > 0 ==> Size(idx - 1) < size)
      {
        idx := idx + 1;
      }
    }

    // The block_list of a new page
    method CutPage(page: nat, idx: nat) returns (blocks: seq<nat>)
      requires idx < 7
      ensures |blocks| == Count(idx) && NoRepeats(blocks)
      ensures forall i | 0 <= i < Count(idx) :: blocks[i] == Block(page, idx, i)
    {
      blocks := [];
      var i := 0;
      while i < Count(idx)
        invariant 0 <= i <= Count(idx) && |blocks| == i && NoRepeats(blocks)
        invariant forall j | 0 <= j < i :: blocks[j] == Block(page, idx, j)
      {
        forall j | 0 <= j < i
          ensures blocks[j] != Block(page, idx, i)
        {
          BlocksApart(page, idx, j, i);
        }
        assert Block(page, idx, i) !in blocks;
        blocks := LinkedList.Pushed(blocks, PG_SIZE * page + DESC_SIZE + Size(idx) * i);
        i := i + 1;
      }
    }

    // The page that serves a request of size idx, its remain already counted down and its lists adjusted.
    // page: what get_free_page returns if a page is needed
    method ServingPage(idx: nat, page: nat) returns (p: nat, desc: Desc)
      requires Valid() && idx < 7 && page !in pages
      modifies this`part, this`full
      ensures |part| == |full| == 7 && forall k | 0 <= k < 7 :: ListOk(pages[p := desc], part[k], full[k], k)
      ensures desc.idx == idx && desc.count == Count(idx) && desc.remain + 1 == |desc.blocks| && NoRepeats(desc.blocks)
      ensures |desc.blocks| + |LiveIn(live, p)| == desc.count
      ensures forall j | 0 <= j < |desc.blocks| :: IsBlock(p, idx, desc.blocks[j]) && desc.blocks[j] !in live
      ensures p == page || (p in pages && pages[p].idx == idx)
      ensures p == page <==> forall q | q in pages && pages[q].idx == idx :: pages[q].remain == 0
      ensures FromPage(old(pages), old(part), old(full), part, full, idx, page, p)
      ensures p == page ==>
                |desc.blocks| == Count(idx) && forall i | 0 <= i < Count(idx) :: desc.blocks[i] == Block(page, idx, i)
      ensures p != page ==> desc == pages[p].(remain := pages[p].remain - 1)
    {
      hide PageOk, LiveOk, ListOk, LiveIn, NoRepeats;
      assert ListOk(pages, part[idx], full[idx], idx);
      ghost var part0, full0 := part, full;
      NoRoom(pages, part[idx], full[idx], idx);
      if part[idx] == [] {
        part := part[idx := LinkedList.Pushed(part[idx], page)];
        var blocks := CutPage(page, idx);
        p, desc := page, Desc(Count(idx), Count(idx) - 1, idx, blocks);
        part := part[idx := LinkedList.Pushed(part[idx], page)];
        NewPage(pages, live, page, desc);
        forall k | 0 <= k < 7
          ensures ListOk(pages[page := desc], part[k], full[k], k)
        {
          ListsGain(pages, part0[k], full[k], k, page, desc);
        }
      } else {
        p := part[idx][0];
        PartPage(pages, part[idx], full[idx], idx, live);
        desc := pages[p].(remain := pages[p].remain - 1);
        if desc.remain == 0 {
          part := part[idx := Without(part[idx], p)];
          full := full[idx := LinkedList.Pushed(full[idx], p)];
        }
        forall k | 0 <= k < 7
          ensures ListOk(pages[p := desc], part[k], full[k], k)
        {
          ListsTake(pages, part0[k], full0[k], k, p, desc);
        }
      }
    }

    method Kmalloc(size: nat, page: nat) returns (addr: nat)
      requires Valid() && size <= MAX_BLOCK_SIZE && page !in pages
      modifies this
      ensures Valid() && addr !in old(live) && live == old(live)[addr := size]
      ensures pages.Keys == old(pages).Keys || pages.Keys == old(pages).Keys + {page}
      ensures PageOf(addr) in pages && pages[PageOf(addr)].idx < 7
      ensures var idx := pages[PageOf(addr)].idx; size <= Size(idx) && (idx > 0 ==> Size(idx - 1) < size)
      ensures page in pages <==>
              forall p | p in old(pages) && old(pages)[p].idx == pages[PageOf(addr)].idx :: old(pages)[p].remain == 0
      ensures var p, d := PageOf(addr), pages[PageOf(addr)];
              && FromPage(old(pages), old(part), old(full), part, full, d.idx, page, p)
              && pages == old(pages)[p := d]
              && if p == page then
                   && addr == Block(page, d.idx, 0) && |d.blocks| == Count(d.idx) - 1
                   && forall i | 0 < i < Count(d.idx) :: d.blocks[i - 1] == Block(page, d.idx, i)
                 else
                   [addr] + d.blocks == old(pages)[p].blocks
    {
      hide PageOk, LiveOk, ListOk, LiveIn, PagesOk, IsBlock, NoRepeats;
      var idx := SizeIndex(size);
      var p, desc := ServingPage(idx, page);
      addr := desc.blocks[0];
      BlockInside(p, idx, addr);
      TakeBlock(p, desc, live, size);
      ghost var desc0 := desc;
      desc := desc.(blocks := desc.blocks[1..]);
      PagesAfter(pages, p, desc, live, live[addr := size], addr);
      LiveAfterTake(pages, p, desc, live, addr, size);
      forall k | 0 <= k < 7
        ensures ListOk(pages[p := desc], part[k], full[k], k)
      {
        SameLists(pages, part[k], full[k], k, p, desc0, desc);
      }
      pages := pages[p := desc];
      live := live[addr := size];
    }

    method Kfree(addr: nat)
      requires Valid() && addr in live
      modifies this
      ensures Valid() && live == old(live) - {addr}
      ensures pages.Keys == old(pages).Keys - (if LiveIn(old(live), PageOf(addr)) == {addr} then {PageOf(addr)} else {})
      ensures GivenBack(old(pages), old(part), old(full), pages, part, full, addr)
    {
      hide PageOk, ListOk, LiveIn, NoRepeats, Without, IsBlock;
      var p := PageOf(addr);
      var desc := pages[p];
      ghost var idx, d0, part0, full0 := desc.idx, desc, part, full;
      Membership(pages, part[idx], full[idx], idx, p, live, addr);
      if p in full[desc.idx] {
        assert p !in part[desc.idx];
        full := full[desc.idx := Without(full[desc.idx], p)];
        part := part[desc.idx := LinkedList.Pushed(part[desc.idx], p)];
        assert desc.remain == 0;
        desc := desc.(remain := desc.remain + 1, blocks := LinkedList.Pushed(desc.blocks, addr));
      } else {
        assert p in part[desc.idx];
        assert desc.remain < desc.count;
        desc := desc.(remain := desc.remain + 1);
        if desc.remain == desc.count {
          part := part[desc.idx := Without(part[desc.idx], p)];
          PagesWithout(pages, p, live, addr);
          LiveAfterGive(pages, p, d0, live, addr);
          forall k | 0 <= k < 7
            ensures ListOk(pages - {p}, part[k], full[k], k)
          {
            ListsDrop(pages, part0[k], full0[k], k, p);
          }
          pages := pages - {p};
          live := live - {addr};
          return;
        }
        desc := desc.(blocks := LinkedList.Pushed(desc.blocks, addr));
      }
      GiveBlock(p, d0, live, addr);
      PagesAfter(pages, p, desc, live, live - {addr}, addr);
      LiveAfterGive(pages, p, desc, live, addr);
      forall k | 0 <= k < 7
        ensures ListOk(pages[p := desc], part[k], full[k], k)
      {
        ListsGive(pages, part0[k], full0[k], k, p, desc);
      }
      pages := pages[p := desc];
      live := live - {addr};
    }

    // A block asked for and given back at once leaves the same blocks in use.
    method KmallocThenKfree(size: nat, page: nat)
      requires Valid() && size <= MAX_BLOCK_SIZE && page !in pages
      modifies this
      ensures Valid() && live == old(live)
    {
      hide Inv;
      var addr := Kmalloc(size, page);
      Kfree(addr);
    }
  }

  // Block a goes to the end of its page's list. A page that had none left comes to the end of the part list, and
  // one that has all its blocks back goes.
  ghost predicate GivenBack(pages: Pages, part: seq<seq<nat>>, full: seq<seq<nat>>, pages': Pages,
                            part': seq<seq<nat>>, full': seq<seq<nat>>, a: nat)
  {
    var p := PageOf(a);
    && p in pages && pages[p].idx < 7 && |part| == |full| == 7
    && var d, idx := pages[p], pages[p].idx;
       if d.remain + 1 == d.count then
         pages' == pages - {p} && part' == part[idx := Without(part[idx], p)] && full' == full
       else
         && pages' == pages[p := Desc(d.count, d.remain + 1, idx, d.blocks + [a])]
         && part' == (if d.remain == 0 then part[idx := part[idx] + [p]] else part)
         && full' == (if d.remain == 0 then full[idx := Without(full[idx], p)] else full)
  }

  // The page on which a request of size idx is served, and its lists: the first of the part list, which moves
  // to the end of the full list with its last block, or a new page.
  ghost predicate FromPage(pages: Pages, part: seq<seq<nat>>, full: seq<seq<nat>>, part': seq<seq<nat>>,
                           full': seq<seq<nat>>, idx: nat, page: nat, p: nat)
  {
    && |part| == |full| == 7 && idx < 7
    && if part[idx] == [] then
         p == page && part' == part[idx := [page]] && full' == full
       else
         && p == part[idx][0] && p in pages && p != page
         && part' == (if pages[p].remain == 1 then part[idx := Without(part[idx], p)] else part)
         && full' == (if pages[p].remain == 1 then full[idx := full[idx] + [p]] else full)
  }

  // Lists look at a descriptor's idx and remain only.
  lemma SameLists(pages: Pages, part: seq<nat>, full: seq<nat>, k: nat, p: nat, d0: Desc, d: Desc)
    requires ListOk(pages[p := d0], part, full, k) && d0.idx == d.idx && d0.remain == d.remain
    ensures ListOk(pages[p := d], part, full, k)
  {
  }

  lemma NewPage(pages: Pages, live: Live, p: nat, d: Desc)
    requires LiveOk(pages, live) && p !in pages && d.idx < 7 && d.count == |d.blocks| == Count(d.idx)
    requires forall i | 0 <= i < Count(d.idx) :: d.blocks[i] == Block(p, d.idx, i)
    ensures LiveIn(live, p) == {}
    ensures forall j | 0 <= j < |d.blocks| :: IsBlock(p, d.idx, d.blocks[j]) && d.blocks[j] !in live
  {
    forall j | 0 <= j < |d.blocks|
      ensures IsBlock(p, d.idx, d.blocks[j]) && d.blocks[j] !in live
    {
      assert d.blocks[j] == Block(p, d.idx, j);
      BlockInside(p, d.idx, d.blocks[j]);
    }
  }

  // The first page of a part list has a block to give.
  lemma PartPage(pages: Pages, part: seq<nat>, full: seq<nat>, k: nat, live: Live)
    requires ListOk(pages, part, full, k) && part != [] && PagesOk(pages, live) && k < 7
    ensures var p := part[0];
            && p in pages && p !in full && pages[p].idx == k && PageOk(p, pages[p], live)
            && pages[p].remain == |pages[p].blocks| > 0 && NoRepeats(pages[p].blocks) && pages[p].count == Count(k)
            && |pages[p].blocks| + |LiveIn(live, p)| == pages[p].count
            && forall j | 0 <= j < |pages[p].blocks| :: IsBlock(p, k, pages[p].blocks[j]) && pages[p].blocks[j] !in live
  {
    assert part[0] in part;
  }

  // An empty part list means that every page of that size is full.
  lemma NoRoom(pages: Pages, part: seq<nat>, full: seq<nat>, k: nat)
    requires ListOk(pages, part, full, k)
    ensures part == [] <==> forall p | p in pages && pages[p].idx == k :: pages[p].remain == 0
  {
    if part != [] {
      assert part[0] in part;
    }
  }

  // What kfree's list searches find, and when the page goes.
  lemma Membership(pages: Pages, part: seq<nat>, full: seq<nat>, k: nat, p: nat, live: Live, a: nat)
    requires p in pages && pages[p].idx == k && ListOk(pages, part, full, k) && PageOk(p, pages[p], live)
    requires a in live && PageOf(a) == p
    ensures p in full <==> p !in part
    ensures p in full <==> pages[p].remain == 0
    ensures pages[p].remain < pages[p].count && pages[p].count >= 2 && a !in pages[p].blocks
    ensures pages[p].remain + 1 == pages[p].count <==> LiveIn(live, p) == {a}
  {
    LiveWithout(live, p, a);
  }

  // ---------- sizes above 2032 ----------

  function Pages4K(size: nat): nat {
    (size + DESC_SIZE + PG_SIZE - 1) / PG_SIZE
  }

  // As few pages as hold the block and its descriptor
  lemma Pages4KIsLeast(size: nat, n: nat)
    ensures n >= Pages4K(size) <==> 4096 * n >= size + 32
  {
  }

  // How often n can be halved before it is 1
  function Halvings(n: nat): nat {
    if n <= 1 then 0 else 1 + Halvings(n / 2)
  }

  method LargeOrder(size: nat) returns (order: nat)
    requires size > MAX_BLOCK_SIZE
    ensures order == Halvings(Pages4K(size))
  {
    var cnt: nat := (size + DESC_SIZE + PG_SIZE - 1) / PG_SIZE;
    order := 0;
    while cnt > 1
      invariant order + Halvings(cnt) == Halvings(Pages4K(size))
    {
      cnt := cnt / 2;
      order := order + 1;
    }
  }

  // Halving rounds down: 1 << Halvings(n) is n only when n is a power of two.
  lemma {:induction false} HalvingsRoundDown(n: nat)
    requires n >= 1
    ensures Shl(1, Halvings(n)) <= n < 2 * Shl(1, Halvings(n))
  {
    if n > 1 {
      HalvingsRoundDown(n / 2);
    }
  }

  lemma {:induction false} HalvingsOfPower(k: nat)
    ensures Halvings(Shl(1, k)) == k && Shl(1, k) >= 1
  {
    if k > 0 {
      HalvingsOfPower(k - 1);
      assert Shl(1, k) / 2 == Shl(1, k - 1);
    }
  }

  ghost predicate IsPowerOfTwo(n: nat) {
    exists k :: n == Shl(1, k)
  }

  // The pages a large request gets are enough exactly when the number it needs is a power of two.
  lemma LargeFitsIffPowerOfTwo(size: nat)
    requires size > MAX_BLOCK_SIZE
    ensures size + DESC_SIZE <= PG_SIZE * Shl(1, Halvings(Pages4K(size))) <==> IsPowerOfTwo(Pages4K(size))
  {
    var n := Pages4K(size);
    HalvingsRoundDown(n);
    if IsPowerOfTwo(n) {
      var k :| n == Shl(1, k);
      HalvingsOfPower(k);
    }
  }

  // 9000 bytes need 3 pages and get 2.
  lemma LargeOverflows()
    ensures Pages4K(9000) == 3 && Halvings(3) == 1
    ensures PG_SIZE * Shl(1, Halvings(Pages4K(9000))) < 9000 + DESC_SIZE
  {
    assert Halvings(1) == 0;
    assert Shl(1, 1) == 2;
  }
}
