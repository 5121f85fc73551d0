/** The regions of an address space: kernel/vma.c, and which faults find a region. */
module Vma {
  import opened Options

  const PG_SIZE: nat := 4096
  const PDES: nat := 768                // user entries of a page directory
  const PTES: nat := 1024               // entries of a page table
  const USER_START: nat := 0x08048000   // the lowest address a program may touch
  const TASK_SIZE: nat := 0xC0000000    // the kernel starts here, at PDES page tables
  const WORDS: nat := 0x1_0000_0000

  // 32-bit arithmetic
  function Word(x: int): nat {
    x % WORDS
  }

  lemma WordOf(x: nat)
    requires x < WORDS
    ensures Word(x) == x
  {
  }

  // struct vm_area_struct: addresses [start, end), and the offset into the file it maps, if any
  datatype Region = Region(start: nat, end: nat, offset: Option<nat>)

  // ---------- finding a region ----------

  // find_vma: the first region that ends above addr
  function FindVma(regions: seq<Region>, addr: nat): Option<Region> {
    if regions == [] then None
    else if regions[0].end > addr then Some(regions[0])
    else FindVma(regions[1..], addr)
  }

  lemma {:induction false} FindVmaIsMember(regions: seq<Region>, addr: nat) returns (i: nat)
    requires FindVma(regions, addr).Some?
    ensures i < |regions| && regions[i] == FindVma(regions, addr).value && regions[i].end > addr
  {
    if regions[0].end > addr {
      i := 0;
    } else {
      i := FindVmaIsMember(regions[1..], addr);
      i := i + 1;
    }
  }

  // Region i is the first that ends above addr.
  ghost predicate FirstAbove(regions: seq<Region>, addr: nat, i: nat) {
    && i < |regions| && regions[i].end > addr
    && forall j | 0 <= j < i :: regions[j].end <= addr
  }

  lemma {:induction false} FindVmaIsFirst(regions: seq<Region>, addr: nat, i: nat)
    requires FirstAbove(regions, addr, i)
    ensures FindVma(regions, addr) == Some(regions[i])
  {
    if i > 0 {
      FindVmaIsFirst(regions[1..], addr, i - 1);
    }
  }

  // The search finds nothing if and only if no region ends above the address, and else the first that does.
  lemma {:induction false} FindVmaFinds(regions: seq<Region>, addr: nat)
    ensures FindVma(regions, addr).None? <==> forall i | 0 <= i < |regions| :: regions[i].end <= addr
    ensures FindVma(regions, addr).Some? ==> exists i: nat :: FirstAbove(regions, addr, i)
  {
    if regions == [] {
    } else if regions[0].end > addr {
      assert FirstAbove(regions, addr, 0);
    } else {
      FindVmaFinds(regions[1..], addr);
      if FindVma(regions, addr).Some? {
        var i: nat :| FirstAbove(regions[1..], addr, i);
        assert FirstAbove(regions, addr, i + 1);
      } else {
        assert forall i | 0 < i < |regions| :: regions[i] == regions[1..][i - 1];
      }
    }
  }

  // Where page_not_present reads in the file of a region; the address may be below the region's start.
  function FileOffset(r: Region, addr: nat): nat
    requires r.offset.Some?
  {
    Word(r.offset.value + Word(addr - r.start) / PG_SIZE * PG_SIZE)
  }

  // The first touches page_not_present lets pass; size is that of the region's file. file_read asserts that
  // it does not start behind the file's end.
  predicate Accepts(regions: seq<Region>, addr: nat, size: nat) {
    && USER_START <= addr < TASK_SIZE
    && var r := FindVma(regions, addr);
       r.Some? && (r.value.offset.Some? ==> FileOffset(r.value, addr) <= size)
  }

  // The write faults page_protect_fault lets pass: every region is writable.
  predicate InRegion(regions: seq<Region>, addr: nat) {
    FindVma(regions, addr).Some? && FindVma(regions, addr).value.start <= addr
  }

  ghost predicate Inside(regions: seq<Region>, addr: nat) {
    exists i :: 0 <= i < |regions| && regions[i].start <= addr < regions[i].end
  }

  // The region found has the address if and only if some region has it.
  lemma InRegionIffInside(regions: seq<Region>, addr: nat)
    requires Ordered(regions)
    ensures InRegion(regions, addr) <==> Inside(regions, addr)
  {
    if InRegion(regions, addr) {
      var i := FindVmaIsMember(regions, addr);
      assert regions[i].start <= addr < regions[i].end;
    }
    if i :| 0 <= i < |regions| && regions[i].start <= addr < regions[i].end {
      FindVmaIsFirst(regions, addr, i);
    }
  }

  // From a region's start on, a touch reads a multiple of a page behind the region's offset in the file: the
  // last such place not behind the address itself. Every address of one page step reads the same.
  lemma FileOffsetIsPageStep(r: Region, addr: nat)
    requires r.offset.Some? && r.start <= addr && r.offset.value + (addr - r.start) < WORDS
    ensures r.offset.value <= FileOffset(r, addr) <= r.offset.value + (addr - r.start)
    ensures r.offset.value + (addr - r.start) < FileOffset(r, addr) + PG_SIZE
    ensures (FileOffset(r, addr) - r.offset.value) % PG_SIZE == 0
    ensures forall k: nat :: r.start + PG_SIZE * k <= addr < r.start + PG_SIZE * (k + 1) ==>
                               FileOffset(r, addr) == r.offset.value + PG_SIZE * k
  {
    WordOf(addr - r.start);
    WordOf(r.offset.value + (addr - r.start) / PG_SIZE * PG_SIZE);
  }

  // Below it, it reads the least number of whole pages before the offset that brings it to the address or
  // below; before the file's beginning the offset wraps around.
  lemma FileOffsetBelowStart(r: Region, addr: nat, k: nat)
    requires r.offset.Some? && addr < r.start < WORDS && r.offset.value < WORDS
    requires addr + PG_SIZE * k < r.start + PG_SIZE && r.start <= addr + PG_SIZE * k
    ensures FileOffset(r, addr) == r.offset.value - PG_SIZE * k + if r.offset.value < PG_SIZE * k then WORDS else 0
  {
    WrapsOnce(addr, r.start);
    var back := WORDS - (r.start - addr);
    assert back / PG_SIZE == WORDS / PG_SIZE - k;
    WordOf(r.offset.value + (if r.offset.value < PG_SIZE * k then WORDS else 0) - PG_SIZE * k);
  }

  lemma WrapsOnce(low: nat, high: nat)
    requires low < high <= low + WORDS
    ensures Word(low - high) == WORDS - (high - low)
  {
  }

  // The region an address is taken to be in decides: anonymous memory is there at once, and in the file the
  // page step must not start behind the end.
  lemma AcceptsIff(regions: seq<Region>, addr: nat, size: nat, i: nat)
    requires FirstAbove(regions, addr, i)
    ensures regions[i].offset.None? ==> (Accepts(regions, addr, size) <==> USER_START <= addr < TASK_SIZE)
    ensures regions[i].offset.Some? && regions[i].start <= addr
            && regions[i].offset.value + (addr - regions[i].start) < WORDS ==>
              (Accepts(regions, addr, size) <==>
               && USER_START <= addr < TASK_SIZE
               && regions[i].offset.value + (addr - regions[i].start) - (addr - regions[i].start) % PG_SIZE <= size)
  {
    FindVmaIsFirst(regions, addr, i);
    var r := regions[i];
    if r.offset.Some? && r.start <= addr && r.offset.value + (addr - r.start) < WORDS {
      FileOffsetIsPageStep(r, addr);
    }
  }

  // ---------- the pages of a region ----------

  // First page of a region and the page after its last one.
  function FirstPage(r: Region): nat {
    r.start / PG_SIZE
  }

  function PageAfter(r: Region): nat {
    (r.end + PG_SIZE - 1) / PG_SIZE
  }

  predicate HasPage(r: Region, no: nat) {
    FirstPage(r) <= no < PageAfter(r)
  }

  // A region has the pages its addresses lie on.
  lemma HasPageIffAddress(r: Region, no: nat)
    requires r.start < r.end
    ensures HasPage(r, no) <==> exists addr: nat | r.start <= addr < r.end :: addr / PG_SIZE == no
  {
    if HasPage(r, no) {
      assert Max(r.start, no * PG_SIZE) / PG_SIZE == no;
    }
  }

  // How many of the regions a page belongs to.
  function Covering(regions: seq<Region>, no: nat): nat {
    if regions == [] then 0 else (if HasPage(regions[0], no) then 1 else 0) + Covering(regions[1..], no)
  }

  ghost predicate PageDisjoint(regions: seq<Region>) {
    forall i, j, no | 0 <= i < j < |regions| && HasPage(regions[i], no) :: !HasPage(regions[j], no)
  }

  lemma {:induction false} CoveringZero(regions: seq<Region>, no: nat)
    requires forall i | 0 <= i < |regions| :: !HasPage(regions[i], no)
    ensures Covering(regions, no) == 0
  {
    if regions != [] {
      CoveringZero(regions[1..], no);
    }
  }

  // With page-disjoint regions a page of some region is a page of exactly one.
  lemma {:induction false} CoveringOne(regions: seq<Region>, no: nat, i: nat)
    requires PageDisjoint(regions) && i < |regions| && HasPage(regions[i], no)
    ensures Covering(regions, no) == 1
  {
    if i == 0 {
      CoveringZero(regions[1..], no);
    } else {
      assert !HasPage(regions[0], no);
      CoveringOne(regions[1..], no, i - 1);
    }
  }

  lemma {:induction false} CoveringAtMostOne(regions: seq<Region>, no: nat)
    requires PageDisjoint(regions)
    ensures Covering(regions, no) <= 1
  {
    if i :| 0 <= i < |regions| && HasPage(regions[i], no) {
      CoveringOne(regions, no, i);
    } else {
      CoveringZero(regions, no);
    }
  }

  // An address inside a region lies on a page of exactly one.
  lemma InRegionCovers(regions: seq<Region>, addr: nat)
    requires PageDisjoint(regions) && InRegion(regions, addr)
    ensures Covering(regions, addr / PG_SIZE) == 1
  {
    var i := FindVmaIsMember(regions, addr);
    CoveringOne(regions, addr / PG_SIZE, i);
  }

  // ---------- do_mmap ----------

  function Max(a: nat, b: nat): nat {
    if a > b then a else b
  }

  // Does the search move on from region i?
  predicate MovesOn(regions: seq<Region>, i: nat, addr: nat, len: nat) {
    && i + 1 < |regions|
    && (regions[i + 1].start < addr || Word(regions[i + 1].start - Max(regions[i].end, addr)) < len)
  }

  // The region do_mmap's search stops at, and the address it has arrived at.
  function Search(regions: seq<Region>, i: nat, addr: nat, len: nat): (r: (nat, nat))
    requires i < |regions|
    ensures r.0 < |regions|
    decreases |regions| - i
  {
    if MovesOn(regions, i, addr, len) then Search(regions, i + 1, Max(addr, regions[i].end), len) else (i, addr)
  }

  // The new region behind the first i, if it passes the last assertion.
  function InsertAt(regions: seq<Region>, i: nat, r: Region): Option<seq<Region>>
    requires i <= |regions|
  {
    if USER_START <= r.start < r.end <= TASK_SIZE then Some(regions[..i] + [r] + regions[i..]) else None
  }

  lemma InsertLast(regions: seq<Region>, r: Region)
    requires USER_START <= r.start < r.end <= TASK_SIZE
    ensures InsertAt(regions, |regions|, r) == Some(regions + [r])
  {
    assert regions[..|regions|] + [r] + regions[|regions|..] == regions + [r];
  }

  // do_mmap; None where it panics
  function Mmap(regions: seq<Region>, addr: nat, len: nat, offset: Option<nat>): Option<seq<Region>> {
    if len == 0 || addr == 0 || Word(addr + len) > TASK_SIZE then None
    else if regions == [] then InsertAt([], 0, Region(addr, Word(addr + len), offset))
    else
      var (i, a) := Search(regions, 0, addr, len);
      if Word(regions[i].end + len) >= TASK_SIZE then None
      else if regions[i].end == a || (i + 1 < |regions| && regions[i + 1].start == Word(a + len)) then None
      else InsertAt(regions, i + 1, Region(a, Word(a + len), offset))
  }

  // Regions in user space, in order and with a gap after each, as they would be had no two ever been joined.
  ghost predicate Ordered(regions: seq<Region>) {
    && (forall i | 0 <= i < |regions| :: USER_START <= regions[i].start < regions[i].end <= TASK_SIZE)
    && (forall i, j | 0 <= i < j < |regions| :: regions[i].end < regions[j].start)
  }

  // The addresses asked for are free, in user space and, unless they are the first, behind some region, and
  // touch no region.
  ghost predicate Fits(regions: seq<Region>, addr: nat, len: nat) {
    && USER_START <= addr < addr + len <= TASK_SIZE
    && (regions == [] || regions[0].end < addr)
    && forall j | 0 <= j < |regions| :: regions[j].end < addr || addr + len < regions[j].start
  }

  // Behind region n there is room for len bytes from addr on, before the next region starts.
  ghost predicate RoomBehind(regions: seq<Region>, n: nat, addr: nat, len: nat) {
    && n < |regions|
    && (n + 1 == |regions| || Max(addr, regions[n].end) + len <= regions[n + 1].start)
  }

  lemma MovesOnWithoutRoom(regions: seq<Region>, n: nat, addr: nat, len: nat)
    requires Ordered(regions) && n < |regions| && len > 0
    ensures MovesOn(regions, n, if n == 0 then addr else Max(addr, regions[n - 1].end), len)
       <==> !RoomBehind(regions, n, addr, len)
  {
    if n + 1 < |regions| && addr <= regions[n + 1].start {
      WordOf(regions[n + 1].start - Max(regions[n].end, addr));
    }
  }

  lemma {:induction false} SearchFrom(regions: seq<Region>, i: nat, addr: nat, len: nat)
    requires Ordered(regions) && i < |regions| && len > 0
    ensures var (n, a) := Search(regions, i, if i == 0 then addr else Max(addr, regions[i - 1].end), len);
            && i <= n && RoomBehind(regions, n, addr, len)
            && (forall j | i <= j < n :: !RoomBehind(regions, j, addr, len))
            && a == if n == 0 then addr else Max(addr, regions[n - 1].end)
    decreases |regions| - i
  {
    hide Word, MovesOn, RoomBehind;
    MovesOnWithoutRoom(regions, i, addr, len);
    if RoomBehind(regions, i, addr, len) {
    } else {
      assert i + 1 < |regions| by { LastHasRoom(regions, i, addr, len); }
      SearchFrom(regions, i + 1, addr, len);
    }
  }

  lemma LastHasRoom(regions: seq<Region>, i: nat, addr: nat, len: nat)
    requires i < |regions|
    ensures !RoomBehind(regions, i, addr, len) ==> i + 1 < |regions|
  {
  }

  // Through regions in order the search stops at the first with room behind it, but its address has only been
  // moved behind the region before that one.
  lemma SearchIsFirstRoom(regions: seq<Region>, addr: nat, len: nat)
    requires Ordered(regions) && regions != [] && len > 0
    ensures var (n, a) := Search(regions, 0, addr, len);
            && RoomBehind(regions, n, addr, len)
            && (forall j | 0 <= j < n :: !RoomBehind(regions, j, addr, len))
            && a == if n == 0 then addr else Max(addr, regions[n - 1].end)
  {
    SearchFrom(regions, 0, addr, len);
  }

  // Addresses behind the first region that no region has.
  ghost predicate IsFree(regions: seq<Region>, addr: nat, len: nat) {
    && USER_START <= addr < addr + len <= TASK_SIZE
    && (regions == [] || regions[0].end <= addr)
    && forall j | 0 <= j < |regions| :: regions[j].end <= addr || addr + len <= regions[j].start
  }

  ghost predicate Apart(regions: seq<Region>, addr: nat, len: nat) {
    forall j | 0 <= j < |regions| :: regions[j].end != addr && regions[j].start != addr + len
  }

  // Of those, do_mmap refuses exactly the ones that touch a region.
  lemma FreeIsMappedIffApart(regions: seq<Region>, addr: nat, len: nat, offset: Option<nat>)
    requires Ordered(regions) && IsFree(regions, addr, len)
    ensures Mmap(regions, addr, len, offset).Some? <==> Apart(regions, addr, len)
  {
    hide Mmap, Ordered;
    if Apart(regions, addr, len) {
      FreeAndApartFits(regions, addr, len);
      var _ := FittingIsMapped(regions, addr, len, offset);
    } else {
      TouchingIsRefused(regions, addr, len, offset);
    }
  }

  lemma FreeAndApartFits(regions: seq<Region>, addr: nat, len: nat)
    requires IsFree(regions, addr, len) && Apart(regions, addr, len)
    ensures Fits(regions, addr, len)
  {
  }

  lemma TouchingIsRefused(regions: seq<Region>, addr: nat, len: nat, offset: Option<nat>)
    requires Ordered(regions) && IsFree(regions, addr, len) && !Apart(regions, addr, len)
    ensures Mmap(regions, addr, len, offset).None?
  {
    hide Word, Search, Ordered, RoomBehind;
    SearchIsFirstRoom(regions, addr, len);
    var (n, a) := Search(regions, 0, addr, len);
    FirstRoomTouches(regions, n, addr, len);
    WordOf(addr + len);
  }

  lemma FirstRoomTouches(regions: seq<Region>, n: nat, addr: nat, len: nat)
    requires Ordered(regions) && IsFree(regions, addr, len) && RoomBehind(regions, n, addr, len)
    requires forall j | 0 <= j < n :: !RoomBehind(regions, j, addr, len)
    requires !Apart(regions, addr, len)
    ensures n > 0 ==> regions[n - 1].end <= addr
    ensures regions[n].end == addr || (n + 1 < |regions| && regions[n + 1].start == addr + len)
  {
    var j :| 0 <= j < |regions| && (regions[j].end == addr || regions[j].start == addr + len);
    var m := if regions[j].end == addr then j else j - 1;
    assert RoomBehind(regions, m, addr, len);
    assert n == m;
  }

  // How far the search gets, and that it only ever moves the address to the end of a region it leaves behind.
  lemma {:induction false} SearchStops(regions: seq<Region>, i: nat, addr: nat, len: nat)
    requires Ordered(regions) && i < |regions|
    ensures var (n, a) := Search(regions, i, addr, len);
            && i <= n < |regions| && addr <= a && !MovesOn(regions, n, a, len)
            && (a == addr || (n > i && a == regions[n - 1].end))
            && (n > i ==> a >= regions[n - 1].end)
    decreases |regions| - i
  {
    if MovesOn(regions, i, addr, len) {
      SearchStops(regions, i + 1, Max(addr, regions[i].end), len);
    }
  }

  // The search stops where the addresses asked for fit.
  lemma {:induction false} SearchFits(regions: seq<Region>, i: nat, addr: nat, len: nat)
    requires Ordered(regions) && i < |regions| && Fits(regions, addr, len) && regions[i].end < addr
    ensures var (n, a) := Search(regions, i, addr, len);
            i <= n < |regions| && a == addr && regions[n].end < addr
            && (n + 1 < |regions| ==> addr + len < regions[n + 1].start)
    decreases |regions| - i
  {
    hide Word;
    if i + 1 < |regions| {
      if regions[i + 1].end < addr {
        SearchFits(regions, i + 1, addr, len);
      } else {
        WordOf(regions[i + 1].start - addr);
      }
    }
  }

  // do_mmap gives exactly the addresses asked for, and keeps the regions in order, if they fit.
  lemma FittingIsMapped(regions: seq<Region>, addr: nat, len: nat, offset: Option<nat>) returns (i: nat)
    requires Ordered(regions) && Fits(regions, addr, len)
    ensures i <= |regions|
    ensures Mmap(regions, addr, len, offset) == Some(regions[..i] + [Region(addr, addr + len, offset)] + regions[i..])
    ensures Ordered(Mmap(regions, addr, len, offset).value)
  {
    hide Word, Search;
    WordOf(addr + len);
    if regions == [] {
      i := 0;
    } else {
      SearchFits(regions, 0, addr, len);
      WordOf(regions[Search(regions, 0, addr, len).0].end + len);
      i := Search(regions, 0, addr, len).0 + 1;
      StaysOrdered(regions, i, Region(addr, addr + len, offset));
    }
  }

  // Behind the last region there is always room.
  lemma MmapLast(regions: seq<Region>, addr: nat, len: nat, offset: Option<nat>)
    requires Ordered(regions) && USER_START <= addr < addr + len <= TASK_SIZE
    requires regions != [] ==> regions[|regions| - 1].end < addr
    ensures Mmap(regions, addr, len, offset) == Some(regions + [Region(addr, addr + len, offset)])
  {
    hide Word, Search;
    WordOf(addr + len);
    InsertLast(regions, Region(addr, addr + len, offset));
    if regions != [] {
      assert Fits(regions, addr, len);
      SearchFits(regions, 0, addr, len);
      WordOf(regions[Search(regions, 0, addr, len).0].end + len);
    }
  }

  lemma StaysOrdered(regions: seq<Region>, i: nat, r: Region)
    requires Ordered(regions) && 0 < i <= |regions| && USER_START <= r.start < r.end <= TASK_SIZE
    requires regions[i - 1].end < r.start && (i < |regions| ==> r.end < regions[i].start)
    ensures Ordered(regions[..i] + [r] + regions[i..])
  {
  }

  // do_mmap keeps the regions in order if and only if the addresses asked for fit: when it has to look for a
  // gap it does not move its address past the last region it visits, and the new region overlaps that one.
  lemma MmapOrderedIffFits(regions: seq<Region>, addr: nat, len: nat, offset: Option<nat>)
    requires Ordered(regions) && addr < WORDS && len < WORDS && Mmap(regions, addr, len, offset).Some?
    ensures Ordered(Mmap(regions, addr, len, offset).value) <==> Fits(regions, addr, len)
  {
    hide Word, Search, MovesOn, Ordered, Fits;
    if Fits(regions, addr, len) {
      var _ := FittingIsMapped(regions, addr, len, offset);
    } else if Ordered(Mmap(regions, addr, len, offset).value) {
      OrderedFits(regions, addr, len, offset);
    }
  }

  lemma OrderedFits(regions: seq<Region>, addr: nat, len: nat, offset: Option<nat>)
    requires Ordered(regions) && addr < WORDS && len < WORDS && Mmap(regions, addr, len, offset).Some?
    requires Ordered(Mmap(regions, addr, len, offset).value)
    ensures Fits(regions, addr, len)
  {
    hide Word, Search, MovesOn, Ordered, Fits;
    if regions == [] {
      OnlyRegion(Region(addr, Word(addr + len), offset));
      NoWrap(addr, len);
      OneFits(addr, len);
    } else {
      SearchStops(regions, 0, addr, len);
      var (i, a) := Search(regions, 0, addr, len);
      InsertedFits(regions, i + 1, Region(a, Word(a + len), offset));
      NoWrap(a, len);
      StoppedFits(regions, i, a, addr, len);
    }
  }

  lemma OneFits(addr: nat, len: nat)
    requires USER_START <= addr < addr + len <= TASK_SIZE
    ensures Fits([], addr, len)
  {
  }

  lemma StoppedFits(regions: seq<Region>, i: nat, a: nat, addr: nat, len: nat)
    requires Ordered(regions) && i < |regions| && USER_START <= a < a + len <= TASK_SIZE
    requires regions[i].end < a && (a == addr || (i > 0 && a == regions[i - 1].end))
    requires forall j | 0 <= j < |regions| :: regions[j].end < a || a + len < regions[j].start
    ensures Fits(regions, addr, len)
  {
  }

  lemma OnlyRegion(r: Region)
    requires Ordered([] + [r] + [])
    ensures USER_START <= r.start < r.end <= TASK_SIZE
  {
    assert ([] + [r] + [])[0] == r;
  }

  lemma NoWrap(a: nat, len: nat)
    requires a < Word(a + len) && a < WORDS && len < WORDS
    ensures Word(a + len) == a + len
  {
  }

  lemma InsertedFits(regions: seq<Region>, i: nat, r: Region)
    requires Ordered(regions) && 0 < i <= |regions| && Ordered(regions[..i] + [r] + regions[i..])
    ensures regions[i - 1].end < r.start && USER_START <= r.start < r.end <= TASK_SIZE
    ensures forall j | 0 <= j < |regions| :: regions[j].end < r.start || r.end < regions[j].start
  {
    var rs := regions[..i] + [r] + regions[i..];
    assert rs[i] == r;
    forall j | 0 <= j < |regions|
      ensures regions[j].end < r.start || r.end < regions[j].start
      ensures j == i - 1 ==> regions[j].end < r.start
    {
      assert regions[j] == rs[if j < i then j else j + 1];
    }
  }
}
