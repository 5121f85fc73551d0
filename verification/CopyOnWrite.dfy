/** copy_pt, the two page-fault handlers and exec_mmap, changing page tables and frame counts in place. */
module CopyOnWrite {
  import opened Options
  import opened Vma
  import opened CowSpec
  import opened CowTheorems

  // ---------- a page table half copied ----------

  // The parent's entries below page n, read-only, as entries of process p.
  function CopyBelow(entries: map<Page, Pte>, parent: nat, p: nat, n: nat): map<Page, Pte> {
    map k | k in entries && k.pid == parent && k.no < n :: Page(p, k.no) := entries[k].(writable := false)
  }

  // Entries below n are write-protected, those below m are copied.
  function Progress(entries: map<Page, Pte>, parent: nat, child: nat, n: nat, m: nat): map<Page, Pte> {
    entries + CopyBelow(entries, parent, parent, n) + CopyBelow(entries, parent, child, m)
  }

  function MappingBelow(entries: map<Page, Pte>, p: nat, f: nat, n: nat): set<Page> {
    set k | k in entries && k.pid == p && k.no < n && entries[k].frame == f
  }

  function CountBelow(count: map<nat, int>, entries: map<Page, Pte>, p: nat, n: nat): map<nat, int> {
    map f | f in count :: count[f] + |MappingBelow(entries, p, f, n)|
  }

  ghost predicate NoPagesOf(entries: map<Page, Pte>, p: nat) {
    forall k | k in entries :: k.pid != p
  }

  // What is under page k at that point.
  lemma ProgressAt(entries: map<Page, Pte>, parent: nat, child: nat, n: nat, m: nat, k: Page)
    requires NoPagesOf(entries, child) && parent != child
    ensures var now, from := Progress(entries, parent, child, n, m), Page(parent, k.no);
            if k.pid == child then
              && (k in now <==> k.no < m && from in entries)
              && (k in now ==> now[k] == entries[from].(writable := false))
            else
              && (k in now <==> k in entries)
              && (k in now ==>
                    now[k] == if k.pid == parent && k.no < n then entries[k].(writable := false) else entries[k])
  {
    hide CopyBelow;
    CopyAt(entries, parent, child, m, k);
    CopyAt(entries, parent, parent, n, k);
  }

  lemma CopyAt(entries: map<Page, Pte>, parent: nat, p: nat, n: nat, k: Page)
    ensures var copy, from := CopyBelow(entries, parent, p, n), Page(parent, k.no);
            && (k in copy <==> k.pid == p && k.no < n && from in entries)
            && (k in copy ==> copy[k] == entries[from].(writable := false))
  {
    var from := Page(parent, k.no);
    assert from in entries && k.no < n && k.pid == p ==> Page(p, from.no) in CopyBelow(entries, parent, p, n);
  }

  lemma ProgressStep(entries: map<Page, Pte>, parent: nat, child: nat, n: nat, m: nat)
    requires NoPagesOf(entries, child) && parent != child
    ensures var k, now := Page(parent, n), Progress(entries, parent, child, n, m);
            && (k in now <==> k in entries)
            && (k in entries ==> now[k] == entries[k])
            && Progress(entries, parent, child, n + 1, m)
            == if k in entries then now[k := entries[k].(writable := false)] else now
  {
    hide Progress;
    var k := Page(parent, n);
    var now, next := Progress(entries, parent, child, n, m), Progress(entries, parent, child, n + 1, m);
    ProgressAt(entries, parent, child, n, m, k);
    forall x
      ensures x in next <==> x in now
      ensures x in next ==> next[x] == if x == k then entries[k].(writable := false) else now[x]
    {
      ProgressAt(entries, parent, child, n, m, x);
      ProgressAt(entries, parent, child, n + 1, m, x);
    }
  }

  lemma CountStep(count: map<nat, int>, entries: map<Page, Pte>, p: nat, n: nat)
    ensures var k, now := Page(p, n), CountBelow(count, entries, p, n);
            CountBelow(count, entries, p, n + 1) ==
            if k in entries && entries[k].frame in count then now[entries[k].frame := now[entries[k].frame] + 1]
            else now
  {
    hide MappingBelow;
    forall f | f in count
      ensures |MappingBelow(entries, p, f, n + 1)| == |MappingBelow(entries, p, f, n)| +
              if Page(p, n) in entries && entries[Page(p, n)].frame == f then 1 else 0
    {
      MappingStep(entries, p, f, n);
    }
  }

  lemma MappingStep(entries: map<Page, Pte>, p: nat, f: nat, n: nat)
    ensures |MappingBelow(entries, p, f, n + 1)| == |MappingBelow(entries, p, f, n)| +
            if Page(p, n) in entries && entries[Page(p, n)].frame == f then 1 else 0
  {
    var k := Page(p, n);
    if k in entries && entries[k].frame == f {
      assert MappingBelow(entries, p, f, n + 1) == MappingBelow(entries, p, f, n) + {k};
    } else {
      assert MappingBelow(entries, p, f, n + 1) == MappingBelow(entries, p, f, n);
    }
  }

  // Without a page table there is nothing to protect or copy.
  lemma SkipTable(count: map<nat, int>, entries: map<Page, Pte>, parent: nat, child: nat, i: nat)
    requires NoPagesOf(entries, child) && parent != child
    requires forall k | k in entries && k.pid == parent :: k.no / PTES != i
    ensures Progress(entries, parent, child, PTES * (i + 1), PTES * (i + 1))
        == Progress(entries, parent, child, PTES * i, PTES * i)
    ensures CountBelow(count, entries, parent, PTES * (i + 1)) == CountBelow(count, entries, parent, PTES * i)
  {
    hide Progress;
    var now := Progress(entries, parent, child, PTES * i, PTES * i);
    var next := Progress(entries, parent, child, PTES * (i + 1), PTES * (i + 1));
    forall x
      ensures x in next <==> x in now
      ensures x in next ==> next[x] == now[x]
    {
      ProgressAt(entries, parent, child, PTES * i, PTES * i, x);
      ProgressAt(entries, parent, child, PTES * (i + 1), PTES * (i + 1), x);
      assert Page(parent, x.no) in entries ==> (x.no < PTES * (i + 1) <==> x.no < PTES * i);
    }
    forall f
      ensures MappingBelow(entries, parent, f, PTES * (i + 1)) == MappingBelow(entries, parent, f, PTES * i)
    {
    }
  }

  // The page table with directory index i, as it stands, in the child.
  function TableCopy(entries: map<Page, Pte>, parent: nat, child: nat, i: nat): map<Page, Pte> {
    map k | k in entries && k.pid == parent && k.no / PTES == i :: Page(child, k.no) := entries[k]
  }

  lemma CopyTable(entries: map<Page, Pte>, parent: nat, child: nat, i: nat)
    requires NoPagesOf(entries, child) && parent != child
    ensures var now := Progress(entries, parent, child, PTES * (i + 1), PTES * i);
            now + TableCopy(now, parent, child, i) == Progress(entries, parent, child, PTES * (i + 1), PTES * (i + 1))
  {
    hide Progress;
    var now := Progress(entries, parent, child, PTES * (i + 1), PTES * i);
    var next := Progress(entries, parent, child, PTES * (i + 1), PTES * (i + 1));
    var table := TableCopy(now, parent, child, i);
    forall x
      ensures x in now + table <==> x in next
      ensures x in next ==> (now + table)[x] == next[x]
    {
      ProgressAt(entries, parent, child, PTES * (i + 1), PTES * i, x);
      ProgressAt(entries, parent, child, PTES * (i + 1), PTES * (i + 1), x);
      ProgressAt(entries, parent, child, PTES * (i + 1), PTES * i, Page(parent, x.no));
      assert x.pid == child && x.no / PTES == i ==> (x in table <==> Page(parent, x.no) in now);
      assert x in table ==> x.pid == child && x.no / PTES == i;
    }
  }

  // With every table copied the page tables are those of Fork.
  lemma CopyDone(w: World, parent: nat, child: nat)
    requires EntriesOk(w) && parent in w.spaces && child !in w.spaces
    ensures Progress(w.entries, parent, child, PTES * PDES, PTES * PDES) == Fork(w, parent, child).entries
    ensures CountBelow(w.count, w.entries, parent, PTES * PDES) == Fork(w, parent, child).count
  {
    hide Progress, Fork;
    var now, w' := Progress(w.entries, parent, child, PTES * PDES, PTES * PDES), Fork(w, parent, child);
    forall x
      ensures x in now <==> x in w'.entries
      ensures x in now ==> now[x] == w'.entries[x]
    {
      ProgressAt(w.entries, parent, child, PTES * PDES, PTES * PDES, x);
      ForkEntry(w, parent, child, x);
    }
    CountDone(w, parent, child);
  }

  lemma CountDone(w: World, parent: nat, child: nat)
    requires EntriesOk(w) && parent in w.spaces
    ensures CountBelow(w.count, w.entries, parent, PTES * PDES) == Fork(w, parent, child).count
  {
    hide ReadOnlyCopy, Mapping, MappingBelow;
    forall f | f in w.count
      ensures MappingBelow(w.entries, parent, f, PTES * PDES) == Mapping(w.entries, parent, f)
    {
      AllBelow(w, parent, f);
    }
  }

  lemma AllBelow(w: World, p: nat, f: nat)
    requires EntriesOk(w)
    ensures MappingBelow(w.entries, p, f, PTES * PDES) == Mapping(w.entries, p, f)
  {
  }

  // ---------- the memory of all processes ----------

  class Memory {
    var spaces: map<nat, Space>
    var entries: map<Page, Pte>
    var count: map<nat, int>
    var data: map<nat, Bytes>
    var pool: set<nat>

    ghost function State(): World
      reads this
    {
      World(spaces, entries, count, data, pool)
    }

    // One turn of copy_pt's inner loop: an entry loses its write permission and its frame gains a reference.
    method ProtectEntry(k: Page)
      requires k in entries ==> entries[k].frame in count
      modifies this`entries, this`count
      ensures entries
           == if k in old(entries) then old(entries)[k := old(entries)[k].(writable := false)] else old(entries)
      ensures count == if k in old(entries) then
                         old(count)[old(entries)[k].frame := old(count)[old(entries)[k].frame] + 1]
                       else old(count)
    {
      if k in entries {
        entries := entries[k := entries[k].(writable := false)];
        count := count[entries[k].frame := count[entries[k].frame] + 1];
      }
    }

    // copy_mm, with copy_pt's two loops over the page directory and each page table
    method CopyMm(parent: nat, child: nat)
      requires Safe(State()) && parent in spaces && child !in spaces
      modifies this`spaces, this`entries, this`count
      ensures State() == Fork(old(State()), parent, child)
      ensures Safe(State()) && (Inv(old(State())) ==> Inv(State()))
    {
      hide Progress, CountBelow, CountsExact, CountsCover, WritableIsAlone, OneToOne, TableCopy, Fork;
      ghost var w := State();
      assert EntriesOk(w) && NoPagesOf(w.entries, child);
      ProgressStarts(w, parent, child);
      var i := 0;
      while i < PDES
        invariant 0 <= i <= PDES && spaces == w.spaces
        invariant entries == Progress(w.entries, parent, child, PTES * i, PTES * i)
        invariant count == CountBelow(w.count, w.entries, parent, PTES * i)
      {
        if i in spaces[parent].tables {
          var j := 0;
          while j < PTES
            invariant 0 <= j <= PTES && spaces == w.spaces
            invariant entries == Progress(w.entries, parent, child, PTES * i + j, PTES * i)
            invariant count == CountBelow(w.count, w.entries, parent, PTES * i + j)
          {
            ProgressStep(w.entries, parent, child, PTES * i + j, PTES * i);
            CountStep(w.count, w.entries, parent, PTES * i + j);
            CountKeys(w.count, w.entries, parent, PTES * i + j);
            ProtectEntry(Page(parent, PTES * i + j));
            j := j + 1;
          }
          CopyTable(w.entries, parent, child, i);
          entries := entries + TableCopy(entries, parent, child, i);
        } else {
          SkipTable(w.count, w.entries, parent, child, i);
        }
        i := i + 1;
      }
      spaces := spaces[child := spaces[parent]];
      CopyDone(w, parent, child);
      ForkRest(w, parent, child);
      ForkKeepsInv(w, parent, child);
    }

    // The loop of find_vma: the first region that ends above addr, or the number of regions.
    method FindRegion(p: nat, addr: nat) returns (i: nat)
      requires p in spaces
      ensures i <= |spaces[p].regions|
      ensures i < |spaces[p].regions| ==> spaces[p].regions[i].end > addr
      ensures forall j | 0 <= j < i :: spaces[p].regions[j].end <= addr
      ensures FindVma(spaces[p].regions, addr)
           == if i < |spaces[p].regions| then Some(spaces[p].regions[i]) else None
    {
      var regions := spaces[p].regions;
      i := 0;
      while i < |regions| && regions[i].end <= addr
        invariant 0 <= i <= |regions|
        invariant forall j | 0 <= j < i :: regions[j].end <= addr
        invariant FindVma(regions, addr) == FindVma(regions[i..], addr)
      {
        i := i + 1;
      }
    }

    // page_not_present; false where the kernel stops. size is that of the region's file, content what the
    // file, or zeros, give.
    method PageNotPresent(p: nat, addr: nat, size: nat, content: Bytes, frame: nat) returns (ok: bool)
      requires Safe(State()) && p in spaces && Page(p, addr / PG_SIZE) !in entries
      requires frame in pool && |content| == PG_SIZE
      modifies this
      ensures ok <==> Accepts(old(spaces)[p].regions, addr, size)
      ensures ok ==> exists i: nat :: FirstAbove(old(spaces)[p].regions, addr, i)
      ensures forall i: nat | FirstAbove(old(spaces)[p].regions, addr, i) ::
                var r := old(spaces)[p].regions[i];
                && (r.offset.None? ==> (ok <==> USER_START <= addr < TASK_SIZE))
                && (r.offset.Some? && r.start <= addr && r.offset.value + (addr - r.start) < WORDS ==>
                      (ok <==>
                       && USER_START <= addr < TASK_SIZE
                       && r.offset.value + (addr - r.start) - (addr - r.start) % PG_SIZE <= size))
      ensures State() == if ok then Touch(old(State()), Page(p, addr / PG_SIZE), content, frame) else old(State())
      ensures ok ==> entries == old(entries)[Page(p, addr / PG_SIZE) := Pte(frame, true)] && data[frame] == content
      ensures Safe(State()) && (Inv(old(State())) ==> Inv(State()))
    {
      hide Safe, Inv;
      if addr >= TASK_SIZE || addr < USER_START {
        return false;
      }
      var i := FindRegion(p, addr);
      if i == |spaces[p].regions| {
        return false;
      }
      assert FirstAbove(spaces[p].regions, addr, i);
      var r := spaces[p].regions[i];
      if r.offset.Some? && FileOffset(r, addr) > size {
        return false;
      }
      TouchKeepsInv(State(), Page(p, addr / PG_SIZE), content, frame);
      InstallPage(p, addr / PG_SIZE, content, frame);
      return true;
    }

    // A fresh frame for a page, and a page table for it if it is the first there.
    method InstallPage(p: nat, no: nat, content: Bytes, frame: nat)
      requires p in spaces
      modifies this
      ensures State() == Touch(old(State()), Page(p, no), content, frame)
    {
      assert spaces[p].tables + {no / PTES} == spaces[p].tables || no / PTES !in spaces[p].tables;
      if no / PTES !in spaces[p].tables {
        spaces := spaces[p := spaces[p].(tables := spaces[p].tables + {no / PTES})];
      }
      pool := pool - {frame};
      count := count[frame := 1];
      data := data[frame := content];
      entries := entries[Page(p, no) := Pte(frame, true)];
      assert State().spaces == Touch(old(State()), Page(p, no), content, frame).spaces;
    }

    // do_mmap; false where the kernel stops
    method DoMmap(p: nat, addr: nat, len: nat, offset: Option<nat>) returns (ok: bool)
      requires p in spaces && addr < WORDS && len < WORDS
      modifies this`spaces
      ensures ok <==> Mmap(old(spaces)[p].regions, addr, len, offset).Some?
      ensures spaces == if ok then
                          var regions := Mmap(old(spaces)[p].regions, addr, len, offset).value;
                          old(spaces)[p := old(spaces)[p].(regions := regions)]
                        else old(spaces)
    {
      hide Word, Safe, Inv;
      if len == 0 || addr == 0 || Word(addr + len) > TASK_SIZE {
        return false;
      }
      var regions := spaces[p].regions;
      var i: nat, a: nat := 0, addr;
      if regions != [] {
        while
          && i + 1 < |regions|
          && (regions[i + 1].start < a || Word(regions[i + 1].start - Max(regions[i].end, a)) < len)
          invariant i < |regions| && Search(regions, i, a, len) == Search(regions, 0, addr, len)
        {
          a := Max(a, regions[i].end);
          i := i + 1;
        }
        if Word(regions[i].end + len) >= TASK_SIZE {
          return false;
        }
        if regions[i].end == a || (i + 1 < |regions| && regions[i + 1].start == Word(a + len)) {
          return false;
        }
        i := i + 1;
      }
      var r := Region(a, Word(a + len), offset);
      if !(USER_START <= r.start < r.end <= TASK_SIZE) {
        return false;
      }
      spaces := spaces[p := spaces[p].(regions := regions[..i] + [r] + regions[i..])];
      return true;
    }

    // free_page on a user frame
    method FreePage(f: nat)
      requires f in count
      modifies this`count, this`pool
      ensures (count, pool) == ReleaseFrame(old(count), old(pool), f)
    {
      count := count[f := count[f] - 1];
      if count[f] > 0 {
        return;
      }
      pool := pool + {f};
    }

    // page_protect_fault on a mapped page; false where the kernel stops. Every region is writable.
    method PageProtectFault(p: nat, addr: nat, frame: nat) returns (ok: bool)
      requires Safe(State()) && p in spaces && Page(p, addr / PG_SIZE) in entries
      requires FrameIfShared(State(), Page(p, addr / PG_SIZE), frame)
      modifies this
      ensures ok <==> InRegion(old(spaces)[p].regions, addr)
      ensures Ordered(old(spaces)[p].regions) ==> (ok <==> Inside(old(spaces)[p].regions, addr))
      ensures Mapped(old(State()), Page(p, addr / PG_SIZE))
      ensures State() == if ok then ProtectFault(old(State()), Page(p, addr / PG_SIZE), frame) else old(State())
      ensures Safe(State()) && (Inv(old(State())) ==> Inv(State())) && Abs(State()) == Abs(old(State()))
    {
      hide Safe, Inv, Abs, Refs;
      var k := Page(p, addr / PG_SIZE);
      MappedFrame(State(), k);
      var i := FindRegion(p, addr);
      if i == |spaces[p].regions| || spaces[p].regions[i].start > addr {
        return false;
      }
      ProtectFaultKeepsInv(State(), k, frame);
      ProtectFaultReads(State(), k, frame);
      CopyOrKeep(k, frame);
      return true;
    }

    // The frame under a read-only entry is copied while it is shared, and taken over otherwise.
    method CopyOrKeep(k: Page, frame: nat)
      requires Mapped(State(), k)
      modifies this
      ensures State() == ProtectFault(old(State()), k, frame)
    {
      var shared := entries[k].frame;
      if count[shared] > 1 {
        pool := pool - {frame};
        count := count[frame := 1];
        data := data[frame := data[shared]];
        FreePage(shared);
        entries := entries[k := Pte(frame, true)];
      } else {
        entries := entries[k := Pte(shared, true)];
      }
    }

    // A user store to a mapped page, which faults first on a read-only entry; false where the kernel stops.
    method UserStore(p: nat, addr: nat, value: int, frame: nat) returns (ok: bool)
      requires Safe(State()) && p in spaces && Page(p, addr / PG_SIZE) in entries
      requires FrameIfShared(State(), Page(p, addr / PG_SIZE), frame)
      modifies this
      ensures ok <==> old(entries)[Page(p, addr / PG_SIZE)].writable || InRegion(old(spaces)[p].regions, addr)
      ensures Ordered(old(spaces)[p].regions) && !old(entries)[Page(p, addr / PG_SIZE)].writable ==>
                (ok <==> Inside(old(spaces)[p].regions, addr))
      ensures Page(p, addr / PG_SIZE) in Abs(old(State()))
      ensures addr % PG_SIZE < |Abs(old(State()))[Page(p, addr / PG_SIZE)]|
      ensures Safe(State()) && (Inv(old(State())) ==> Inv(State()))
      ensures Abs(State()) == if ok then EagerWrite(Abs(old(State())), Page(p, addr / PG_SIZE), addr % PG_SIZE, value)
                              else Abs(old(State()))
      ensures forall q, a :: ByteAt(State(), q, a)
                          == if ok && q == p && a == addr then Some(value) else ByteAt(old(State()), q, a)
    {
      hide Safe, Inv, Abs, Refs, ProtectFault, InRegion, EagerWrite, ByteAt;
      ghost var w := State();
      var k := Page(p, addr / PG_SIZE);
      WriteCorrect(State(), k, addr % PG_SIZE, value, frame);
      MappedFrame(State(), k);
      ok := true;
      if !entries[k].writable {
        ProtectFaultReads(State(), k, frame);
        ok := PageProtectFault(p, addr, frame);
      }
      if ok {
        MappedFrame(State(), k);
        var f := entries[k].frame;
        data := data[f := data[f][addr % PG_SIZE := value]];
        WrittenByte(w, State(), p, addr, value);
      } else {
        SameBytes(w, State());
      }
    }

    // The page of p at addr goes, if it is mapped.
    method FreeIfMapped(p: nat, addr: nat)
      modifies this`count, this`pool
      ensures Frames(count, pool) == ReleasePage(Frames(old(count), old(pool)), entries, Page(p, addr / PG_SIZE))
      ensures count.Keys == old(count).Keys
    {
      var k := Page(p, addr / PG_SIZE);
      if k in entries && entries[k].frame in count {
        FreePage(entries[k].frame);
      }
    }

    // exec_mmap; do_mmap only makes regions that are not empty
    method ExecMmap(p: nat)
      requires Safe(State()) && p in spaces
      requires forall i | 0 <= i < |spaces[p].regions| :: spaces[p].regions[i].start < spaces[p].regions[i].end
      modifies this
      ensures State() == Teardown(old(State()), p)
      ensures Inv(old(State())) ==> (CountsExact(State()) <==> Covered(old(State()), p))
    {
      hide FramesOk, CountsExact, CountsCover, WritableIsAlone, OneToOne, Covered, ReleasePage;
      if Inv(State()) {
        TeardownExactIffCovered(State(), p);
      }
      ghost var w := State();
      var regions := spaces[p].regions;
      spaces := spaces[p := spaces[p].(regions := [])];
      var cur: nat, tmp: nat := 0, 0;
      while cur < |regions|
        invariant 0 <= cur <= |regions| && tmp % PG_SIZE == 0
        invariant entries == w.entries && data == w.data && spaces == w.spaces[p := w.spaces[p].(regions := [])]
        invariant ReleaseRegions(Frames(count, pool), entries, p, regions[cur..])
               == ReleaseRegions(Frames(w.count, w.pool), entries, p, regions)
      {
        assert regions[cur..][1..] == regions[cur + 1..];
        tmp := FreeRegion(p, regions[cur], tmp);
        cur := cur + 1;
      }
      // the page tables
      ClearTables(p, w);
    }

    // One turn of exec_mmap's loop over the regions.
    method FreeRegion(p: nat, r: Region, tmp: nat) returns (addr: nat)
      requires r.start < r.end && tmp % PG_SIZE == 0
      modifies this`count, this`pool
      ensures addr % PG_SIZE == 0
      ensures Frames(count, pool) == ReleaseRange(Frames(old(count), old(pool)), entries, p, FirstPage(r), PageAfter(r))
    {
      hide ReleasePage;
      ghost var after := ReleaseRange(Frames(count, pool), entries, p, FirstPage(r), PageAfter(r));
      addr := r.start / PG_SIZE * PG_SIZE;
      if addr >= tmp {
        FreeIfMapped(p, addr);
        addr := addr + PG_SIZE;
      }
      while addr < r.end
        invariant addr % PG_SIZE == 0
        invariant ReleaseRange(Frames(count, pool), entries, p, addr / PG_SIZE, PageAfter(r)) == after
        decreases r.end - addr
      {
        FreeIfMapped(p, addr);
        addr := addr + PG_SIZE;
      }
    }

    // exec_mmap's last loop: every page table of p goes back, with the entries in it.
    method ClearTables(p: nat, ghost w: World)
      requires EntriesOk(w) && TablesOk(w) && p in w.spaces && p in spaces
      requires entries == w.entries && data == w.data && spaces == w.spaces[p := w.spaces[p].(regions := [])]
      requires Frames(count, pool) == ReleaseRegions(Frames(w.count, w.pool), w.entries, p, w.spaces[p].regions)
      modifies this`entries, this`spaces
      ensures State() == Teardown(w, p)
    {
      var i := 0;
      while i < PDES
        invariant 0 <= i <= PDES && p in spaces
        invariant spaces == w.spaces[p := Space(spaces[p].tables, [])]
        invariant spaces[p].tables == set t | t in w.spaces[p].tables && t >= i
        invariant entries == map k | k in w.entries && (k.pid != p || k.no / PTES >= i) :: w.entries[k]
      {
        if i in spaces[p].tables {
          entries := map k | k in entries && (k.pid != p || k.no / PTES != i) :: entries[k];
          spaces := spaces[p := spaces[p].(tables := spaces[p].tables - {i})];
        }
        i := i + 1;
      }
      assert spaces[p].tables == {};
      assert spaces == w.spaces[p := Space({}, [])];
      assert entries == w.entries - PagesOf(w.entries, p);
    }
  }

  lemma ProgressStarts(w: World, parent: nat, child: nat)
    ensures Progress(w.entries, parent, child, 0, 0) == w.entries
    ensures CountBelow(w.count, w.entries, parent, 0) == w.count
  {
    hide MappingBelow, CopyBelow;
    NothingBelow(w.entries, parent, parent);
    NothingBelow(w.entries, parent, child);
    forall f | f in w.count
      ensures MappingBelow(w.entries, parent, f, 0) == {}
    {
      NoneBelow(w.entries, parent, f);
    }
  }

  lemma NothingBelow(entries: map<Page, Pte>, parent: nat, p: nat)
    ensures CopyBelow(entries, parent, p, 0) == map[]
  {
  }

  lemma NoneBelow(entries: map<Page, Pte>, p: nat, f: nat)
    ensures MappingBelow(entries, p, f, 0) == {}
  {
  }

  lemma CountKeys(count: map<nat, int>, entries: map<Page, Pte>, p: nat, n: nat)
    ensures CountBelow(count, entries, p, n).Keys == count.Keys
  {
  }

  lemma ForkRest(w: World, parent: nat, child: nat)
    requires parent in w.spaces
    ensures Fork(w, parent, child).spaces == w.spaces[child := w.spaces[parent]]
    ensures Fork(w, parent, child).data == w.data && Fork(w, parent, child).pool == w.pool
  {
  }
}
