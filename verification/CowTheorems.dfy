/** Copy-on-write keeps its frame counts exact and reads like eager copying. */
module CowTheorems {
  import opened Options
  import opened Vma
  import opened CowSpec

  // ---------- fork ----------

  function Renamed(pages: set<Page>, p: nat): set<Page> {
    set k | k in pages :: Page(p, k.no)
  }

  lemma {:induction false} RenamedSize(pages: set<Page>, from: nat, p: nat)
    requires forall k | k in pages :: k.pid == from
    ensures |Renamed(pages, p)| == |pages|
    decreases |pages|
  {
    if pages != {} {
      var k :| k in pages;
      RenamedSize(pages - {k}, from, p);
      assert Renamed(pages, p) == Renamed(pages - {k}, p) + {Page(p, k.no)};
    }
  }

  lemma ForkEntry(w: World, parent: nat, child: nat, k: Page)
    requires parent in w.spaces && parent != child
    requires forall m | m in w.entries :: m.pid != child
    ensures var w' := Fork(w, parent, child);
            var from := Page(if k.pid == child then parent else k.pid, k.no);
            && (k in w'.entries <==> from in w.entries)
            && (k in w'.entries ==>
                  var kept := w.entries[from].writable && k.pid != child && k.pid != parent;
                  w'.entries[k] == w.entries[from].(writable := kept))
  {
    var from := Page(if k.pid == child then parent else k.pid, k.no);
    if from in w.entries && from.pid == parent {
      assert from in PagesOf(w.entries, parent);
    }
  }

  lemma RefsOfFork(w: World, parent: nat, child: nat, f: nat)
    requires parent in w.spaces && parent != child
    requires forall m | m in w.entries :: m.pid != child
    ensures Refs(Fork(w, parent, child).entries, f)
        == Refs(w.entries, f) + Renamed(Mapping(w.entries, parent, f), child)
    ensures |Refs(Fork(w, parent, child).entries, f)| == |Refs(w.entries, f)| + |Mapping(w.entries, parent, f)|
    ensures Refs(Fork(w, parent, child).entries, f) == {} <==> Refs(w.entries, f) == {}
    ensures Mapping(w.entries, parent, f) <= Refs(w.entries, f)
  {
    hide Fork;
    var pages, w' := Mapping(w.entries, parent, f), Fork(w, parent, child);
    RenamedSize(pages, parent, child);
    forall k
      ensures k in Refs(w'.entries, f) <==> k in Refs(w.entries, f) + Renamed(pages, child)
    {
      ForkEntry(w, parent, child, k);
      if k.pid == child {
        assert k in Renamed(pages, child) <==> Page(parent, k.no) in pages;
      }
    }
    assert Refs(w.entries, f) !! Renamed(pages, child);
    assert pages <= Refs(w.entries, f);
  }

  lemma OwnReference(w: World, k: Page)
    requires k in w.entries
    ensures k in Refs(w.entries, w.entries[k].frame)
  {
  }

  lemma ForkKeepsInv(w: World, parent: nat, child: nat)
    requires Safe(w) && parent in w.spaces && child !in w.spaces
    ensures Safe(Fork(w, parent, child))
    ensures Inv(w) ==> Inv(Fork(w, parent, child))
  {
    hide Refs, Mapping, ReadOnlyCopy, Renamed, WritableIsAlone, OneToOne, EntriesOk;
    NoEntriesYet(w, child);
    var w' := Fork(w, parent, child);
    forall f | f in w.count
      ensures w'.count[f] - w.count[f] == |Refs(w'.entries, f)| - |Refs(w.entries, f)|
      ensures Refs(w'.entries, f) == {} <==> Refs(w.entries, f) == {}
    {
      RefsOfFork(w, parent, child, f);
    }
    ForkKeepsEntries(w, parent, child);
    ForkKeepsAlone(w, parent, child);
    ForkKeepsOneToOne(w, parent, child);
  }

  lemma NoEntriesYet(w: World, child: nat)
    requires EntriesOk(w) && child !in w.spaces
    ensures forall m | m in w.entries :: m.pid != child
  {
  }

  lemma ForkKeepsEntries(w: World, parent: nat, child: nat)
    requires EntriesOk(w) && parent in w.spaces && child !in w.spaces
    ensures EntriesOk(Fork(w, parent, child))
  {
    hide Refs, Mapping, ReadOnlyCopy, Renamed;
    var w' := Fork(w, parent, child);
    forall k | k in w'.entries
      ensures w'.entries[k].frame in w'.count && k.pid in w'.spaces && k.no < PDES * PTES
      ensures k.no / PTES in w'.spaces[k.pid].tables
    {
      ForkEntry(w, parent, child, k);
    }
  }

  lemma ForkKeepsAlone(w: World, parent: nat, child: nat)
    requires EntriesOk(w) && WritableIsAlone(w) && parent in w.spaces && child !in w.spaces
    ensures WritableIsAlone(Fork(w, parent, child))
  {
    hide Fork, Refs, Mapping, Renamed;
    var w' := Fork(w, parent, child);
    forall k | k in w'.entries && w'.entries[k].writable
      ensures Refs(w'.entries, w'.entries[k].frame) == {k}
    {
      ForkEntry(w, parent, child, k);
      RefsOfFork(w, parent, child, w.entries[k].frame);
      NotOfOther(w, k, parent);
      OwnReference(w', k);
      Alone(Refs(w'.entries, w'.entries[k].frame), k);
    }
  }

  lemma ForkKeepsOneToOne(w: World, parent: nat, child: nat)
    requires EntriesOk(w) && OneToOne(w) && parent in w.spaces && child !in w.spaces
    ensures OneToOne(Fork(w, parent, child))
  {
    hide Fork;
    var w' := Fork(w, parent, child);
    forall k, m | k in w'.entries && m in w'.entries && k.pid == m.pid && k != m
      ensures w'.entries[k].frame != w'.entries[m].frame
    {
      ForkEntry(w, parent, child, k);
      ForkEntry(w, parent, child, m);
    }
  }

  lemma NotOfOther(w: World, k: Page, p: nat)
    requires k in w.entries && k.pid != p && Refs(w.entries, w.entries[k].frame) == {k}
    ensures Mapping(w.entries, p, w.entries[k].frame) == {}
  {
    assert Mapping(w.entries, p, w.entries[k].frame) <= Refs(w.entries, w.entries[k].frame);
    assert k !in Mapping(w.entries, p, w.entries[k].frame);
  }

  lemma ForkReads(w: World, parent: nat, child: nat)
    requires Safe(w) && parent in w.spaces && child !in w.spaces
    ensures Abs(Fork(w, parent, child)) == EagerFork(Abs(w), parent, child)
  {
    hide Fork, CountsCover, WritableIsAlone, OneToOne;
    var w', e := Fork(w, parent, child), EagerFork(Abs(w), parent, child);
    assert w'.data == w.data by { ForkData(w, parent, child); }
    forall k
      ensures k in Abs(w') <==> k in e
      ensures k in e ==> Abs(w')[k] == e[k]
    {
      ForkEntry(w, parent, child, k);
      if k.pid == child {
        assert k in e <==> Page(parent, k.no) in Abs(w);
      }
    }
  }

  lemma ForkData(w: World, parent: nat, child: nat)
    requires parent in w.spaces
    ensures Fork(w, parent, child).data == w.data
  {
  }

  // ---------- faults and stores ----------

  // Frames in the pool are mapped nowhere, mapped frames are counted.
  lemma PoolFrame(w: World, f: nat)
    requires Safe(w) && f in w.pool
    ensures f in w.count && f in w.data && Refs(w.entries, f) == {}
    ensures forall k | k in w.entries :: w.entries[k].frame != f
  {
    forall k | k in w.entries
      ensures w.entries[k].frame != f
    {
      OwnReference(w, k);
    }
  }

  lemma MappedFrame(w: World, k: Page)
    requires Safe(w) && k in w.entries
    ensures Mapped(w, k)
    ensures var f := w.entries[k].frame;
            && |w.data[f]| == PG_SIZE && f !in w.pool
            && k in Refs(w.entries, f) && w.count[f] >= |Refs(w.entries, f)| >= 1
  {
    OwnReference(w, k);
  }

  lemma RefsOfNewEntry(w: World, k: Page, e: Pte, f: nat)
    ensures Refs(w.entries[k := e], f) == Refs(w.entries, f) - {k} + (if f == e.frame then {k} else {})
  {
  }

  lemma RefsAfterTouch(w: World, k: Page, content: Bytes, frame: nat)
    requires Safe(w) && k.pid in w.spaces && k !in w.entries && frame in w.pool
    ensures forall f :: Refs(Touch(w, k, content, frame).entries, f) == if f == frame then {k} else Refs(w.entries, f)
  {
    hide Refs, FramesOk, EntriesOk, CountsCover, WritableIsAlone, OneToOne;
    PoolFrame(w, frame);
    forall f
      ensures Refs(Touch(w, k, content, frame).entries, f) == if f == frame then {k} else Refs(w.entries, f)
    {
      RefsOfNewEntry(w, k, Pte(frame, true), f);
      NotMapped(w, k, f);
    }
  }

  lemma TouchCounts(w: World, k: Page, content: Bytes, frame: nat)
    requires Safe(w) && k.pid in w.spaces && k !in w.entries && frame in w.pool
    ensures CountsCover(Touch(w, k, content, frame)) && WritableIsAlone(Touch(w, k, content, frame))
    ensures CountsExact(w) ==> CountsExact(Touch(w, k, content, frame))
  {
    hide Refs, FramesOk, EntriesOk, OneToOne;
    PoolFrame(w, frame);
    RefsAfterTouch(w, k, content, frame);
  }

  lemma TouchKeepsInv(w: World, k: Page, content: Bytes, frame: nat)
    requires Safe(w) && k.pid in w.spaces && k !in w.entries && k.no < PDES * PTES
    requires frame in w.pool && |content| == PG_SIZE
    ensures Safe(Touch(w, k, content, frame))
    ensures Inv(w) ==> Inv(Touch(w, k, content, frame))
  {
    hide Refs, CountsExact, CountsCover, WritableIsAlone;
    PoolFrame(w, frame);
    TouchCounts(w, k, content, frame);
  }

  lemma NotMapped(w: World, k: Page, f: nat)
    requires k !in w.entries
    ensures k !in Refs(w.entries, f)
  {
  }

  lemma TouchReads(w: World, k: Page, content: Bytes, frame: nat)
    requires Safe(w) && k.pid in w.spaces && frame in w.pool
    ensures Abs(Touch(w, k, content, frame)) == EagerTouch(Abs(w), k, content)
  {
    PoolFrame(w, frame);
  }

  lemma Alone(s: set<Page>, x: Page)
    requires x in s && |s| <= 1
    ensures s == {x}
  {
    assert |s - {x}| == |s| - 1;
    assert s - {x} == {};
  }

  lemma RefsAfterCopy(w: World, k: Page, frame: nat)
    requires Safe(w) && Mapped(w, k) && frame in w.pool && w.count[w.entries[k].frame] > 1
    ensures forall f :: Refs(ProtectFault(w, k, frame).entries, f) ==
              if f == w.entries[k].frame then Refs(w.entries, f) - {k}
              else if f == frame then {k}
              else Refs(w.entries, f)
  {
    hide Refs, FramesOk, EntriesOk, CountsCover, WritableIsAlone, OneToOne;
    PoolFrame(w, frame);
    forall f
      ensures Refs(ProtectFault(w, k, frame).entries, f) ==
              if f == w.entries[k].frame then Refs(w.entries, f) - {k}
              else if f == frame then {k}
              else Refs(w.entries, f)
    {
      RefsOfNewEntry(w, k, Pte(frame, true), f);
      OnlyOneFrame(w, k, f);
    }
  }

  lemma CopyFrameCounts(w: World, k: Page, frame: nat)
    requires Safe(w) && Mapped(w, k) && frame in w.pool && w.count[w.entries[k].frame] > 1
    ensures CountsCover(ProtectFault(w, k, frame))
    ensures CountsExact(w) ==> CountsExact(ProtectFault(w, k, frame))
  {
    hide Refs, FramesOk, EntriesOk, WritableIsAlone, OneToOne;
    MappedFrame(w, k);
    PoolFrame(w, frame);
    RefsAfterCopy(w, k, frame);
    assert |Refs(w.entries, w.entries[k].frame) - {k}| == |Refs(w.entries, w.entries[k].frame)| - 1;
  }

  lemma CopyFrameWritable(w: World, k: Page, frame: nat)
    requires Safe(w) && Mapped(w, k) && frame in w.pool && w.count[w.entries[k].frame] > 1
    ensures WritableIsAlone(ProtectFault(w, k, frame))
  {
    hide Refs, FramesOk, EntriesOk, CountsCover, OneToOne;
    MappedFrame(w, k);
    PoolFrame(w, frame);
    RefsAfterCopy(w, k, frame);
    if !w.entries[k].writable {
      StillAlone(w, k, w.entries[k].frame);
    }
  }

  // One of several sharers gets a frame of its own.
  lemma CopyFrameKeepsInv(w: World, k: Page, frame: nat)
    requires Safe(w) && Mapped(w, k) && frame in w.pool && w.count[w.entries[k].frame] > 1
    ensures Safe(ProtectFault(w, k, frame))
    ensures Inv(w) ==> Inv(ProtectFault(w, k, frame))
  {
    hide Refs, CountsExact, CountsCover, WritableIsAlone;
    PoolFrame(w, frame);
    CopyFrameCounts(w, k, frame);
    CopyFrameWritable(w, k, frame);
  }

  // The last sharer gets its write permission back.
  lemma KeepFrameKeepsInv(w: World, k: Page, frame: nat)
    requires Safe(w) && Mapped(w, k) && w.count[w.entries[k].frame] <= 1
    ensures Safe(ProtectFault(w, k, frame))
    ensures Inv(w) ==> Inv(ProtectFault(w, k, frame))
  {
    hide Refs;
    MappedFrame(w, k);
    var w', shared := ProtectFault(w, k, frame), w.entries[k].frame;
    Alone(Refs(w.entries, shared), k);
    forall f
      ensures Refs(w'.entries, f) == Refs(w.entries, f)
    {
      RefsOfNewEntry(w, k, Pte(shared, true), f);
      OnlyOneFrame(w, k, f);
    }
  }

  // A frame is allocated only while the page is shared.
  ghost predicate FrameIfShared(w: World, k: Page, frame: nat)
    requires k in w.entries
  {
    w.entries[k].frame in w.count && w.count[w.entries[k].frame] > 1 ==> frame in w.pool
  }

  lemma ProtectFaultKeepsInv(w: World, k: Page, frame: nat)
    requires Safe(w) && k in w.entries && FrameIfShared(w, k, frame)
    ensures Mapped(w, k) && Safe(ProtectFault(w, k, frame))
    ensures Inv(w) ==> Inv(ProtectFault(w, k, frame))
  {
    hide ProtectFault, FramesOk, EntriesOk, CountsExact, CountsCover, WritableIsAlone, OneToOne, Refs;
    MappedFrame(w, k);
    if w.count[w.entries[k].frame] > 1 {
      CopyFrameKeepsInv(w, k, frame);
    } else {
      KeepFrameKeepsInv(w, k, frame);
    }
  }

  lemma OnlyOneFrame(w: World, k: Page, f: nat)
    requires k in w.entries
    ensures k in Refs(w.entries, f) <==> f == w.entries[k].frame
  {
  }

  // A frame under a read-only entry has no writable one.
  lemma StillAlone(w: World, k: Page, f: nat)
    requires WritableIsAlone(w) && k in Refs(w.entries, f) && !w.entries[k].writable
    ensures forall m | m in w.entries && w.entries[m].writable :: w.entries[m].frame != f
  {
  }

  // The new frame holds what the shared one does, and is mapped nowhere else.
  lemma CopyReads(w: World, k: Page, frame: nat)
    requires Mapped(w, k) && w.count[w.entries[k].frame] > 1 && frame in w.data
    requires forall m | m in w.entries :: w.entries[m].frame != frame
    ensures var w' := ProtectFault(w, k, frame);
            w'.entries == w.entries[k := Pte(frame, true)] && Abs(w') == Abs(w)
  {
    var w' := ProtectFault(w, k, frame);
    forall m | m in w.entries
      ensures m in Abs(w') <==> m in Abs(w)
      ensures m in Abs(w) ==> Abs(w')[m] == Abs(w)[m]
    {
    }
  }

  lemma KeepReads(w: World, k: Page, frame: nat)
    requires Mapped(w, k) && w.count[w.entries[k].frame] <= 1
    ensures var w' := ProtectFault(w, k, frame);
            w'.entries == w.entries[k := Pte(w.entries[k].frame, true)] && Abs(w') == Abs(w)
  {
  }

  lemma ProtectFaultReads(w: World, k: Page, frame: nat)
    requires Safe(w) && k in w.entries && FrameIfShared(w, k, frame)
    ensures Mapped(w, k)
    ensures var w' := ProtectFault(w, k, frame);
            Abs(w') == Abs(w) && k in w'.entries && w'.entries[k].writable && w'.entries.Keys == w.entries.Keys
  {
    hide Safe, Refs, ProtectFault, Abs;
    MappedFrame(w, k);
    if w.count[w.entries[k].frame] > 1 {
      PoolFrame(w, frame);
      CopyReads(w, k, frame);
    } else {
      KeepReads(w, k, frame);
    }
  }

  // The write fault takes a new frame, and copies, if and only if the frame has a second entry; either way the
  // entry becomes writable, no other entry changes, and no frame is counted or pooled differently but these.
  lemma ProtectFaultCopiesIffShared(w: World, k: Page, frame: nat)
    requires Inv(w) && k in w.entries && FrameIfShared(w, k, frame)
    ensures Mapped(w, k)
    ensures var w', shared := ProtectFault(w, k, frame), w.entries[k].frame;
            && w'.entries == w.entries[k := w'.entries[k]] && w'.entries[k].writable
            && w'.spaces == w.spaces
            && if exists m :: m in w.entries && m != k && w.entries[m].frame == shared then
                 && w'.entries[k].frame == frame && frame in w.pool && w'.pool == w.pool - {frame}
                 && w'.count == w.count[frame := 1][shared := w.count[shared] - 1]
                 && w'.data == w.data[frame := w.data[shared]]
               else
                 && w'.entries[k].frame == shared && w'.pool == w.pool
                 && w'.count == w.count && w'.data == w.data
  {
    hide FramesOk, EntriesOk, TablesOk, CountsCover, CountsExact, WritableIsAlone, OneToOne, Refs;
    MappedFrame(w, k);
    var shared := w.entries[k].frame;
    CountIsRefs(w, shared);
    SharedIffTwo(w, k);
    if w.count[shared] > 1 {
      PoolFrame(w, frame);
    }
  }

  lemma CountIsRefs(w: World, f: nat)
    requires CountsExact(w) && f in w.count
    ensures w.count[f] == |Refs(w.entries, f)|
  {
  }

  lemma SharedIffTwo(w: World, k: Page)
    requires k in w.entries
    ensures |Refs(w.entries, w.entries[k].frame)| > 1 <==>
            exists m :: m in w.entries && m != k && w.entries[m].frame == w.entries[k].frame
  {
    var refs := Refs(w.entries, w.entries[k].frame);
    assert k in refs;
    if m :| m in w.entries && m != k && w.entries[m].frame == w.entries[k].frame {
      assert {k, m} <= refs && |refs - {k, m}| == |refs| - 2;
    } else {
      assert refs == {k};
    }
  }

  lemma OnlyMapping(w: World, k: Page)
    requires Safe(w) && k in w.entries && w.entries[k].writable
    ensures forall m | m in w.entries && w.entries[m].frame == w.entries[k].frame :: m == k
  {
    forall m | m in w.entries && w.entries[m].frame == w.entries[k].frame
      ensures m == k
    {
      OwnReference(w, m);
    }
  }

  // A store into a page whose entry is writable is seen through that entry alone.
  lemma StoreReads(w: World, k: Page, offset: nat, value: int)
    requires Safe(w) && k in w.entries && w.entries[k].writable && offset < PG_SIZE
    ensures k in Abs(w) && offset < |Abs(w)[k]|
    ensures var f := w.entries[k].frame;
            && f in w.data && |w.data[f]| == PG_SIZE
            && Abs(Store(w, f, offset, value)) == EagerWrite(Abs(w), k, offset, value)
  {
    hide CountsCover, WritableIsAlone, OneToOne, Refs;
    MappedFrame(w, k);
    OnlyMapping(w, k);
  }

  lemma StoreKeepsInv(w: World, f: nat, offset: nat, value: int)
    requires Safe(w) && f in w.data && offset < |w.data[f]|
    ensures Safe(Store(w, f, offset, value))
    ensures Inv(w) ==> Inv(Store(w, f, offset, value))
  {
    hide Refs;
  }

  lemma WriteCorrect(w: World, k: Page, offset: nat, value: int, frame: nat)
    requires Safe(w) && k in w.entries && offset < PG_SIZE
    requires w.entries[k].writable || FrameIfShared(w, k, frame)
    ensures k in Abs(w) && offset < |Abs(w)[k]|
    ensures Mapped(w, k) && |w.data[w.entries[k].frame]| == PG_SIZE
    ensures Safe(Write(w, k, offset, value, frame))
    ensures Inv(w) ==> Inv(Write(w, k, offset, value, frame))
    ensures Abs(Write(w, k, offset, value, frame)) == EagerWrite(Abs(w), k, offset, value)
  {
    hide ProtectFault, Store, FramesOk, EntriesOk, CountsExact, CountsCover, WritableIsAlone, OneToOne;
    MappedFrame(w, k);
    if w.entries[k].writable {
      StoreReads(w, k, offset, value);
      StoreKeepsInv(w, w.entries[k].frame, offset, value);
    } else {
      ProtectFaultKeepsInv(w, k, frame);
      ProtectFaultReads(w, k, frame);
      var w' := ProtectFault(w, k, frame);
      StoreReads(w', k, offset, value);
      StoreKeepsInv(w', w'.entries[k].frame, offset, value);
    }
  }

  lemma ByteOfAbs(w: World, pid: nat, addr: nat)
    ensures var e, k := Abs(w), Page(pid, addr / PG_SIZE);
            ByteAt(w, pid, addr) == if k in e && addr % PG_SIZE < |e[k]| then Some(e[k][addr % PG_SIZE]) else None
  {
  }

  // One byte of one process changes.
  lemma WrittenByte(w: World, w': World, p: nat, addr: nat, value: int)
    requires Page(p, addr / PG_SIZE) in Abs(w) && addr % PG_SIZE < |Abs(w)[Page(p, addr / PG_SIZE)]|
    requires Abs(w') == EagerWrite(Abs(w), Page(p, addr / PG_SIZE), addr % PG_SIZE, value)
    ensures forall q, a :: ByteAt(w', q, a) == if q == p && a == addr then Some(value) else ByteAt(w, q, a)
  {
    hide Abs, ByteAt;
    forall q, a
      ensures ByteAt(w', q, a) == if q == p && a == addr then Some(value) else ByteAt(w, q, a)
    {
      ByteOfAbs(w, q, a);
      ByteOfAbs(w', q, a);
    }
  }

  lemma SameBytes(w: World, w': World)
    requires Abs(w') == Abs(w)
    ensures forall q, a :: ByteAt(w', q, a) == ByteAt(w, q, a)
  {
    hide Abs, ByteAt;
    forall q, a
      ensures ByteAt(w', q, a) == ByteAt(w, q, a)
    {
      ByteOfAbs(w, q, a);
      ByteOfAbs(w', q, a);
    }
  }

  // ---------- teardown ----------

  // Every frame mapped by process p is counted.
  ghost predicate AllCounted(s: Frames, entries: map<Page, Pte>, p: nat) {
    forall k | k in entries && k.pid == p :: entries[k].frame in s.count
  }

  // Page owner of process p is the one that maps frame f.
  ghost predicate Owner(entries: map<Page, Pte>, p: nat, f: nat, owner: nat) {
    forall k | k in entries && k.pid == p :: entries[k].frame == f <==> k.no == owner
  }

  // s after a frame has been released the given number of times.
  ghost predicate ReleasedTimes(s: Frames, s': Frames, f: nat, times: nat)
    requires f in s.count
  {
    && s'.count.Keys == s.count.Keys
    && s'.count[f] == s.count[f] - times
    && (f in s'.pool <==> f in s.pool || (times > 0 && s'.count[f] <= 0))
  }

  // One page's release touches the frame it maps and no other.
  lemma {:induction false} ReleaseRangeEffect(s: Frames, entries: map<Page, Pte>, p: nat, from: nat, to: nat, f: nat,
                                              owner: nat)
    requires AllCounted(s, entries, p) && f in s.count
    requires Page(p, owner) in entries && entries[Page(p, owner)].frame == f && Owner(entries, p, f, owner)
    ensures ReleasedTimes(s, ReleaseRange(s, entries, p, from, to), f, if from <= owner < to then 1 else 0)
    decreases if from < to then to - from else 0
  {
    if from < to {
      ReleaseRangeEffect(ReleasePage(s, entries, Page(p, from)), entries, p, from + 1, to, f, owner);
    }
  }

  lemma {:induction false} ReleaseRegionsEffect(s: Frames, entries: map<Page, Pte>, p: nat, regions: seq<Region>,
                                                f: nat, owner: nat)
    requires AllCounted(s, entries, p) && f in s.count
    requires Page(p, owner) in entries && entries[Page(p, owner)].frame == f && Owner(entries, p, f, owner)
    ensures ReleasedTimes(s, ReleaseRegions(s, entries, p, regions), f, Covering(regions, owner))
    decreases |regions|
  {
    if regions != [] {
      var from, to := FirstPage(regions[0]), PageAfter(regions[0]);
      ReleaseRangeEffect(s, entries, p, from, to, f, owner);
      ReleaseRegionsEffect(ReleaseRange(s, entries, p, from, to), entries, p, regions[1..], f, owner);
    }
  }

  lemma {:induction false} ReleaseRangeSpares(s: Frames, entries: map<Page, Pte>, p: nat, from: nat, to: nat, f: nat)
    requires f in s.count && forall k | k in entries && k.pid == p :: entries[k].frame != f
    ensures ReleasedTimes(s, ReleaseRange(s, entries, p, from, to), f, 0)
    decreases if from < to then to - from else 0
  {
    if from < to {
      ReleaseRangeSpares(ReleasePage(s, entries, Page(p, from)), entries, p, from + 1, to, f);
    }
  }

  lemma {:induction false} ReleaseRegionsSpares(s: Frames, entries: map<Page, Pte>, p: nat, regions: seq<Region>,
                                                f: nat)
    requires f in s.count && forall k | k in entries && k.pid == p :: entries[k].frame != f
    ensures ReleasedTimes(s, ReleaseRegions(s, entries, p, regions), f, 0)
    decreases |regions|
  {
    if regions != [] {
      var from, to := FirstPage(regions[0]), PageAfter(regions[0]);
      ReleaseRangeSpares(s, entries, p, from, to, f);
      ReleaseRegionsSpares(ReleaseRange(s, entries, p, from, to), entries, p, regions[1..], f);
    }
  }

  // What teardown does to the frame under page k of process p, and to its references.
  lemma TeardownFrame(w: World, p: nat, k: Page)
    requires Safe(w) && p in w.spaces && k in w.entries && k.pid == p
    ensures var f := w.entries[k].frame;
            && f in w.count
            && ReleasedTimes(Frames(w.count, w.pool), Frames(Teardown(w, p).count, Teardown(w, p).pool), f,
                             Covering(w.spaces[p].regions, k.no))
            && Refs(Teardown(w, p).entries, f) == Refs(w.entries, f) - {k}
            && |Refs(Teardown(w, p).entries, f)| == |Refs(w.entries, f)| - 1
  {
    hide ReleaseRegions, ReleasedTimes, Covering, WritableIsAlone, CountsCover, TablesOk;
    var f := w.entries[k].frame;
    OwnReference(w, k);
    assert k == Page(p, k.no);
    ReleaseRegionsEffect(Frames(w.count, w.pool), w.entries, p, w.spaces[p].regions, f, k.no);
    assert |Refs(w.entries, f) - {k}| == |Refs(w.entries, f)| - 1;
  }

  lemma TeardownOtherFrame(w: World, p: nat, f: nat)
    requires p in w.spaces && f in w.count && Mapping(w.entries, p, f) == {}
    ensures ReleasedTimes(Frames(w.count, w.pool), Frames(Teardown(w, p).count, Teardown(w, p).pool), f, 0)
    ensures Refs(Teardown(w, p).entries, f) == Refs(w.entries, f)
  {
    forall k | k in w.entries && k.pid == p
      ensures w.entries[k].frame != f
    {
      assert k !in Mapping(w.entries, p, f);
    }
    ReleaseRegionsSpares(Frames(w.count, w.pool), w.entries, p, w.spaces[p].regions, f);
  }

  lemma {:induction false} ReleaseRangeKeys(s: Frames, entries: map<Page, Pte>, p: nat, from: nat, to: nat)
    ensures ReleaseRange(s, entries, p, from, to).count.Keys == s.count.Keys
    decreases if from < to then to - from else 0
  {
    if from < to {
      ReleaseRangeKeys(ReleasePage(s, entries, Page(p, from)), entries, p, from + 1, to);
    }
  }

  lemma {:induction false} ReleaseRegionsKeys(s: Frames, entries: map<Page, Pte>, p: nat, regions: seq<Region>)
    ensures ReleaseRegions(s, entries, p, regions).count.Keys == s.count.Keys
    decreases |regions|
  {
    if regions != [] {
      ReleaseRangeKeys(s, entries, p, FirstPage(regions[0]), PageAfter(regions[0]));
      var s' := ReleaseRange(s, entries, p, FirstPage(regions[0]), PageAfter(regions[0]));
      ReleaseRegionsKeys(s', entries, p, regions[1..]);
    }
  }

  lemma TeardownKeys(w: World, p: nat)
    requires p in w.spaces
    ensures Teardown(w, p).count.Keys == w.count.Keys && Teardown(w, p).data == w.data
    ensures Teardown(w, p).spaces == w.spaces[p := Space({}, [])]
    ensures Teardown(w, p).entries == w.entries - PagesOf(w.entries, p)
  {
    ReleaseRegionsKeys(Frames(w.count, w.pool), w.entries, p, w.spaces[p].regions);
  }

  lemma CoveredOnceFrame(w: World, p: nat, f: nat)
    requires Safe(w) && AtMostOnce(w, p) && f in w.count
    ensures var w' := Teardown(w, p);
            && f in w'.count
            && w'.count[f] >= |Refs(w'.entries, f)|
            && (f in w'.pool ==> Refs(w'.entries, f) == {})
  {
    hide Refs, Teardown, FramesOk, EntriesOk, WritableIsAlone, OneToOne;
    if k :| k in w.entries && k.pid == p && w.entries[k].frame == f {
      TeardownFrame(w, p, k);
      OwnReference(w, k);
    } else {
      assert Mapping(w.entries, p, f) == {};
      TeardownOtherFrame(w, p, f);
    }
  }

  // While no mapped page is in two regions teardown releases nothing that is still mapped.
  lemma TeardownCovers(w: World, p: nat)
    requires Safe(w) && AtMostOnce(w, p)
    ensures CountsCover(Teardown(w, p))
  {
    hide Refs, Teardown, Safe;
    TeardownKeys(w, p);
    forall f | f in Teardown(w, p).count
      ensures Teardown(w, p).count[f] >= |Refs(Teardown(w, p).entries, f)|
      ensures f in Teardown(w, p).pool ==> Refs(Teardown(w, p).entries, f) == {}
    {
      CoveredOnceFrame(w, p, f);
    }
  }

  lemma CoveredFrame(w: World, p: nat, f: nat)
    requires Inv(w) && Covered(w, p) && f in w.count
    ensures var w' := Teardown(w, p);
            && f in w'.count
            && w'.count[f] == |Refs(w'.entries, f)|
            && (f in w'.pool <==> Refs(w'.entries, f) == {})
  {
    hide Refs, Teardown, FramesOk, EntriesOk, WritableIsAlone, OneToOne;
    if k :| k in w.entries && k.pid == p && w.entries[k].frame == f {
      TeardownFrame(w, p, k);
      OwnReference(w, k);
    } else {
      assert Mapping(w.entries, p, f) == {};
      TeardownOtherFrame(w, p, f);
    }
  }

  lemma UncoveredFrame(w: World, p: nat, k: Page)
    requires Inv(w) && p in w.spaces && CountsExact(Teardown(w, p)) && k in w.entries && k.pid == p
    ensures Covering(w.spaces[p].regions, k.no) == 1
  {
    hide Refs, Teardown, FramesOk, EntriesOk, WritableIsAlone, OneToOne;
    TeardownFrame(w, p, k);
  }

  // exec_mmap leaves the counts exact, and returns exactly the unshared frames to the pool, if and only if
  // each mapped page lies in one region and in one only: a page in no region keeps its reference for ever,
  // a page in two is released twice.
  lemma TeardownExactIffCovered(w: World, p: nat)
    requires Inv(w) && p in w.spaces
    ensures CountsExact(Teardown(w, p)) <==> Covered(w, p)
  {
    hide Refs, Teardown, Inv;
    var w' := Teardown(w, p);
    if Covered(w, p) {
      TeardownKeys(w, p);
      forall f | f in w'.count
        ensures w'.count[f] == |Refs(w'.entries, f)| && (f in w'.pool <==> Refs(w'.entries, f) == {})
      {
        CoveredFrame(w, p, f);
      }
    }
    if CountsExact(w') {
      forall k | k in w.entries && k.pid == p
        ensures Covering(w.spaces[p].regions, k.no) == 1
      {
        UncoveredFrame(w, p, k);
      }
    }
  }

  // It leaves no mapped frame with too small a count, or in the pool, if and only if no mapped page lies in two
  // regions.
  lemma TeardownSafeIffAtMostOnce(w: World, p: nat)
    requires Inv(w) && p in w.spaces
    ensures CountsCover(Teardown(w, p)) <==> AtMostOnce(w, p)
  {
    hide Refs, Teardown, Safe, CountsCover;
    if AtMostOnce(w, p) {
      TeardownCovers(w, p);
    }
    if CountsCover(Teardown(w, p)) {
      forall k | k in w.entries && k.pid == p
        ensures Covering(w.spaces[p].regions, k.no) <= 1
      {
        CoveredTwiceFrame(w, p, k);
      }
    }
  }

  lemma CoveredTwiceFrame(w: World, p: nat, k: Page)
    requires Inv(w) && p in w.spaces && CountsCover(Teardown(w, p)) && k in w.entries && k.pid == p
    ensures Covering(w.spaces[p].regions, k.no) <= 1
  {
    hide Refs, Teardown, FramesOk, EntriesOk, WritableIsAlone, OneToOne;
    TeardownFrame(w, p, k);
  }

  // The debug check after a copy (old count == new count + 1) holds exactly when two entries shared the frame.
  lemma CopyCheckIffTwoSharers(w: World, k: Page, frame: nat)
    requires Inv(w) && k in w.entries && frame in w.pool
    ensures Mapped(w, k)
    ensures w.count[w.entries[k].frame] > 1 ==>
              var w' := ProtectFault(w, k, frame);
              && w'.entries[k].frame == frame && frame in w'.count
              && (w.count[w.entries[k].frame] == w'.count[frame] + 1 <==> |Refs(w.entries, w.entries[k].frame)| == 2)
  {
    MappedFrame(w, k);
    PoolFrame(w, frame);
  }
}
