/** Whole runs: forks, first touches, stores and exec, over any number of processes. */
module CowRuns {
  import opened Options
  import opened Vma
  import opened CowSpec
  import opened CowTheorems

  // ---------- runs ----------

  datatype Op =
    | ForkOp(parent: nat, child: nat)
    | TouchOp(pid: nat, addr: nat, size: nat, content: Bytes, frame: nat)
    | WriteOp(pid: nat, addr: nat, value: int, frame: nat)
    | ExecOp(pid: nat, regions: seq<Region>)

  function PageAt(pid: nat, addr: nat): Page {
    Page(pid, addr / PG_SIZE)
  }

  // The counts are exact, and will be after the next teardown.
  ghost predicate Exact(w: World) {
    CountsExact(w) && forall p | p in w.spaces :: Covered(w, p)
  }

  // What the kernel asserts of the operation, that the allocator has the frame it hands out, and that the
  // teardown of exec meets no page twice.
  ghost predicate Enabled(w: World, op: Op) {
    match op
    case ForkOp(parent, child) => parent in w.spaces && child !in w.spaces
    case TouchOp(pid, addr, size, content, frame) =>
      && pid in w.spaces && PageAt(pid, addr) !in w.entries && Accepts(w.spaces[pid].regions, addr, size)
      && |content| == PG_SIZE && frame in w.pool
    case WriteOp(pid, addr, value, frame) =>
      && pid in w.spaces && PageAt(pid, addr) in w.entries
      && (w.entries[PageAt(pid, addr)].writable
          || (InRegion(w.spaces[pid].regions, addr) && FrameIfShared(w, PageAt(pid, addr), frame)))
    case ExecOp(pid, regions) => AtMostOnce(w, pid)
  }

  ghost function Step(w: World, op: Op): (w': World)
    requires Safe(w) && Enabled(w, op)
  {
    match op
    case ForkOp(parent, child) => Fork(w, parent, child)
    case TouchOp(pid, addr, size, content, frame) => Touch(w, PageAt(pid, addr), content, frame)
    case WriteOp(pid, addr, value, frame) =>
      MappedFrame(w, PageAt(pid, addr));
      Write(w, PageAt(pid, addr), addr % PG_SIZE, value, frame)
    case ExecOp(pid, regions) => Exec(w, pid, regions)
  }

  ghost function EagerStep(e: Eager, op: Op): Eager {
    match op
    case ForkOp(parent, child) => EagerFork(e, parent, child)
    case TouchOp(pid, addr, size, content, frame) => EagerTouch(e, PageAt(pid, addr), content)
    case WriteOp(pid, addr, value, frame) =>
      if PageAt(pid, addr) in e && addr % PG_SIZE < |e[PageAt(pid, addr)]|
      then EagerWrite(e, PageAt(pid, addr), addr % PG_SIZE, value) else e
    case ExecOp(pid, regions) => EagerExec(e, pid)
  }

  lemma StillAloneWithout(w: World, p: nat)
    requires WritableIsAlone(w)
    ensures WritableIsAlone(w.(entries := w.entries - PagesOf(w.entries, p)))
  {
    var entries := w.entries - PagesOf(w.entries, p);
    forall k | k in entries && entries[k].writable
      ensures Refs(entries, entries[k].frame) == {k}
    {
      assert Refs(entries, entries[k].frame) <= Refs(w.entries, w.entries[k].frame) == {k};
    }
  }

  // When no two regions of a process have a page in common its teardown meets no page twice.
  lemma DisjointCovers(w: World, p: nat)
    requires p in w.spaces && PageDisjoint(w.spaces[p].regions)
    ensures AtMostOnce(w, p)
  {
    hide PageDisjoint;
    forall k | k in w.entries && k.pid == p
      ensures Covering(w.spaces[p].regions, k.no) <= 1
    {
      CoveringAtMostOne(w.spaces[p].regions, k.no);
    }
  }

  lemma ExecKeepsSafe(w: World, p: nat, regions: seq<Region>)
    requires Safe(w) && AtMostOnce(w, p)
    ensures Safe(Exec(w, p, regions))
    ensures CountsExact(w) ==> (CountsExact(Exec(w, p, regions)) <==> Covered(w, p))
  {
    hide Teardown, Refs, Covering, CountsExact;
    if CountsExact(w) {
      TeardownExactIffCovered(w, p);
      SameCounts(Teardown(w, p), p, regions);
    }
    TeardownCovers(w, p);
    TeardownKeys(w, p);
    StillAloneWithout(w, p);
    TeardownPool(w, p);
    var w' := Exec(w, p, regions);
    assert CountsCover(w');
    assert WritableIsAlone(w');
    assert FramesOk(w') && EntriesOk(w') && TablesOk(w') && OneToOne(w');
  }

  lemma SameCounts(w: World, p: nat, regions: seq<Region>)
    ensures CountsExact(w.(spaces := w.spaces[p := Space({}, regions)])) <==> CountsExact(w)
  {
  }

  lemma {:induction false} RangePool(s: Frames, entries: map<Page, Pte>, p: nat, from: nat, to: nat)
    requires s.pool <= s.count.Keys
    ensures ReleaseRange(s, entries, p, from, to).pool <= s.count.Keys
    decreases if from < to then to - from else 0
  {
    if from < to {
      RangePool(ReleasePage(s, entries, Page(p, from)), entries, p, from + 1, to);
    }
  }

  lemma {:induction false} RegionsPool(s: Frames, entries: map<Page, Pte>, p: nat, regions: seq<Region>)
    requires s.pool <= s.count.Keys
    ensures ReleaseRegions(s, entries, p, regions).pool <= s.count.Keys
    decreases |regions|
  {
    if regions != [] {
      var from, to := FirstPage(regions[0]), PageAfter(regions[0]);
      RangePool(s, entries, p, from, to);
      ReleaseRangeKeys(s, entries, p, from, to);
      RegionsPool(ReleaseRange(s, entries, p, from, to), entries, p, regions[1..]);
    }
  }

  lemma TeardownPool(w: World, p: nat)
    requires Safe(w) && p in w.spaces
    ensures Teardown(w, p).pool <= w.count.Keys
  {
    RegionsPool(Frames(w.count, w.pool), w.entries, p, w.spaces[p].regions);
  }

  lemma ExecReads(w: World, p: nat, regions: seq<Region>)
    requires p in w.spaces
    ensures Abs(Exec(w, p, regions)) == EagerExec(Abs(w), p)
  {
    hide Teardown;
    TeardownKeys(w, p);
  }

  lemma WriteSpaces(w: World, k: Page, offset: nat, value: int, frame: nat)
    requires Safe(w) && k in w.entries && offset < PG_SIZE
    requires w.entries[k].writable || FrameIfShared(w, k, frame)
    ensures Mapped(w, k) && |w.data[w.entries[k].frame]| == PG_SIZE
    ensures Write(w, k, offset, value, frame).spaces == w.spaces
    ensures Write(w, k, offset, value, frame).entries.Keys == w.entries.Keys
  {
    hide CountsCover, WritableIsAlone, OneToOne;
    MappedFrame(w, k);
    if !w.entries[k].writable && w.count[w.entries[k].frame] > 1 {
      PoolFrame(w, frame);
    }
  }

  // Every step keeps what makes sharing safe, and reads like the eager step.
  lemma StepCorrect(w: World, op: Op)
    requires Safe(w) && Enabled(w, op)
    ensures Safe(Step(w, op)) && Abs(Step(w, op)) == EagerStep(Abs(w), op)
  {
    hide FramesOk, EntriesOk, CountsCover, WritableIsAlone, OneToOne, Abs, Write, Touch, Fork, Exec;
    hide InRegion, Accepts;
    match op
    case ForkOp(parent, child) =>
      ForkKeepsInv(w, parent, child);
      ForkReads(w, parent, child);
    case TouchOp(pid, addr, size, content, frame) =>
      AcceptedPage(w.spaces[pid].regions, addr, size);
      TouchKeepsInv(w, PageAt(pid, addr), content, frame);
      TouchReads(w, PageAt(pid, addr), content, frame);
    case WriteOp(pid, addr, value, frame) =>
      WriteCorrect(w, PageAt(pid, addr), addr % PG_SIZE, value, frame);
    case ExecOp(pid, regions) =>
      ExecKeepsSafe(w, pid, regions);
      ExecReads(w, pid, regions);
  }

  lemma AcceptedPage(regions: seq<Region>, addr: nat, size: nat)
    requires Accepts(regions, addr, size)
    ensures addr / PG_SIZE < PDES * PTES
  {
  }

  // The same, byte by byte: what process q reads at address a after the step.
  lemma StepBytes(w: World, op: Op, q: nat, a: nat)
    requires Safe(w) && Enabled(w, op)
    ensures ByteAt(Step(w, op), q, a)
         == match op
            case ForkOp(parent, child) => ByteAt(w, if q == child then parent else q, a)
            case TouchOp(pid, addr, size, content, frame) =>
              if q == pid && a / PG_SIZE == addr / PG_SIZE then Some(content[a % PG_SIZE]) else ByteAt(w, q, a)
            case WriteOp(pid, addr, value, frame) =>
              if q == pid && a == addr then Some(value) else ByteAt(w, q, a)
            case ExecOp(pid, regions) => if q == pid then None else ByteAt(w, q, a)
  {
    hide Safe, Enabled, Step, Abs, ByteAt;
    StepCorrect(w, op);
    ByteOfAbs(Step(w, op), q, a);
    ByteOfAbs(w, q, a);
    match op
    case ForkOp(parent, child) =>
      ForkedBytes(w, parent, child);
      ByteOfAbs(w, parent, a);
    case TouchOp(pid, addr, size, content, frame) =>
      TouchedSize(w, op);
    case WriteOp(pid, addr, value, frame) =>
      WrittenPage(w, op);
    case ExecOp(pid, regions) =>
  }

  lemma ForkedBytes(w: World, parent: nat, child: nat)
    requires Safe(w) && Enabled(w, ForkOp(parent, child))
    ensures forall k | k in Abs(w) :: k.pid != child
  {
  }

  lemma TouchedSize(w: World, op: Op)
    requires Enabled(w, op) && op.TouchOp?
    ensures |op.content| == PG_SIZE
  {
  }

  lemma WrittenPage(w: World, op: Op)
    requires Safe(w) && Enabled(w, op) && op.WriteOp?
    ensures PageAt(op.pid, op.addr) in Abs(w) && op.addr % PG_SIZE < |Abs(w)[PageAt(op.pid, op.addr)]|
  {
    hide Abs;
    WriteCorrect(w, PageAt(op.pid, op.addr), op.addr % PG_SIZE, op.value, op.frame);
  }

  // ---------- exact counts ----------

  // The page of a first touch belongs to exactly one region.
  ghost predicate OnRegion(w: World, op: Op) {
    match op
    case TouchOp(pid, addr, _, _, _) => pid in w.spaces && Covering(w.spaces[pid].regions, addr / PG_SIZE) == 1
    case _ => true
  }

  // A step keeps the counts exact, now and for the teardowns to come, exactly when it is no first touch of a
  // page outside every region, or in several.
  lemma StepKeepsExact(w: World, op: Op)
    requires Safe(w) && Exact(w) && Enabled(w, op)
    ensures Exact(Step(w, op)) <==> OnRegion(w, op)
  {
    hide Safe, CountsExact, Covered, Write, Touch, Fork, Exec, InRegion, Accepts;
    match op
    case ForkOp(parent, child) =>
      ForkKeepsExact(w, parent, child);
    case TouchOp(pid, addr, size, content, frame) =>
      AcceptedPage(w.spaces[pid].regions, addr, size);
      TouchKeepsExact(w, PageAt(pid, addr), content, frame);
    case WriteOp(pid, addr, value, frame) =>
      WriteKeepsExact(w, PageAt(pid, addr), addr % PG_SIZE, value, frame);
    case ExecOp(pid, regions) =>
      ExecKeepsExact(w, pid, regions);
  }

  lemma ForkKeepsExact(w: World, parent: nat, child: nat)
    requires Safe(w) && Exact(w) && parent in w.spaces && child !in w.spaces
    ensures Exact(Fork(w, parent, child))
  {
    hide CountsExact, CountsCover, WritableIsAlone, OneToOne, Covered, Fork;
    ForkKeepsInv(w, parent, child);
    ForkCovered(w, parent, child);
  }

  lemma ForkCovered(w: World, parent: nat, child: nat)
    requires EntriesOk(w) && parent in w.spaces && child !in w.spaces && forall p | p in w.spaces :: Covered(w, p)
    ensures forall p | p in Fork(w, parent, child).spaces :: Covered(Fork(w, parent, child), p)
  {
    hide Fork;
    var w' := Fork(w, parent, child);
    ForkSpaces(w, parent, child);
    forall p, k | p in w'.spaces && k in w'.entries && k.pid == p
      ensures Covering(w'.spaces[p].regions, k.no) == 1
    {
      ForkEntry(w, parent, child, k);
      assert Covered(w, if p == child then parent else p);
    }
  }

  lemma ForkSpaces(w: World, parent: nat, child: nat)
    requires parent in w.spaces
    ensures Fork(w, parent, child).spaces == w.spaces[child := w.spaces[parent]]
  {
  }

  lemma TouchKeepsExact(w: World, k: Page, content: Bytes, frame: nat)
    requires Safe(w) && Exact(w) && k.pid in w.spaces && k !in w.entries && k.no < PDES * PTES
    requires frame in w.pool && |content| == PG_SIZE
    ensures Exact(Touch(w, k, content, frame)) <==> Covering(w.spaces[k.pid].regions, k.no) == 1
  {
    hide CountsExact, Safe, Covering;
    TouchKeepsInv(w, k, content, frame);
    var w' := Touch(w, k, content, frame);
    assert k in w'.entries && k.pid in w'.spaces;
    forall p, m | p in w'.spaces && m in w'.entries && m.pid == p && m != k
      ensures Covering(w'.spaces[p].regions, m.no) == 1
    {
      assert Covered(w, p);
    }
    assert Exact(w') ==> Covered(w', k.pid);
  }

  lemma WriteKeepsExact(w: World, k: Page, offset: nat, value: int, frame: nat)
    requires Safe(w) && Exact(w) && k in w.entries && offset < PG_SIZE
    requires w.entries[k].writable || FrameIfShared(w, k, frame)
    ensures Mapped(w, k) && |w.data[w.entries[k].frame]| == PG_SIZE
    ensures Exact(Write(w, k, offset, value, frame))
  {
    hide CountsExact, Safe, Write, Covering;
    WriteCorrect(w, k, offset, value, frame);
    WriteSpaces(w, k, offset, value, frame);
  }

  lemma ExecKeepsExact(w: World, p: nat, regions: seq<Region>)
    requires Safe(w) && Exact(w) && p in w.spaces
    ensures Exact(Exec(w, p, regions))
  {
    hide CountsExact, Safe, Teardown;
    ExecKeepsSafe(w, p, regions);
    TeardownKeys(w, p);
  }

  // ---------- runs ----------

  ghost predicate Legal(w: World, ops: seq<Op>)
    requires Safe(w)
    decreases |ops|
  {
    ops != [] ==> Enabled(w, ops[0]) && (StepCorrect(w, ops[0]); Legal(Step(w, ops[0]), ops[1..]))
  }

  ghost function Run(w: World, ops: seq<Op>): World
    requires Safe(w) && Legal(w, ops)
    decreases |ops|
  {
    if ops == [] then w else StepCorrect(w, ops[0]); Run(Step(w, ops[0]), ops[1..])
  }

  ghost function EagerRun(e: Eager, ops: seq<Op>): Eager
    decreases |ops|
  {
    if ops == [] then e else EagerRun(EagerStep(e, ops[0]), ops[1..])
  }

  // Over every run each address space reads what it would read had fork copied every page at once, and a
  // frame is counted at least once per entry, writable only while unshared, and unmapped while in the pool.
  lemma {:induction false} RunRefinesEagerCopy(w: World, ops: seq<Op>)
    requires Safe(w) && Legal(w, ops)
    ensures Abs(Run(w, ops)) == EagerRun(Abs(w), ops)
    ensures Safe(Run(w, ops))
    decreases |ops|
  {
    hide Abs, Step, Safe, Enabled, EagerStep;
    if ops != [] {
      StepCorrect(w, ops[0]);
      RunRefinesEagerCopy(Step(w, ops[0]), ops[1..]);
    }
  }

  // Every first touch of the run is of a page some region has.
  ghost predicate AllOnRegions(w: World, ops: seq<Op>)
    requires Safe(w) && Legal(w, ops)
    decreases |ops|
  {
    ops != [] ==> OnRegion(w, ops[0]) && (StepCorrect(w, ops[0]); AllOnRegions(Step(w, ops[0]), ops[1..]))
  }

  // Over such a run every frame is counted once per entry that maps it, and pooled exactly when none does.
  lemma {:induction false} RunKeepsCountsExact(w: World, ops: seq<Op>)
    requires Safe(w) && Legal(w, ops) && Exact(w) && AllOnRegions(w, ops)
    ensures Exact(Run(w, ops))
    decreases |ops|
  {
    hide Step, Safe, Enabled, Exact, OnRegion;
    if ops != [] {
      StepCorrect(w, ops[0]);
      StepKeepsExact(w, ops[0]);
      RunKeepsCountsExact(Step(w, ops[0]), ops[1..]);
    }
  }

  // ---------- programs that stay inside their regions ----------

  ghost predicate Disjoint(w: World) {
    forall p | p in w.spaces :: PageDisjoint(w.spaces[p].regions)
  }

  // A first touch inside a region; new regions without a common page.
  ghost predicate StaysInside(w: World, op: Op) {
    match op
    case TouchOp(pid, addr, _, _, _) => pid in w.spaces && InRegion(w.spaces[pid].regions, addr)
    case ExecOp(_, regions) => PageDisjoint(regions)
    case _ => true
  }

  ghost predicate AllInside(w: World, ops: seq<Op>)
    requires Safe(w) && Legal(w, ops)
    decreases |ops|
  {
    ops != [] ==> StaysInside(w, ops[0]) && (StepCorrect(w, ops[0]); AllInside(Step(w, ops[0]), ops[1..]))
  }

  lemma InsideIsOnRegion(w: World, op: Op)
    requires Disjoint(w) && StaysInside(w, op)
    ensures OnRegion(w, op)
  {
    hide PageDisjoint, InRegion, Covering;
    if op.TouchOp? {
      InRegionCovers(w.spaces[op.pid].regions, op.addr);
    }
  }

  lemma StepKeepsDisjoint(w: World, op: Op)
    requires Safe(w) && Enabled(w, op) && Disjoint(w) && StaysInside(w, op)
    ensures Disjoint(Step(w, op))
  {
    hide Safe, PageDisjoint, FrameIfShared, Write, Teardown, InRegion, Accepts;
    match op
    case WriteOp(pid, addr, value, frame) => WriteSpaces(w, PageAt(pid, addr), addr % PG_SIZE, value, frame);
    case ExecOp(pid, regions) => TeardownKeys(w, pid);
    case _ =>
  }

  // While programs touch only what is inside their regions, and regions share no page, all counts are exact.
  lemma {:induction false} InsideRunsStayExact(w: World, ops: seq<Op>)
    requires Safe(w) && Legal(w, ops) && Exact(w) && Disjoint(w) && AllInside(w, ops)
    ensures AllOnRegions(w, ops) && Exact(Run(w, ops))
    decreases |ops|
  {
    hide Step, Safe, Enabled, Exact, OnRegion, Disjoint, StaysInside;
    if ops != [] {
      StepCorrect(w, ops[0]);
      InsideIsOnRegion(w, ops[0]);
      StepKeepsExact(w, ops[0]);
      StepKeepsDisjoint(w, ops[0]);
      InsideRunsStayExact(Step(w, ops[0]), ops[1..]);
    }
  }

  // ---------- a start ----------

  // No page is mapped yet: each process has an empty address space, every frame is in the pool.
  ghost predicate Unmapped(w: World) {
    && w.entries == map[] && w.pool == w.count.Keys
    && (forall p | p in w.spaces :: w.spaces[p] == Space({}, []))
    && (forall f | f in w.count :: w.count[f] == 0)
  }

  lemma UnmappedIsSafe(w: World)
    requires Unmapped(w) && FramesOk(w)
    ensures Safe(w) && Exact(w)
  {
    assert forall f :: Refs(w.entries, f) == {};
  }

  // ---------- a reference nobody has ----------

  // Frame f has n references and no entry, and is not in the pool.
  ghost predicate Lost(w: World, f: nat, n: nat) {
    f in w.count && w.count[f] == n >= 1 && Refs(w.entries, f) == {} && f !in w.pool
  }

  // page_not_present only looks for a region that ends above the address. A first touch it lets pass on a page
  // that no region has costs a frame: after the next teardown the frame has its reference and no entry.
  lemma StrayTouchLeaks(w: World, p: nat, addr: nat, size: nat, content: Bytes, frame: nat)
    requires Safe(w) && Enabled(w, TouchOp(p, addr, size, content, frame))
    requires Covering(w.spaces[p].regions, addr / PG_SIZE) == 0
    ensures Lost(Exec(Step(w, TouchOp(p, addr, size, content, frame)), p, []), frame, 1)
  {
    hide Safe, Refs, Teardown, FindVma, Covering;
    var k := PageAt(p, addr);
    var w' := Touch(w, k, content, frame);
    AcceptedPage(w.spaces[p].regions, addr, size);
    TouchKeepsInv(w, k, content, frame);
    TouchedFrame(w, k, content, frame);
    TeardownFrame(w', p, k);
  }

  lemma TouchedFrame(w: World, k: Page, content: Bytes, frame: nat)
    requires Safe(w) && k.pid in w.spaces && k !in w.entries && frame in w.pool
    ensures Refs(Touch(w, k, content, frame).entries, frame) == {k}
  {
    RefsAfterTouch(w, k, content, frame);
  }

  lemma NothingMaps(entries: map<Page, Pte>, f: nat)
    requires Refs(entries, f) == {}
    ensures forall k | k in entries :: entries[k].frame != f
  {
    forall k | k in entries
      ensures entries[k].frame != f
    {
      assert k !in Refs(entries, f);
    }
  }

  lemma ForkSpares(w: World, parent: nat, child: nat, f: nat)
    requires Safe(w) && parent in w.spaces && child !in w.spaces && f in w.count && Refs(w.entries, f) == {}
    ensures var w' := Fork(w, parent, child);
            f in w'.count && w'.count[f] == w.count[f] && Refs(w'.entries, f) == {} && w'.pool == w.pool
  {
    hide Mapping, ReadOnlyCopy, Refs;
    NoEntriesYet(w, child);
    RefsOfFork(w, parent, child, f);
  }

  lemma WriteSpares(w: World, k: Page, offset: nat, value: int, frame: nat, f: nat, n: nat)
    requires Safe(w) && k in w.entries && offset < PG_SIZE && Lost(w, f, n)
    requires w.entries[k].writable || FrameIfShared(w, k, frame)
    ensures Mapped(w, k) && |w.data[w.entries[k].frame]| == PG_SIZE
    ensures Lost(Write(w, k, offset, value, frame), f, n)
  {
    hide Refs, EntriesOk, CountsCover, WritableIsAlone, OneToOne;
    MappedFrame(w, k);
    NothingMaps(w.entries, f);
    if !w.entries[k].writable {
      if w.count[w.entries[k].frame] > 1 {
        RefsAfterCopy(w, k, frame);
      } else {
        RefsOfNewEntry(w, k, Pte(w.entries[k].frame, true), f);
      }
    }
  }

  lemma StepKeepsLost(w: World, op: Op, f: nat, n: nat)
    requires Safe(w) && Enabled(w, op) && Lost(w, f, n)
    ensures Lost(Step(w, op), f, n)
  {
    hide Safe, Write, Teardown, InRegion, Accepts, Covering, Refs;
    NothingMaps(w.entries, f);
    match op
    case ForkOp(parent, child) =>
      ForkSpares(w, parent, child, f);
    case TouchOp(pid, addr, size, content, frame) =>
      RefsAfterTouch(w, PageAt(pid, addr), content, frame);
    case WriteOp(pid, addr, value, frame) =>
      WriteSpares(w, PageAt(pid, addr), addr % PG_SIZE, value, frame, f, n);
    case ExecOp(pid, regions) =>
      TeardownKeys(w, pid);
      TeardownOtherFrame(w, pid, f);
  }

  // Such a frame is lost for ever, with all its references.
  lemma {:induction false} LostStaysLost(w: World, ops: seq<Op>, f: nat, n: nat)
    requires Safe(w) && Legal(w, ops) && Lost(w, f, n)
    ensures Lost(Run(w, ops), f, n)
    decreases |ops|
  {
    hide Step, Safe, Enabled, Lost;
    if ops != [] {
      StepCorrect(w, ops[0]);
      StepKeepsLost(w, ops[0], f, n);
      LostStaysLost(Step(w, ops[0]), ops[1..], f, n);
    }
  }

  // ---------- examples ----------

  // Two segments of a program that share page 0x8049, and the stack every program gets.
  const TEXT: Region := Region(0x8048000, 0x8049800, Some(0))
  const DATA: Region := Region(0x8049900, 0x804b000, Some(0x1900))
  const STACK: Region := Region(0xBFFFE000, 0xC0000000, None)

  lemma ProgramOrdered()
    ensures Ordered([]) && Ordered([TEXT]) && Ordered([TEXT, DATA])
  {
  }

  // do_mmap makes these regions in turn.
  lemma RegionsOfProgram()
    ensures Mmap([], 0x8048000, 0x1800, Some(0)) == Some([TEXT])
    ensures Mmap([TEXT], 0x8049900, 0x1700, Some(0x1900)) == Some([TEXT, DATA])
    ensures Mmap([TEXT, DATA], 0xBFFFE000, 0x2000, None) == Some([TEXT, DATA, STACK])
    ensures Mmap([TEXT], 0xBFFFE000, 0x2000, None) == Some([TEXT, STACK])
  {
    hide Mmap, Ordered;
    ProgramOrdered();
    MmapLast([], 0x8048000, 0x1800, Some(0));
    MmapLast([TEXT], 0x8049900, 0x1700, Some(0x1900));
    MmapLast([TEXT], 0xBFFFE000, 0x2000, None);
    MmapLast([TEXT, DATA], 0xBFFFE000, 0x2000, None);
    assert [] + [TEXT] == [TEXT] && [TEXT] + [DATA] == [TEXT, DATA] && [TEXT] + [STACK] == [TEXT, STACK];
    assert [TEXT, DATA] + [STACK] == [TEXT, DATA, STACK];
  }

  // A range inside a region is mapped a second time.
  lemma OverlapIsMapped()
    ensures Mmap([TEXT], 0x8049000, 0x1000, None) == Some([TEXT, Region(0x8049000, 0x804A000, None)])
    ensures InRegion([TEXT], 0x8049000) && 0x8049000 < TEXT.end
  {
    var r := Region(0x8049000, 0x804A000, None);
    assert !MovesOn([TEXT], 0, 0x8049000, 0x1000);
    InsertLast([TEXT], r);
    assert [TEXT] + [r] == [TEXT, r];
  }

  // The check against the last address released does not stop the shared page from being released again: its
  // frame goes into the pool even while one other entry maps it.
  lemma SharedPageIsReleasedTwice(w: World, p: nat)
    requires Inv(w) && p in w.spaces && w.spaces[p].regions == [TEXT, DATA, STACK] && Page(p, 0x8049) in w.entries
    ensures var f, w' := w.entries[Page(p, 0x8049)].frame, Teardown(w, p);
            && f in w.count && f in w'.count && w'.count[f] == w.count[f] - 2 == |Refs(w'.entries, f)| - 1
            && (f in w'.pool <==> |Refs(w'.entries, f)| <= 1)
  {
    hide Teardown, Refs, FramesOk, EntriesOk, WritableIsAlone, OneToOne;
    assert Covering([TEXT, DATA, STACK], 0x8049) == 2 by {
      assert [TEXT, DATA, STACK][1..] == [DATA, STACK] && [DATA, STACK][1..] == [STACK] && [STACK][1..] == [];
      assert Covering([STACK], 0x8049) == 0;
      assert Covering([DATA, STACK], 0x8049) == 1;
    }
    MappedFrame(w, Page(p, 0x8049));
    TeardownFrame(w, p, Page(p, 0x8049));
  }

  function BlankPage(): (page: Bytes)
    ensures |page| == PG_SIZE
  {
    seq(PG_SIZE, _ => 0)
  }

  // One process, nothing mapped, three frames.
  function Start(): World {
    World(map[1 := Space({}, [])], map[], map[0 := 0, 1 := 0, 2 := 0],
          map[0 := BlankPage(), 1 := BlankPage(), 2 := BlankPage()], {0, 1, 2})
  }

  // After exec, with no page mapped.
  function Started(regions: seq<Region>): World {
    Start().(spaces := map[1 := Space({}, regions)])
  }

  lemma StartIsSafe()
    ensures Unmapped(Start()) && Safe(Start()) && Exact(Start())
  {
    hide BlankPage;
    UnmappedIsSafe(Start());
  }

  lemma ExecFromStart(regions: seq<Region>)
    ensures AtMostOnce(Start(), 1) && Exec(Start(), 1, regions) == Started(regions)
  {
    hide BlankPage;
    assert Start().entries - PagesOf(Start().entries, 1) == map[];
    assert Start().spaces[1 := Space({}, [])][1 := Space({}, regions)] == map[1 := Space({}, regions)];
  }

  // The first page a started program touches is in its text.
  lemma TouchFromStart(regions: seq<Region>, no: nat)
    requires regions != [] && regions[0] == TEXT && 0x8048 <= no <= 0x8049 && Safe(Started(regions))
    ensures Enabled(Started(regions), TouchOp(1, no * PG_SIZE, 0x1800, BlankPage(), 0))
    ensures Touch(Started(regions), Page(1, no), BlankPage(), 0)
         == World(map[1 := Space({32}, regions)], map[Page(1, no) := Pte(0, true)], map[0 := 1, 1 := 0, 2 := 0],
                  map[0 := BlankPage(), 1 := BlankPage(), 2 := BlankPage()], {1, 2})
  {
    hide BlankPage;
    assert no / PTES == 32 && no * PG_SIZE / PG_SIZE == no;
    assert no * PG_SIZE < TEXT.end;
    assert FindVma(regions, no * PG_SIZE) == Some(TEXT);
    var addr := no * PG_SIZE;
    assert {} + {no / PTES} == {32};
    assert {0, 1, 2} - {0} == {1, 2};
    assert Started(regions).spaces[1 := Space({32}, regions)] == map[1 := Space({32}, regions)];
    assert Started(regions).count[0 := 1] == map[0 := 1, 1 := 0, 2 := 0];
    assert Started(regions).data[0 := BlankPage()] == Started(regions).data;
  }

  // Two processes share page 0x8049, which two regions of each have, and two frames are left.
  function TwoSharers(): World {
    var space := Space({32}, [TEXT, DATA, STACK]);
    World(map[1 := space, 2 := space],
          map[Page(1, 0x8049) := Pte(0, false), Page(2, 0x8049) := Pte(0, false)],
          map[0 := 2, 1 := 0, 2 := 0], map[0 := BlankPage(), 1 := BlankPage(), 2 := BlankPage()], {1, 2})
  }

  // A program starts, touches that page and forks.
  function SharingRun(): seq<Op> {
    [ExecOp(1, [TEXT, DATA, STACK]), TouchOp(1, 0x8049000, 0x1800, BlankPage(), 0), ForkOp(1, 2)]
  }

  lemma TwoSharersReached()
    ensures Safe(Start()) && Legal(Start(), SharingRun()) && Run(Start(), SharingRun()) == TwoSharers()
  {
    hide Safe, Start, Started, BlankPage, Exec, Touch, Fork, Accepts, AtMostOnce, TwoSharers;
    var ops, regions := SharingRun(), [TEXT, DATA, STACK];
    StartIsSafe();
    ExecFromStart(regions);
    StepCorrect(Start(), ops[0]);
    TouchFromStart(regions, 0x8049);
    StepCorrect(Started(regions), ops[1]);
    ForkTouched();
    var w := Step(Started(regions), ops[1]);
    assert Legal(Step(w, ops[2]), ops[1..][1..][1..]) by { StepCorrect(w, ops[2]); }
  }

  lemma ForkTouched()
    ensures var space := Space({32}, [TEXT, DATA, STACK]);
            var w := World(map[1 := space], map[Page(1, 0x8049) := Pte(0, true)], map[0 := 1, 1 := 0, 2 := 0],
                           map[0 := BlankPage(), 1 := BlankPage(), 2 := BlankPage()], {1, 2});
            Enabled(w, ForkOp(1, 2)) && Fork(w, 1, 2) == TwoSharers()
  {
    hide BlankPage, ReadOnlyCopy, CountUp;
    ForkedEntries();
    ForkedCount();
  }

  lemma ForkedEntries()
    ensures var entries := map[Page(1, 0x8049) := Pte(0, true)];
            entries + ReadOnlyCopy(entries, 1, 1) + ReadOnlyCopy(entries, 1, 2)
            == map[Page(1, 0x8049) := Pte(0, false), Page(2, 0x8049) := Pte(0, false)]
  {
    var k, entries := Page(1, 0x8049), map[Page(1, 0x8049) := Pte(0, true)];
    assert PagesOf(entries, 1) == {k};
    assert ReadOnlyCopy(entries, 1, 1) == map[k := Pte(0, false)];
    assert ReadOnlyCopy(entries, 1, 2) == map[Page(2, 0x8049) := Pte(0, false)];
  }

  lemma ForkedCount()
    ensures CountUp(map[0 := 1, 1 := 0, 2 := 0], map[Page(1, 0x8049) := Pte(0, true)], 1) == map[0 := 2, 1 := 0, 2 := 0]
  {
    var k, entries := Page(1, 0x8049), map[Page(1, 0x8049) := Pte(0, true)];
    assert Mapping(entries, 1, 0) == {k} && Mapping(entries, 1, 1) == {} && Mapping(entries, 1, 2) == {};
  }

  lemma TwoSharersInv()
    ensures Inv(TwoSharers())
  {
    hide BlankPage;
    var w := TwoSharers();
    assert 0x8049 / PTES == 32;
    assert Refs(w.entries, 0) == {Page(1, 0x8049), Page(2, 0x8049)} && Refs(w.entries, 1) == {};
    assert Refs(w.entries, 2) == {};
  }

  // The run ends with two processes mapping the frame; exec by one of them puts it into the pool.
  lemma FreedWhileMapped()
    ensures Safe(Start()) && Legal(Start(), SharingRun()) && Run(Start(), SharingRun()) == TwoSharers()
    ensures Inv(TwoSharers())
    ensures var w' := Teardown(TwoSharers(), 1);
            && Page(2, 0x8049) in w'.entries && w'.entries[Page(2, 0x8049)].frame == 0 && 0 in w'.pool
  {
    hide Inv, Safe, Legal, Run, Start, Teardown, BlankPage, Refs;
    var w := TwoSharers();
    TwoSharersReached();
    TwoSharersInv();
    SharedPageIsReleasedTwice(w, 1);
    TeardownKeys(w, 1);
  }

  // One process with one page, and two frames left: a program has started and touched its first page.
  function OnePage(): World {
    World(map[1 := Space({32}, [TEXT, STACK])], map[Page(1, 0x8048) := Pte(0, true)],
          map[0 := 1, 1 := 0, 2 := 0], map[0 := BlankPage(), 1 := BlankPage(), 2 := BlankPage()], {1, 2})
  }

  function OnePageRun(): seq<Op> {
    [ExecOp(1, [TEXT, STACK]), TouchOp(1, 0x8048000, 0x1800, BlankPage(), 0)]
  }

  lemma OnePageReached()
    ensures Safe(Start()) && Legal(Start(), OnePageRun()) && Run(Start(), OnePageRun()) == OnePage()
  {
    hide Safe, Start, Started, BlankPage, Exec, Touch, Accepts, AtMostOnce;
    var ops, regions := OnePageRun(), [TEXT, STACK];
    StartIsSafe();
    ExecFromStart(regions);
    StepCorrect(Start(), ops[0]);
    TouchFromStart(regions, 0x8048);
    StepCorrect(Started(regions), ops[1]);
  }

  lemma OnePageInv()
    ensures Inv(OnePage())
  {
    hide BlankPage;
    var w := OnePage();
    assert 0x8048 / PTES == 32;
    assert Refs(w.entries, 0) == {Page(1, 0x8048)} && Refs(w.entries, 1) == {} && Refs(w.entries, 2) == {};
  }

  // The address 0x9000000 is far from both regions of OnePage, and its first touch passes.
  lemma OnePageLeaks()
    ensures Safe(Start()) && Legal(Start(), OnePageRun()) && Run(Start(), OnePageRun()) == OnePage()
    ensures Safe(OnePage())
    ensures Enabled(OnePage(), TouchOp(1, 0x9000000, 0, BlankPage(), 1))
    ensures Lost(Exec(Step(OnePage(), TouchOp(1, 0x9000000, 0, BlankPage(), 1)), 1, []), 1, 1)
  {
    hide Lost, Exec, Step, Safe, BlankPage, Legal, Run, Start;
    OnePageReached();
    OnePageInv();
    assert [TEXT, STACK][1..] == [STACK] && [STACK][1..] == [];
    assert FindVma([STACK], 0x9000000) == Some(STACK);
    assert Covering([STACK], 0x9000) == 0 && Covering([TEXT, STACK], 0x9000) == 0;
    assert 0x9000000 / PG_SIZE == 0x9000;
    StrayTouchLeaks(OnePage(), 1, 0x9000000, 0, BlankPage(), 1);
  }

  // A fork of a process that alone maps a frame once adds one to its count and leaves the child mapping it too.
  lemma ForkOnePage(w: World, child: nat)
    requires Inv(w) && 1 in w.spaces && child !in w.spaces
    requires Page(1, 0x8048) in w.entries && w.entries[Page(1, 0x8048)].frame == 0
    ensures var w' := Fork(w, 1, child);
            && Inv(w') && Page(1, 0x8048) in w'.entries && w'.entries[Page(1, 0x8048)].frame == 0
            && 0 in w.count && w'.count.Keys == w.count.Keys && w'.count[0] == w.count[0] + 1
            && w'.pool == w.pool && w'.spaces == w.spaces[child := w.spaces[1]]
  {
    hide Safe, Mapping, ReadOnlyCopy;
    var k := Page(1, 0x8048);
    ForkKeepsInv(w, 1, child);
    SoleMapping(w, k, child);
    ForkEntry(w, 1, child, k);
  }

  lemma SoleMapping(w: World, k: Page, child: nat)
    requires Inv(w) && k in w.entries && child !in w.spaces
    ensures w.entries[k].frame in w.count
    ensures Mapping(w.entries, k.pid, w.entries[k].frame) == {k}
    ensures forall m | m in w.entries :: m.pid != child
  {
    hide CountsExact, WritableIsAlone, FramesOk;
  }

  // With three sharers the debug check fails: fork twice, then store.
  lemma CopyCheckFailsForThree()
    ensures var w := Fork(Fork(OnePage(), 1, 2), 1, 3);
            var k := Page(1, 0x8048);
            && Inv(w) && Mapped(w, k) && 1 in w.pool && w.count[w.entries[k].frame] == 3
            && var w' := ProtectFault(w, k, 1);
               w'.entries[k].frame == 1 && 1 in w'.count && w.count[w.entries[k].frame] != w'.count[1] + 1
  {
    hide Safe, Fork, BlankPage;
    OnePageInv();
    ForkOnePage(OnePage(), 2);
    var w1 := Fork(OnePage(), 1, 2);
    ForkOnePage(w1, 3);
    var w := Fork(w1, 1, 3);
    MappedFrame(w, Page(1, 0x8048));
    CopyCheckIffTwoSharers(w, Page(1, 0x8048), 1);
  }
}
