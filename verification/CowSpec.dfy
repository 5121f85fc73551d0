/** Address spaces that share frames copy-on-write, and the eager copying they stand for. */
module CowSpec {
  import opened Options
  import opened Vma

  type Bytes = seq<int>

  // A page of an address space: the process and address / PG_SIZE.
  datatype Page = Page(pid: nat, no: nat)

  // A present page-table entry.
  datatype Pte = Pte(frame: nat, writable: bool)

  // struct mm_struct: the page-directory entries in use and the regions
  datatype Space = Space(tables: set<nat>, regions: seq<Region>)

  // entries: the present entries of all page tables; count and data are indexed by frame;
  // pool: the frames the buddy allocator has.
  datatype World = World(spaces: map<nat, Space>, entries: map<Page, Pte>, count: map<nat, int>,
                         data: map<nat, Bytes>, pool: set<nat>)

  // ---------- fork ----------

  // The pages of process p, and those among them that map frame f.
  function PagesOf(entries: map<Page, Pte>, p: nat): set<Page> {
    set k | k in entries && k.pid == p
  }

  function Mapping(entries: map<Page, Pte>, p: nat, f: nat): set<Page> {
    set k | k in entries && k.pid == p && entries[k].frame == f
  }

  // The entries of the parent, read-only, in the page tables of the given process.
  function ReadOnlyCopy(entries: map<Page, Pte>, parent: nat, p: nat): map<Page, Pte> {
    map k | k in PagesOf(entries, parent) :: Page(p, k.no) := entries[k].(writable := false)
  }

  function CountUp(count: map<nat, int>, entries: map<Page, Pte>, p: nat): map<nat, int> {
    map f | f in count :: count[f] + |Mapping(entries, p, f)|
  }

  // copy_mm
  function Fork(w: World, parent: nat, child: nat): World
    requires parent in w.spaces
  {
    w.(spaces := w.spaces[child := w.spaces[parent]],
       entries := w.entries + ReadOnlyCopy(w.entries, parent, parent) + ReadOnlyCopy(w.entries, parent, child),
       count := CountUp(w.count, w.entries, parent))
  }

  // ---------- faults ----------

  // page_not_present: a fresh frame holding the region's content
  function Touch(w: World, k: Page, content: Bytes, frame: nat): World
    requires k.pid in w.spaces
  {
    var space := w.spaces[k.pid];
    World(w.spaces[k.pid := space.(tables := space.tables + {k.no / PTES})], w.entries[k := Pte(frame, true)],
          w.count[frame := 1], w.data[frame := content], w.pool - {frame})
  }

  // __free_pages on a single frame
  function ReleaseFrame(count: map<nat, int>, pool: set<nat>, f: nat): (map<nat, int>, set<nat>)
    requires f in count
  {
    (count[f := count[f] - 1], if count[f] - 1 > 0 then pool else pool + {f})
  }

  ghost predicate Mapped(w: World, k: Page) {
    && k in w.entries && k.pid in w.spaces
    && w.entries[k].frame in w.count && w.entries[k].frame in w.data
  }

  // page_protect_fault: the last sharer keeps the frame, any other gets a copy
  ghost function ProtectFault(w: World, k: Page, frame: nat): World
    requires Mapped(w, k)
  {
    var shared := w.entries[k].frame;
    if w.count[shared] > 1 then
      var (count, pool) := ReleaseFrame(w.count[frame := 1], w.pool - {frame}, shared);
      World(w.spaces, w.entries[k := Pte(frame, true)], count, w.data[frame := w.data[shared]], pool)
    else
      w.(entries := w.entries[k := Pte(shared, true)])
  }

  function Store(w: World, f: nat, offset: nat, value: int): World
    requires f in w.data && offset < |w.data[f]|
  {
    var page: Bytes := w.data[f][offset := value];
    w.(data := w.data[f := page])
  }

  // A user store: it faults first if the entry is read-only.
  ghost function Write(w: World, k: Page, offset: nat, value: int, frame: nat): World
    requires Mapped(w, k) && offset < |w.data[w.entries[k].frame]|
  {
    var w1 := if w.entries[k].writable then w else ProtectFault(w, k, frame);
    Store(w1, w1.entries[k].frame, offset, value)
  }

  // ---------- teardown ----------

  // Frame counts and the pool, the two things releasing pages changes.
  datatype Frames = Frames(count: map<nat, int>, pool: set<nat>)

  function ReleasePage(s: Frames, entries: map<Page, Pte>, k: Page): Frames {
    if k in entries && entries[k].frame in s.count then
      var (count, pool) := ReleaseFrame(s.count, s.pool, entries[k].frame);
      Frames(count, pool)
    else s
  }

  // exec_mmap over the pages from up to to of process p, in order
  function ReleaseRange(s: Frames, entries: map<Page, Pte>, p: nat, from: nat, to: nat): Frames
    decreases to - from
  {
    if from >= to then s else ReleaseRange(ReleasePage(s, entries, Page(p, from)), entries, p, from + 1, to)
  }

  function ReleaseRegions(s: Frames, entries: map<Page, Pte>, p: nat, regions: seq<Region>): Frames
    decreases |regions|
  {
    if regions == [] then s
    else
      var s' := ReleaseRange(s, entries, p, FirstPage(regions[0]), PageAfter(regions[0]));
      ReleaseRegions(s', entries, p, regions[1..])
  }

  function Teardown(w: World, p: nat): World
    requires p in w.spaces
  {
    var s := ReleaseRegions(Frames(w.count, w.pool), w.entries, p, w.spaces[p].regions);
    World(w.spaces[p := Space({}, [])], w.entries - PagesOf(w.entries, p), s.count, w.data, s.pool)
  }

  // exec: the old regions go, new ones come
  function Exec(w: World, p: nat, regions: seq<Region>): World
    requires p in w.spaces
  {
    var w' := Teardown(w, p);
    w'.(spaces := w'.spaces[p := Space({}, regions)])
  }

  // ---------- what the sharing stands for ----------

  // Every process with pages of its own.
  type Eager = map<Page, Bytes>

  function Abs(w: World): Eager {
    map k | k in w.entries && w.entries[k].frame in w.data :: w.data[w.entries[k].frame]
  }

  // What process pid reads at an address, if it has a page there.
  function ByteAt(w: World, pid: nat, addr: nat): Option<int> {
    var k, offset := Page(pid, addr / PG_SIZE), addr % PG_SIZE;
    if k in w.entries && w.entries[k].frame in w.data && offset < |w.data[w.entries[k].frame]| then
      Some(w.data[w.entries[k].frame][offset])
    else None
  }

  // The same operations when fork copies every page at once.
  function EagerFork(e: Eager, parent: nat, child: nat): Eager {
    e + map k | k in e && k.pid == parent :: Page(child, k.no) := e[k]
  }

  function EagerTouch(e: Eager, k: Page, content: Bytes): Eager {
    e[k := content]
  }

  function EagerWrite(e: Eager, k: Page, offset: nat, value: int): Eager
    requires k in e && offset < |e[k]|
  {
    var page: Bytes := e[k][offset := value];
    e[k := page]
  }

  function EagerExec(e: Eager, p: nat): Eager {
    map k | k in e && k.pid != p :: e[k]
  }

  // ---------- the invariant ----------

  // The page-table entries, over all address spaces, that map frame f.
  function Refs(entries: map<Page, Pte>, f: nat): set<Page> {
    set k | k in entries && entries[k].frame == f
  }

  ghost predicate FramesOk(w: World) {
    && w.count.Keys == w.data.Keys
    && w.pool <= w.count.Keys
    && (forall f | f in w.data :: |w.data[f]| == PG_SIZE)
  }

  ghost predicate EntriesOk(w: World) {
    forall k | k in w.entries ::
      && w.entries[k].frame in w.count
      && k.pid in w.spaces && k.no < PDES * PTES && k.no / PTES in w.spaces[k.pid].tables
  }

  ghost predicate TablesOk(w: World) {
    forall p, t | p in w.spaces && t in w.spaces[p].tables :: t < PDES
  }

  // A frame is counted once per entry that maps it, and is in the pool exactly when none does.
  ghost predicate CountsExact(w: World) {
    forall f | f in w.count ::
      && w.count[f] == |Refs(w.entries, f)|
      && (f in w.pool <==> Refs(w.entries, f) == {})
  }

  // What is left of that where references leak: a frame is counted at least once per entry that maps it,
  // and none in the pool is mapped.
  ghost predicate CountsCover(w: World) {
    forall f | f in w.count ::
      && w.count[f] >= |Refs(w.entries, f)|
      && (f in w.pool ==> Refs(w.entries, f) == {})
  }

  ghost predicate WritableIsAlone(w: World) {
    forall k | k in w.entries && w.entries[k].writable :: Refs(w.entries, w.entries[k].frame) == {k}
  }

  // Within one address space no two pages share a frame.
  ghost predicate OneToOne(w: World) {
    forall k, m | k in w.entries && m in w.entries && k.pid == m.pid && k != m ::
      w.entries[k].frame != w.entries[m].frame
  }

  // What sharing frames needs to be unobservable.
  ghost predicate Safe(w: World) {
    FramesOk(w) && EntriesOk(w) && TablesOk(w) && CountsCover(w) && WritableIsAlone(w) && OneToOne(w)
  }

  ghost predicate Inv(w: World) {
    Safe(w) && CountsExact(w)
  }

  // No mapped page of p belongs to two of its regions.
  ghost predicate AtMostOnce(w: World, p: nat) {
    p in w.spaces && forall k | k in w.entries && k.pid == p :: Covering(w.spaces[p].regions, k.no) <= 1
  }

  // Each mapped page of p belongs to exactly one of its regions.
  ghost predicate Covered(w: World, p: nat) {
    p in w.spaces && forall k | k in w.entries && k.pid == p :: Covering(w.spaces[p].regions, k.no) == 1
  }
}
