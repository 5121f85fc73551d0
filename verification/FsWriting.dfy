/** What file_write keeps from one sector to the next, and what its two flushes at the end make of it. */
module FsWriting {
  import opened FsLayout

  function Max(a: nat, b: nat): nat {
    if a < b then b else a
  }

  function Min(a: nat, b: nat): nat {
    if a < b then a else b
  }

  // At most n bytes of c from p on
  function Piece(c: seq<Byte>, p: nat, n: nat): (b: seq<Byte>)
    ensures |b| <= n
  {
    if p <= |c| then c[p..Min(|c|, p + n)] else []
  }

  // src written over old at p, growing it if need be
  function Splice(old0: seq<Byte>, p: nat, src: seq<Byte>): (c: seq<Byte>)
    requires p <= |old0|
    ensures |c| == Max(|old0|, p + |src|)
  {
    old0[..p] + src + if p + |src| < |old0| then old0[p + |src|..] else []
  }

  // What was written is there, and nothing else has changed.
  lemma SpliceReadsBack(old0: seq<Byte>, p: nat, src: seq<Byte>)
    requires p <= |old0|
    ensures Piece(Splice(old0, p, src), p, |src|) == Splice(old0, p, src)[p..p + |src|] == src
    ensures forall q | 0 <= q < |old0| && !(p <= q < p + |src|) :: Splice(old0, p, src)[q] == old0[q]
  {
  }

  // Two writes one after the other are one write of both.
  lemma SpliceInTwo(old0: seq<Byte>, p: nat, a: seq<Byte>, b: seq<Byte>)
    requires p <= |old0|
    ensures Splice(Splice(old0, p, a), p + |a|, b) == Splice(old0, p, a + b)
  {
    var once, twice := Splice(old0, p, a + b), Splice(Splice(old0, p, a), p + |a|, b);
    assert |once| == |twice|;
    forall q | 0 <= q < |once|
      ensures once[q] == twice[q]
    {
    }
  }

  // ---------- clear blocks ----------

  ghost function ClearSet(used: seq<bool>): set<nat> {
    set b | 0 <= b < |used| && !used[b]
  }

  ghost function Clear(used: seq<bool>): nat {
    |ClearSet(used)|
  }

  lemma TakeClear(used: seq<bool>, b: nat)
    requires b < |used| && !used[b]
    ensures Clear(used) >= 1 && Clear(used[b := true]) == Clear(used) - 1
  {
    assert b in ClearSet(used);
    assert ClearSet(used[b := true]) == ClearSet(used) - {b};
  }

  lemma NoneClear(used: seq<bool>)
    requires false !in used
    ensures Clear(used) == 0
  {
    forall b | 0 <= b < |used|
      ensures used[b]
    {
      assert used[b] in used;
    }
    assert ClearSet(used) == {};
  }

  // ---------- between two sectors ----------

  // File f's sectors have grown from slots0 to slots.
  ghost predicate Extends(layout: Layout, f: nat, slots: seq<nat>, used0: seq<bool>, used: seq<bool>,
                          g: Geometry): (e: bool)
    ensures e ==> f in layout && |slots| == |layout[f]| == MAX_SECTORS + 1 && GeometryOk(g)
  {
    && f in layout && Owned(layout, used0, g) && GeometryOk(g)
    && |slots| == MAX_SECTORS + 1
    && Owned(layout[f := slots], used, g) && Grown(layout[f], slots, used0, used, g)
  }

  lemma ExtendsGrown(layout: Layout, f: nat, slots: seq<nat>, used0: seq<bool>, used: seq<bool>, g: Geometry, k: nat,
                     b: nat)
    requires Extends(layout, f, slots, used0, used, g)
    requires k <= MAX_SECTORS && slots[k] == 0 && b < g.blocks && b < |used| && !used[b]
    ensures Extends(layout, f, slots[k := g.dataStart + b], used0, used[b := true], g)
  {
    hide Owned, Grown;
    GrowSlot(layout, f, layout[f], slots, used0, used, g, k, b);
  }

  ghost predicate IsData(slots: seq<nat>, l: nat)
    requires |slots| == MAX_SECTORS + 1
  {
    exists k :: 0 <= k < MAX_SECTORS && slots[k] == l
  }

  // Above the bitmaps only the file's data sectors have been written.
  ghost predicate OnlyData(disk0: Disk, disk: Disk, slots: seq<nat>, g: Geometry)
    requires |slots| == MAX_SECTORS + 1
  {
    forall l | l >= g.inodeTable && !IsData(slots, l) :: Sec(disk, l) == Sec(disk0, l)
  }

  // The file reads as want as far as want goes.
  ghost predicate Reads(disk: Disk, slots: seq<nat>, want: seq<Byte>)
    requires |slots| == MAX_SECTORS + 1
  {
    |want| <= MAX_FILE_SIZE && forall q | 0 <= q < |want| :: ByteAt(disk, slots, q) == want[q]
  }

  lemma ReadsIsContent(disk: Disk, slots: seq<nat>, want: seq<Byte>)
    requires |slots| == MAX_SECTORS + 1
    ensures Reads(disk, slots, want) <==> |want| <= MAX_FILE_SIZE && Content(disk, slots, |want|) == want
  {
    if Reads(disk, slots, want) {
      var c := Content(disk, slots, |want|);
      forall q | 0 <= q < |c|
        ensures c[q] == want[q]
      {
      }
      assert c == want;
    }
    if |want| <= MAX_FILE_SIZE && Content(disk, slots, |want|) == want {
      forall q | 0 <= q < |want|
        ensures ByteAt(disk, slots, q) == want[q]
      {
        assert Content(disk, slots, |want|)[q] == want[q];
      }
    }
  }

  // A sector added past the end of what is read changes no byte of it.
  lemma ReadsGrown(disk: Disk, disk': Disk, slots: seq<nat>, slots': seq<nat>, want: seq<Byte>, g: Geometry, n: nat)
    requires Holds(slots, n) && |slots'| == MAX_SECTORS + 1 && |want| <= n * SECTOR && Reads(disk, slots, want)
    requires forall k | 0 <= k < n :: slots'[k] == slots[k] && slots[k] >= g.inodeTable
    requires forall l | l >= g.inodeTable :: Sec(disk', l) == Sec(disk, l)
    ensures Reads(disk', slots', want)
  {
    forall q | 0 <= q < |want|
      ensures ByteAt(disk', slots', q) == want[q]
    {
      assert q / SECTOR < n;
      assert ByteAt(disk, slots, q) == want[q];
    }
  }

  lemma ReadsFrame(disk: Disk, disk': Disk, slots: seq<nat>, want: seq<Byte>, n: nat)
    requires Holds(slots, n) && |want| <= n * SECTOR && Reads(disk, slots, want)
    requires forall k | 0 <= k < n :: Sec(disk', slots[k]) == Sec(disk, slots[k])
    ensures Reads(disk', slots, want)
  {
    forall q | 0 <= q < |want|
      ensures ByteAt(disk', slots, q) == want[q]
    {
      assert q / SECTOR < n;
      assert ByteAt(disk, slots, q) == want[q];
    }
  }

  lemma OnlyDataGrown(disk0: Disk, disk: Disk, disk': Disk, slots: seq<nat>, slots': seq<nat>, g: Geometry)
    requires |slots| == |slots'| == MAX_SECTORS + 1 && OnlyData(disk0, disk, slots, g) && g.inodeTable > 0
    requires forall k | 0 <= k < MAX_SECTORS && slots[k] != 0 :: slots'[k] == slots[k]
    requires forall l | l >= g.inodeTable :: Sec(disk', l) == Sec(disk, l)
    ensures OnlyData(disk0, disk', slots', g)
  {
    forall l | l >= g.inodeTable && !IsData(slots', l)
      ensures Sec(disk', l) == Sec(disk0, l)
    {
      StillData(slots, slots', l);
    }
  }

  lemma StillData(slots: seq<nat>, slots': seq<nat>, l: nat)
    requires |slots| == |slots'| == MAX_SECTORS + 1 && l > 0
    requires forall k | 0 <= k < MAX_SECTORS && slots[k] != 0 :: slots'[k] == slots[k]
    ensures IsData(slots, l) ==> IsData(slots', l)
  {
    if k :| 0 <= k < MAX_SECTORS && slots[k] == l {
      assert slots'[k] == l;
    }
  }

  lemma SpliceStep(old0: seq<Byte>, p: nat, src: seq<Byte>, done: nat, c: nat, q: nat)
    requires p <= |old0| && done + c <= |src| && q < Max(|old0|, p + done + c)
    ensures var want, want' := Splice(old0, p, src[..done]), Splice(old0, p, src[..done + c]);
            if p + done <= q < p + done + c then want'[q] == src[q - p] else q < |want| && want'[q] == want[q]
  {
  }

  // c bytes put into sector sec carry the write c bytes on.
  lemma SectorWritten(disk: Disk, slots: seq<nat>, old0: seq<Byte>, p: nat, src: seq<Byte>, done: nat, c: nat,
                      sec: nat, at: nat)
    requires |slots| == MAX_SECTORS + 1 && p <= |old0| && done + c <= |src| && p + done + c <= MAX_FILE_SIZE
    requires Reads(disk, slots, Splice(old0, p, src[..done]))
    requires sec < MAX_SECTORS && at + c <= SECTOR && sec * SECTOR + at == p + done
    requires forall k | 0 <= k < MAX_SECTORS && k != sec :: slots[k] != slots[sec] || slots[k] == 0
    requires slots[sec] != 0
    ensures Reads(disk[slots[sec] := Over(Sec(disk, slots[sec]), at, src[done..done + c])], slots,
        Splice(old0, p, src[..done + c]))
  {
    var disk' := disk[slots[sec] := Over(Sec(disk, slots[sec]), at, src[done..done + c])];
    var want, want' := Splice(old0, p, src[..done]), Splice(old0, p, src[..done + c]);
    forall q | 0 <= q < |want'|
      ensures ByteAt(disk', slots, q) == want'[q]
    {
      SpliceStep(old0, p, src, done, c, q);
      if q / SECTOR == sec {
        assert q == sec * SECTOR + q % SECTOR;
      }
      if !(p + done <= q < p + done + c) {
        assert ByteAt(disk, slots, q) == want[q];
      }
    }
  }

  lemma OnlyDataWritten(disk0: Disk, disk: Disk, slots: seq<nat>, g: Geometry, sec: nat, b: seq<Byte>)
    requires |slots| == MAX_SECTORS + 1 && OnlyData(disk0, disk, slots, g) && sec < MAX_SECTORS
    ensures OnlyData(disk0, disk[slots[sec] := b], slots, g)
  {
    assert IsData(slots, slots[sec]);
  }

  // No two places of the file share a sector, and all lie in the data area.
  lemma OwnSectors(layout: Layout, f: nat, slots: seq<nat>, used0: seq<bool>, used: seq<bool>, g: Geometry)
    requires Extends(layout, f, slots, used0, used, g)
    ensures forall k, m | 0 <= k <= MAX_SECTORS && 0 <= m <= MAX_SECTORS && slots[k] != 0
        && slots[k] == slots[m] :: k == m
    ensures forall k | 0 <= k <= MAX_SECTORS && slots[k] != 0 :: g.dataStart <= slots[k] < g.dataStart + g.blocks
  {
    var now := layout[f := slots];
    forall k | 0 <= k <= MAX_SECTORS && slots[k] != 0
      ensures g.dataStart <= slots[k] < g.dataStart + g.blocks
    {
      assert InUse(now[f][k], used, g);
    }
    forall k, m | 0 <= k <= MAX_SECTORS && 0 <= m <= MAX_SECTORS && slots[k] != 0 && slots[k] == slots[m]
      ensures k == m
    {
      assert now[f][k] == now[f][m];
    }
  }

  // ---------- the whole partition ----------

  ghost function LayoutOf(disk: Disk, g: Geometry, files: set<nat>): Layout {
    map i | i in files :: SlotsOf(disk, RecordAt(disk, g, i).sectors)
  }

  ghost predicate FileOk(disk: Disk, g: Geometry, i: nat) {
    var r := RecordAt(disk, g, i);
    i < 4096 && r.size <= MAX_FILE_SIZE && Holds(SlotsOf(disk, r.sectors), Sectors(r.size))
  }

  // Everything on disk is in order: each file has the sectors its size calls for, and shares none.
  ghost predicate Good(disk: Disk, used: seq<bool>, g: Geometry, files: set<nat>) {
    && GeometryOk(g)
    && Owned(LayoutOf(disk, g, files), used, g)
    && (forall i | i in files :: FileOk(disk, g, i))
  }

  // The bytes of file i, from the disk alone
  ghost function ContentOf(disk: Disk, g: Geometry, i: nat): seq<Byte> {
    var r := RecordAt(disk, g, i);
    if FileOk(disk, g, i) then Content(disk, SlotsOf(disk, r.sectors), r.size) else []
  }

  lemma GoodFile(disk: Disk, used: seq<bool>, g: Geometry, files: set<nat>, i: nat)
    requires Good(disk, used, g, files) && i in files
    ensures FileOk(disk, g, i) && i < 4096 && i in LayoutOf(disk, g, files)
    ensures var r := RecordAt(disk, g, i);
            LayoutOf(disk, g, files)[i] == SlotsOf(disk, r.sectors)
            && |ContentOf(disk, g, i)| == r.size <= MAX_FILE_SIZE
            && Holds(LayoutOf(disk, g, files)[i], Sectors(r.size)) && GeometryOk(g)
  {
    hide RecordAt, SlotsOf, Owned;
  }

  // What being in order says of the disk: a file has exactly the sectors its size calls for, and the table
  // exactly when it is longer than twelve of them; they are marked in the bitmap, and no two places of any
  // files share one.
  lemma SectorsOfGoodFiles(disk: Disk, used: seq<bool>, g: Geometry, files: set<nat>, i: nat, k: nat, j: nat, m: nat)
    requires Good(disk, used, g, files) && i in files && j in files && k <= MAX_SECTORS && m <= MAX_SECTORS
    ensures var s, size := SlotsOf(disk, RecordAt(disk, g, i).sectors), RecordAt(disk, g, i).size;
            var t := SlotsOf(disk, RecordAt(disk, g, j).sectors);
            && (s[k] != 0 <==> (if k < MAX_SECTORS then k else DIRECT) * SECTOR < size)
            && (s[k] != 0 ==> InUse(s[k], used, g))
            && (s[k] != 0 && s[k] == t[m] ==> i == j && k == m)
  {
    hide RecordAt, SlotsOf;
    GoodFile(disk, used, g, files, i);
    GoodFile(disk, used, g, files, j);
    var layout, size := LayoutOf(disk, g, files), RecordAt(disk, g, i).size;
    HoldsMeans(layout[i], size, if k < MAX_SECTORS then k else 0);
    assert layout[i][k] != 0 ==> InUse(layout[i][k], used, g);
    assert layout[i][k] != 0 && layout[i][k] == layout[j][m] ==> i == j && k == m;
  }

  lemma ContentIs(disk: Disk, g: Geometry, i: nat)
    requires FileOk(disk, g, i)
    ensures var r := RecordAt(disk, g, i);
            r.size <= MAX_FILE_SIZE && ContentOf(disk, g, i) == Content(disk, SlotsOf(disk, r.sectors), r.size)
  {
    hide RecordAt, SlotsOf, Content;
  }

  lemma OverAll(s: seq<Byte>, b: seq<Byte>)
    requires |s| == |b|
    ensures Over(s, 0, b) == b
  {
  }

  // Only file f's own sectors and its record were written above the bitmaps.
  ghost predicate OnlyFile(disk0: Disk, disk: Disk, g: Geometry, f: nat, slots: seq<nat>)
    requires |slots| == MAX_SECTORS + 1
  {
    && (forall l | l >= g.inodeTable && l != RecordSector(g, f) && (forall k | 0 <= k <= MAX_SECTORS :: slots[k] != l)
          :: Sec(disk, l) == Sec(disk0, l))
    && (forall j | j != f && j < 4096 :: RecordAt(disk, g, j) == RecordAt(disk0, g, j))
  }

  // Another file's sectors, table included, are as they were.
  lemma OthersUntouched(disk0: Disk, disk: Disk, g: Geometry, files: set<nat>, f: nat, slots: seq<nat>,
                        used0: seq<bool>, used: seq<bool>, j: nat)
    requires Good(disk0, used0, g, files) && f in files && j in files && j != f
    requires Extends(LayoutOf(disk0, g, files), f, slots, used0, used, g)
    requires OnlyFile(disk0, disk, g, f, slots)
    ensures FileOk(disk, g, j) && ContentOf(disk, g, j) == ContentOf(disk0, g, j)
    ensures SlotsOf(disk, RecordAt(disk, g, j).sectors) == LayoutOf(disk0, g, files)[j]
  {
    hide GetRecord, GetWords;
    var layout, sectors := LayoutOf(disk0, g, files), RecordAt(disk0, g, j).sectors;
    var s := layout[j];
    assert FileOk(disk0, g, j) && FileOk(disk0, g, f);
    forall k | 0 <= k <= MAX_SECTORS && s[k] != 0
      ensures Sec(disk, s[k]) == Sec(disk0, s[k])
    {
      var now := layout[f := slots];
      assert now[j][k] == s[k] && InUse(now[j][k], used, g);
      forall m | 0 <= m <= MAX_SECTORS
        ensures slots[m] != s[k]
      {
        assert now[f][m] == slots[m];
      }
      RecordsDoNotStraddle(f);
    }
    assert s[MAX_SECTORS] == sectors[12];
    assert SlotsOf(disk, sectors) == s;
    SameContent(disk0, disk, s, RecordAt(disk0, g, j).size);
  }

  lemma LongerPiece(c: seq<Byte>, p: nat, q: nat, r: nat)
    requires p <= q <= r <= |c|
    ensures c[p..q] + c[q..r] == c[p..r]
  {
  }

  lemma SlotAt(disk: Disk, g: Geometry, i: nat, sec: nat)
    requires FileOk(disk, g, i) && sec < MAX_SECTORS
    ensures var r := RecordAt(disk, g, i);
            var slot := if sec < DIRECT then r.sectors[sec] else TableOf(disk, r.sectors[12])[sec - DIRECT];
            SlotsOf(disk, r.sectors)[sec] == slot && (sec * SECTOR < r.size ==> slot != 0)
  {
    hide RecordAt, TableOf;
    var r := RecordAt(disk, g, i);
    HoldsMeans(SlotsOf(disk, r.sectors), r.size, sec);
  }

  // A piece of a sector is a piece of the file.
  lemma Chunk(disk: Disk, slots: seq<nat>, size: nat, sec: nat, at: nat, c: nat)
    requires |slots| == MAX_SECTORS + 1 && size <= MAX_FILE_SIZE && sec < MAX_SECTORS
    requires at + c <= SECTOR && sec * SECTOR + at + c <= size
    ensures Content(disk, slots, size)[sec * SECTOR + at..sec * SECTOR + at + c] == Sec(disk, slots[sec])[at..at + c]
  {
    var piece := Content(disk, slots, size)[sec * SECTOR + at..sec * SECTOR + at + c];
    var part := Sec(disk, slots[sec])[at..at + c];
    forall k | 0 <= k < c
      ensures piece[k] == part[k]
    {
      assert piece[k] == ByteAt(disk, slots, sec * SECTOR + at + k);
      assert (sec * SECTOR + at + k) / SECTOR == sec;
    }
  }

  // A sector that was in use and is not this file's is not written.
  lemma StrangersUntouched(disk0: Disk, disk: Disk, g: Geometry, layout: Layout, f: nat, slots: seq<nat>,
                           used0: seq<bool>, used: seq<bool>, l: nat)
    requires Extends(layout, f, slots, used0, used, g) && OnlyFile(disk0, disk, g, f, slots) && f < 4096
    requires InUse(l, used0, g) && l !in layout[f]
    ensures Sec(disk, l) == Sec(disk0, l)
  {
    hide Owned, RecordAt;
    RecordsDoNotStraddle(f);
    forall k | 0 <= k <= MAX_SECTORS
      ensures slots[k] != l
    {
      assert layout[f][k] != l;
    }
  }

  lemma SameContent(disk0: Disk, disk: Disk, s: seq<nat>, size: nat)
    requires size <= MAX_FILE_SIZE && Holds(s, Sectors(size))
    requires forall k | 0 <= k <= MAX_SECTORS && s[k] != 0 :: Sec(disk, s[k]) == Sec(disk0, s[k])
    ensures Content(disk, s, size) == Content(disk0, s, size)
  {
    var c0, c := Content(disk0, s, size), Content(disk, s, size);
    forall q | 0 <= q < |c|
      ensures c[q] == c0[q]
    {
      HoldsMeans(s, size, q / SECTOR);
    }
  }

  // With its table and record on disk, the written file is in order and so is everything else.
  lemma Finished(disk0: Disk, disk: Disk, g: Geometry, files: set<nat>, f: nat, slots: seq<nat>,
                 used0: seq<bool>, used: seq<bool>, want: seq<Byte>)
    requires Good(disk0, used0, g, files) && f in files
    requires Extends(LayoutOf(disk0, g, files), f, slots, used0, used, g)
    requires OnlyFile(disk0, disk, g, f, slots)
    requires SlotsOf(disk, RecordAt(disk, g, f).sectors) == slots && RecordAt(disk, g, f).size == |want|
    requires Holds(slots, Sectors(|want|)) && Reads(disk, slots, want)
    ensures Good(disk, used, g, files) && ContentOf(disk, g, f) == want
    ensures forall j | j in files && j != f :: FileOk(disk0, g, j) && ContentOf(disk, g, j) == ContentOf(disk0, g, j)
  {
    hide RecordAt, SlotsOf, Owned, Grown, OnlyFile, Holds, Content;
    ReadsIsContent(disk, slots, want);
    assert FileOk(disk0, g, f);
    forall j | j in files && j != f
      ensures FileOk(disk, g, j) && ContentOf(disk, g, j) == ContentOf(disk0, g, j)
      ensures LayoutOf(disk, g, files)[j] == LayoutOf(disk0, g, files)[j]
    {
      OthersUntouched(disk0, disk, g, files, f, slots, used0, used, j);
    }
    assert LayoutOf(disk, g, files) == LayoutOf(disk0, g, files)[f := slots];
  }

  // ---------- file_write's loop ----------

  lemma DataSector(layout: Layout, f: nat, slots: seq<nat>, used0: seq<bool>, used: seq<bool>, g: Geometry, n: nat,
                   sec: nat)
    requires Extends(layout, f, slots, used0, used, g) && Holds(slots, n) && sec < n
    ensures slots[sec] >= g.dataStart && slots[sec] != slots[MAX_SECTORS]
  {
    hide Extends;
    OwnSectors(layout, f, slots, used0, used, g);
  }

  lemma CostMonotone(a: nat, b: nat)
    requires a <= b
    ensures Cost(a) <= Cost(b)
  {
  }

  // How many sectors the file has when the loop has reached the end of the write
  lemma EndsAt(size: nat, p: nat, end: nat, sec: nat, offset: nat)
    requires p <= size && p <= end && end <= sec * SECTOR + offset < end + SECTOR && (offset > 0 ==> end == p)
    ensures Max(Sectors(size), sec) == Sectors(Max(size, end))
  {
  }

  lemma SectorsCover(size: nat)
    ensures size <= Sectors(size) * SECTOR
    ensures forall p | 0 <= p <= size :: p / SECTOR <= Sectors(size)
  {
  }

  lemma SectorsGrow(a: nat, b: nat)
    requires a <= b
    ensures Sectors(a) <= Sectors(b)
  {
  }

  lemma OneMoreSector(sec: nat, size: nat)
    requires sec * SECTOR < size
    ensures sec + 1 <= Sectors(size)
  {
  }

  // done bytes of src are in place; the file has n sectors and has paid for those it was given.
  ghost predicate Ongoing(disk0: Disk, disk: Disk, layout: Layout, f: nat, slots: seq<nat>, used0: seq<bool>,
                          used: seq<bool>,
                          g: Geometry, n: nat, old0: seq<Byte>, p: nat, src: seq<Byte>, done: nat): (o: bool)
    ensures o ==> Extends(layout, f, slots, used0, used, g) && Holds(slots, n)
    ensures o ==> Clear(used) + Cost(n) == Clear(used0) + Cost(Sectors(|old0|))
  {
    && Extends(layout, f, slots, used0, used, g) && Holds(slots, n) && OnlyData(disk0, disk, slots, g)
    && p <= |old0| && done <= |src| && Reads(disk, slots, Splice(old0, p, src[..done]))
    && Clear(used) + Cost(n) == Clear(used0) + Cost(Sectors(|old0|))
  }

  lemma StartsOngoing(disk0: Disk, g: Geometry, files: set<nat>, f: nat, used0: seq<bool>, p: nat, src: seq<Byte>)
    requires Good(disk0, used0, g, files) && f in files && FileOk(disk0, g, f) && p <= |ContentOf(disk0, g, f)|
    ensures var layout, old0 := LayoutOf(disk0, g, files), ContentOf(disk0, g, f);
            Ongoing(disk0, disk0, layout, f, layout[f], used0, used0, g, Sectors(|old0|), old0, p, src, 0)
  {
    hide Owned, Holds, Content, SlotsOf, RecordAt, Clear;
    var layout, old0 := LayoutOf(disk0, g, files), ContentOf(disk0, g, f);
    assert layout[f := layout[f]] == layout;
    assert Splice(old0, p, src[..0]) == old0;
    ReadsIsContent(disk0, layout[f], old0);
  }

  lemma BlockFound(disk0: Disk, disk: Disk, disk': Disk, layout: Layout, f: nat, slots: seq<nat>, slots': seq<nat>,
                   used0: seq<bool>, used: seq<bool>, used': seq<bool>, g: Geometry, n: nat, n': nat,
                   old0: seq<Byte>, p: nat, src: seq<Byte>, done: nat)
    requires Ongoing(disk0, disk, layout, f, slots, used0, used, g, n, old0, p, src, done)
    requires Extends(layout, f, slots', used0, used', g) && Holds(slots', n')
    requires forall k | 0 <= k <= MAX_SECTORS && slots[k] != 0 :: slots'[k] == slots[k]
    requires forall l | l >= g.inodeTable :: Sec(disk', l) == Sec(disk, l)
    requires Clear(used') + Cost(n') == Clear(used) + Cost(n)
    requires Max(|old0|, p + done) <= n * SECTOR
    ensures Ongoing(disk0, disk', layout, f, slots', used0, used', g, n', old0, p, src, done)
  {
    hide Extends, Clear, Reads, OnlyData, Splice;
    OwnSectors(layout, f, slots, used0, used, g);
    ReadsGrown(disk, disk', slots, slots', Splice(old0, p, src[..done]), g, n);
    OnlyDataGrown(disk0, disk, disk', slots, slots', g);
  }

  lemma SectorPut(disk0: Disk, disk: Disk, layout: Layout, f: nat, slots: seq<nat>, used0: seq<bool>, used: seq<bool>,
                  g: Geometry, n: nat, old0: seq<Byte>, p: nat, src: seq<Byte>, done: nat, c: nat, sec: nat, at: nat)
    requires Ongoing(disk0, disk, layout, f, slots, used0, used, g, n, old0, p, src, done)
    requires done + c <= |src| && p + |src| <= MAX_FILE_SIZE && sec < n && at + c <= SECTOR
        && sec * SECTOR + at == p + done
    ensures Ongoing(disk0, disk[slots[sec] := Over(Sec(disk, slots[sec]), at, src[done..done + c])], layout, f, slots,
                    used0, used, g, n, old0, p, src, done + c)
  {
    hide Extends, Clear, Reads, OnlyData, Splice, Over;
    OwnSectors(layout, f, slots, used0, used, g);
    SectorWritten(disk, slots, old0, p, src, done, c, sec, at);
    OnlyDataWritten(disk0, disk, slots, g, sec, Over(Sec(disk, slots[sec]), at, src[done..done + c]));
  }
}
