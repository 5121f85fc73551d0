/** The file's sectors as the inode's array and the table buffer hold them, and their way to disk. */
module FsFlush {
  import opened FsLayout
  import opened FsWriting

  // Whole sectors of bytes, found on disk from sector base on.
  ghost predicate Synced(disk: Disk, base: nat, bytes: seq<Byte>) {
    forall s | 0 <= s < |bytes| / SECTOR :: Sec(disk, base + s) == bytes[SECTOR * s..SECTOR * s + SECTOR]
  }

  // One byte changed and its sector written.
  lemma SyncedAfter(disk: Disk, base: nat, bytes: seq<Byte>, bytes': seq<Byte>, b: nat)
    requires Synced(disk, base, bytes) && |bytes'| == |bytes| && |bytes| % SECTOR == 0 && b < |bytes|
    requires forall k | 0 <= k < |bytes| && k != b :: bytes'[k] == bytes[k]
    ensures Synced(disk[base + b / SECTOR := bytes'[b / SECTOR * SECTOR..b / SECTOR * SECTOR + SECTOR]], base, bytes')
  {
    var disk' := disk[base + b / SECTOR := bytes'[b / SECTOR * SECTOR..b / SECTOR * SECTOR + SECTOR]];
    forall s | 0 <= s < |bytes'| / SECTOR
      ensures Sec(disk', base + s) == bytes'[SECTOR * s..SECTOR * s + SECTOR]
    {
      if s != b / SECTOR {
        assert Sec(disk, base + s) == bytes[SECTOR * s..SECTOR * s + SECTOR];
        assert bytes'[SECTOR * s..SECTOR * s + SECTOR] == bytes[SECTOR * s..SECTOR * s + SECTOR];
      }
    }
  }

  lemma SyncedFrame(disk: Disk, base: nat, bytes: seq<Byte>, l: nat, b: seq<Byte>)
    requires Synced(disk, base, bytes) && l >= base + |bytes| / SECTOR
    ensures Synced(disk[l := b], base, bytes)
  {
    forall s | 0 <= s < |bytes| / SECTOR
      ensures Sec(disk[l := b], base + s) == bytes[SECTOR * s..SECTOR * s + SECTOR]
    {
      assert Sec(disk, base + s) == bytes[SECTOR * s..SECTOR * s + SECTOR];
    }
  }

  // The slots as file_write sees them: the inode's own array, and the table once it is in the buffer.
  ghost predicate Views(slots: seq<nat>, sectors: seq<nat>, table: seq<nat>, loaded: bool, disk: Disk): (v: bool)
    ensures v ==> |slots| == MAX_SECTORS + 1 && |sectors| == 13 && |table| == TABLE && slots[MAX_SECTORS] == sectors[12]
  {
    && |slots| == MAX_SECTORS + 1 && |sectors| == 13 && |table| == TABLE
    && (forall k | 0 <= k < DIRECT :: slots[k] == sectors[k])
    && slots[MAX_SECTORS] == sectors[12]
    && (forall k | 0 <= k < TABLE :: slots[DIRECT + k] == if loaded then table[k] else TableOf(disk, sectors[12])[k])
  }

  lemma NewTable(slots: seq<nat>, sectors: seq<nat>, table: seq<nat>, disk: Disk, disk': Disk, l: nat)
    requires Views(slots, sectors, table, false, disk) && sectors[12] == 0
    ensures Views(slots[MAX_SECTORS := l], sectors[12 := l], EmptyTable(), true, disk')
  {
    assert TableOf(disk, sectors[12]) == EmptyTable();
    var slots' := slots[MAX_SECTORS := l];
    forall k | 0 <= k < TABLE
      ensures slots'[DIRECT + k] == EmptyTable()[k]
    {
      assert slots'[DIRECT + k] == slots[DIRECT + k];
    }
  }

  lemma OldTable(slots: seq<nat>, sectors: seq<nat>, table: seq<nat>, disk: Disk)
    requires Views(slots, sectors, table, false, disk)
    ensures Views(slots, sectors, TableOf(disk, sectors[12]), true, disk)
  {
  }

  lemma ViewsStart(disk: Disk, sectors: seq<nat>, table: seq<nat>, loaded: bool)
    requires |sectors| == 13 && |table| == TABLE && (loaded ==> table == TableOf(disk, sectors[12]))
    ensures Views(SlotsOf(disk, sectors), sectors, table, loaded, disk)
  {
    hide TableOf;
  }

  lemma ViewsAt(slots: seq<nat>, sectors: seq<nat>, table: seq<nat>, disk: Disk, sec: nat)
    requires Views(slots, sectors, table, sec >= DIRECT, disk) && sec < MAX_SECTORS
    ensures (if sec < DIRECT then sectors[sec] else table[sec - DIRECT]) == slots[sec]
  {
    if sec >= DIRECT {
      assert slots[DIRECT + (sec - DIRECT)] == table[sec - DIRECT];
    }
  }

  // A block for sector sec, put in the inode's array or in the loaded table.
  lemma ViewsGrown(slots: seq<nat>, sectors: seq<nat>, table: seq<nat>, disk: Disk, disk': Disk, g: Geometry,
                   sec: nat, l: nat)
    requires Views(slots, sectors, table, sec >= DIRECT, disk) && sec < MAX_SECTORS
    requires sectors[12] == 0 || sectors[12] >= g.inodeTable
    requires forall m | m >= g.inodeTable :: Sec(disk', m) == Sec(disk, m)
    ensures sec < DIRECT ==> Views(slots[sec := l], sectors[sec := l], table, false, disk')
    ensures sec >= DIRECT ==> Views(slots[sec := l], sectors, table[sec - DIRECT := l], true, disk')
  {
    hide GetWords;
    assert TableOf(disk', sectors[12]) == TableOf(disk, sectors[12]);
  }

  // A data sector written: the table on disk is another sector.
  lemma ViewsFrame(slots: seq<nat>, sectors: seq<nat>, table: seq<nat>, loaded: bool, disk: Disk, l: nat, b: seq<Byte>)
    requires Views(slots, sectors, table, loaded, disk) && l != sectors[12]
    ensures Views(slots, sectors, table, loaded, disk[l := b])
  {
    hide GetWords;
    assert TableOf(disk[l := b], sectors[12]) == TableOf(disk, sectors[12]);
  }

  // With the next sector in place the file holds one more.
  lemma HoldsGrown(slots: seq<nat>, slots': seq<nat>, n: nat)
    requires Holds(slots, n) && n < MAX_SECTORS && |slots'| == MAX_SECTORS + 1
    requires forall k | 0 <= k < MAX_SECTORS :: if k == n then slots'[k] != 0 else slots'[k] == slots[k]
    requires slots'[MAX_SECTORS] != 0 <==> n >= DIRECT
    ensures Holds(slots', n + 1)
  {
  }

  // A file with no more sectors than before has the same ones.
  lemma SameSlots(layout: Layout, f: nat, slots: seq<nat>, used0: seq<bool>, used: seq<bool>, g: Geometry, n: nat)
    requires Extends(layout, f, slots, used0, used, g) && Holds(layout[f], n) && Holds(slots, n)
    ensures slots == layout[f]
  {
    forall k | 0 <= k <= MAX_SECTORS
      ensures slots[k] == layout[f][k]
    {
    }
  }

  // ---------- the flushes at the end of file_write ----------

  lemma PutTable(disk: Disk, l: nat, table: seq<nat>)
    requires l != 0 && |table| == TABLE && forall k | 0 <= k < TABLE :: table[k] < WORDS
    ensures TableOf(disk[l := PutWords(table)], l) == table
  {
    hide GetWords, PutWords;
    PutGetWords([], table, []);
    assert [] + PutWords(table) + [] == PutWords(table);
  }

  // What file_write holds in memory when its loop is through: the file's sectors, the block bitmap, the inode's
  // array, the indirect table, and whether that has been loaded and changed.
  datatype Writing = Writing(slots: seq<nat>, used: seq<bool>, sectors: seq<nat>, table: seq<nat>, loaded: bool,
                             sync: bool)

  // After the table's flush, or without one when no slot of it has changed, the disk shows the slots.
  lemma TableFlushed(disk0: Disk, disk: Disk, disk1: Disk, g: Geometry, layout: Layout, sectors0: seq<nat>, f: nat,
                     used0: seq<bool>, w: Writing, n: nat)
    requires Extends(layout, f, w.slots, used0, w.used, g) && |sectors0| == 13 && layout[f] == SlotsOf(disk0, sectors0)
    requires Holds(w.slots, n) && OnlyData(disk0, disk, w.slots, g)
    requires Views(w.slots, w.sectors, w.table, w.loaded, disk)
    requires w.sync ==> w.loaded && w.slots[MAX_SECTORS] != 0 && forall k | 0 <= k < TABLE :: w.table[k] < WORDS
    requires !w.sync ==> forall k | DIRECT <= k <= MAX_SECTORS :: w.slots[k] == layout[f][k]
    requires disk1 == if w.sync then disk[w.sectors[12] := PutWords(w.table)] else disk
    ensures SlotsOf(disk1, w.sectors) == w.slots
  {
    hide GetWords, PutWords, Extends, Holds;
    OwnSectors(layout, f, w.slots, used0, w.used, g);
    if w.sync {
      PutTable(disk, w.sectors[12], w.table);
    } else if w.sectors[12] != 0 {
      TableNotData(w.slots, g);
      assert Sec(disk, w.sectors[12]) == Sec(disk0, w.sectors[12]);
    }
    var t := TableOf(disk1, w.sectors[12]);
    forall k | 0 <= k < TABLE
      ensures t[k] == w.slots[DIRECT + k]
    {
      if !w.sync {
        assert w.slots[DIRECT + k] == layout[f][DIRECT + k] == TableOf(disk0, sectors0[12])[k];
        assert w.slots[MAX_SECTORS] == layout[f][MAX_SECTORS] == sectors0[12];
      }
    }
    Assembled(w.sectors, t, w.slots);
  }

  lemma Assembled(sectors: seq<nat>, t: seq<nat>, slots: seq<nat>)
    requires |sectors| == 13 && |t| == TABLE && |slots| == MAX_SECTORS + 1
    requires forall k | 0 <= k < DIRECT :: slots[k] == sectors[k]
    requires forall k | 0 <= k < TABLE :: t[k] == slots[DIRECT + k]
    requires slots[MAX_SECTORS] == sectors[12]
    ensures sectors[..12] + t + [sectors[12]] == slots
  {
    var s := sectors[..12] + t + [sectors[12]];
    forall k | 0 <= k <= MAX_SECTORS
      ensures s[k] == slots[k]
    {
      if DIRECT <= k < MAX_SECTORS {
        assert t[k - DIRECT] == slots[DIRECT + (k - DIRECT)];
      }
    }
  }

  lemma TableNotData(slots: seq<nat>, g: Geometry)
    requires |slots| == MAX_SECTORS + 1 && slots[MAX_SECTORS] != 0
    requires forall k, m | 0 <= k <= MAX_SECTORS && 0 <= m <= MAX_SECTORS && slots[k] != 0
        && slots[k] == slots[m] :: k == m
    ensures !IsData(slots, slots[MAX_SECTORS])
  {
  }

  lemma RecordNotOwn(slots: seq<nat>, g: Geometry, no: nat)
    requires |slots| == MAX_SECTORS + 1 && GeometryOk(g) && no < 4096
    requires forall k | 0 <= k <= MAX_SECTORS && slots[k] != 0 :: slots[k] >= g.dataStart
    ensures forall k | 0 <= k <= MAX_SECTORS :: slots[k] != RecordSector(g, no)
    ensures !IsData(slots, RecordSector(g, no)) && g.inodeTable <= RecordSector(g, no) < g.dataStart
  {
    RecordsDoNotStraddle(no);
  }

  lemma SameRecord(disk: Disk, disk': Disk, g: Geometry, no: nat)
    requires Sec(disk', RecordSector(g, no)) == Sec(disk, RecordSector(g, no))
    ensures RecordAt(disk', g, no) == RecordAt(disk, g, no)
  {
  }

  // The state between the two flushes, as seen through the sectors.
  ghost predicate TableDone(disk0: Disk, disk1: Disk, g: Geometry, slots: seq<nat>, sectors: seq<nat>,
                            want: seq<Byte>) {
    && |slots| == MAX_SECTORS + 1 && |sectors| == 13 && SlotsOf(disk1, sectors) == slots && Reads(disk1, slots, want)
    && (forall l | l >= g.inodeTable && (forall k | 0 <= k <= MAX_SECTORS :: slots[k] != l) ::
          Sec(disk1, l) == Sec(disk0, l))
  }

  lemma FirstFlush(disk0: Disk, disk: Disk, disk1: Disk, g: Geometry, layout: Layout, sectors0: seq<nat>, f: nat,
                   used0: seq<bool>, w: Writing, n: nat, want: seq<Byte>)
    requires Extends(layout, f, w.slots, used0, w.used, g) && |sectors0| == 13 && layout[f] == SlotsOf(disk0, sectors0)
    requires |want| <= n * SECTOR
    requires Holds(w.slots, n) && OnlyData(disk0, disk, w.slots, g) && Reads(disk, w.slots, want)
    requires Views(w.slots, w.sectors, w.table, w.loaded, disk) && (w.sync ==> w.loaded && n > DIRECT)
    requires !w.sync ==> forall k | DIRECT <= k <= MAX_SECTORS :: w.slots[k] == layout[f][k]
    requires !w.sync ==> disk1 == disk
    requires w.sync ==> forall k | 0 <= k < TABLE :: w.table[k] < WORDS
    requires w.sync ==> disk1 == disk[w.sectors[12] := PutWords(w.table)]
    ensures TableDone(disk0, disk1, g, w.slots, w.sectors, want)
  {
    hide Extends, GetWords, PutWords, SlotsOf, Reads, Views;
    TableFlushed(disk0, disk, disk1, g, layout, sectors0, f, used0, w, n);
    OwnSectors(layout, f, w.slots, used0, w.used, g);
    ReadsFrame(disk, disk1, w.slots, want, n);
    forall l | l >= g.inodeTable && (forall k | 0 <= k <= MAX_SECTORS :: w.slots[k] != l)
      ensures Sec(disk1, l) == Sec(disk0, l)
    {
      assert !IsData(w.slots, l);
      assert w.slots[MAX_SECTORS] != l;
    }
  }

  // Words in the table are sector numbers.
  lemma TableFits(layout: Layout, f: nat, slots: seq<nat>, used0: seq<bool>, used: seq<bool>, g: Geometry,
                  sectors: seq<nat>, table: seq<nat>, disk: Disk, loaded: bool)
    requires Extends(layout, f, slots, used0, used, g) && Views(slots, sectors, table, loaded, disk)
    ensures loaded ==> forall k | 0 <= k < TABLE :: table[k] < WORDS
    ensures forall k | 0 <= k < 13 :: sectors[k] < WORDS
    ensures sectors[12] != 0 ==> sectors[12] >= g.dataStart
  {
    hide Extends, TableOf;
    OwnSectors(layout, f, slots, used0, used, g);
    forall k | 0 <= k < TABLE && loaded
      ensures table[k] < WORDS
    {
      assert slots[DIRECT + k] == table[k];
    }
    forall k | 0 <= k < 13
      ensures sectors[k] < WORDS
    {
      if k < 12 {
        assert slots[k] == sectors[k];
      } else {
        assert slots[MAX_SECTORS] == sectors[12];
      }
    }
  }

  // Writing the record keeps what the table's flush has established.
  lemma SecondFlush(disk0: Disk, disk1: Disk, g: Geometry, f: nat, slots: seq<nat>, sectors: seq<nat>, want: seq<Byte>,
                    r: Record, n: nat)
    requires TableDone(disk0, disk1, g, slots, sectors, want) && GeometryOk(g) && f < 4096 && RecordOk(r)
    requires Holds(slots, n) && |want| <= n * SECTOR
    requires forall k | 0 <= k <= MAX_SECTORS && slots[k] != 0 :: slots[k] >= g.dataStart
    ensures var disk2 := WriteRecord(disk1, g, f, PutRecord(r));
            && OnlyFile(disk0, disk2, g, f, slots) && RecordAt(disk2, g, f) == r
            && SlotsOf(disk2, sectors) == slots && Reads(disk2, slots, want)
  {
    hide GetRecord, PutRecord, GetWords, WriteRecord, RecordAt, Reads;
    var disk2 := WriteRecord(disk1, g, f, PutRecord(r));
    RecordWritten(disk1, g, f, r);
    RecordNotOwn(slots, g, f);
    forall j | j != f && j < 4096
      ensures RecordAt(disk2, g, j) == RecordAt(disk0, g, j)
    {
      OtherRecord(disk1, g, f, PutRecord(r), j);
      RecordNotOwn(slots, g, j);
      SameRecord(disk0, disk1, g, j);
    }
    ReadsFrame(disk1, disk2, slots, want, n);
    assert slots[MAX_SECTORS] == sectors[12];
    assert TableOf(disk2, sectors[12]) == TableOf(disk1, sectors[12]);
  }

  // Without a record to write the first flush is enough.
  lemma NoSecondFlush(disk0: Disk, disk1: Disk, g: Geometry, f: nat, slots: seq<nat>, sectors: seq<nat>,
                      want: seq<Byte>)
    requires TableDone(disk0, disk1, g, slots, sectors, want) && GeometryOk(g) && f < 4096
    requires forall k | 0 <= k <= MAX_SECTORS && slots[k] != 0 :: slots[k] >= g.dataStart
    ensures OnlyFile(disk0, disk1, g, f, slots) && RecordAt(disk1, g, f) == RecordAt(disk0, g, f)
  {
    hide RecordAt;
    forall j | j < 4096
      ensures RecordAt(disk1, g, j) == RecordAt(disk0, g, j)
    {
      RecordNotOwn(slots, g, j);
      SameRecord(disk0, disk1, g, j);
    }
  }

  // The whole of file_write on disk: the loop's work, the table if a slot of it changed, the record if the
  // file grew.
  lemma WriteDone(disk0: Disk, disk: Disk, disk1: Disk, disk2: Disk, g: Geometry, files: set<nat>, f: nat,
                  layout: Layout, old0: seq<Byte>, used0: seq<bool>, w: Writing, n: nat, p: nat, src: seq<Byte>,
                  r: Record)
    requires p <= |old0| && n == Sectors(Max(|old0|, p + |src|)) && p + |src| <= MAX_FILE_SIZE
    requires Views(w.slots, w.sectors, w.table, w.loaded, disk) && (w.sync ==> w.loaded && n > DIRECT)
    requires f in layout && |layout[f]| == MAX_SECTORS + 1
    requires !w.sync ==> forall k | DIRECT <= k <= MAX_SECTORS :: w.slots[k] == layout[f][k]
    requires !w.sync ==> disk1 == disk
    requires w.sync ==> forall k | 0 <= k < TABLE :: w.table[k] < WORDS
    requires w.sync ==> disk1 == disk[w.sectors[12] := PutWords(w.table)]
    requires RecordOk(r) && r.sectors == w.sectors && r.size == Max(|old0|, p + |src|)
    requires disk2 == if |old0| < p + |src| then WriteRecord(disk1, g, f, PutRecord(r)) else disk1
    requires Good(disk0, used0, g, files) && f in files && layout == LayoutOf(disk0, g, files)
        && old0 == ContentOf(disk0, g, f)
    requires Ongoing(disk0, disk, layout, f, w.slots, used0, w.used, g, n, old0, p, src, |src|)
    ensures Good(disk2, w.used, g, files) && ContentOf(disk2, g, f) == Splice(old0, p, src)
    ensures forall j | j in files && j != f :: ContentOf(disk2, g, j) == ContentOf(disk0, g, j)
    ensures OnlyFile(disk0, disk2, g, f, w.slots) && RecordAt(disk2, g, f).sectors == w.sectors
        && RecordAt(disk2, g, f).size == r.size
    ensures if |old0| < p + |src| then RecordAt(disk2, g, f) == r else RecordAt(disk2, g, f) == RecordAt(disk0, g, f)
  {
    hide RecordAt, GetRecord, PutRecord, PutWords, WriteRecord, Good, FileOk, ContentOf, Clear, SlotsOf, Views;
    hide OnlyFile, TableDone;
    hide Holds, Reads, OnlyData, Extends, LayoutOf;
    var want, sectors0 := Splice(old0, p, src), RecordAt(disk0, g, f).sectors;
    assert src[..|src|] == src;
    GoodFile(disk0, used0, g, files, f);
    FirstFlush(disk0, disk, disk1, g, layout, sectors0, f, used0, w, n, want);
    OwnSectors(layout, f, w.slots, used0, w.used, g);
    if |old0| < p + |src| {
      SecondFlush(disk0, disk1, g, f, w.slots, w.sectors, want, r, n);
    } else {
      SameSlots(layout, f, w.slots, used0, w.used, g, n);
      NoSecondFlush(disk0, disk1, g, f, w.slots, w.sectors, want);
      DoneGives(disk0, disk1, g, w.slots, w.sectors, want);
      SectorsShow(disk0, disk, w.slots, sectors0, w.sectors, w.table, w.loaded);
    }
    Finished(disk0, disk2, g, files, f, w.slots, used0, w.used, want);
  }

  lemma OtherRecordsStay(disk0: Disk, disk: Disk, g: Geometry, f: nat, slots: seq<nat>, j: nat)
    requires |slots| == MAX_SECTORS + 1 && OnlyFile(disk0, disk, g, f, slots) && j != f && j < 4096
    ensures RecordAt(disk, g, j) == RecordAt(disk0, g, j)
  {
    hide RecordAt;
  }

  lemma DoneGives(disk0: Disk, disk1: Disk, g: Geometry, slots: seq<nat>, sectors: seq<nat>, want: seq<Byte>)
    requires TableDone(disk0, disk1, g, slots, sectors, want)
    ensures |sectors| == 13 && SlotsOf(disk1, sectors) == slots && Reads(disk1, slots, want)
  {
  }

  // The inode's array is determined by the slots.
  lemma SectorsShow(disk0: Disk, disk: Disk, slots: seq<nat>, sectors0: seq<nat>, sectors: seq<nat>, table: seq<nat>,
                    loaded: bool)
    requires |sectors0| == 13 && SlotsOf(disk0, sectors0) == slots && Views(slots, sectors, table, loaded, disk)
    ensures sectors == sectors0
  {
    hide TableOf;
    forall k | 0 <= k < 13
      ensures sectors[k] == sectors0[k]
    {
      if k < 12 {
        assert slots[k] == sectors[k];
      } else {
        assert slots[MAX_SECTORS] == sectors0[12];
      }
    }
  }
}
