/** fs/file.c and fs/inode.c on one partition: block allocation, inode_sync, inode_open, file_write, file_read. */
module FsFiles {
  import Maps = Bitmap
  import opened FsLayout
  import opened FsWriting
  import opened FsFlush
  import opened FsBytes

  class Inode {
    const no: nat
    var mode: seq<Byte>
    var flags: nat
    var size: nat
    var sectors: seq<nat>
    var count: nat

    constructor (no: nat, r: Record)
      ensures this.no == no && mode == r.mode && flags == r.flags && size == r.size && sectors == r.sectors
          && count == 1
    {
      this.no := no;
      mode, flags, size, sectors, count := r.mode, r.flags, r.size, r.sectors, 1;
    }
  }

  class Partition {
    const g: Geometry
    const blockMap: Maps.Bitmap
    var disk: Disk
    var open: seq<Inode>
    ghost var files: set<nat>

    // ---------- state ----------

    ghost function Used(): seq<bool>
      reads blockMap, blockMap.bits
      requires blockMap.Valid()
    {
      blockMap.Contents()
    }

    // The block bitmap covers the data area, its spare bits are set, and its copy on disk is up to date.
    ghost predicate MapOk(): (ok: bool)
      reads this`disk, blockMap, blockMap.bits
      ensures ok ==> blockMap.Valid() && GeometryOk(g)
    {
      && GeometryOk(g) && blockMap.Valid() && blockMap.byteSize % SECTOR == 0
      && g.blocks <= |Used()| && (forall b | g.blocks <= b < |Used()| :: Used()[b])
      && g.blockMap + blockMap.byteSize / SECTOR <= g.inodeTable
      && Synced(disk, g.blockMap, blockMap.bits[..blockMap.byteSize])
    }

    ghost predicate Cached(i: Inode)
      reads this`disk, i
    {
      var r := RecordAt(disk, g, i.no);
      i.mode == r.mode && i.flags == r.flags && i.size == r.size && i.sectors == r.sectors
    }

    // Every open inode is a true copy of its record, and no inode is open twice.
    ghost predicate OpenOk()
      reads this, open
    {
      && (forall x | 0 <= x < |open| :: open[x].no in files && Cached(open[x]))
      && (forall x, y | 0 <= x < y < |open| :: open[x].no != open[y].no)
    }

    ghost predicate Valid()
      reads this, open, blockMap, blockMap.bits
    {
      MapOk() && Good(disk, Used(), g, files) && OpenOk()
    }

    ghost function FileContent(i: nat): seq<Byte>
      reads this`disk
    {
      ContentOf(disk, g, i)
    }

    // A mounted partition with nothing open yet.
    constructor (g: Geometry, blockMap: Maps.Bitmap, disk: Disk, ghost files: set<nat>)
      requires GeometryOk(g) && blockMap.Valid() && blockMap.byteSize % SECTOR == 0
      requires g.blocks <= |blockMap.Contents()|
          && forall b | g.blocks <= b < |blockMap.Contents()| :: blockMap.Contents()[b]
      requires g.blockMap + blockMap.byteSize / SECTOR <= g.inodeTable
      requires Synced(disk, g.blockMap, blockMap.bits[..blockMap.byteSize])
      requires Good(disk, blockMap.Contents(), g, files)
      ensures Valid() && open == [] && this.blockMap == blockMap && this.g == g && this.disk == disk
          && this.files == files
    {
      this.g, this.blockMap, this.disk, this.files, open := g, blockMap, disk, files, [];
    }

    // ---------- inode.c ----------

    // bitmap_sync after bit idx has changed
    method BitmapSync(idx: nat)
      requires idx < 8 * blockMap.byteSize && blockMap.Valid() && blockMap.byteSize % SECTOR == 0
      modifies this`disk
      ensures var bytes := blockMap.bits[..blockMap.byteSize];
              disk == old(disk)[g.blockMap + idx / 4096 := bytes[idx / 4096 * SECTOR..idx / 4096 * SECTOR + SECTOR]]
    {
      var startSec := g.blockMap + idx / 4096;
      var start := (idx - idx % 4096) / 8;
      assert start == idx / 4096 * SECTOR;
      var bytes := blockMap.bits[..blockMap.byteSize];
      disk := disk[startSec := bytes[start..start + SECTOR]];
    }

    // block_bimap_alloc; ok is false where the kernel panics.
    method BlockAlloc() returns (ok: bool, l: nat)
      requires MapOk()
      modifies this`disk, blockMap.bits
      ensures MapOk() && (ok <==> false in old(Used()))
      ensures ok ==> g.dataStart <= l < g.dataStart + g.blocks && !old(Used())[l - g.dataStart]
      ensures ok ==> forall b | 0 <= b < l - g.dataStart :: old(Used())[b]
      ensures Used() == if ok then old(Used())[l - g.dataStart := true] else old(Used())
      ensures forall m | m >= g.inodeTable :: Sec(disk, m) == Sec(old(disk), m)
    {
      hide Synced, Maps.BitsOf;
      var idx;
      ghost var used, bytes := Used(), blockMap.bits[..blockMap.byteSize];
      ok, idx := blockMap.ScanSet([0, 0, 0]);
      if ok {
        assert idx < g.blocks;
        BitmapSync(idx);
        ghost var s, bytes' := idx / 4096, blockMap.bits[..blockMap.byteSize];
        assert s == idx / 8 / SECTOR;
        SyncedAfter(old(disk), g.blockMap, bytes, bytes', idx / 8);
      } else {
        assert blockMap.bits[..blockMap.byteSize] == bytes;
      }
      l := g.dataStart + idx;
    }

    // ide_read of a sector, memcpy into it, ide_write
    method PutSector(l: nat, at: nat, b: seq<Byte>)
      requires MapOk() && l >= g.inodeTable && at + |b| <= SECTOR
      modifies this`disk
      ensures MapOk() && disk == old(disk)[l := Over(Sec(old(disk), l), at, b)]
    {
      hide Synced, Over, Maps.BitsOf;
      SyncedFrame(disk, g.blockMap, blockMap.bits[..blockMap.byteSize], l, Over(Sec(disk, l), at, b));
      disk := disk[l := Over(Sec(disk, l), at, b)];
    }

    // get_inode_pos
    method InodePos(no: nat) returns (twoSec: bool, secNo: nat, offset: nat)
      ensures secNo == RecordSector(g, no) && offset == RecordOffset(no) && !twoSec
      ensures SECTOR * secNo + offset == SECTOR * g.inodeTable + 64 * no && offset + 64 <= SECTOR
    {
      RecordsDoNotStraddle(no);
      secNo := g.inodeTable + no * 64 / SECTOR;
      offset := no * 64 % SECTOR;
      twoSec := SECTOR - offset < 64;
    }

    // pad: the two bytes of the record that inode_sync leaves uninitialised
    method InodeSync(i: Inode, pad: seq<Byte>)
      requires MapOk() && RecordOk(Record(pad, i.mode, i.size, i.flags, i.sectors))
      modifies this`disk
      ensures MapOk()
      ensures disk == WriteRecord(old(disk), g, i.no, PutRecord(Record(pad, i.mode, i.size, i.flags, i.sectors)))
      ensures forall k: nat | !(RecordStart(g, i.no) <= k < RecordStart(g, i.no) + 64) ::
                DiskByte(disk, k) == DiskByte(old(disk), k)
      ensures RecordShows(disk, i)
    {
      hide MapOk, Over, PutWords, RecordShows, DiskByte;
      SyncShows(disk, i, pad);
      var twoSec, secNo, offset := InodePos(i.no);
      RecordsDoNotStraddle(i.no);
      var di := pad + i.mode + Put32(i.size) + Put32(i.flags) + PutWords(i.sectors);
      PutSector(secNo, offset, di);
    }

    // The 64 bytes of the inode's record, read off the disk, are its fields.
    ghost predicate RecordShows(disk: Disk, i: Inode)
      reads i
    {
      var at := SECTOR * g.inodeTable + 64 * i.no;
      && i.mode == [DiskByte(disk, at + 2), DiskByte(disk, at + 3)]
      && i.size == WordAt(disk, at + 4) && i.flags == WordAt(disk, at + 8)
      && i.sectors == seq(13, k requires 0 <= k < 13 => WordAt(disk, at + 12 + 4 * k))
    }

    lemma SyncShows(disk: Disk, i: Inode, pad: seq<Byte>)
      requires RecordOk(Record(pad, i.mode, i.size, i.flags, i.sectors))
      ensures var disk' := WriteRecord(disk, g, i.no, PutRecord(Record(pad, i.mode, i.size, i.flags, i.sectors)));
              && RecordShows(disk', i)
              && forall k: nat | !(RecordStart(g, i.no) <= k < RecordStart(g, i.no) + 64) ::
                   DiskByte(disk', k) == DiskByte(disk, k)
    {
      hide RecordAt, DiskByte, WordAt, PutRecord, WriteRecord, RecordStart;
      var r := Record(pad, i.mode, i.size, i.flags, i.sectors);
      var disk' := WriteRecord(disk, g, i.no, PutRecord(r));
      RecordWritten(disk, g, i.no, r);
      FieldsShow(disk', i);
      forall k: nat | !(RecordStart(g, i.no) <= k < RecordStart(g, i.no) + 64)
        ensures DiskByte(disk', k) == DiskByte(disk, k)
      {
        RecordWrittenBytes(disk, g, i.no, PutRecord(r), k);
      }
    }

    lemma FieldsShow(disk: Disk, i: Inode)
      requires var r := RecordAt(disk, g, i.no);
               i.mode == r.mode && i.flags == r.flags && i.size == r.size && i.sectors == r.sectors
      ensures RecordShows(disk, i)
    {
      hide RecordAt, DiskByte, WordAt;
      RecordFields(disk, g, i.no);
    }

    lemma CachedShows(i: Inode)
      requires Cached(i)
      ensures RecordShows(disk, i)
    {
      hide RecordAt, RecordShows;
      FieldsShow(disk, i);
    }

    // inode_open of an allocated inode: the open one if there is one, else a new copy of the record.
    method InodeOpen(no: nat) returns (i: Inode)
      requires Valid() && no in files
      modifies this`open, open`count
      ensures Valid() && i.no == no && i in open
          && (old(exists x :: 0 <= x < |open| && open[x].no == no) ==> open == old(open))
      ensures open == old(open) || (fresh(i) && open == [i] + old(open))
      ensures RecordShows(disk, i)
      ensures i.count == if i in old(open) then old(i.count) + 1 else 1
      ensures unchanged(this`disk, this`files)
    {
      hide Good, MapOk, GetRecord, RecordShows;
      var x := 0;
      while x < |open|
        invariant 0 <= x <= |open|
        invariant forall y | 0 <= y < x :: open[y].no != no
      {
        i := open[x];
        if i.no == no {
          i.count := i.count + 1;
          CachedShows(i);
          return;
        }
        x := x + 1;
      }
      var twoSec, secNo, offset := InodePos(no);
      RecordsDoNotStraddle(no);
      var buf := Sec(disk, secNo);
      i := new Inode(no, GetRecord(buf[offset..offset + 64]));
      open := [i] + open;
      CachedShows(i);
    }

    // ---------- file.c ----------

    // The first half of the loop body of file_write for sector 12: the indirect table into the buffer.
    method LoadTable(i: Inode, table: seq<nat>, sync: bool, ghost layout: Layout, ghost slots: seq<nat>,
                     ghost used0: seq<bool>)
      returns (ok: bool, table': seq<nat>, sync': bool, ghost slots': seq<nat>)
      requires MapOk() && Extends(layout, i.no, slots, used0, Used(), g) && Views(slots, i.sectors, table, false, disk)
      modifies this`disk, i`sectors, blockMap.bits
      ensures MapOk() && unchanged(this`files, this`open)
      ensures forall m | m >= g.inodeTable :: Sec(disk, m) == Sec(old(disk), m)
      ensures !ok ==> slots[MAX_SECTORS] == 0 && Clear(old(Used())) == 0
      ensures ok ==> Extends(layout, i.no, slots', used0, Used(), g) && Views(slots', i.sectors, table', true, disk)
      ensures ok ==> forall k | 0 <= k < MAX_SECTORS :: slots'[k] == slots[k]
      ensures ok ==> slots'[MAX_SECTORS] != 0 && (slots[MAX_SECTORS] != 0 ==> slots' == slots)
      ensures ok ==> sync' == (sync || slots[MAX_SECTORS] == 0)
      ensures ok ==> Clear(Used()) + (if slots[MAX_SECTORS] == 0 then 1 else 0) == Clear(old(Used()))
    {
      hide Extends, TableOf, MapOk, Views, EmptyTable, Clear, Maps.BitsOf;
      table', sync', slots' := table, sync, slots;
      if i.sectors[12] == 0 {
        var l;
        ghost var used := Used();
        ok, l := BlockAlloc();
        if !ok {
          NoneClear(used);
          return;
        }
        i.sectors := i.sectors[12 := l];
        table' := EmptyTable();
        sync' := true;
        slots' := slots[MAX_SECTORS := l];
        NewTable(slots, old(i.sectors), table, old(disk), disk, l);
        TakeClear(used, l - g.dataStart);
        ExtendsGrown(layout, i.no, slots, used0, used, g, MAX_SECTORS, l - g.dataStart);
      } else {
        ok := true;
        table' := TableOf(disk, i.sectors[12]);
        OldTable(slots, i.sectors, table, disk);
      }
    }

    // The first half of the loop body of file_write: a block for sector sec, allocated if need be. n: how
    // many sectors the file has by now.
    method FindBlock(i: Inode, sec: nat, table: seq<nat>, sync: bool, ghost layout: Layout, ghost slots: seq<nat>,
                     ghost used0: seq<bool>, ghost n: nat)
      returns (ok: bool, lba: nat, table': seq<nat>, sync': bool, ghost slots': seq<nat>)
      requires MapOk() && Extends(layout, i.no, slots, used0, Used(), g)
          && Views(slots, i.sectors, table, sec > DIRECT, disk)
      requires sec < MAX_SECTORS && sec <= n && Holds(slots, n)
      modifies this`disk, i`sectors, blockMap.bits
      ensures MapOk() && unchanged(this`files, this`open)
      ensures forall m | m >= g.inodeTable :: Sec(disk, m) == Sec(old(disk), m)
      ensures !ok ==> Clear(old(Used())) < Cost(Max(n, sec + 1)) - Cost(n)
      ensures ok ==> Extends(layout, i.no, slots', used0, Used(), g)
      ensures ok ==> Views(slots', i.sectors, table', sec >= DIRECT, disk)
      ensures ok ==> Holds(slots', Max(n, sec + 1)) && lba == slots'[sec]
      ensures ok ==> forall k | 0 <= k <= MAX_SECTORS && slots[k] != 0 :: slots'[k] == slots[k]
      ensures ok ==> Clear(Used()) + Cost(Max(n, sec + 1)) == Clear(old(Used())) + Cost(n)
      ensures ok && sync ==> sync'
      ensures ok && !sync' ==> forall k | DIRECT <= k <= MAX_SECTORS :: slots'[k] == slots[k]
      ensures ok && sync' ==> sync || sec >= DIRECT
    {
      hide Extends, TableOf, MapOk, Views, Clear, Maps.BitsOf;
      ok, lba, table', sync', slots' := true, 0, table, sync, slots;
      if sec == DIRECT {
        ok, table', sync', slots' := LoadTable(i, table, sync, layout, slots, used0);
        if !ok {
          return;
        }
      }
      var next := if sec < DIRECT then i.sectors[sec] else table'[sec - DIRECT];
      ViewsAt(slots', i.sectors, table', disk, sec);
      if next == 0 {
        sync' := sync' || sec > DIRECT;
        var l;
        ghost var used, slots1, sectors1, disk1 := Used(), slots', i.sectors, disk;
        ok, l := BlockAlloc();
        if !ok {
          NoneClear(used);
          return;
        }
        slots' := slots1[sec := l];
        OwnSectors(layout, i.no, slots1, used0, used, g);
        ViewsGrown(slots1, sectors1, table', disk1, disk, g, sec, l);
        TakeClear(used, l - g.dataStart);
        ExtendsGrown(layout, i.no, slots1, used0, used, g, sec, l - g.dataStart);
        HoldsGrown(slots, slots', n);
        if sec < DIRECT {
          i.sectors := i.sectors[sec := l];
        } else {
          table' := table'[sec - DIRECT := l];
        }
        next := l;
      }
      lba := next;
    }

    // One round of the loop of file_write: c bytes into sector sec.
    method WriteSector(i: Inode, src: seq<Byte>, sec: nat, at: nat, c: nat, table: seq<nat>, sync: bool,
                       ghost disk0: Disk,
                       ghost layout: Layout, ghost slots: seq<nat>, ghost used0: seq<bool>, ghost n: nat,
                       ghost old0: seq<Byte>, ghost p: nat, done: nat)
      returns (ok: bool, table': seq<nat>, sync': bool, ghost slots': seq<nat>)
      requires MapOk() && Ongoing(disk0, disk, layout, i.no, slots, used0, Used(), g, n, old0, p, src, done)
      requires Views(slots, i.sectors, table, sec > DIRECT, disk)
      requires sec < MAX_SECTORS && sec <= n && Max(|old0|, p + done) <= n * SECTOR
      requires sec * SECTOR + at == p + done && at + c <= SECTOR && done + c <= |src| && p + |src| <= MAX_FILE_SIZE
      modifies this`disk, i`sectors, blockMap.bits
      ensures MapOk() && unchanged(this`files, this`open)
      ensures !ok ==> Clear(old(Used())) < Cost(Max(n, sec + 1)) - Cost(n)
      ensures ok ==> Ongoing(disk0, disk, layout, i.no, slots', used0, Used(), g, Max(n, sec + 1), old0, p, src,
          done + c)
      ensures ok ==> Views(slots', i.sectors, table', sec >= DIRECT, disk)
      ensures ok && sync ==> sync'
      ensures ok && !sync' ==> forall k | DIRECT <= k <= MAX_SECTORS :: slots'[k] == slots[k]
      ensures ok && sync' ==> sync || sec >= DIRECT
    {
      hide Ongoing, Views, MapOk, Extends, Holds, Clear, Maps.BitsOf, TableOf, Over;
      ghost var disk1, used := disk, Used();
      var lba;
      ok, lba, table', sync', slots' := FindBlock(i, sec, table, sync, layout, slots, used0, n);
      if ok {
        BlockFound(disk0, disk1, disk, layout, i.no, slots, slots', used0, used, Used(), g, n, Max(n, sec + 1), old0,
                   p, src, done);
        DataSector(layout, i.no, slots', used0, Used(), g, Max(n, sec + 1), sec);
        ghost var disk2 := disk;
        PutSector(lba, at, src[done..done + c]);
        SectorPut(disk0, disk2, layout, i.no, slots', used0, Used(), g, Max(n, sec + 1), old0, p, src, done, c, sec,
                  at);
        ViewsFrame(slots', i.sectors, table', sec >= DIRECT, disk2, lba, disk[lba]);
      }
    }

    // The loop of file_write.
    method WriteSectors(i: Inode, src: seq<Byte>, p: nat, ghost layout: Layout, ghost old0: seq<Byte>)
      returns (ok: bool, table: seq<nat>, sync: bool, ghost slots: seq<nat>, ghost n: nat, ghost loaded: bool)
      requires MapOk() && i.no in layout && |i.sectors| == 13 && layout[i.no] == SlotsOf(disk, i.sectors)
      requires Ongoing(disk, disk, layout, i.no, layout[i.no], Used(), Used(), g, Sectors(|old0|), old0, p, src, 0)
      requires i.size == |old0| && p <= i.size && p + |src| <= MAX_FILE_SIZE
      modifies this`disk, i`sectors, blockMap.bits
      ensures MapOk() && unchanged(this`files, this`open)
      ensures ok <==> Clear(old(Used())) + Cost(Sectors(i.size)) >= Cost(Sectors(Max(i.size, p + |src|)))
      ensures ok ==> n == Sectors(Max(i.size, p + |src|))
      ensures ok ==> Ongoing(old(disk), disk, layout, i.no, slots, old(Used()), Used(), g, n, old0, p, src, |src|)
      ensures ok ==> Views(slots, i.sectors, table, loaded, disk)
      ensures ok && !sync ==> forall k | DIRECT <= k <= MAX_SECTORS :: slots[k] == layout[i.no][k]
      ensures ok && sync ==> loaded && n > DIRECT
    {
      hide Ongoing, Views, MapOk, Extends, Holds, Clear, Maps.BitsOf, TableOf, SlotsOf, Over, Cost, Sectors;
      ghost var disk0, used0, n0 := disk, Used(), Sectors(i.size);
      SectorsCover(i.size);
      slots, n := layout[i.no], n0;
      var count: nat, done: nat, sec: nat, offset: nat := |src|, 0, p / SECTOR, p % SECTOR;
      table, sync := EmptyTable(), false;
      if sec > DIRECT {
        table := TableOf(disk, i.sectors[12]);
      }
      ViewsStart(disk, i.sectors, table, sec > DIRECT);
      while count > 0 && sec < MAX_SECTORS
        invariant MapOk() && unchanged(this`files, this`open)
        invariant count + done == |src| && offset < SECTOR && (offset > 0 ==> done == 0)
        invariant if count > 0 then sec * SECTOR + offset == p + done
                  else p + done <= sec * SECTOR + offset < p + done + SECTOR
        invariant n == Max(n0, sec)
        invariant Ongoing(disk0, disk, layout, i.no, slots, used0, Used(), g, n, old0, p, src, done)
        invariant Views(slots, i.sectors, table, sec > DIRECT, disk)
        invariant !sync ==> forall k | DIRECT <= k <= MAX_SECTORS :: slots[k] == layout[i.no][k]
        invariant sync ==> sec > DIRECT
      {
        var c := if count < SECTOR - offset then count else SECTOR - offset;
        OneMoreSector(sec, p + |src|);
        SectorsGrow(i.size, Max(i.size, p + |src|));
        SectorsGrow(p + |src|, Max(i.size, p + |src|));
        CostMonotone(Max(n, sec + 1), Sectors(Max(i.size, p + |src|)));
        ok, table, sync, slots :=
          WriteSector(i, src, sec, offset, c, table, sync, disk0, layout, slots, used0, n, old0, p, done);
        if !ok {
          loaded := false;
          return;
        }
        n := Max(n, sec + 1);
        count := count - c;
        done := done + c;
        offset := 0;
        sec := sec + 1;
      }
      assert count == 0;
      EndsAt(i.size, p, p + |src|, sec, offset);
      ok, loaded := true, sec > DIRECT;
    }

    // file_write on a regular file. ok is false where block_bimap_alloc panics for want of a clear block.
    method FileWrite(i: Inode, src: seq<Byte>, pos: nat, pad: seq<Byte>) returns (ok: bool, newPos: nat)
      requires Valid() && i in open && pos <= i.size && pos + |src| <= MAX_FILE_SIZE && |pad| == 2
      modifies this`disk, i`size, i`sectors, blockMap.bits
      ensures ok <==> old(Clear(Used()) + Cost(Sectors(i.size))) >= Cost(Sectors(Max(old(i.size), pos + |src|)))
      ensures ok ==> Valid() && unchanged(this`files, this`open) && newPos == pos + |src|
      ensures ok ==> FileContent(i.no) == Splice(old(FileContent(i.no)), pos, src)
      ensures ok ==> forall j | j in files && j != i.no :: FileContent(j) == old(FileContent(j))
      ensures ok ==> forall l | InUse(l, old(Used()), g) && l !in old(LayoutOf(disk, g, files)[i.no]) ::
                Sec(disk, l) == Sec(old(disk), l)
    {
      hide MapOk, Good, FileOk, RecordAt, Extends, InUse, Ongoing, Views, OnlyFile, Owned, Content, Clear;
      hide Maps.BitsOf, LayoutOf, SlotsOf, PutWords, PutRecord, RecordShows, DiskByte, RecordStart;
      ghost var disk0, used0, layout := disk, Used(), LayoutOf(disk, g, files);
      GoodFile(disk, used0, g, files, i.no);
      ghost var old0 := ContentOf(disk, g, i.no);
      StartsOngoing(disk, g, files, i.no, used0, pos, src);
      var table, sync;
      ghost var slots, n, loaded;
      ok, table, sync, slots, n, loaded := WriteSectors(i, src, pos, layout, old0);
      newPos := pos + |src|;
      if !ok {
        return;
      }
      TableFits(layout, i.no, slots, used0, Used(), g, i.sectors, table, disk, loaded);
      var grew := i.size < pos + |src|;
      if grew {
        i.size := pos + |src|;
      }
      ghost var disk1 := disk;
      if sync {
        OverAll(Sec(disk, i.sectors[12]), PutWords(table));
        PutSector(i.sectors[12], 0, PutWords(table));
      }
      ghost var disk2 := disk;
      if grew {
        InodeSync(i, pad);
      }
      WriteDone(disk0, disk1, disk2, disk, g, files, i.no, layout, old0, used0,
                Writing(slots, Used(), i.sectors, table, loaded, sync), n, pos, src,
                Record(pad, i.mode, i.size, i.flags, i.sectors));
      forall x | 0 <= x < |open|
        ensures Cached(open[x])
      {
        GoodFile(disk0, used0, g, files, open[x].no);
        if open[x] != i {
          OtherRecordsStay(disk0, disk, g, i.no, slots, open[x].no);
        }
      }
      forall l | InUse(l, used0, g) && l !in layout[i.no]
        ensures Sec(disk, l) == Sec(disk0, l)
      {
        StrangersUntouched(disk0, disk, g, layout, i.no, slots, used0, Used(), l);
      }
    }

    // The if-chain of file_read: the sector number for sector sec, through the table buffer.
    method ReadSlot(i: Inode, sec: nat, table: seq<nat>, next: nat) returns (lba: nat, table': seq<nat>, next': nat)
      requires FileOk(disk, g, i.no) && Cached(i) && sec < MAX_SECTORS && sec * SECTOR < i.size
      requires |table| == TABLE && (sec <= DIRECT ==> next == 0)
      requires sec > DIRECT ==> table == TableOf(disk, i.sectors[12])
      ensures lba == SlotsOf(disk, i.sectors)[sec] && lba != 0
      ensures |table'| == TABLE && (sec < DIRECT ==> next' == 0)
      ensures sec >= DIRECT ==> table' == TableOf(disk, i.sectors[12])
    {
      hide FileOk, RecordAt, TableOf, SlotsOf;
      SlotAt(disk, g, i.no, sec);
      table', next' := table, next;
      if sec < DIRECT {
        table' := table'[next' := i.sectors[sec]];
      } else if sec == DIRECT {
        table' := TableOf(disk, i.sectors[12]);
        next' := 0;
      } else {
        next' := sec - DIRECT;
      }
      lba := table'[next'];
    }

    // The bytes one round of file_read copies.
    method ReadPart(i: Inode, sec: nat, offset: nat, c: nat, table: seq<nat>, next: nat)
        returns (part: seq<Byte>, table': seq<nat>, next': nat)
      requires FileOk(disk, g, i.no) && Cached(i) && sec < MAX_SECTORS && offset < SECTOR
      requires 0 < c && offset + c <= SECTOR && sec * SECTOR + offset + c <= i.size == |FileContent(i.no)|
      requires |table| == TABLE && (sec <= DIRECT ==> next == 0)
      requires sec > DIRECT ==> table == TableOf(disk, i.sectors[12])
      ensures part == FileContent(i.no)[sec * SECTOR + offset..sec * SECTOR + offset + c]
      ensures |table'| == TABLE && (sec < DIRECT ==> next' == 0)
      ensures sec >= DIRECT ==> table' == TableOf(disk, i.sectors[12])
    {
      hide FileOk, RecordAt, TableOf, SlotsOf, Content;
      ContentIs(disk, g, i.no);
      var lba;
      lba, table', next' := ReadSlot(i, sec, table, next);
      Chunk(disk, SlotsOf(disk, i.sectors), i.size, sec, offset, c);
      part := Sec(disk, lba)[offset..offset + c];
    }

    // file_read on a regular file
    method FileRead(i: Inode, wanted: nat, pos: nat) returns (dest: seq<Byte>, newPos: nat)
      requires FileOk(disk, g, i.no) && Cached(i) && pos <= i.size
      ensures dest == Piece(FileContent(i.no), pos, wanted) && newPos == pos + |dest|
      ensures |FileContent(i.no)| == i.size && newPos <= i.size && dest == FileContent(i.no)[pos..newPos]
      ensures |dest| <= wanted && (|dest| == wanted || newPos == i.size)
    {
      hide FileOk, RecordAt, TableOf, SlotsOf, Content;
      ContentIs(disk, g, i.no);
      ghost var content := FileContent(i.no);
      var count: nat, sec: nat, offset: nat := Min(i.size, pos + wanted) - pos, pos / SECTOR, pos % SECTOR;
      newPos := pos + count;
      dest := [];
      var table, next := EmptyTable(), 0;
      if sec > DIRECT {
        table := TableOf(disk, i.sectors[12]);
      }
      while count > 0 && sec < MAX_SECTORS
        invariant |dest| + count == newPos - pos && offset < SECTOR && |table| == TABLE
        invariant count > 0 ==> sec * SECTOR + offset == pos + |dest|
        invariant dest == content[pos..pos + |dest|]
        invariant sec <= DIRECT ==> next == 0
        invariant sec > DIRECT ==> table == TableOf(disk, i.sectors[12])
      {
        var c := Min(count, SECTOR - offset);
        var part;
        part, table, next := ReadPart(i, sec, offset, c, table, next);
        LongerPiece(content, pos, pos + |dest|, pos + |dest| + c);
        dest := dest + part;
        count := count - c;
        offset := 0;
        sec := sec + 1;
      }
      assert count == 0;
    }

    // What is written is what is read.
    method WriteThenRead(i: Inode, src: seq<Byte>, pos: nat, pad: seq<Byte>) returns (ok: bool, dest: seq<Byte>)
      requires Valid() && i in open && pos <= i.size && pos + |src| <= MAX_FILE_SIZE && |pad| == 2
      modifies this`disk, i`size, i`sectors, blockMap.bits
      ensures ok ==> dest == src
    {
      hide MapOk, Good, FileOk, RecordAt, Splice, Clear, ContentOf;
      GoodFile(disk, Used(), g, files, i.no);
      var newPos;
      ghost var old0 := FileContent(i.no);
      ok, newPos := FileWrite(i, src, pos, pad);
      dest := [];
      if ok {
        GoodFile(disk, Used(), g, files, i.no);
        SpliceReadsBack(old0, pos, src);
        dest, newPos := FileRead(i, |src|, pos);
      }
    }
  }
}
