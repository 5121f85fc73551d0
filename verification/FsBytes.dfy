/** The partition as one run of bytes: where on it an inode's record, its fields and each byte of a file lie. */
module FsBytes {
  import Bits
  import Maps = Bitmap
  import opened FsLayout
  import opened FsWriting
  import opened FsFlush

  function DiskByte(disk: Disk, at: nat): Byte {
    Sec(disk, at / SECTOR)[at % SECTOR]
  }

  function Bytes(disk: Disk, from: nat, n: nat): (b: seq<Byte>)
    ensures |b| == n
  {
    seq<Byte>(n, k requires 0 <= k < n => DiskByte(disk, from + k))
  }

  // A little-endian word
  function WordAt(disk: Disk, at: nat): nat {
    DiskByte(disk, at) + 0x100 * DiskByte(disk, at + 1) + 0x1_0000 * DiskByte(disk, at + 2)
    + 0x100_0000 * DiskByte(disk, at + 3)
  }

  lemma ByteOfSector(disk: Disk, l: nat, at: nat)
    requires at < SECTOR
    ensures DiskByte(disk, SECTOR * l + at) == Sec(disk, l)[at]
  {
    assert (SECTOR * l + at) / SECTOR == l && (SECTOR * l + at) % SECTOR == at;
  }

  lemma PartOfSector(disk: Disk, l: nat, at: nat, n: nat)
    requires at + n <= SECTOR
    ensures Bytes(disk, SECTOR * l + at, n) == Sec(disk, l)[at..at + n]
  {
    var b, part := Bytes(disk, SECTOR * l + at, n), Sec(disk, l)[at..at + n];
    forall k | 0 <= k < n
      ensures b[k] == part[k]
    {
      ByteOfSector(disk, l, at + k);
    }
  }

  lemma WordOfBytes(disk: Disk, from: nat, n: nat, at: nat)
    requires at + 4 <= n
    ensures Get32(Bytes(disk, from, n), at) == WordAt(disk, from + at)
  {
  }

  // ---------- inode records ----------

  // The record of inode no starts 64 * no bytes behind the start of the inode table.
  function RecordStart(g: Geometry, no: nat): nat {
    SECTOR * g.inodeTable + 64 * no
  }

  lemma RecordPlace(g: Geometry, no: nat)
    ensures SECTOR * RecordSector(g, no) + RecordOffset(no) == RecordStart(g, no)
    ensures RecordOffset(no) + 64 <= SECTOR
  {
    RecordsDoNotStraddle(no);
  }

  lemma RecordIsBytes(disk: Disk, g: Geometry, no: nat)
    ensures RecordAt(disk, g, no) == GetRecord(Bytes(disk, RecordStart(g, no), 64))
  {
    hide RecordSector, RecordOffset, GetRecord;
    RecordPlace(g, no);
    PartOfSector(disk, RecordSector(g, no), RecordOffset(no), 64);
  }

  // The 512 sectors of the inode table as one sequence
  function InodeTable(disk: Disk, g: Geometry): (t: seq<Byte>)
    ensures |t| == SECTOR * 512
  {
    Bytes(disk, SECTOR * g.inodeTable, SECTOR * 512)
  }

  // Inode no's record is bytes 64 * no to 64 * no + 64 of the inode table.
  lemma RecordIsPartOfTable(disk: Disk, g: Geometry, no: nat)
    requires no < 4096
    ensures RecordAt(disk, g, no) == GetRecord(InodeTable(disk, g)[64 * no..64 * no + 64])
  {
    hide RecordSector, RecordOffset, GetRecord;
    RecordIsBytes(disk, g, no);
    assert InodeTable(disk, g)[64 * no..64 * no + 64] == Bytes(disk, RecordStart(g, no), 64);
  }

  // Two bytes of padding, the mode, the size, the flags and 13 sector numbers, all of it little-endian.
  lemma RecordFields(disk: Disk, g: Geometry, no: nat)
    ensures var r, at := RecordAt(disk, g, no), RecordStart(g, no);
            && r.mode == [DiskByte(disk, at + 2), DiskByte(disk, at + 3)]
            && r.size == WordAt(disk, at + 4) && r.flags == WordAt(disk, at + 8)
            && forall k | 0 <= k < 13 :: r.sectors[k] == WordAt(disk, at + 12 + 4 * k)
  {
    hide DiskByte, RecordAt, Get32, WordAt;
    RecordIsBytes(disk, g, no);
    var at := RecordStart(g, no);
    var b := Bytes(disk, at, 64);
    WordOfBytes(disk, at, 64, 4);
    WordOfBytes(disk, at, 64, 8);
    forall k | 0 <= k < 13
      ensures GetRecord(b).sectors[k] == WordAt(disk, at + 12 + 4 * k)
    {
      WordOf(b, 12, 13, k);
      WordOfBytes(disk, at, 64, 12 + 4 * k);
    }
    assert b[2..4] == [b[2], b[3]];
  }

  lemma OverBytes(disk: Disk, l: nat, at: nat, b: seq<Byte>, k: nat)
    requires at + |b| <= SECTOR
    ensures DiskByte(disk[l := Over(Sec(disk, l), at, b)], k)
         == if SECTOR * l + at <= k < SECTOR * l + at + |b| then b[k - (SECTOR * l + at)] else DiskByte(disk, k)
  {
    var q := k / SECTOR;
    assert k == SECTOR * q + k % SECTOR;
    if q < l {
      assert k < SECTOR * (q + 1) <= SECTOR * l;
    } else if q > l {
      assert k >= SECTOR * q >= SECTOR * (l + 1);
    }
  }

  // Writing a record changes its 64 bytes and no other byte of the partition.
  lemma RecordWrittenBytes(disk: Disk, g: Geometry, no: nat, b: seq<Byte>, k: nat)
    requires |b| == 64
    ensures DiskByte(WriteRecord(disk, g, no, b), k)
         == if RecordStart(g, no) <= k < RecordStart(g, no) + 64 then b[k - RecordStart(g, no)] else DiskByte(disk, k)
  {
    hide RecordSector, RecordOffset, Over, DiskByte;
    RecordPlace(g, no);
    OverBytes(disk, RecordSector(g, no), RecordOffset(no), b, k);
  }

  lemma RecordWrittenInTable(disk: Disk, g: Geometry, no: nat, b: seq<Byte>)
    requires |b| == 64 && no < 4096
    ensures var t := InodeTable(disk, g);
            InodeTable(WriteRecord(disk, g, no, b), g) == t[..64 * no] + b + t[64 * no + 64..]
  {
    hide WriteRecord, DiskByte;
    var t, t' := InodeTable(disk, g), InodeTable(WriteRecord(disk, g, no, b), g);
    forall k | 0 <= k < |t|
      ensures t'[k] == (t[..64 * no] + b + t[64 * no + 64..])[k]
    {
      RecordWrittenBytes(disk, g, no, b, SECTOR * g.inodeTable + k);
    }
  }

  // ---------- the bytes of a file ----------

  // The number of file i's k-th sector: from its record, or from the sector the record's last number names.
  function SectorOf(disk: Disk, g: Geometry, i: nat, k: nat): nat {
    if k < 12 then WordAt(disk, RecordStart(g, i) + 12 + 4 * k)
    else WordAt(disk, SECTOR * WordAt(disk, RecordStart(g, i) + 60) + 4 * (k - 12))
  }

  lemma TableWord(disk: Disk, l: nat, k: nat)
    requires l != 0 && k < TABLE
    ensures TableOf(disk, l)[k] == WordAt(disk, SECTOR * l + 4 * k)
  {
    hide Get32, Sec, WordAt;
    WordOf(Sec(disk, l), 0, TABLE, k);
    PartOfSector(disk, l, 0, SECTOR);
    assert Bytes(disk, SECTOR * l, SECTOR) == Sec(disk, l);
    WordOfBytes(disk, SECTOR * l, SECTOR, 4 * k);
  }

  lemma SlotIsWord(disk: Disk, g: Geometry, i: nat, sec: nat)
    requires FileOk(disk, g, i) && sec < MAX_SECTORS && sec * SECTOR < RecordAt(disk, g, i).size
    ensures SlotsOf(disk, RecordAt(disk, g, i).sectors)[sec] == SectorOf(disk, g, i, sec)
  {
    hide DiskByte, RecordAt, TableOf, SlotsOf, FileOk, WordAt, RecordStart;
    var r := RecordAt(disk, g, i);
    RecordFields(disk, g, i);
    SlotAt(disk, g, i, sec);
    if sec >= DIRECT {
      TableThere(disk, g, i, sec);
      TableWord(disk, r.sectors[12], sec - DIRECT);
    }
  }

  lemma TableThere(disk: Disk, g: Geometry, i: nat, sec: nat)
    requires FileOk(disk, g, i) && DIRECT <= sec < MAX_SECTORS && sec * SECTOR < RecordAt(disk, g, i).size
    ensures RecordAt(disk, g, i).sectors[12] != 0
  {
    hide RecordAt, TableOf, Holds, Sectors;
    HoldsMeans(SlotsOf(disk, RecordAt(disk, g, i).sectors), RecordAt(disk, g, i).size, sec);
  }

  // A file in order is as long as its record says, and its byte q is byte q % 512 of its sector q / 512.
  lemma FileByte(disk: Disk, g: Geometry, i: nat, q: nat)
    requires FileOk(disk, g, i) && q < |ContentOf(disk, g, i)|
    ensures |ContentOf(disk, g, i)| == WordAt(disk, RecordStart(g, i) + 4)
    ensures ContentOf(disk, g, i)[q] == DiskByte(disk, SECTOR * SectorOf(disk, g, i, q / SECTOR) + q % SECTOR)
  {
    hide DiskByte, RecordAt, TableOf, SlotsOf, FileOk, Content, ContentOf, Sec, WordAt, SectorOf;
    var r := RecordAt(disk, g, i);
    RecordFields(disk, g, i);
    ContentIs(disk, g, i);
    ContentAt(disk, SlotsOf(disk, r.sectors), r.size, q);
    SlotIsWord(disk, g, i, q / SECTOR);
    ByteOfSector(disk, SlotsOf(disk, r.sectors)[q / SECTOR], q % SECTOR);
  }

  lemma ContentAt(disk: Disk, slots: seq<nat>, size: nat, q: nat)
    requires |slots| == MAX_SECTORS + 1 && q < size <= MAX_FILE_SIZE
    ensures q / SECTOR < MAX_SECTORS
    ensures Content(disk, slots, size)[q] == Sec(disk, slots[q / SECTOR])[q % SECTOR]
  {
  }

  // ---------- the block bitmap ----------

  // The bitmap's bytes stand on disk one after the other.
  lemma SyncedBytes(disk: Disk, base: nat, bytes: seq<Byte>, k: nat)
    requires Synced(disk, base, bytes) && |bytes| % SECTOR == 0 && k < |bytes|
    ensures DiskByte(disk, SECTOR * base + k) == bytes[k]
  {
    hide DiskByte, Sec;
    var s := k / SECTOR;
    SyncedSector(disk, base, bytes, s);
    ByteOfSector(disk, base + s, k % SECTOR);
  }

  lemma SyncedSector(disk: Disk, base: nat, bytes: seq<Byte>, s: nat)
    requires Synced(disk, base, bytes) && s < |bytes| / SECTOR
    ensures Sec(disk, base + s) == bytes[SECTOR * s..SECTOR * s + SECTOR]
  {
  }

  // Block b of the data area is marked on disk by bit b % 8 of byte b / 8 of the bitmap's sectors.
  lemma SyncedBits(disk: Disk, base: nat, bytes: seq<Byte>, b: nat)
    requires Synced(disk, base, bytes) && |bytes| % SECTOR == 0 && b < 8 * |bytes|
    ensures Maps.BitsOf(bytes)[b] <==> Bits.TestBit(DiskByte(disk, SECTOR * base + b / 8), b % 8)
  {
    hide DiskByte;
    SyncedBytes(disk, base, bytes, b / 8);
  }
}
