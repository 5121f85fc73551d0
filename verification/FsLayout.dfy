/** What the sectors of a partition mean: inode records, indirect tables, and which file owns which sector. */
module FsLayout {
  import Maps = Bitmap

  type Byte = Maps.Byte
  type Disk = map<nat, seq<Byte>>

  const SECTOR := 512
  const DIRECT := 12
  const TABLE := 128
  const MAX_SECTORS := 140      // 12 direct and 128 in the indirect table
  const MAX_FILE_SIZE := 71680
  const WORDS := 0x1_0000_0000

  // blocks sectors of data from dataStart on; the block bitmap and the inode table lie below.
  datatype Geometry = Geometry(blockMap: nat, inodeTable: nat, dataStart: nat, blocks: nat)

  // ---------- little-endian words ----------

  function Put32(v: nat): (b: seq<Byte>)
    requires v < WORDS
    ensures |b| == 4
  {
    [v % 0x100, v / 0x100 % 0x100, v / 0x1_0000 % 0x100, v / 0x100_0000]
  }

  function Get32(b: seq<Byte>, at: nat): (v: nat)
    requires at + 4 <= |b|
    ensures v < WORDS
  {
    Maps.FromBytes(b[at], b[at + 1], b[at + 2], b[at + 3])
  }

  function PutWords(ws: seq<nat>): (b: seq<Byte>)
    requires forall k | 0 <= k < |ws| :: ws[k] < WORDS
    ensures |b| == 4 * |ws|
  {
    if ws == [] then [] else Put32(ws[0]) + PutWords(ws[1..])
  }

  function GetWords(b: seq<Byte>, at: nat, n: nat): (ws: seq<nat>)
    requires at + 4 * n <= |b|
    ensures |ws| == n && forall k | 0 <= k < n :: ws[k] < WORDS
  {
    seq(n, k requires 0 <= k < n => Get32(b, at + 4 * k))
  }

  lemma PutGet32(v: nat)
    requires v < WORDS
    ensures Get32(Put32(v), 0) == v
  {
    var q1, q2, q3 := v / 0x100, v / 0x1_0000, v / 0x100_0000;
    assert q2 == q1 / 0x100 && q3 == q2 / 0x100;
  }

  lemma Get32In(pre: seq<Byte>, b: seq<Byte>, post: seq<Byte>, at: nat)
    requires at + 4 <= |b|
    ensures Get32(pre + b + post, |pre| + at) == Get32(b, at)
  {
    var s := pre + b + post;
    assert s[|pre| + at] == b[at] && s[|pre| + at + 1] == b[at + 1];
    assert s[|pre| + at + 2] == b[at + 2] && s[|pre| + at + 3] == b[at + 3];
  }

  lemma {:induction false} PutGetWord(ws: seq<nat>, k: nat)
    requires k < |ws| && forall j | 0 <= j < |ws| :: ws[j] < WORDS
    ensures Get32(PutWords(ws), 4 * k) == ws[k]
  {
    hide Get32, Put32;
    if k == 0 {
      PutGet32(ws[0]);
      Get32In([], Put32(ws[0]), PutWords(ws[1..]), 0);
      assert [] + Put32(ws[0]) + PutWords(ws[1..]) == PutWords(ws);
    } else {
      PutGetWord(ws[1..], k - 1);
      Get32In(Put32(ws[0]), PutWords(ws[1..]), [], 4 * (k - 1));
      assert Put32(ws[0]) + PutWords(ws[1..]) + [] == PutWords(ws);
    }
  }

  lemma WordOf(b: seq<Byte>, at: nat, n: nat, k: nat)
    requires at + 4 * n <= |b| && k < n
    ensures GetWords(b, at, n)[k] == Get32(b, at + 4 * k)
  {
  }

  // Tables of sector numbers survive the trip to disk and back.
  lemma PutGetWords(pre: seq<Byte>, ws: seq<nat>, post: seq<Byte>)
    requires forall j | 0 <= j < |ws| :: ws[j] < WORDS
    ensures GetWords(pre + PutWords(ws) + post, |pre|, |ws|) == ws
  {
    hide Get32, PutWords, GetWords;
    var b := pre + PutWords(ws) + post;
    var got := GetWords(b, |pre|, |ws|);
    forall k | 0 <= k < |ws|
      ensures got[k] == ws[k]
    {
      WordOf(b, |pre|, |ws|, k);
      PutGetWord(ws, k);
      Get32In(pre, PutWords(ws), post, 4 * k);
    }
  }

  // ---------- sectors ----------

  function Zeros(n: nat): (b: seq<Byte>)
    ensures |b| == n
  {
    seq(n, k => 0)
  }

  // ide_read of one sector
  function Sec(disk: Disk, l: nat): (b: seq<Byte>)
    ensures |b| == SECTOR
  {
    if l in disk && |disk[l]| == SECTOR then disk[l] else Zeros(SECTOR)
  }

  // memcpy of b over a part of s
  function Over(s: seq<Byte>, at: nat, b: seq<Byte>): (r: seq<Byte>)
    requires at + |b| <= |s|
    ensures |r| == |s|
  {
    s[..at] + b + s[at + |b|..]
  }

  ghost predicate GeometryOk(g: Geometry) {
    0 < g.inodeTable && g.inodeTable + SECTOR <= g.dataStart && g.dataStart + g.blocks <= WORDS
  }

  // ---------- inode records ----------

  // pad, i_mode, i_size, i_flags, i_sectors
  datatype Record = Record(pad: seq<Byte>, mode: seq<Byte>, size: nat, flags: nat, sectors: seq<nat>)

  ghost predicate RecordOk(r: Record)
  {
    && |r.pad| == 2 && |r.mode| == 2 && r.size < WORDS && r.flags < WORDS
    && |r.sectors| == 13 && forall k | 0 <= k < 13 :: r.sectors[k] < WORDS
  }

  ghost function PutRecord(r: Record): (b: seq<Byte>)
    requires RecordOk(r)
    ensures |b| == 64
  {
    r.pad + r.mode + Put32(r.size) + Put32(r.flags) + PutWords(r.sectors)
  }

  function GetRecord(b: seq<Byte>): (r: Record)
    requires |b| == 64
    ensures RecordOk(r)
  {
    Record(b[..2], b[2..4], Get32(b, 4), Get32(b, 8), GetWords(b, 12, 13))
  }

  lemma RecordRoundTrip(r: Record)
    requires RecordOk(r)
    ensures GetRecord(PutRecord(r)) == r
  {
    hide Get32, Put32, PutWords, GetWords;
    var b := PutRecord(r);
    var head, words := r.pad + r.mode, PutWords(r.sectors);
    PutGet32(r.size);
    PutGet32(r.flags);
    Get32In(head, Put32(r.size), Put32(r.flags) + words, 0);
    assert b == head + Put32(r.size) + (Put32(r.flags) + words);
    Get32In(head + Put32(r.size), Put32(r.flags), words, 0);
    PutGetWords(head + Put32(r.size) + Put32(r.flags), r.sectors, []);
    assert b == head + Put32(r.size) + Put32(r.flags) + words + [];
  }

  function RecordSector(g: Geometry, no: nat): nat {
    g.inodeTable + no * 64 / SECTOR
  }

  function RecordOffset(no: nat): nat {
    no * 64 % SECTOR
  }

  // Eight records to a sector: get_inode_pos never finds one that straddles two.
  lemma RecordsDoNotStraddle(no: nat)
    ensures !(SECTOR - RecordOffset(no) < 64) && RecordOffset(no) == no % 8 * 64 && no * 64 / SECTOR == no / 8
  {
    assert no == no / 8 * 8 + no % 8;
  }

  function RecordAt(disk: Disk, g: Geometry, no: nat): (r: Record)
    ensures RecordOk(r)
  {
    RecordsDoNotStraddle(no);
    GetRecord(Sec(disk, RecordSector(g, no))[RecordOffset(no)..RecordOffset(no) + 64])
  }

  function WriteRecord(disk: Disk, g: Geometry, no: nat, b: seq<Byte>): Disk
    requires |b| == 64
  {
    RecordsDoNotStraddle(no);
    disk[RecordSector(g, no) := Over(Sec(disk, RecordSector(g, no)), RecordOffset(no), b)]
  }

  // Writing one record changes that record and nothing else from the inode table on.
  lemma RecordWritten(disk: Disk, g: Geometry, no: nat, r: Record)
    requires RecordOk(r)
    ensures RecordAt(WriteRecord(disk, g, no, PutRecord(r)), g, no) == r
    ensures forall l | l != RecordSector(g, no) :: Sec(WriteRecord(disk, g, no, PutRecord(r)), l) == Sec(disk, l)
  {
    hide PutRecord, GetRecord;
    RecordsDoNotStraddle(no);
    RecordRoundTrip(r);
    var at, b := RecordOffset(no), PutRecord(r);
    assert Over(Sec(disk, RecordSector(g, no)), at, b)[at..at + 64] == b;
  }

  lemma OtherRecord(disk: Disk, g: Geometry, no: nat, b: seq<Byte>, j: nat)
    requires |b| == 64 && j != no
    ensures RecordAt(WriteRecord(disk, g, no, b), g, j) == RecordAt(disk, g, j)
  {
    hide GetRecord, Over;
    RecordsDoNotStraddle(no);
    RecordsDoNotStraddle(j);
    if no / 8 == j / 8 {
      OtherPart(Sec(disk, RecordSector(g, no)), RecordOffset(no), b, RecordOffset(j));
    }
  }

  lemma OtherPart(s: seq<Byte>, at: nat, b: seq<Byte>, from: nat)
    requires at + 64 <= |s| && from + 64 <= |s| && |b| == 64 && (from + 64 <= at || at + 64 <= from)
    ensures Over(s, at, b)[from..from + 64] == s[from..from + 64]
  {
  }

  // ---------- the sectors of a file ----------

  function EmptyTable(): (t: seq<nat>)
    ensures |t| == TABLE
  {
    seq(TABLE, k => 0)
  }

  function TableOf(disk: Disk, l: nat): (t: seq<nat>)
    ensures |t| == TABLE && forall k | 0 <= k < TABLE :: t[k] < WORDS
  {
    if l == 0 then EmptyTable() else GetWords(Sec(disk, l), 0, TABLE)
  }

  // Sector numbers by position in the file, 0 for none; the indirect table's own number comes last.
  function SlotsOf(disk: Disk, sectors: seq<nat>): (slots: seq<nat>)
    requires |sectors| == 13
    ensures |slots| == MAX_SECTORS + 1
  {
    sectors[..12] + TableOf(disk, sectors[12]) + [sectors[12]]
  }

  function ByteAt(disk: Disk, slots: seq<nat>, q: nat): Byte
    requires |slots| == MAX_SECTORS + 1 && q < MAX_FILE_SIZE
  {
    Sec(disk, slots[q / SECTOR])[q % SECTOR]
  }

  // A file as a flat sequence of bytes.
  function Content(disk: Disk, slots: seq<nat>, size: nat): (c: seq<Byte>)
    requires |slots| == MAX_SECTORS + 1 && size <= MAX_FILE_SIZE
    ensures |c| == size
  {
    seq(size, q requires 0 <= q < size => ByteAt(disk, slots, q))
  }

  function Sectors(size: nat): nat {
    (size + SECTOR - 1) / SECTOR
  }

  // Exactly the first n sectors are there, and the table exactly when it is needed.
  ghost predicate Holds(slots: seq<nat>, n: nat) {
    && |slots| == MAX_SECTORS + 1 && n <= MAX_SECTORS
    && (forall k | 0 <= k < MAX_SECTORS :: slots[k] != 0 <==> k < n)
    && (slots[MAX_SECTORS] != 0 <==> n > DIRECT)
  }

  // Sector k is allocated iff k * 512 < size.
  lemma HoldsMeans(slots: seq<nat>, size: nat, k: nat)
    requires Holds(slots, Sectors(size)) && k < MAX_SECTORS
    ensures slots[k] != 0 <==> k * SECTOR < size
    ensures slots[MAX_SECTORS] != 0 <==> DIRECT * SECTOR < size
  {
  }

  // The blocks that n sectors of data take, the table included.
  function Cost(n: nat): nat {
    n + if n > DIRECT then 1 else 0
  }

  // ---------- who owns which sector ----------

  type Layout = map<nat, seq<nat>>

  ghost predicate InUse(l: nat, used: seq<bool>, g: Geometry) {
    g.dataStart <= l < g.dataStart + g.blocks && l - g.dataStart < |used| && used[l - g.dataStart]
  }

  // Every sector of every file is marked in the block bitmap, and no two places share one.
  ghost predicate Owned(layout: Layout, used: seq<bool>, g: Geometry) {
    && (forall i | i in layout :: |layout[i]| == MAX_SECTORS + 1)
    && (forall i, k | i in layout && 0 <= k <= MAX_SECTORS && layout[i][k] != 0 :: InUse(layout[i][k], used, g))
    && (forall i, k, j, m | i in layout && 0 <= k <= MAX_SECTORS && j in layout && 0 <= m <= MAX_SECTORS
                            && layout[i][k] != 0 && layout[i][k] == layout[j][m] :: i == j && k == m)
  }

  // The file's slots have only been added to, each time with a block that was clear.
  ghost predicate Grown(slots0: seq<nat>, slots: seq<nat>, used0: seq<bool>, used: seq<bool>, g: Geometry) {
    && |slots0| == |slots| == MAX_SECTORS + 1 && |used| == |used0|
    && (forall k | 0 <= k <= MAX_SECTORS && slots0[k] != 0 :: slots[k] == slots0[k])
    && (forall k | 0 <= k <= MAX_SECTORS && slots[k] != slots0[k] ::
          !InUse(slots[k], used0, g) && slots[k] >= g.dataStart)
    && (forall b | 0 <= b < |used0| && used0[b] :: used[b])
  }

  lemma GrowSlot(layout: Layout, f: nat, slots0: seq<nat>, slots: seq<nat>, used0: seq<bool>, used: seq<bool>,
                 g: Geometry, k: nat, b: nat)
    requires f in layout && |slots| == MAX_SECTORS + 1 && Owned(layout[f := slots], used, g)
    requires Grown(slots0, slots, used0, used, g)
    requires k <= MAX_SECTORS && slots[k] == 0 && b < g.blocks && b < |used| && !used[b] && g.dataStart > 0
    ensures Owned(layout[f := slots[k := g.dataStart + b]], used[b := true], g)
    ensures Grown(slots0, slots[k := g.dataStart + b], used0, used[b := true], g)
  {
    var l := g.dataStart + b;
    var before, now, used' := layout[f := slots], layout[f := slots[k := l]], used[b := true];
    forall i | i in now
      ensures |now[i]| == MAX_SECTORS + 1
    {
      assert |before[i]| == MAX_SECTORS + 1;
    }
    forall i, m | i in now && 0 <= m <= MAX_SECTORS && now[i][m] != 0
      ensures InUse(now[i][m], used', g)
      ensures now[i][m] == l ==> i == f && m == k
    {
      if !(i == f && m == k) {
        assert before[i][m] == now[i][m];
        assert InUse(before[i][m], used, g);
      }
    }
    forall i, m, j, n | i in now && 0 <= m <= MAX_SECTORS && j in now && 0 <= n <= MAX_SECTORS
                        && now[i][m] != 0 && now[i][m] == now[j][n]
      ensures i == j && m == n
    {
      if now[i][m] != l {
        assert before[i][m] == now[i][m] && before[j][n] == now[j][n];
      }
    }
  }
}
