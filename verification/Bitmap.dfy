/** lib/kernel/bitmap.c: one bit per resource in a byte array, searched a 32-bit word at a time. */
module Bitmap {
  import opened Bits

  type Byte = x: int | 0 <= x < 256

  // ---------- bytes and words as bits ----------

  function BitOf(bytes: seq<Byte>, i: nat): bool
    requires i < 8 * |bytes|
  {
    TestBit(bytes[i / 8], i % 8)
  }

  function BitsOf(bytes: seq<Byte>): (bits: seq<bool>)
    ensures |bits| == 8 * |bytes|
  {
    seq(8 * |bytes|, i requires 0 <= i < 8 * |bytes| => BitOf(bytes, i))
  }

  // The w-th little-endian word of the bytes, followed in memory by after.
  function Word(bytes: seq<Byte>, after: seq<Byte>, w: nat): nat
    requires 4 * w + 4 <= |bytes| + |after|
  {
    var mem := bytes + after;
    FromBytes(mem[4 * w], mem[4 * w + 1], mem[4 * w + 2], mem[4 * w + 3])
  }

  function FromBytes(b0: nat, b1: nat, b2: nat, b3: nat): nat {
    b0 + 0x100 * b1 + 0x1_0000 * b2 + 0x100_0000 * b3
  }

  lemma ShlByte(x: nat)
    ensures Shl(x, 8) == 0x100 * x
  {
    assert Shl(x, 1) == 2 * x;
    assert Shl(x, 2) == 4 * x;
    assert Shl(x, 3) == 8 * x;
    assert Shl(x, 4) == 16 * x;
    assert Shl(x, 5) == 32 * x;
    assert Shl(x, 6) == 64 * x;
    assert Shl(x, 7) == 128 * x;
  }

  lemma ShlWord()
    ensures Shl(1, 32) == 0x1_0000_0000
  {
    ShlByte(1);
    ShlByte(0x100);
    ShlByte(0x1_0000);
    ShlByte(0x100_0000);
    ShlShl(1, 8, 8);
    ShlShl(1, 16, 8);
    ShlShl(1, 24, 8);
  }

  // Bit i of a word is bit i % 8 of its byte i / 8.
  lemma WordBit(bytes: seq<Byte>, after: seq<Byte>, w: nat, i: nat)
    requires 4 * w + 4 <= |bytes| + |after| && i < 32 && 32 * w + i < 8 * |bytes|
    ensures TestBit(Word(bytes, after, w), i) <==> BitOf(bytes, 32 * w + i)
  {
    var mem := bytes + after;
    BytesBit(mem[4 * w], mem[4 * w + 1], mem[4 * w + 2], mem[4 * w + 3], i);
    assert (32 * w + i) / 8 == 4 * w + i / 8 && (32 * w + i) % 8 == i % 8;
  }

  lemma BytesBit(b0: nat, b1: nat, b2: nat, b3: nat, i: nat)
    requires b0 < 256 && b1 < 256 && b2 < 256 && b3 < 256 && i < 32
    ensures TestBit(FromBytes(b0, b1, b2, b3), i) <==> TestBit([b0, b1, b2, b3][i / 8], i % 8)
  {
    ShlByte(1);
    var hi, mid := b1 + 0x100 * b2 + 0x1_0000 * b3, b2 + 0x100 * b3;
    ShlByte(hi);
    TestBitConcat(b0, hi, 8, i);
    if i >= 8 {
      ShlByte(mid);
      TestBitConcat(b1, mid, 8, i - 8);
      if i >= 16 {
        ShlByte(b3);
        TestBitConcat(b2, b3, 8, i - 16);
      }
    }
  }

  // The first n bits are set.
  predicate AllSet(bytes: seq<Byte>, n: nat) {
    n <= 8 * |bytes| && forall i | 0 <= i < n :: BitOf(bytes, i)
  }

  lemma NoneSet(bytes: seq<Byte>)
    ensures AllSet(bytes, 0)
  {
  }

  // The next bit is set as well, or it is the least clear one.
  lemma OneMore(bytes: seq<Byte>, n: nat)
    requires AllSet(bytes, n) && n < 8 * |bytes|
    ensures BitOf(bytes, n) ==> AllSet(bytes, n + 1)
    ensures !BitOf(bytes, n) ==> !BitsOf(bytes)[n] && false in BitsOf(bytes)
    ensures forall i | 0 <= i < n :: BitsOf(bytes)[i]
  {
    assert BitsOf(bytes)[n] == BitOf(bytes, n);
  }

  lemma NoneClear(bytes: seq<Byte>)
    requires AllSet(bytes, 8 * |bytes|)
    ensures false !in BitsOf(bytes)
  {
  }

  // A word of all ones has no clear bit.
  lemma FullWord(bytes: seq<Byte>, after: seq<Byte>, w: nat)
    requires 4 * w + 4 <= |bytes| && Word(bytes, after, w) == 0xFFFF_FFFF && AllSet(bytes, 32 * w)
    ensures AllSet(bytes, 32 * w + 32)
  {
    hide Word, BitOf;
    forall i | 32 * w <= i < 32 * w + 32
      ensures BitOf(bytes, i)
    {
      ShlWord();
      AllOnes(32, i - 32 * w);
      WordBit(bytes, after, w, i - 32 * w);
    }
  }

  lemma SetOneBit(bytes: seq<Byte>, idx: nat)
    requires idx < 8 * |bytes|
    ensures 0 <= SetBit(bytes[idx / 8], idx % 8) < 256
    ensures var b: Byte := SetBit(bytes[idx / 8], idx % 8); BitsOf(bytes[idx / 8 := b]) == BitsOf(bytes)[idx := true]
  {
    ShlByte(1);
    SetBitFits(bytes[idx / 8], idx % 8, 8);
    var b: Byte := SetBit(bytes[idx / 8], idx % 8);
    var now, want := BitsOf(bytes[idx / 8 := b]), BitsOf(bytes)[idx := true];
    forall i | 0 <= i < |now|
      ensures now[i] == want[i]
    {
      SetBitTests(bytes[idx / 8], idx % 8, i % 8);
      if i / 8 == idx / 8 && i % 8 == idx % 8 { assert i == idx; }
    }
  }

  lemma ClearOneBit(bytes: seq<Byte>, idx: nat)
    requires idx < 8 * |bytes|
    ensures 0 <= ClearBit(bytes[idx / 8], idx % 8) < 256
    ensures var b: Byte := ClearBit(bytes[idx / 8], idx % 8); BitsOf(bytes[idx / 8 := b]) == BitsOf(bytes)[idx := false]
  {
    var b: Byte := ClearBit(bytes[idx / 8], idx % 8);
    var now, want := BitsOf(bytes[idx / 8 := b]), BitsOf(bytes)[idx := false];
    forall i | 0 <= i < |now|
      ensures now[i] == want[i]
    {
      ClearBitTests(bytes[idx / 8], idx % 8, i % 8);
      if i / 8 == idx / 8 && i % 8 == idx % 8 { assert i == idx; }
    }
  }

  // A fresh map of size bits, padded with ones to a whole byte.
  function Fresh(size: nat, byteSize: nat): seq<bool> {
    seq(8 * byteSize, i => i >= size)
  }

  class Bitmap {
    const bits: array<Byte>
    var byteSize: nat

    ghost predicate Valid()
      reads this
    {
      byteSize <= bits.Length
    }

    ghost function Contents(): (s: seq<bool>)
      reads this, bits
      requires Valid()
    {
      BitsOf(bits[..byteSize])
    }

    constructor (bits: array<Byte>)
      ensures this.bits == bits && Valid() && byteSize == 0
    {
      this.bits := bits;
      byteSize := 0;
    }

    method Init(size: nat)
      requires 0 < size && (size + 7) / 8 <= bits.Length
      modifies this, bits
      ensures Valid() && byteSize == (size + 7) / 8 && Contents() == Fresh(size, byteSize)
    {
      byteSize := (size + 7) / 8;
      var i := 0;
      while i < byteSize - 1
        invariant 0 <= i <= byteSize - 1 && byteSize == (size + 7) / 8
        invariant forall k | 0 <= k < i :: bits[k] == 0
      {
        bits[i] := 0;
        i := i + 1;
      }
      var lastByte: Byte, j := 0, 7;
      ZeroBits();
      while j > (size + 7) % 8
        invariant (size + 7) % 8 <= j <= 7 && byteSize == (size + 7) / 8
        invariant forall k | 0 <= k < byteSize - 1 :: bits[k] == 0
        invariant forall k | 0 <= k < 8 :: TestBit(lastByte, k) <==> k > j
      {
        ShlByte(1);
        SetBitFits(lastByte, j, 8);
        ghost var was := lastByte;
        lastByte := SetBit(lastByte, j);
        forall k | 0 <= k < 8
          ensures TestBit(lastByte, k) <==> k > j - 1
        {
          SetBitTests(was, j, k);
        }
        j := j - 1;
      }
      bits[byteSize - 1] := lastByte;
      forall k | 0 <= k < 8 * byteSize
        ensures Contents()[k] == (k >= size)
      {
        ZeroBits();
        LastBit(size, byteSize, k);
      }
    }

    method Set(idx: nat)
      requires Valid() && idx < 8 * byteSize && !Contents()[idx]
      modifies bits
      ensures Valid() && Contents() == old(Contents())[idx := true]
      ensures forall k | 0 <= k < bits.Length && k != idx / 8 :: bits[k] == old(bits[k])
    {
      SetOneBit(bits[..byteSize], idx);
      ghost var was := bits[..byteSize];
      bits[idx / 8] := SetBit(bits[idx / 8], idx % 8);
      assert bits[..byteSize] == was[idx / 8 := bits[idx / 8]];
    }

    method Reset(idx: nat)
      requires Valid() && idx < 8 * byteSize && Contents()[idx]
      modifies bits
      ensures Valid() && Contents() == old(Contents())[idx := false]
    {
      ClearOneBit(bits[..byteSize], idx);
      ghost var was := bits[..byteSize];
      bits[idx / 8] := ClearBit(bits[idx / 8], idx % 8);
      assert bits[..byteSize] == was[idx / 8 := bits[idx / 8]];
    }

    method IsSet(idx: nat) returns (b: bool)
      requires Valid() && idx < 8 * byteSize
      ensures b == Contents()[idx]
    {
      b := TestBit(bits[idx / 8], idx % 8);
    }

    // The least clear bit; found is false where the kernel panics. after: whatever follows the bytes in
    // memory, which the last word may take in.
    method Scan(after: seq<Byte>) returns (found: bool, idx: nat)
      requires Valid() && |after| == 3
      ensures found <==> false in Contents()
      ensures found ==> idx < |Contents()| && !Contents()[idx] && forall i | 0 <= i < idx :: Contents()[i]
    {
      hide BitOf, Word, TestBit, AllSet;
      ghost var bytes := bits[..byteSize];
      NoneSet(bytes);
      var w := 0;
      while w < byteSize / 4
        invariant 0 <= w <= byteSize / 4 && AllSet(bytes, 32 * w)
      {
        var word := LoadWord(w, after);
        if word != 0xFFFF_FFFF {
          var i := 0;
          while i < 32
            invariant 0 <= i <= 32 && AllSet(bytes, 32 * w + i)
          {
            WordBit(bytes, after, w, i);
            OneMore(bytes, 32 * w + i);
            if !TestBit(word, i) {
              return true, w * 32 + i;
            }
            i := i + 1;
          }
        } else {
          FullWord(bytes, after, w);
        }
        w := w + 1;
      }
      var i := 0;
      while i < byteSize % 4 * 8
        invariant 0 <= i <= byteSize % 4 * 8 && AllSet(bytes, 32 * w + i)
      {
        var word := LoadWord(w, after);
        WordBit(bytes, after, w, i);
        OneMore(bytes, 32 * w + i);
        if !TestBit(word, i) {
          return true, w * 32 + i;
        }
        i := i + 1;
      }
      NoneClear(bytes);
      return false, 0;
    }

    method LoadWord(w: nat, after: seq<Byte>) returns (word: nat)
      requires Valid() && 4 * w + 4 <= byteSize + |after|
      ensures word == Word(bits[..byteSize], after, w)
    {
      var mem := bits[..byteSize] + after;
      word := FromBytes(mem[4 * w], mem[4 * w + 1], mem[4 * w + 2], mem[4 * w + 3]);
    }

    method ScanSet(after: seq<Byte>) returns (found: bool, idx: nat)
      requires Valid() && |after| == 3
      modifies bits
      ensures Valid() && (found <==> false in old(Contents()))
      ensures found ==> idx < |old(Contents())| && !old(Contents())[idx]
      ensures found ==> forall i | 0 <= i < idx :: old(Contents())[i]
      ensures Contents() == if found then old(Contents())[idx := true] else old(Contents())
      ensures forall k | 0 <= k < bits.Length && (found ==> k != idx / 8) :: bits[k] == old(bits[k])
    {
      found, idx := Scan(after);
      if found {
        Set(idx);
      }
    }

    // Flips a bit and returns its new value.
    method Reverse(idx: nat) returns (ret: bool)
      requires Valid() && idx < 8 * byteSize
      modifies bits
      ensures Valid() && ret == !old(Contents())[idx] && Contents() == old(Contents())[idx := ret]
    {
      var b := IsSet(idx);
      if b {
        Reset(idx);
        ret := false;
      } else {
        Set(idx);
        ret := true;
      }
    }
  }

  lemma ZeroBits()
    ensures forall k | 0 <= k < 8 :: !TestBit(0, k)
  {
    forall k: nat | k < 8
      ensures !TestBit(0, k)
    {
      ShrBounds(0, k);
      ShlPositive(Shr(0, k), k);
    }
  }

  // Bit k of the last byte is past the end exactly when k % 8 is above (size + 7) % 8.
  lemma LastBit(size: nat, byteSize: nat, k: nat)
    requires 0 < size && byteSize == (size + 7) / 8 && k < 8 * byteSize
    ensures k / 8 < byteSize - 1 ==> k < size
    ensures k / 8 == byteSize - 1 ==> (k >= size <==> k % 8 > (size + 7) % 8)
  {
  }
}
