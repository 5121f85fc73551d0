/** device/ioqueue.c: the keyboard's ring of characters, proved to be a bounded queue read by lines. */
module LineRing {
  const NEWLINE := '\n'

  // ---------- index arithmetic ----------

  lemma MulMonotone(a: nat, b: nat, c: nat)
    ensures a <= b ==> a * c <= b * c
  {
  }

  // x % size on the indices the ring computes
  lemma Wraps(x: nat, size: nat)
    requires x < 2 * size
    ensures x % size == if x < size then x else x - size
  {
    if x >= size {
      var q := x / size;
      assert x == q * size + x % size;
      MulMonotone(2, q, size);
      MulMonotone(q, 0, size);
      assert q == 1;
    }
  }

  // (tail + buf_size - head - 1) % buf_size, the number of characters waiting
  function Waiting(head: nat, tail: nat, size: nat): nat
    requires head < size && tail < size
  {
    (tail + size - head - 1) % size
  }

  // (i + 1) % buf_size
  function Next(i: nat, size: nat): (j: nat)
    requires i < size
    ensures j < size
  {
    (i + 1) % size
  }

  // Where the i-th of them is
  function Place(head: nat, i: nat, size: nat): (p: nat)
    requires head < size && i <= size
  {
    if head + 1 + i < size then head + 1 + i else head + 1 + i - size
  }

  lemma WaitingIs(head: nat, tail: nat, size: nat)
    requires head < size && tail < size
    ensures Waiting(head, tail, size) == if tail > head then tail - head - 1 else tail + size - head - 1
    ensures Waiting(head, tail, size) < size && Place(head, Waiting(head, tail, size), size) == tail
    ensures Next(head, size) == Place(head, 0, size) && Next(tail, size) == Place(tail, 0, size)
  {
    Wraps(tail + size - head - 1, size);
    Wraps(head + 1, size);
    Wraps(tail + 1, size);
  }

  // The characters waiting in buffer b
  function Ring(b: seq<char>, head: nat, tail: nat): (s: seq<char>)
    requires head < |b| && tail < |b|
    ensures |s| == Waiting(head, tail, |b|) < |b|
  {
    WaitingIs(head, tail, |b|);
    seq(Waiting(head, tail, |b|), i requires 0 <= i < Waiting(head, tail, |b|) => b[Place(head, i, |b|)])
  }

  lemma RingPush(b: seq<char>, head: nat, tail: nat, c: char)
    requires head < |b| && tail < |b| && Waiting(head, tail, |b|) < |b| - 1
    ensures Ring(b[tail := c], head, Next(tail, |b|)) == Ring(b, head, tail) + [c]
  {
    WaitingIs(head, tail, |b|);
    WaitingIs(head, Next(tail, |b|), |b|);
  }

  lemma RingDropLast(b: seq<char>, head: nat, tail: nat)
    requires head < |b| && tail < |b| && Waiting(head, tail, |b|) > 0
    ensures var s := Ring(b, head, tail); Ring(b, head, (tail + |b| - 1) % |b|) == s[..|s| - 1]
  {
    WaitingIs(head, tail, |b|);
    Wraps(tail + |b| - 1, |b|);
    WaitingIs(head, (tail + |b| - 1) % |b|, |b|);
  }

  // Reading on from the k-th character drops it and those before it.
  lemma RingSkip(b: seq<char>, head: nat, tail: nat, k: nat)
    requires head < |b| && tail < |b| && k < Waiting(head, tail, |b|)
    ensures var h := Place(head, k, |b|);
            h < |b| && b[h] == Ring(b, head, tail)[k] && Ring(b, h, tail) == Ring(b, head, tail)[k + 1..]
            && Waiting(h, tail, |b|) == Waiting(head, tail, |b|) - k - 1 && Next(h, |b|) == Place(head, k + 1, |b|)
  {
    WaitingIs(head, tail, |b|);
    var h := Place(head, k, |b|);
    WaitingIs(h, tail, |b|);
  }

  // ---------- lines ----------

  // The place of the first newline, or the length if there is none
  function FirstNewline(s: seq<char>): (n: nat)
    ensures n <= |s| && (n < |s| ==> s[n] == NEWLINE) && (forall k | 0 <= k < n :: s[k] != NEWLINE)
    ensures n < |s| <==> NEWLINE in s
  {
    if s == [] then 0
    else if s[0] == NEWLINE then 0
    else assert s == [s[0]] + s[1..]; 1 + FirstNewline(s[1..])
  }

  // A line longer than the buffer is cut; count == -1 stands for no limit.
  predicate Fits(n: nat, count: int) {
    count == -1 || n < count
  }

  // The bytes ioqueue_getline stores for a queue s with a newline
  function Delivered(s: seq<char>, count: int): (d: seq<char>)
    requires NEWLINE in s
  {
    var n := FirstNewline(s);
    if Fits(n, count) then s[..n + 1] else s[..if count < 0 then 0 else count]
  }

  // dest with its first m characters taken from s
  function Stored(s: seq<char>, m: nat, dest: seq<char>): seq<char>
    requires m <= |s| && m <= |dest|
  {
    s[..m] + dest[m..]
  }

  // d stored at the start of a buffer that held dest; the buffer is never too short
  function Filled(d: seq<char>, dest: seq<char>): seq<char> {
    if |d| <= |dest| then d + dest[|d|..] else d
  }

  lemma StoredFacts(s: seq<char>, m: nat, dest: seq<char>)
    requires m <= |s| && m <= |dest|
    ensures Stored(s, m, dest) == Filled(s[..m], dest) && Stored(s, 0, dest) == dest
    ensures m < |s| && m < |dest| ==> Stored(s, m, dest)[m := s[m]] == Stored(s, m + 1, dest)
  {
  }

  // What ioqueue_getline returns
  function Returned(s: seq<char>, count: int): (r: nat)
    requires NEWLINE in s
  {
    var n := FirstNewline(s);
    if Fits(n, count) then n + 1 else 1 + if count < 0 then 0 else count
  }

  // The copying loop has stopped at the newline or at the limit.
  lemma DeliveredIs(s: seq<char>, count: int, c: nat, more: bool)
    requires NEWLINE in s && c <= FirstNewline(s) && (more <==> count == -1 || c < count)
    requires if more then c == FirstNewline(s) else c == if count < 0 then 0 else count
    ensures Delivered(s, count) == s[..if more then c + 1 else c] && Returned(s, count) == c + 1
  {
  }

  // The result counts the stored bytes exactly when the whole line, newline included, fits; otherwise it
  // is one more, for a newline that was not stored.
  lemma ReturnedIsStoredIffFits(s: seq<char>, count: int)
    requires NEWLINE in s
    ensures Returned(s, count) == |Delivered(s, count)| <==> count == -1 || FirstNewline(s) < count
    ensures count == -1 || FirstNewline(s) < count ==> Delivered(s, count) == s[..FirstNewline(s)] + [NEWLINE]
    ensures !(count == -1 || FirstNewline(s) < count) ==>
              && NEWLINE !in Delivered(s, count) && Delivered(s, count) <= s[..FirstNewline(s)]
              && |Delivered(s, count)| == (if count < 0 then 0 else count)
              && Returned(s, count) == |Delivered(s, count)| + 1
  {
    hide FirstNewline;
    var n := FirstNewline(s);
    if Fits(n, count) {
      assert s[..n + 1] == s[..n] + [NEWLINE];
    } else {
      CutLine(s, n, if count < 0 then 0 else count);
    }
  }

  // "ab" and Enter, read with room for one character
  lemma CutLineIsMiscounted()
    ensures Returned("ab\n", 1) == 2 && Delivered("ab\n", 1) == "a"
  {
    assert FirstNewline("ab\n") == 2;
  }

  lemma CutLine(s: seq<char>, n: nat, m: nat)
    requires m <= n <= |s| && forall k | 0 <= k < n :: s[k] != NEWLINE
    ensures NEWLINE !in s[..m] && s[..m] <= s[..n]
  {
  }

  class IoQueue {
    const buf: array<char>
    var head: nat
    var tail: nat

    ghost predicate Valid()
      reads this
    {
      head < buf.Length && tail < buf.Length
    }

    ghost function Contents(): (s: seq<char>)
      reads this, buf
      requires Valid()
      ensures |s| < buf.Length
    {
      Ring(buf[..], head, tail)
    }

    constructor (size: nat)
      ensures Valid() && buf.Length == size + 1 && Contents() == [] && fresh(buf)
    {
      buf := new char[size + 1](_ => '\0');
      head := size;
      tail := 0;
      new;
      WaitingIs(head, tail, buf.Length);
    }

    // A full ring drops the character.
    method PutChar(c: char)
      requires Valid()
      modifies this`tail, buf
      ensures Valid()
      ensures Contents() == if |old(Contents())| < buf.Length - 1 then old(Contents()) + [c] else old(Contents())
    {
      hide Ring, Waiting, Next;
      if Waiting(head, tail, buf.Length) < buf.Length - 1 {
        RingPush(buf[..], head, tail, c);
        WaitingIs(head, tail, buf.Length);
        buf[tail] := c;
        tail := Next(tail, buf.Length);
      }
    }

    // One round of the waiting loop: blocked on an empty ring, else the first character.
    method GetChar() returns (blocked: bool, c: char)
      requires Valid()
      modifies this`head
      ensures Valid() && (blocked <==> old(Contents()) == [])
      ensures blocked ==> Contents() == []
      ensures !blocked ==> c == old(Contents())[0] && Contents() == old(Contents())[1..]
    {
      hide Ring, Waiting, Next;
      if Waiting(head, tail, buf.Length) == 0 {
        return true, '\0';
      }
      RingSkip(buf[..], head, tail, 0);
      WaitingIs(head, tail, buf.Length);
      head := Next(head, buf.Length);
      c := buf[head];
      blocked := false;
    }

    // Backspace: the last character goes, if there is one.
    method PopBackChar()
      requires Valid()
      modifies this`tail
      ensures Valid()
      ensures Contents() == if old(Contents()) == [] then [] else old(Contents())[..|old(Contents())| - 1]
    {
      hide Ring, Waiting, Next;
      if Waiting(head, tail, buf.Length) > 0 {
        RingDropLast(buf[..], head, tail);
        Wraps(tail + buf.Length - 1, buf.Length);
        tail := (tail + buf.Length - 1) % buf.Length;
      }
    }

    // The scan of ioqueue_getline for a newline
    method HasLine() returns (found: bool)
      requires Valid()
      ensures found <==> NEWLINE in Contents()
    {
      hide Ring, Waiting, Next;
      WaitingIs(head, tail, buf.Length);
      var i := Next(head, buf.Length);
      ghost var k: nat := 0;
      while i != tail
        invariant k <= |Contents()| && i == Place(head, k, buf.Length)
        invariant NEWLINE !in Contents()[..k]
        decreases |Contents()| - k
      {
        RingSkip(buf[..], head, tail, k);
        if buf[i] == NEWLINE {
          return true;
        }
        i := Next(i, buf.Length);
        k := k + 1;
      }
      assert Contents()[..k] == Contents();
      return false;
    }

    // The first copying loop of ioqueue_getline: c characters stored, and the newline if it is reached.
    method CopyLine(dest: array<char>, count: int, start: nat) returns (c: nat, h: nat)
      requires Valid() && dest != buf && dest.Length >= if count == -1 then buf.Length - 1 else count
      requires NEWLINE in Contents() && start == Place(head, 0, buf.Length)
      modifies dest
      ensures Contents() == old(Contents()) && c + 1 == Returned(Contents(), count)
      ensures c <= FirstNewline(Contents()) && h == Place(head, c, buf.Length)
      ensures dest[..] == Filled(Delivered(Contents(), count), old(dest[..]))
    {
      hide Ring, Waiting, Next, Stored, Filled, FirstNewline, Delivered;
      ghost var b, was, n, dest0 := buf[..], Contents(), FirstNewline(Contents()), dest[..];
      StoredFacts(was, 0, dest0);
      c, h := 0, start;
      RingSkip(b, head, tail, 0);
      var more := count == -1 || c < count;
      if more {
        dest[c] := buf[h];
      }
      while more && buf[h] != NEWLINE
        invariant c <= n && h == Place(head, c, buf.Length) && buf[..] == b
        invariant more <==> count == -1 || c < count
        invariant !more ==> c == if count < 0 then 0 else count
        invariant c < |was| && if more then c < |dest0| else c <= |dest0|
        invariant dest[..] == Stored(was, if more then c + 1 else c, dest0)
        decreases n - c
      {
        RingSkip(b, head, tail, c);
        RingSkip(b, head, tail, c + 1);
        assert Waiting(h, tail, buf.Length) > 0;
        StoredFacts(was, c + 1, dest0);
        h := Next(h, buf.Length);
        c := c + 1;
        more := count == -1 || c < count;
        if more {
          dest[c] := buf[h];
        }
      }
      RingSkip(b, head, tail, c);
      StoredFacts(was, if more then c + 1 else c, dest0);
      DeliveredIs(was, count, c, more);
    }

    // One round of ioqueue_getline: blocked without a whole line, else the line cut to count characters.
    method GetLine(dest: array<char>, count: int) returns (blocked: bool, ret: nat)
      requires Valid() && dest != buf && dest.Length >= if count == -1 then buf.Length - 1 else count
      modifies this`head, dest
      ensures Valid() && (blocked <==> NEWLINE !in old(Contents()))
      ensures blocked ==> Contents() == old(Contents()) && dest[..] == old(dest[..])
      ensures !blocked ==> Contents() == old(Contents())[FirstNewline(old(Contents())) + 1..]
      ensures !blocked ==> ret == Returned(old(Contents()), count)
      ensures !blocked ==> dest[..] == Filled(Delivered(old(Contents()), count), old(dest[..]))
    {
      hide Ring, Waiting, Next, Delivered, Filled, FirstNewline;
      var flag := HasLine();
      if !flag {
        return true, 0;
      }
      ghost var was, n := Contents(), FirstNewline(Contents());
      WaitingIs(head, tail, buf.Length);
      var c, h := CopyLine(dest, count, Next(head, buf.Length));
      h := SkipLine(h, c);
      RingSkip(buf[..], head, tail, n);
      head := h;
      ret := c + 1;
      blocked := false;
    }

    // Its second loop: the rest of the line, from the k-th character on, is passed over.
    method SkipLine(start: nat, ghost k0: nat) returns (h: nat)
      requires Valid() && NEWLINE in Contents() && k0 <= FirstNewline(Contents())
      requires start == Place(head, k0, buf.Length)
      ensures h == Place(head, FirstNewline(Contents()), buf.Length)
    {
      hide Ring, Waiting, Next, FirstNewline;
      ghost var n, k := FirstNewline(Contents()), k0;
      h := start;
      RingSkip(buf[..], head, tail, k);
      while buf[h] != NEWLINE
        invariant k <= n && h == Place(head, k, buf.Length)
        decreases n - k
      {
        RingSkip(buf[..], head, tail, k);
        RingSkip(buf[..], head, tail, k + 1);
        assert Waiting(h, tail, buf.Length) > 0;
        h := Next(h, buf.Length);
        k := k + 1;
      }
      RingSkip(buf[..], head, tail, k);
    }
  }

  // ---------- typing ----------

  const BACKSPACE := '\U{8}'

  // keyboard_handler on one character key, for a ring that holds cap characters
  function Typed(s: seq<char>, key: char, cap: nat): seq<char> {
    if key == BACKSPACE then if s == [] then [] else s[..|s| - 1]
    else if |s| < cap then s + [key]
    else s
  }

  // A backspace takes exactly the last character; any other key adds itself at the end, if there is room.
  lemma KeyAtTheEnd(s: seq<char>, key: char, cap: nat)
    requires |s| <= cap
    ensures Typed(s, BACKSPACE, cap) <= s
    ensures |Typed(s, BACKSPACE, cap)| == if |s| == 0 then 0 else |s| - 1
    ensures key != BACKSPACE ==> s <= Typed(s, key, cap)
    ensures key != BACKSPACE && |s| < cap ==> Typed(s, key, cap)[|s|..] == [key]
    ensures key != BACKSPACE && |s| == cap ==> |Typed(s, key, cap)| == |s|
  {
  }

  // Typing a character and then a backspace changes nothing, unless the ring was full.
  lemma BackspaceUndoesKey(s: seq<char>, key: char, cap: nat)
    requires 0 < |s| <= cap && key != BACKSPACE
    ensures Typed(Typed(s, key, cap), BACKSPACE, cap) == s <==> |s| < cap
  {
    if |s| < cap {
      assert (s + [key])[..|s|] == s;
    }
  }

  function TypedAll(s: seq<char>, keys: seq<char>, cap: nat): seq<char> {
    if keys == [] then s else Typed(TypedAll(s, keys[..|keys| - 1], cap), keys[|keys| - 1], cap)
  }

  // A full ring drops every key until the first backspace.
  lemma {:induction false} FullRingDrops(s: seq<char>, keys: seq<char>, cap: nat)
    requires |s| == cap && BACKSPACE !in keys
    ensures TypedAll(s, keys, cap) == s
    decreases |keys|
  {
    if keys != [] {
      FullRingDrops(s, keys[..|keys| - 1], cap);
    }
  }

  lemma EnterArrivesIffRoom(s: seq<char>, cap: nat)
    requires NEWLINE !in s
    ensures NEWLINE in Typed(s, NEWLINE, cap) <==> |s| < cap
  {
    if |s| < cap {
      assert (s + [NEWLINE])[|s|] == NEWLINE;
    }
  }

  lemma FirstBackspace(s: seq<char>, keys: seq<char>, cap: nat) returns (i: nat)
    requires 0 < |s| == cap && NEWLINE !in s && BACKSPACE in keys
    ensures i < |keys| && NEWLINE in TypedAll(s, keys[..i + 1] + [NEWLINE], cap)
  {
    i := 0;
    while keys[i] != BACKSPACE
      invariant i < |keys| && BACKSPACE !in keys[..i] && BACKSPACE in keys[i..]
      decreases |keys| - i
    {
      i := i + 1;
    }
    FullRingDrops(s, keys[..i], cap);
    assert keys[..i + 1][..i] == keys[..i];
    assert TypedAll(s, keys[..i + 1], cap) == s[..|s| - 1];
    assert (keys[..i + 1] + [NEWLINE])[..i + 1] == keys[..i + 1];
    EnterArrivesIffRoom(s[..|s| - 1], cap);
  }

  // With the ring full of a line's beginning no Enter arrives, whenever it is typed, and getline stays blocked,
  // exactly as long as no key is a backspace.
  lemma FullRingStaysBlocked(s: seq<char>, keys: seq<char>, cap: nat)
    requires 0 < |s| == cap && NEWLINE !in s
    ensures (forall i | 0 <= i <= |keys| :: NEWLINE !in TypedAll(s, keys[..i] + [NEWLINE], cap)) <==> BACKSPACE !in keys
    ensures BACKSPACE !in keys ==> TypedAll(s, keys, cap) == s
  {
    if BACKSPACE in keys {
      var i := FirstBackspace(s, keys, cap);
    } else {
      FullRingDrops(s, keys, cap);
      forall i | 0 <= i <= |keys|
        ensures NEWLINE !in TypedAll(s, keys[..i] + [NEWLINE], cap)
      {
        FullRingDrops(s, keys[..i] + [NEWLINE], cap);
      }
    }
  }

  // One character key
  method TypeKey(q: IoQueue, key: char)
    requires q.Valid()
    modifies q, q.buf
    ensures q.Valid() && q.Contents() == Typed(old(q.Contents()), key, q.buf.Length - 1)
  {
    hide Ring, FirstNewline, Waiting, Next;
    if key == BACKSPACE {
      q.PopBackChar();
    } else {
      q.PutChar(key);
    }
  }

  lemma TypedNone(s: seq<char>, keys: seq<char>, cap: nat)
    ensures TypedAll(s, keys[..0], cap) == s
  {
  }

  lemma TypedOneMore(s: seq<char>, keys: seq<char>, i: nat, cap: nat)
    requires i < |keys|
    ensures TypedAll(s, keys[..i + 1], cap) == Typed(TypedAll(s, keys[..i], cap), keys[i], cap)
  {
    assert keys[..i + 1][..i] == keys[..i];
  }

  // The keys go into the ring one by one; then ioqueue_getline tries.
  method TypeThenRead(q: IoQueue, keys: seq<char>, dest: array<char>, count: int) returns (blocked: bool, ret: nat)
    requires q.Valid() && dest != q.buf && dest.Length >= if count == -1 then q.buf.Length - 1 else count
    modifies q, q.buf, dest
    ensures q.Valid()
    ensures var s := TypedAll(old(q.Contents()), keys, q.buf.Length - 1);
            && (blocked <==> NEWLINE !in s)
            && q.Contents() == if blocked then s else s[FirstNewline(s) + 1..]
  {
    hide Ring, FirstNewline, Waiting, Next, TypedAll, Typed;
    TypedNone(q.Contents(), keys, q.buf.Length - 1);
    var i := 0;
    while i < |keys|
      invariant 0 <= i <= |keys| && q.Valid()
      invariant q.Contents() == TypedAll(old(q.Contents()), keys[..i], q.buf.Length - 1)
    {
      TypedOneMore(old(q.Contents()), keys, i, q.buf.Length - 1);
      TypeKey(q, keys[i]);
      i := i + 1;
    }
    assert keys[..i] == keys;
    blocked, ret := q.GetLine(dest, count);
  }
}
