/** lib/kernel/list.c: an intrusive doubly linked list, proved to be a sequence of nodes. */
module LinkedList {
  import opened Seqs

  class Node {
    var prev: Node?
    var next: Node?

    constructor ()
      ensures prev == null && next == null
    {
      prev, next := null, null;
    }
  }

  // s after list_push_back of e; pushing the only element once more changes nothing
  function Pushed<T(==)>(s: seq<T>, e: T): seq<T> {
    if s == [e] then [e] else s + [e]
  }

  // s with the element at i moved one place forward
  function Forwarded<T>(s: seq<T>, i: nat): seq<T>
    requires 0 < i < |s|
  {
    s[..i - 1] + [s[i], s[i - 1]] + s[i + 1..]
  }

  // s without the element at i
  function Cut<T>(s: seq<T>, i: nat): seq<T>
    requires i < |s|
  {
    s[..i] + s[i + 1..]
  }

  class List {
    var head: Node?
    var tail: Node?
    ghost var elems: seq<Node>

    // Every link is right except the head's prev, which nothing relies on.
    ghost predicate Valid()
      reads this, elems
    {
      && NoRepeats(elems)
      && (elems == [] ==> head == null && tail == null)
      && (elems != [] ==> head == elems[0] && tail == elems[|elems| - 1] && elems[|elems| - 1].next == null)
      && (forall i | 0 <= i < |elems| - 1 :: elems[i].next == elems[i + 1])
      && (forall i | 0 < i < |elems| :: elems[i].prev == elems[i - 1])
    }

    constructor ()
      ensures Valid() && elems == []
    {
      head, tail, elems := null, null, [];
    }

    method PushBack(e: Node)
      requires Valid() && (e !in elems || elems == [e])
      modifies this, elems, e
      ensures Valid() && elems == Pushed(old(elems), e)
      ensures elems == if e in old(elems) then old(elems) else old(elems) + [e]
    {
      if tail == null {
        assert elems == [];
        head := e;
        tail := e;
        e.prev := null;
        e.next := null;
        elems := [e];
      } else {
        tail.next := e;
        e.prev := tail;
        e.next := null;
        tail := e;
        elems := Pushed(elems, e);
      }
    }

    method PushFront(e: Node)
      requires Valid() && e !in elems
      modifies this, elems, e
      ensures Valid() && elems == [e] + old(elems)
    {
      if head == null && tail == null {
        assert elems == [];
        head := e;
        tail := e;
        e.prev := null;
        e.next := null;
      } else {
        e.prev := null;
        e.next := head;
        head.prev := e;
        head := e;
      }
      elems := [e] + elems;
    }

    // The new head keeps its prev, now a node that is on the list no more.
    method PopFront() returns (e: Node?)
      requires Valid()
      modifies this, elems
      ensures Valid()
      ensures old(elems) == [] ==> e == null && elems == []
      ensures old(elems) != [] ==> e == old(elems[0]) && elems == old(elems[1..]) && e !in elems && e.next == null
      ensures |old(elems)| > 1 ==> elems[0].prev == e
    {
      if head == null {
        return null;
      }
      if head == tail {
        assert |elems| == 1;
        e := head;
        head := null;
        tail := null;
      } else {
        e := head;
        head := head.next;
        e.next := null;
      }
      elems := elems[1..];
    }

    method Find(e: Node) returns (found: bool)
      requires Valid()
      ensures found <==> e in elems
    {
      var x := head;
      ghost var i := 0;
      while x != null
        invariant 0 <= i <= |elems|
        invariant x == if i < |elems| then elems[i] else null
        invariant e !in elems[..i]
        decreases |elems| - i
      {
        if x == e {
          return true;
        }
        x := x.next;
        i := i + 1;
      }
      return false;
    }

    // What the links say around place k.
    lemma Neighbours(k: nat)
      requires Valid() && k < |elems|
      ensures 0 < k ==> elems[k].prev == elems[k - 1] && elems[k - 1].next == elems[k]
      ensures k + 1 < |elems| ==> elems[k].next == elems[k + 1] && elems[k + 1].prev == elems[k]
      ensures (elems[k] == head <==> k == 0) && (elems[k] == tail <==> k == |elems| - 1)
      ensures k + 1 == |elems| ==> elems[k].next == null
    {
      if 0 < k {
        assert elems[k - 1].next == elems[k - 1 + 1];
      }
      if k + 1 < |elems| {
        assert elems[k + 1].prev == elems[k];
      }
    }

    method Delete(e: Node)
      requires Valid() && e in elems
      modifies this, elems
      ensures Valid() && elems == Without(old(elems), e)
    {
      hide Without, Cut;
      ghost var k :| 0 <= k < |elems| && elems[k] == e;
      WithoutAt(elems, e, k);
      Neighbours(k);
      if head == tail {
        CutAt(elems, k);
        head := null;
        tail := null;
        elems := Cut(elems, k);
      } else if head == e {
        DeleteHead(e);
      } else if tail == e {
        DeleteTail(e);
      } else {
        DeleteInside(e, k);
      }
    }

    // The three ways of taking a node from a list of several: the first, the last, and any other.

    method DeleteHead(e: Node)
      requires Valid() && |elems| > 1 && elems[0] == e
      modifies this, elems
      ensures Valid() && elems == Cut(old(elems), 0)
    {
      hide Cut;
      CutAt(elems, 0);
      Neighbours(0);
      head := e.next;
      head.prev := null;
      elems := Cut(elems, 0);
    }

    method DeleteTail(e: Node)
      requires Valid() && |elems| > 1 && elems[|elems| - 1] == e
      modifies this, elems
      ensures Valid() && elems == Cut(old(elems), |old(elems)| - 1)
    {
      hide Cut;
      CutAt(elems, |elems| - 1);
      Neighbours(|elems| - 1);
      tail := e.prev;
      tail.next := null;
      elems := Cut(elems, |elems| - 1);
    }

    method DeleteInside(e: Node, ghost k: nat)
      requires Valid() && 0 < k < |elems| - 1 && elems[k] == e
      modifies this, elems
      ensures Valid() && elems == Cut(old(elems), k)
    {
      hide Cut;
      CutAt(elems, k);
      Neighbours(k);
      e.prev.next := e.next;
      e.next.prev := e.prev;
      e.prev := null;
      e.next := null;
      elems := Cut(elems, k);
    }

    // Moves e one place towards the front.
    method ListForward(e: Node, ghost k: nat)
      requires Valid() && 0 < k < |elems| && elems[k] == e
      modifies this, elems
      ensures Valid() && elems == Forwarded(old(elems), k)
    {
      hide Forwarded;
      ForwardedAt(elems, k);
      Neighbours(k);
      Neighbours(k - 1);
      var ePrev := e.prev;
      if tail == e {
        tail := ePrev;
      } else {
        e.next.prev := ePrev;
      }
      if head == ePrev {
        head := e;
      } else {
        ePrev.prev.next := e;
      }
      e.prev := ePrev.prev;
      ePrev.next := e.next;
      e.next := ePrev;
      ePrev.prev := e;
      elems := Forwarded(elems, k);
    }
  }

  // In a list without repeats, deleting is cutting out the one place.
  lemma {:induction false} WithoutAt<T>(s: seq<T>, x: T, k: nat)
    requires NoRepeats(s) && k < |s| && s[k] == x
    ensures Without(s, x) == Cut(s, k)
  {
    if k > 0 {
      HeadNotInTail(s);
      WithoutAt(s[1..], x, k - 1);
      CutBehind(s, k);
      assert s[0] != s[k];
    }
  }

  lemma CutBehind<T>(s: seq<T>, k: nat)
    requires 0 < k < |s|
    ensures [s[0]] + Cut(s[1..], k - 1) == Cut(s, k)
  {
    assert s[1..][..k - 1] == s[1..k] && [s[0]] + s[1..k] == s[..k];
  }

  lemma CutAt<T>(s: seq<T>, k: nat)
    requires NoRepeats(s) && k < |s|
    ensures NoRepeats(Cut(s, k)) && |Cut(s, k)| == |s| - 1
    ensures forall i | 0 <= i < k :: Cut(s, k)[i] == s[i]
    ensures forall i | k <= i < |s| - 1 :: Cut(s, k)[i] == s[i + 1]
  {
  }

  lemma ForwardedAt<T>(s: seq<T>, k: nat)
    requires NoRepeats(s) && 0 < k < |s|
    ensures NoRepeats(Forwarded(s, k)) && |Forwarded(s, k)| == |s|
    ensures Forwarded(s, k)[k - 1] == s[k] && Forwarded(s, k)[k] == s[k - 1]
    ensures forall i | 0 <= i < |s| && i != k && i != k - 1 :: Forwarded(s, k)[i] == s[i]
  {
  }

  // Moving an element forward loses and repeats nothing, and swaps it with the one before it.
  lemma ForwardedSwaps<T>(s: seq<T>, i: nat)
    requires 0 < i < |s|
    ensures multiset(Forwarded(s, i)) == multiset(s) && |Forwarded(s, i)| == |s|
    ensures Forwarded(s, i)[i - 1] == s[i] && Forwarded(s, i)[i] == s[i - 1]
    ensures Forwarded(Forwarded(s, i), i) == s
  {
    assert s == s[..i - 1] + [s[i - 1], s[i]] + s[i + 1..];
  }
}
