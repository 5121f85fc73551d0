/** Shifts of natural numbers, the way the kernel's index arithmetic uses them. */
module Bits {

  // x >> n
  function Shr(x: nat, n: nat): nat {
    if n == 0 then x else Shr(x, n - 1) / 2
  }

  // x << n
  function Shl(x: nat, n: nat): nat {
    if n == 0 then x else 2 * Shl(x, n - 1)
  }

  // x & (1 << n) is non-zero
  predicate TestBit(x: nat, n: nat) {
    Shr(x, n) % 2 == 1
  }

  // x | (1 << n)
  function SetBit(x: nat, n: nat): nat {
    if TestBit(x, n) then x else x + Shl(1, n)
  }

  // x & ~(1 << n)
  function ClearBit(x: nat, n: nat): nat {
    if TestBit(x, n) then TestBitBound(x, n); x - Shl(1, n) else x
  }

  // x ^ (1 << n)
  function FlipBit(x: nat, n: nat): nat {
    if TestBit(x, n) then ClearBit(x, n) else SetBit(x, n)
  }

  lemma {:induction false} ShlAdd(a: nat, b: nat, n: nat)
    ensures Shl(a + b, n) == Shl(a, n) + Shl(b, n)
  {
    if n > 0 {
      ShlAdd(a, b, n - 1);
    }
  }

  lemma {:induction false} ShlPositive(a: nat, n: nat)
    ensures Shl(a, n) >= a
    ensures a < Shl(a + 1, n)
  {
    if n > 0 {
      ShlPositive(a, n - 1);
    }
  }

  lemma {:induction false} ShlTwice(a: nat, n: nat)
    ensures Shl(2 * a, n) == Shl(a, n + 1)
  {
    if n > 0 {
      ShlTwice(a, n - 1);
    }
  }

  lemma {:induction false} ShlShl(a: nat, m: nat, n: nat)
    ensures Shl(Shl(a, m), n) == Shl(a, m + n)
  {
    if n > 0 {
      ShlShl(a, m, n - 1);
    }
  }

  lemma {:induction false} ShlMonotone(a: nat, b: nat, n: nat)
    requires a <= b
    ensures Shl(a, n) <= Shl(b, n)
    ensures a < b ==> Shl(a, n) < Shl(b, n)
  {
    if n > 0 {
      ShlMonotone(a, b, n - 1);
    }
  }

  lemma {:induction false} ShrMonotone(a: nat, b: nat, n: nat)
    requires a <= b
    ensures Shr(a, n) <= Shr(b, n)
  {
    if n > 0 {
      ShrMonotone(a, b, n - 1);
    }
  }

  lemma {:induction false} ShrShr(x: nat, m: nat, n: nat)
    ensures Shr(Shr(x, m), n) == Shr(x, m + n)
  {
    if n > 0 {
      ShrShr(x, m, n - 1);
    }
  }

  // Shifting right can also take the low bit off first.
  lemma ShrInner(x: nat, n: nat)
    ensures Shr(x, n + 1) == Shr(x / 2, n)
  {
    ShrShr(x, 1, n);
    assert Shr(x, 1) == Shr(x, 0) / 2 == x / 2;
  }

  // A number is the shifted quotient plus a remainder that fits in the low bits.
  lemma {:induction false} ShrBounds(x: nat, n: nat)
    ensures Shl(Shr(x, n), n) <= x < Shl(Shr(x, n) + 1, n)
  {
    if n > 0 {
      ShrBounds(x, n - 1);
      var q := Shr(x, n - 1);
      ShlTwice(q / 2, n - 1);
      ShlTwice(q / 2 + 1, n - 1);
      ShlMonotone(2 * (q / 2), q, n - 1);
      ShlMonotone(q + 1, 2 * (q / 2 + 1), n - 1);
    }
  }

  // The quotient is the only number with that property.
  lemma ShrUnique(x: nat, k: nat, n: nat)
    requires Shl(k, n) <= x < Shl(k + 1, n)
    ensures Shr(x, n) == k
  {
    ShrBounds(x, n);
    var q := Shr(x, n);
    if q < k {
      ShlMonotone(q + 1, k, n);
    } else if k < q {
      ShlMonotone(k + 1, q, n);
    }
  }

  lemma ShrShl(k: nat, n: nat)
    ensures Shr(Shl(k, n), n) == k
  {
    ShlMonotone(k, k + 1, n);
    ShrUnique(Shl(k, n), k, n);
  }

  lemma TestBitBound(x: nat, n: nat)
    requires TestBit(x, n)
    ensures Shl(1, n) <= x
  {
    ShrBounds(x, n);
    ShlMonotone(1, Shr(x, n), n);
  }

  // What flipping and clearing bit n do to a number whose lower bits are zero.
  lemma BitOfShl(k: nat, n: nat)
    ensures TestBit(Shl(k, n), n) <==> k % 2 == 1
    ensures FlipBit(Shl(k, n), n) == Shl(if k % 2 == 0 then k + 1 else k - 1, n)
    ensures ClearBit(Shl(k, n), n) == Shl(k / 2, n + 1)
  {
    ShrShl(k, n);
    ShlTwice(k / 2, n);
    if k % 2 == 0 {
      ShlAdd(k, 1, n);
    } else {
      ShlAdd(k - 1, 1, n);
    }
  }

  // ---------- one bit at a time ----------

  lemma TestLowBit(x: nat)
    ensures TestBit(x, 0) <==> x % 2 == 1
    ensures Shl(1, 0) == 1
  {
  }

  lemma TestInner(x: nat, n: nat)
    requires n > 0
    ensures TestBit(x, n) <==> TestBit(x / 2, n - 1)
    ensures Shl(1, n) == 2 * Shl(1, n - 1)
  {
    ShrInner(x, n - 1);
  }

  lemma Halves(x: nat, y: nat)
    ensures (x + 2 * y) / 2 == x / 2 + y && (x + 2 * y) % 2 == x % 2
    ensures 2 * y <= x ==> (x - 2 * y) / 2 == x / 2 - y && (x - 2 * y) % 2 == x % 2
  {
  }

  lemma {:induction false} SetBitTests(x: nat, n: nat, m: nat)
    ensures TestBit(SetBit(x, n), m) <==> m == n || TestBit(x, m)
  {
    hide TestBit;
    var y := x + Shl(1, n);
    TestLowBit(x);
    TestLowBit(y);
    if m > 0 {
      TestInner(x, m);
      TestInner(y, m);
    }
    if n > 0 {
      TestInner(x, n);
      Halves(x, Shl(1, n - 1));
      if m > 0 {
        SetBitTests(x / 2, n - 1, m - 1);
      }
    }
  }

  lemma {:induction false} ClearBitTests(x: nat, n: nat, m: nat)
    ensures TestBit(ClearBit(x, n), m) <==> m != n && TestBit(x, m)
  {
    hide TestBit;
    if TestBit(x, n) {
      TestBitBound(x, n);
      var y := x - Shl(1, n);
      TestLowBit(x);
      TestLowBit(y);
      if m > 0 {
        TestInner(x, m);
        TestInner(y, m);
      }
      if n > 0 {
        TestInner(x, n);
        Halves(x, Shl(1, n - 1));
        if m > 0 {
          ClearBitTests(x / 2, n - 1, m - 1);
        }
      }
    }
  }

  // x, and x with something set, below 2 * m
  lemma BelowTwice(x: nat, y: nat, m: nat)
    requires x < 2 * m
    ensures x / 2 < m && (x % 2 != 1 ==> x + 1 < 2 * m)
    ensures x / 2 + y < m ==> x + 2 * y < 2 * m
  {
  }

  // Setting a bit below k keeps a number below 1 << k.
  lemma {:induction false} SetBitFits(x: nat, n: nat, k: nat)
    requires x < Shl(1, k) && n < k
    ensures SetBit(x, n) < Shl(1, k)
  {
    hide TestBit, Shl;
    TestInner(x, k);
    if !TestBit(x, n) {
      if n == 0 {
        TestLowBit(x);
        BelowTwice(x, 0, Shl(1, k - 1));
      } else {
        TestInner(x, n);
        BelowTwice(x, Shl(1, n - 1), Shl(1, k - 1));
        SetBitFits(x / 2, n - 1, k - 1);
      }
    }
  }

  // A low part of k bits and a high part side by side.
  lemma {:induction false} TestBitConcat(lo: nat, hi: nat, k: nat, i: nat)
    requires lo < Shl(1, k)
    ensures TestBit(lo + Shl(hi, k), i) <==> if i < k then TestBit(lo, i) else TestBit(hi, i - k)
  {
    if k > 0 {
      if i > 0 {
        ShrInner(lo + Shl(hi, k), i - 1);
        ShrInner(lo, i - 1);
        assert (lo + Shl(hi, k)) / 2 == lo / 2 + Shl(hi, k - 1);
        TestBitConcat(lo / 2, hi, k - 1, i - 1);
      }
    }
  }

  lemma {:induction false} AllOnes(k: nat, i: nat)
    requires i < k
    ensures Shl(1, k) >= 1 && TestBit(Shl(1, k) - 1, i)
  {
    ShlPositive(1, k);
    ShlPositive(1, k - 1);
    if i > 0 {
      ShrInner(Shl(1, k) - 1, i - 1);
      assert (Shl(1, k) - 1) / 2 == Shl(1, k - 1) - 1;
      AllOnes(k - 1, i - 1);
    }
  }
}
