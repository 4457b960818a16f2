/** Bit operations on non-negative integers: the C++ `<<`, `|`, `&` and
    `__builtin_parity` as used by the m-sequence register. The register never
    exceeds 14 bits, so unbounded naturals represent the 32-bit `int` exactly. */
module Bits {

  /** 2^k, i.e. `1 << k`. */
  function Pow2(k: nat): (p: nat)
    ensures p >= 1
  {
    if k == 0 then 1 else 2 * Pow2(k - 1)
  }

  /** Bit k of x, bit 0 being the least significant. */
  predicate Bit(x: nat, k: nat)
  {
    if k == 0 then x % 2 == 1 else Bit(x / 2, k - 1)
  }

  /** Bitwise OR, written bit by bit from the least significant end. */
  function Or(a: nat, b: nat): nat
    decreases a + b
  {
    if a == 0 then b
    else if b == 0 then a
    else 2 * Or(a / 2, b / 2) + (if a % 2 == 1 || b % 2 == 1 then 1 else 0)
  }

  /** Bitwise AND. */
  function And(a: nat, b: nat): nat
    decreases a
  {
    if a == 0 || b == 0 then 0
    else 2 * And(a / 2, b / 2) + (if a % 2 == 1 && b % 2 == 1 then 1 else 0)
  }

  /** `__builtin_parity`: true iff x has an odd number of one bits. */
  predicate Parity(x: nat)
  {
    if x == 0 then false else (x % 2 == 1) != Parity(x / 2)
  }

  lemma {:induction false} BitOfZero(k: nat)
    ensures !Bit(0, k)
  {
    if k > 0 {
      BitOfZero(k - 1);
    }
  }

  /** Bit k of `a | b` is set iff it is set in a or in b. */
  lemma {:induction false} BitOfOr(a: nat, b: nat, k: nat)
    ensures Bit(Or(a, b), k) <==> Bit(a, k) || Bit(b, k)
  {
    if a == 0 {
      BitOfZero(k);
    } else if b == 0 {
      BitOfZero(k);
    } else if k > 0 {
      assert Or(a, b) / 2 == Or(a / 2, b / 2);
      BitOfOr(a / 2, b / 2, k - 1);
    }
  }

  /** `1 << s` has exactly bit s set. */
  lemma {:induction false} BitOfPow2(s: nat, k: nat)
    ensures Bit(Pow2(s), k) <==> s == k
  {
    if s == 0 {
      if k > 0 {
        BitOfZero(k - 1);
      }
    } else if k > 0 {
      assert Pow2(s) / 2 == Pow2(s - 1);
      BitOfPow2(s - 1, k - 1);
    } else {
      assert Pow2(s) % 2 == 0;
    }
  }

  /** OR with a power of two above every bit of a is addition. */
  lemma {:induction false} OrHighBit(a: nat, k: nat)
    requires a < Pow2(k)
    ensures Or(a, Pow2(k)) == a + Pow2(k)
  {
    if a != 0 {
      var p := Pow2(k - 1);
      assert Pow2(k) == 2 * p;
      assert a / 2 < p;
      OrHighBit(a / 2, k - 1);
      assert Or(a, 2 * p) == 2 * Or(a / 2, p) + a % 2;
    }
  }

  /** OR of two values below 2^n stays below 2^n. */
  lemma {:induction false} OrBelow(a: nat, b: nat, n: nat)
    requires a < Pow2(n) && b < Pow2(n)
    ensures Or(a, b) < Pow2(n)
    decreases n
  {
    if a != 0 && b != 0 {
      var p := Pow2(n - 1);
      assert Pow2(n) == 2 * p;
      assert a / 2 < p && b / 2 < p;
      OrBelow(a / 2, b / 2, n - 1);
    }
  }

  /** The parity of `1 & c` is the lowest bit of c. */
  lemma ParityAndOne(c: nat)
    ensures Parity(And(1, c)) <==> c % 2 == 1
  {
  }

  /** For odd c, flipping the lowest bit of the register flips the parity of
      `reg & c`. */
  lemma ParityAndFlipsLowBit(a: nat, c: nat)
    requires a % 2 == 0 && c % 2 == 1
    ensures Parity(And(a + 1, c)) != Parity(And(a, c))
  {
    var m := And(a / 2, c / 2);
    assert (a + 1) / 2 == a / 2;
    assert And(a + 1, c) == 2 * m + 1;
    assert And(a, c) == 2 * m;
    assert Parity(2 * m + 1) != Parity(m);
    if m != 0 {
      assert Parity(2 * m) == Parity(m);
    }
  }

  /** `x >> i`: drop the i lowest bits. */
  function Shr(x: nat, i: nat): nat
  {
    if i == 0 then x else Shr(x / 2, i - 1)
  }

  /** Bit k of `x >> i` is bit k + i of x. */
  lemma {:induction false} BitOfShr(x: nat, i: nat, k: nat)
    ensures Bit(Shr(x, i), k) <==> Bit(x, k + i)
  {
    if i > 0 {
      BitOfShr(x / 2, i - 1, k);
    }
  }

  /** Some bit of y in positions lo .. lo + w - 1 is set. */
  predicate AnyBit(y: nat, lo: nat, w: nat)
    decreases w
  {
    w > 0 && (Bit(y, lo) || AnyBit(y, lo + 1, w - 1))
  }

  lemma {:induction false} AnyBitSplit(y: nat, lo: nat, a: nat, b: nat)
    ensures AnyBit(y, lo, a + b) <==> AnyBit(y, lo, a) || AnyBit(y, lo + a, b)
    decreases a
  {
    if a > 0 {
      AnyBitSplit(y, lo + 1, a - 1, b);
    }
  }

  lemma {:induction false} AnyBitWitness(y: nat, lo: nat, w: nat, t: nat)
    requires lo <= t < lo + w && Bit(y, t)
    ensures AnyBit(y, lo, w)
    decreases w
  {
    if t > lo {
      AnyBitWitness(y, lo + 1, w - 1, t);
    }
  }

  /** Number of significant bits of y (0 for y = 0). */
  function BitLength(y: nat): nat
  {
    if y == 0 then 0 else 1 + BitLength(y / 2)
  }

  lemma {:induction false} BitAboveLength(y: nat, t: nat)
    requires t >= BitLength(y)
    ensures !Bit(y, t)
  {
    if y == 0 {
      BitOfZero(t);
    } else {
      BitAboveLength(y / 2, t - 1);
    }
  }

  lemma {:induction false} AnyBitAboveLength(y: nat, lo: nat, w: nat)
    requires lo >= BitLength(y)
    ensures !AnyBit(y, lo, w)
    decreases w
  {
    if w > 0 {
      BitAboveLength(y, lo);
      AnyBitAboveLength(y, lo + 1, w - 1);
    }
  }

  lemma {:induction false} TopBit(y: nat)
    requires y > 0
    ensures Bit(y, BitLength(y) - 1)
  {
    if y / 2 > 0 {
      TopBit(y / 2);
    }
  }

  /** 2^(L-1) <= y < 2^L for L the bit length of a positive y. */
  lemma {:induction false} BitLengthBounds(y: nat)
    ensures y < Pow2(BitLength(y))
    ensures y > 0 ==> Pow2(BitLength(y) - 1) <= y
  {
    if y > 0 {
      BitLengthBounds(y / 2);
    }
  }

  lemma {:induction false} Pow2Grows(a: nat, b: nat)
    requires a < b
    ensures 2 * Pow2(a) <= Pow2(b)
    decreases b
  {
    if a + 1 < b {
      Pow2Grows(a, b - 1);
    }
  }

  /** 2^(a + b) = 2^a * 2^b. */
  lemma {:induction false} Pow2Add(a: nat, b: nat)
    ensures Pow2(a + b) == Pow2(a) * Pow2(b)
  {
    if b > 0 {
      Pow2Add(a, b - 1);
      assert Pow2(a + b) == 2 * Pow2(a + b - 1);
    }
  }

  lemma Square(a: nat, p: nat)
    requires Pow2(a) == p
    ensures Pow2(2 * a) == p * p
  {
    Pow2Add(a, a);
  }

  /** Every C++ `int` is smaller in magnitude than 2^w for w >= 32. */
  lemma IntFitsHalfWord(w: nat)
    requires w >= 32
    ensures Pow2(w) >= 0x8000_0000
  {
    assert Pow2(1) == 2;
    Square(1, 2);
    Square(2, 4);
    Square(4, 16);
    Square(8, 256);
    Square(16, 65536);
    Pow2Grows(31, w);
  }

  lemma BitLengthAtMost(y: nat, n: nat)
    requires y < Pow2(n)
    ensures BitLength(y) <= n
  {
    BitLengthBounds(y);
    if y > 0 && BitLength(y) > n {
      Pow2Grows(n, BitLength(y));
    }
  }

  /** The mask 2^L - 1 has exactly the bits below L set. */
  lemma {:induction false} BitsOfMask(len: nat, k: nat)
    ensures Bit(Pow2(len) - 1, k) <==> k < len
  {
    if len == 0 {
      BitOfZero(k);
    } else if k > 0 {
      assert (Pow2(len) - 1) / 2 == Pow2(len - 1) - 1;
      BitsOfMask(len - 1, k - 1);
    }
  }

  /** Two naturals with the same bits are equal. */
  lemma {:induction false} BitsEqual(a: nat, b: nat)
    requires forall k :: Bit(a, k) <==> Bit(b, k)
    ensures a == b
    decreases a + b
  {
    assert Bit(a, 0) <==> Bit(b, 0);
    if a != 0 || b != 0 {
      forall k: nat
        ensures Bit(a / 2, k) <==> Bit(b / 2, k)
      {
        assert Bit(a, k + 1) <==> Bit(b, k + 1);
      }
      BitsEqual(a / 2, b / 2);
    }
  }
}
