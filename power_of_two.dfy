/** `next_power_of_2`, the OR-shift bit trick that sizes the FFT buffers of
    both Shifter revisions, over 64-bit `std::size_t`. Values are naturals
    below 2^64; the decrement and increment wrap explicitly. */
module PowerOfTwo {
  import opened Bits

  /** Bits in a `std::size_t`. */
  const WordBits: nat := 64

  /** 2^64: one past the largest `std::size_t`. */
  function SizeLimit(): (m: nat)
    ensures m == 2 * Pow2(WordBits - 1)
  {
    Pow2(WordBits)
  }

  ghost predicate IsPowerOfTwo(p: nat)
  {
    exists k: nat :: p == Pow2(k)
  }

  /** What `next_power_of_2(size)` returns: the power of two in
      [size, 2 * size) when that fits in 64 bits, and 0 (wrapped) otherwise. */
  ghost predicate IsNextPowerOf2(size: nat, r: nat)
  {
    if 1 <= size <= Pow2(WordBits - 1) then IsPowerOfTwo(r) && size <= r < 2 * size
    else r == 0
  }

  /** Bit k of x is set iff some bit of y in k .. k + w - 1 is: x is y with
      every one bit copied into the w - 1 positions below it. */
  ghost predicate Smeared(x: nat, y: nat, w: nat)
  {
    forall k: nat :: Bit(x, k) <==> AnyBit(y, k, w)
  }

  lemma SmearStep(x: nat, y: nat, w: nat)
    requires Smeared(x, y, w)
    ensures Smeared(Or(x, Shr(x, w)), y, 2 * w)
  {
    forall k: nat
      ensures Bit(Or(x, Shr(x, w)), k) <==> AnyBit(y, k, 2 * w)
    {
      BitOfOr(x, Shr(x, w), k);
      BitOfShr(x, w, k);
      AnyBitSplit(y, k, w, w);
    }
  }

  /** Smeared over a 64-bit window, a value below 2^64 becomes the mask
      2^L - 1 of its bit length L. */
  lemma SmearedIsMask(x: nat, y: nat)
    requires Smeared(x, y, WordBits) && y < SizeLimit()
    ensures BitLength(y) <= WordBits
    ensures x == Pow2(BitLength(y)) - 1
  {
    BitLengthAtMost(y, WordBits);
    forall k: nat
      ensures Bit(x, k) <==> Bit(Pow2(BitLength(y)) - 1, k)
    {
      SmearedBit(x, y, WordBits, k);
    }
    BitsEqual(x, Pow2(BitLength(y)) - 1);
  }

  /** One bit of SmearedIsMask: bit k is set exactly below the bit length. */
  lemma SmearedBit(x: nat, y: nat, w: nat, k: nat)
    requires Smeared(x, y, w) && BitLength(y) <= w
    ensures Bit(x, k) <==> Bit(Pow2(BitLength(y)) - 1, k)
  {
    var len := BitLength(y);
    BitsOfMask(len, k);
    assert Bit(x, k) <==> AnyBit(y, k, w);
    if k < len {
      TopBit(y);
      AnyBitWitness(y, k, w, len - 1);
    } else {
      AnyBitAboveLength(y, k, w);
    }
  }

  /** The shifts 1, 2, 4, 8, 16, 32 of the loop, by their exponent. */
  lemma Pow2Small(j: nat)
    requires j <= 6
    ensures Pow2(j) == [1, 2, 4, 8, 16, 32, 64][j]
  {
    if j > 0 {
      Pow2Small(j - 1);
    }
  }

  lemma ModBelow(a: int, m: int)
    requires 0 <= a < m
    ensures a % m == a
  {
  }

  lemma ModMinusOne(m: int)
    requires m > 0
    ensures (-1) % m == m - 1
  {
  }

  /** The wrapped decrement `size - 1` of a size_t. */
  lemma Decrement(size: nat)
    requires size < SizeLimit()
    ensures size >= 1 ==> (size - 1) % SizeLimit() == size - 1
    ensures size == 0 ==> (size - 1) % SizeLimit() == SizeLimit() - 1
  {
    if size >= 1 {
      ModBelow(size - 1, SizeLimit());
    } else {
      ModMinusOne(SizeLimit());
    }
  }

  /** The wrapped increment of the mask 2^L - 1: 2^L, or 0 for L = 64. */
  lemma Increment(len: nat)
    requires len <= WordBits
    ensures len < WordBits ==> Pow2(len) % SizeLimit() == Pow2(len)
    ensures len == WordBits ==> Pow2(len) % SizeLimit() == 0
  {
    if len < WordBits {
      Pow2Grows(len, WordBits);
      ModBelow(Pow2(len), SizeLimit());
    }
  }

  /** A value below 2^n has at most n significant bits, one in [2^n, 2^(n+1))
      exactly n + 1. */
  lemma BitLengthAgainst(y: nat, n: nat)
    requires y < Pow2(n + 1)
    ensures y < Pow2(n) ==> BitLength(y) <= n
    ensures y >= Pow2(n) ==> BitLength(y) == n + 1
  {
    var len := BitLength(y);
    BitLengthBounds(y);
    BitLengthAtMost(y, n + 1);
    if y < Pow2(n) {
      BitLengthAtMost(y, n);
    } else if len < n {
      Pow2Grows(len, n);
    }
  }

  /** For 1 <= size <= 2^63, the bit length L of size - 1 gives the result
      2^L. */
  lemma InRange(size: nat, len: nat)
    requires 1 <= size <= Pow2(WordBits - 1) && len == BitLength(size - 1) && len <= WordBits - 1
    ensures IsNextPowerOf2(size, Pow2(len))
  {
    BitLengthBounds(size - 1);
    assert size <= Pow2(len);
    if len > 0 {
      assert Pow2(len) == 2 * Pow2(len - 1);
    }
    assert Pow2(len) < 2 * size;
    assert IsPowerOfTwo(Pow2(len));
  }

  /** Outside that range, size - 1 (wrapped) is at least 2^63. */
  lemma OutOfRange(size: nat)
    requires size < SizeLimit() && !(1 <= size <= Pow2(WordBits - 1))
    ensures Pow2(WordBits - 1) <= (size - 1) % SizeLimit() < SizeLimit()
  {
    Decrement(size);
  }

  /** `next_power_of_2`: decrement, OR the value with itself shifted right by
      1, 2, 4, 8, 16 and 32, increment. */
  method NextPowerOf2(size: nat) returns (r: nat)
    requires size < SizeLimit()
    ensures IsNextPowerOf2(size, r)
  {
    var x: nat := (size - 1) % SizeLimit();
    ghost var y := x;
    var i: nat := 1;
    ghost var j: nat := 0;
    assert Smeared(x, y, 1) by {
      forall k: nat
        ensures Bit(x, k) <==> AnyBit(y, k, 1)
      {
      }
    }
    while i < 64
      invariant j <= 6 && i == Pow2(j)
      invariant Smeared(x, y, i)
      decreases 6 - j
    {
      Pow2Small(j);
      SmearStep(x, y, i);
      x := Or(x, Shr(x, i));
      i, j := i * 2, j + 1;
    }
    Pow2Small(j);
    r := (x + 1) % SizeLimit();
    Finish(size, x, y);
  }

  /** After the last shift, the increment yields the result. */
  lemma Finish(size: nat, x: nat, y: nat)
    requires size < SizeLimit() && y == (size - 1) % SizeLimit()
    requires Smeared(x, y, WordBits)
    ensures IsNextPowerOf2(size, (x + 1) % SizeLimit())
  {
    Decrement(size);
    SmearedIsMask(x, y);
    if 1 <= size <= Pow2(WordBits - 1) {
      FinishInRange(size, x, y);
    } else {
      FinishOutOfRange(size, x, y);
    }
  }

  lemma FinishInRange(size: nat, x: nat, y: nat)
    requires 1 <= size <= Pow2(WordBits - 1) && y == size - 1
    requires x == Pow2(BitLength(y)) - 1
    ensures IsNextPowerOf2(size, (x + 1) % SizeLimit())
  {
    BitLengthAgainst(y, WordBits - 1);
    Increment(BitLength(y));
    InRange(size, BitLength(y));
  }

  lemma FinishOutOfRange(size: nat, x: nat, y: nat)
    requires size < SizeLimit() && !(1 <= size <= Pow2(WordBits - 1))
    requires y == (size - 1) % SizeLimit()
    requires x == Pow2(BitLength(y)) - 1
    ensures IsNextPowerOf2(size, (x + 1) % SizeLimit())
  {
    OutOfRange(size);
    BitLengthAgainst(y, WordBits - 1);
    Increment(BitLength(y));
  }

  /** Only one power of two lies in [size, 2 * size). */
  lemma PowerOfTwoInRangeUnique(size: nat, p: nat, q: nat)
    requires IsPowerOfTwo(p) && size <= p < 2 * size
    requires IsPowerOfTwo(q) && size <= q < 2 * size
    ensures p == q
  {
    var a: nat :| p == Pow2(a);
    var b: nat :| q == Pow2(b);
    if a < b {
      Pow2Grows(a, b);
    } else if b < a {
      Pow2Grows(b, a);
    }
  }

  /** The result is the least power of two at or above size. */
  lemma NextPowerOf2IsLeast(size: nat, r: nat, p: nat)
    requires 1 <= size <= Pow2(WordBits - 1) && IsNextPowerOf2(size, r)
    requires IsPowerOfTwo(p) && size <= p
    ensures r <= p
  {
    var a: nat :| r == Pow2(a);
    var b: nat :| p == Pow2(b);
    if b < a {
      Pow2Grows(b, a);
    } else if a < b {
      Pow2Grows(a, b);
    }
  }

  /** A power of two is returned unchanged. */
  lemma NextPowerOf2FixesPowers(size: nat, r: nat)
    requires IsPowerOfTwo(size) && size <= Pow2(WordBits - 1) && IsNextPowerOf2(size, r)
    ensures r == size
  {
    var a: nat :| size == Pow2(a);
    PowerOfTwoInRangeUnique(size, size, r);
  }

  /** Idempotence: applied to its own result, next_power_of_2 changes
      nothing. */
  lemma NextPowerOf2Idempotent(size: nat, r: nat, r2: nat)
    requires 1 <= size <= Pow2(WordBits - 1) && IsNextPowerOf2(size, r)
    requires IsNextPowerOf2(r, r2)
    ensures r2 == r
  {
    if r > Pow2(WordBits - 1) {
      var a: nat :| r == Pow2(a);
      if a <= WordBits - 1 {
        if a < WordBits - 1 {
          Pow2Grows(a, WordBits - 1);
        }
        assert false;
      }
      Pow2Grows(WordBits - 1, a);
      assert false;
    }
    NextPowerOf2FixesPowers(r, r2);
  }

  /** `extended_size_ = next_power_of_2(2 * size_ - 1)`, the product computed
      in `std::size_t`. */
  method ExtendedSize(size: nat) returns (extended: nat)
    requires size < SizeLimit()
    ensures 1 <= size <= Pow2(WordBits - 2) ==> IsPowerOfTwo(extended) && 2 * size - 1 <= extended < 2 * (2 * size - 1)
    ensures size == 0 ==> extended == 0
  {
    var argument := (2 * size - 1) % SizeLimit();
    if size == 0 {
      ModMinusOne(SizeLimit());
    }
    extended := NextPowerOf2(argument);
    if 1 <= size <= Pow2(WordBits - 2) {
      assert Pow2(WordBits - 1) == 2 * Pow2(WordBits - 2);
      ModBelow(2 * size - 1, SizeLimit());
    }
  }
}
