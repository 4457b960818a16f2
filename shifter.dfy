/** The Shifter of `shifter.hpp` and `shifter.cpp`, the revision that
    correlates the two signals by multiplying the spectrum of the first with
    the complex conjugate of the spectrum of the second, keeps only the
    non-redundant half of each real-to-complex spectrum, and measures how far
    the main lobe of the correlation stands above its highest side lobe. */
module Shifting {
  import opened Wrappers
  import opened Floats
  import opened Bits
  import opened PowerOfTwo
  import opened Fft

  /** A C++ `int`. */
  newtype int32 = x: int | -0x8000_0000 <= x < 0x8000_0000

  /** The function-local `static int cnt` of `operator()`: one counter shared
      by every Shifter, starting at -1 and advanced at the start of every call. */
  class CallCounter {
    var count: int

    constructor()
      ensures count == -1
    {
      count := -1;
    }

    method Next()
      modifies this
      ensures count == old(count) + 1
    {
      count := count + 1;
    }
  }

  /** The check that found a non-finite value. */
  datatype Stage = LeftSpectrum | RightSpectrum | Product | CrossCorrelation

  /** The shift returned by `operator()`, with the two values that go into
      the logged main-to-side-lobe factor. */
  datatype Shift = Shift(offset: int, mainlobe: real, sidelobe: real)

  datatype Outcome = Shifted(shift: Shift) | NotFinite(stage: Stage)

  /** Element-wise products of a with the complex conjugate of b. */
  function ConjugateProducts(a: seq<Complex>, b: seq<Complex>): (p: seq<Complex>)
    requires |a| == |b|
    ensures |p| == |a|
    ensures forall i :: 0 <= i < |a| ==> p[i] == CMul(a[i], Conj(b[i]))
  {
    seq(|a|, i requires 0 <= i < |a| => CMul(a[i], Conj(b[i])))
  }

  /** The spectrumSize elements a real-to-complex transform of the
      zero-padded signal delivers. */
  function HalfSpectrum(forward: (seq<Float>, nat) -> Complex, signal: seq<Float>, extended: nat,
                        spectrumSize: nat): (a: seq<Complex>)
    requires |signal| <= extended && spectrumSize <= extended
    ensures |a| == spectrumSize
    ensures forall k :: 0 <= k < spectrumSize ==> a[k] == Spectrum(forward, signal, extended)[k]
  {
    Spectrum(forward, signal, extended)[..spectrumSize]
  }

  /** The inverse transform of the conjugate product, zero-padded to the
      extended size. */
  function CrossCorrelationOf(forward: (seq<Float>, nat) -> Complex, inverse: (seq<Complex>, nat) -> Float,
                              left: seq<Float>, right: seq<Float>, extended: nat, spectrumSize: nat): (c: seq<Float>)
    requires |left| <= extended && |right| <= extended && spectrumSize <= extended
    ensures |c| == extended
  {
    var p := ConjugateProducts(HalfSpectrum(forward, left, extended, spectrumSize),
                               HalfSpectrum(forward, right, extended, spectrumSize));
    Transform(inverse, Padded(p, extended, ZeroC))
  }

  /* ---------------------------------------------------------------------- */
  /* Circular distance and the side lobe                                    */
  /* ---------------------------------------------------------------------- */

  /** `a % n` after the signed difference a has been converted to
      `std::size_t`. */
  function UnsignedMod(a: int, n: nat): nat
    requires n >= 1
  {
    (a % SizeLimit()) % n
  }

  /** `std::min((i - m) % n, (m - i) % n)` with the C++ conversions. */
  function DistanceAsWritten(i: int, m: int, n: nat): nat
    requires n >= 1
  {
    var a := UnsignedMod(i - m, n);
    var b := UnsignedMod(m - i, n);
    if b < a then b else a
  }

  /** `distance >= oversampling_factor`: the int is converted to `std::size_t`. */
  predicate FarFromMainlobe(i: int, m: int, n: nat, oversampling: int32)
    requires n >= 1
  {
    DistanceAsWritten(i, m, n) >= (oversampling as int) % SizeLimit()
  }

  /** The number of steps between positions i and m on a ring of n. */
  function CircularDistance(i: int, m: int, n: nat): (d: nat)
    requires n >= 1
    ensures d < n && 2 * d <= n
    ensures d == 0 <==> (i - m) % n == 0
    ensures (i - m) % n == d || (m - i) % n == d
  {
    var a := (i - m) % n;
    var b := (m - i) % n;
    ModNegate(i - m, n);
    if b < a then b else a
  }

  lemma ModNegate(x: int, n: nat)
    requires n >= 1
    ensures x % n == 0 ==> (-x) % n == 0
    ensures x % n != 0 ==> (-x) % n == n - x % n
  {
    var q, r := x / n, x % n;
    assert x == n * q + r;
    if r == 0 {
      ModOfMultiple(-x, n, -q, 0);
    } else {
      ModOfMultiple(-x, n, -q - 1, n - r);
    }
  }

  /** Euclidean division is unique. */
  lemma ModOfMultiple(a: int, n: int, q: int, r: int)
    requires n >= 1 && a == n * q + r && 0 <= r < n
    ensures a % n == r
  {
    var q', r' := a / n, a % n;
    assert a == n * q' + r';
    assert n * (q - q') == r' - r by {
      assert n * q - n * q' == n * (q - q');
    }
    MulBound(n, q - q');
  }

  lemma MulBound(n: int, d: int)
    requires n >= 1
    ensures d >= 1 ==> n * d >= n
    ensures d <= -1 ==> n * d <= -n
  {
    if d >= 1 {
      assert n * d == n + n * (d - 1);
    } else if d <= -1 {
      assert n * d == -n + n * (d + 1);
    }
  }

  /** Reducing modulo a multiple of n first keeps the remainder modulo n. */
  lemma ModOfMod(x: int, n: int, m: int)
    requires n >= 1 && m >= 1
    ensures (x % (n * m)) % n == x % n
  {
    var s := n * m;
    var q, r := x / s, x % s;
    assert x == s * q + r;
    var q', r' := r / n, r % n;
    assert r == n * q' + r';
    assert x == n * (m * q + q') + r' by {
      assert s * q == n * (m * q);
    }
    ModOfMultiple(x, n, m * q + q', r');
  }

  /** A power of two no larger than 2^w divides 2^w. */
  lemma PowerOfTwoDivides(n: nat, w: nat) returns (m: nat)
    requires IsPowerOfTwo(n) && n <= Pow2(w)
    ensures m >= 1 && Pow2(w) == n * m
  {
    var k: nat :| n == Pow2(k);
    if k > w {
      Pow2Grows(w + 1, k);
    }
    Pow2Add(k, w - k);
    m := Pow2(w - k);
  }

  /** Converting to `std::size_t` first does not change the remainder
      modulo a power of two. */
  lemma WrapKeepsResidue(x: int, n: nat)
    requires IsPowerOfTwo(n) && n <= SizeLimit()
    ensures (x % SizeLimit()) % n == x % n
  {
    var m := PowerOfTwoDivides(n, WordBits);
    ModOfMod(x, n, m);
  }

  /** With the transform size a power of two, the distance as written is
      the circular distance; a negative oversampling factor becomes a huge
      unsigned value that no distance reaches. */
  lemma FarFromMainlobeIsCircular(i: int, m: int, n: nat, oversampling: int32)
    requires IsPowerOfTwo(n) && 1 <= n <= Pow2(WordBits - 1)
    ensures oversampling >= 0 ==>
      (FarFromMainlobe(i, m, n, oversampling) <==> CircularDistance(i, m, n) >= oversampling as int)
    ensures oversampling < 0 ==> !FarFromMainlobe(i, m, n, oversampling)
  {
    var half := Pow2(WordBits - 1);
    IntFitsHalfWord(WordBits - 1);
    WrapKeepsResidue(i - m, n);
    WrapKeepsResidue(m - i, n);
    assert DistanceAsWritten(i, m, n) == CircularDistance(i, m, n);
    var o := oversampling as int;
    if o >= 0 {
      ModBelow(o, SizeLimit());
    } else {
      ModOfMultiple(o, SizeLimit(), -1, SizeLimit() + o);
      assert o % SizeLimit() >= half;
    }
  }

  /** The side lobe after the loop has looked at the first k elements. */
  function SidelobeUpTo(c: seq<Float>, m: nat, oversampling: int32, k: nat): real
    requires AllFinite(c) && k <= |c|
  {
    if k == 0 then -MaxDouble()
    else
      var s := SidelobeUpTo(c, m, oversampling, k - 1);
      var value := Abs(c[k - 1]).value;
      if value > s && FarFromMainlobe(k - 1, m, |c|, oversampling) then value else s
  }

  /** The side lobe is the largest magnitude among the elements far enough
      from the main lobe, or the lowest double when no element is. */
  lemma {:induction false} SidelobeIsLargestFar(c: seq<Float>, m: nat, oversampling: int32, k: nat)
    requires AllFinite(c) && k <= |c|
    ensures forall i :: 0 <= i < k && FarFromMainlobe(i, m, |c|, oversampling) ==>
      Abs(c[i]).value <= SidelobeUpTo(c, m, oversampling, k)
    ensures SidelobeUpTo(c, m, oversampling, k) == -MaxDouble() ||
      exists i :: 0 <= i < k && FarFromMainlobe(i, m, |c|, oversampling) &&
        Abs(c[i]).value == SidelobeUpTo(c, m, oversampling, k)
    ensures (forall i :: 0 <= i < k ==> !FarFromMainlobe(i, m, |c|, oversampling)) ==>
      SidelobeUpTo(c, m, oversampling, k) == -MaxDouble()
  {
    if k > 0 {
      var j := k - 1;
      SidelobeIsLargestFar(c, m, oversampling, j);
      var s := SidelobeUpTo(c, m, oversampling, j);
      var s' := SidelobeUpTo(c, m, oversampling, k);
      var value := Abs(c[j]).value;
      var far := FarFromMainlobe(j, m, |c|, oversampling);
      if value > s && far {
        assert s' == value;
        forall i | 0 <= i < k && FarFromMainlobe(i, m, |c|, oversampling)
          ensures Abs(c[i]).value <= s'
        {
          if i < j {
            assert Abs(c[i]).value <= s;
          }
        }
      } else {
        assert s' == s;
        forall i | 0 <= i < k && FarFromMainlobe(i, m, |c|, oversampling)
          ensures Abs(c[i]).value <= s'
        {
          if i == j {
            assert !(value > s);
          }
        }
      }
    }
  }

  /** The side-lobe loop of `operator()`. */
  method Sidelobe(c: seq<Float>, m: nat, oversampling: int32) returns (s: real)
    requires AllFinite(c) && |c| >= 1
    ensures s == SidelobeUpTo(c, m, oversampling, |c|)
  {
    s := -MaxDouble();
    var i := 0;
    while i < |c|
      invariant 0 <= i <= |c|
      invariant s == SidelobeUpTo(c, m, oversampling, i)
    {
      var value := Abs(c[i]).value;
      if value > s {
        var a := UnsignedMod(i - m, |c|);
        var b := UnsignedMod(m - i, |c|);
        var distance := if b < a then b else a;
        if distance >= (oversampling as int) % SizeLimit() {
          s := value;
        }
      }
      i := i + 1;
    }
  }

  /** `sidelobe_factor < 3`, the condition for the warning that the
      synchronization probably did not work. Dividing by a zero side lobe
      gives an infinity of the main lobe's sign, or NaN for a zero main lobe. */
  predicate Doubtful(s: Shift)
  {
    if s.sidelobe == 0.0 then s.mainlobe < 0.0 else s.mainlobe / s.sidelobe < 3.0
  }

  /** When no element lies far enough from the main lobe, the factor is
      the main lobe divided by the lowest double, and the warning is always
      given. */
  lemma NoSidelobeIsDoubtful(s: Shift)
    requires s.sidelobe == -MaxDouble() && -MaxDouble() <= s.mainlobe <= MaxDouble()
    ensures Doubtful(s)
  {
    DivideByLowest(s.mainlobe, MaxDouble());
  }

  lemma DivideByLowest(a: real, d: real)
    requires d > 0.0 && -d <= a <= d
    ensures a / -d < 3.0
  {
    assert a / -d <= 1.0;
  }

  /** The main lobe index as a signed offset: indices from size on stand
      for negative lags. */
  function Wrapped(idx: nat, size: nat, extended: nat): int
  {
    if idx >= size then idx - extended else idx
  }

  /** The result of `operator()`: the first failing check, or the negated
      wrapped index of the first maximum of the cross-correlation. */
  function ShiftOf(size: nat, extended: nat, spectrumSize: nat, forward: (seq<Float>, nat) -> Complex,
                   inverse: (seq<Complex>, nat) -> Float, left: seq<Float>, right: seq<Float>,
                   oversampling: int32): Outcome
    requires |left| == size && |right| == size && 1 <= size <= extended && spectrumSize <= extended
  {
    var a := HalfSpectrum(forward, left, extended, spectrumSize);
    var b := HalfSpectrum(forward, right, extended, spectrumSize);
    if !AllFiniteComplex(a) then NotFinite(LeftSpectrum)
    else if !AllFiniteComplex(b) then NotFinite(RightSpectrum)
    else if !AllFiniteComplex(ConjugateProducts(a, b)) then NotFinite(Product)
    else
      var c := CrossCorrelationOf(forward, inverse, left, right, extended, spectrumSize);
      if !AllFinite(c) then NotFinite(CrossCorrelation)
      else
        var idx := MaxElementIndex(c);
        Shifted(Shift(-Wrapped(idx, size, extended), c[idx].value, SidelobeUpTo(c, idx, oversampling, extended)))
  }

  /** c holds its first maximum, value, at index idx, and every element is finite. */
  ghost predicate FirstMaximumAt(c: seq<Float>, idx: nat, value: real)
  {
    idx < |c| && AllFinite(c) && c[idx].value == value &&
    (forall k :: 0 <= k < |c| ==> c[k].value <= value) &&
    (forall k :: 0 <= k < idx ==> c[k].value < value)
  }

  /** s is the shift for the cross-correlation c with its first maximum at
      idx: the main lobe is that maximum, the offset is minus idx modulo the
      extended size, in [-(size - 1), extended - size], and the side lobe is
      at least every magnitude far enough from idx. */
  ghost predicate ShiftFits(c: seq<Float>, idx: nat, size: nat, extended: nat, oversampling: int32, s: Shift)
    requires |c| == extended
  {
    FirstMaximumAt(c, idx, s.mainlobe) &&
    -(size - 1) <= s.offset <= extended - size &&
    extended > 0 && (s.offset + idx) % extended == 0 &&
    (forall i :: 0 <= i < extended && FarFromMainlobe(i, idx, extended, oversampling) ==>
      Abs(c[i]).value <= s.sidelobe)
  }

  /** A successful shift is the negated index of the first maximum of the
      cross-correlation, taken modulo the extended size into
      [-(size - 1), extended - size]; the main lobe value is that maximum
      and the side lobe the largest magnitude far enough from it. */
  lemma ShiftRange(size: nat, extended: nat, spectrumSize: nat, forward: (seq<Float>, nat) -> Complex,
                   inverse: (seq<Complex>, nat) -> Float, left: seq<Float>, right: seq<Float>, oversampling: int32)
    requires |left| == size && |right| == size && 1 <= size <= extended && spectrumSize <= extended
    requires ShiftOf(size, extended, spectrumSize, forward, inverse, left, right, oversampling).Shifted?
    ensures var s := ShiftOf(size, extended, spectrumSize, forward, inverse, left, right, oversampling).shift;
      var c := CrossCorrelationOf(forward, inverse, left, right, extended, spectrumSize);
      ShiftFits(c, MaxElementIndex(c), size, extended, oversampling, s)
  {
    var s := ShiftOf(size, extended, spectrumSize, forward, inverse, left, right, oversampling).shift;
    var c := CrossCorrelationOf(forward, inverse, left, right, extended, spectrumSize);
    var idx := MaxElementIndex(c);
    assert AllFinite(c);
    assert s == Shift(-Wrapped(idx, size, extended), c[idx].value, SidelobeUpTo(c, idx, oversampling, extended));
    ShiftOfCorrelation(c, idx, size, extended, oversampling, s);
  }

  /** The shift built from a finite cross-correlation and its first maximum. */
  lemma ShiftOfCorrelation(c: seq<Float>, idx: nat, size: nat, extended: nat, oversampling: int32, s: Shift)
    requires AllFinite(c) && |c| == extended && 1 <= size <= extended && idx == MaxElementIndex(c)
    requires s == Shift(-Wrapped(idx, size, extended), c[idx].value, SidelobeUpTo(c, idx, oversampling, extended))
    ensures ShiftFits(c, idx, size, extended, oversampling, s)
  {
    assert FirstMaximumAt(c, idx, s.mainlobe);
    SidelobeIsLargestFar(c, idx, oversampling, extended);
    WrappedResidue(idx, size, extended);
  }

  /** The negated wrapped index is congruent to minus the index and lies
      in [-(size - 1), extended - size]. */
  lemma WrappedResidue(idx: nat, size: nat, extended: nat)
    requires 1 <= size <= extended && idx < extended
    ensures -(size - 1) <= -Wrapped(idx, size, extended) <= extended - size
    ensures (-Wrapped(idx, size, extended) + idx) % extended == 0
  {
    if idx >= size {
      ModOfMultiple(extended, extended, 1, 0);
    } else {
      ModOfMultiple(0, extended, 0, 0);
    }
  }

  /** The end of `operator()` once the cross-correlation c is known to be
      finite: its first maximum, the side lobe around it, and the main lobe
      index wrapped into a signed offset and negated, which fits the `int`
      the call returns. */
  method ShiftFrom(c: seq<Float>, size: nat, oversampling: int32) returns (s: Shift)
    requires AllFinite(c) && 1 <= size <= |c| < IntLimit
    ensures var idx := MaxElementIndex(c);
      s == Shift(-Wrapped(idx, size, |c|), c[idx].value, SidelobeUpTo(c, idx, oversampling, |c|))
    ensures -(IntLimit as int) < s.offset < IntLimit
  {
    var mainlobe := MaxElement(c);
    var sidelobe := Sidelobe(c, mainlobe, oversampling);
    var offset: int := mainlobe;
    if offset >= size {
      offset := offset - |c|;
    }
    WrappedResidue(mainlobe, size, |c|);
    s := Shift(-offset, c[mainlobe].value, sidelobe);
  }

  /** `check_finite()` of this revision's transform: the first n output
      elements are finite. */
  method CheckFinite(s: seq<Complex>, n: nat) returns (ok: bool)
    requires n <= |s|
    ensures ok <==> AllFiniteComplex(s[..n])
  {
    var i := 0;
    while i < n
      invariant 0 <= i <= n
      invariant forall k :: 0 <= k < i ==> IsFiniteComplex(s[k])
    {
      if !IsFiniteComplex(s[i]) {
        return false;
      }
      i := i + 1;
    }
    return true;
  }

  class Shifter {
    const tag: string
    const size: nat
    const extendedSize: nat
    /** `type_size<complex_type>(extended_size_)`: the length of a spectrum. */
    const spectrumSize: nat
    const fft: FFTBase<Float, Complex>
    const ifft: FFTBase<Complex, Float>
    const tmp: array<Complex>

    ghost predicate Valid()
      reads this, fft, ifft
    {
      fft.Valid() && ifft.Valid() &&
      fft.size == extendedSize && ifft.size == extendedSize &&
      tmp.Length == spectrumSize <= extendedSize &&
      fft.zero == Finite(0.0) && ifft.zero == ZeroC && ifft.input != tmp
    }

    /** The constructor of `shifter.cpp`: the extended size is
        `next_power_of_2(2 * size - 1)`, the product buffer one spectrum long. */
    constructor(size: nat, tag: string, typeSize: nat -> nat,
                forward: (seq<Float>, nat) -> Complex, inverse: (seq<Complex>, nat) -> Float)
      requires size < SizeLimit()
      requires forall n: nat :: typeSize(n) <= n
      ensures Valid() && this.size == size && this.tag == tag
      ensures 1 <= size <= Pow2(WordBits - 2) ==>
        IsPowerOfTwo(extendedSize) && 2 * size - 1 <= extendedSize < 2 * (2 * size - 1)
      ensures size == 0 ==> extendedSize == 0
      ensures spectrumSize == typeSize(extendedSize)
      ensures fft.plan == forward && ifft.plan == inverse
      ensures fresh(fft) && fresh(fft.input) && fresh(ifft) && fresh(ifft.input) && fresh(tmp)
    {
      this.tag := tag;
      this.size := size;
      var extended := ExtendedSize(size);
      extendedSize := extended;
      spectrumSize := typeSize(extended);
      fft := new FFTBase(extended, Finite(0.0), forward);
      ifft := new FFTBase(extended, ZeroC, inverse);
      tmp := new Complex[typeSize(extended)](_ => ZeroC);
    }

    /** `std::copy` of the forward spectrum into the product buffer. */
    method CopySpectrum()
      requires Valid()
      modifies tmp
      ensures tmp[..] == fft.output[..spectrumSize]
    {
      var i := 0;
      while i < spectrumSize
        invariant 0 <= i <= spectrumSize
        invariant tmp[..i] == fft.output[..i]
      {
        tmp[i] := fft.output[i];
        i := i + 1;
      }
    }

    /** `tmp_[i] *= conj(fft_.out_begin()[i])` for every i, stopping at the
        first product that is not finite. */
    method MultiplyConjugate() returns (ok: bool)
      requires Valid()
      modifies tmp
      ensures ok <==> AllFiniteComplex(ConjugateProducts(old(tmp[..]), fft.output[..spectrumSize]))
      ensures ok ==> tmp[..] == ConjugateProducts(old(tmp[..]), fft.output[..spectrumSize])
    {
      ghost var p := ConjugateProducts(tmp[..], fft.output[..spectrumSize]);
      var i := 0;
      while i < spectrumSize
        invariant 0 <= i <= spectrumSize
        invariant tmp[..i] == p[..i] && tmp[i..] == old(tmp[..])[i..]
        invariant forall k :: 0 <= k < i ==> IsFiniteComplex(p[k])
      {
        var other := Conj(fft.output[i]);
        tmp[i] := CMul(tmp[i], other);
        if !IsFiniteComplex(tmp[i]) {
          return false;
        }
        i := i + 1;
      }
      assert tmp[..] == tmp[..i];
      return true;
    }

    /** The first half of `operator()`: both spectra, each checked, and
        their conjugate product in the buffer, checked. */
    method CrossSpectrum(left: seq<Float>, right: seq<Float>) returns (failed: Option<Stage>)
      requires Valid() && |left| == size && |right| == size && size <= extendedSize
      modifies fft, fft.input, tmp
      ensures Valid()
      ensures var a := HalfSpectrum(fft.plan, left, extendedSize, spectrumSize);
        var b := HalfSpectrum(fft.plan, right, extendedSize, spectrumSize);
        failed == (if !AllFiniteComplex(a) then Some(LeftSpectrum)
                   else if !AllFiniteComplex(b) then Some(RightSpectrum)
                   else if !AllFiniteComplex(ConjugateProducts(a, b)) then Some(Product)
                   else None) &&
        (failed.None? ==> tmp[..] == ConjugateProducts(a, b))
    {
      ghost var a := HalfSpectrum(fft.plan, left, extendedSize, spectrumSize);
      ghost var b := HalfSpectrum(fft.plan, right, extendedSize, spectrumSize);
      fft.Execute(left);
      assert fft.output[..spectrumSize] == a;
      var ok := CheckFinite(fft.output, spectrumSize);
      if !ok {
        return Some(LeftSpectrum);
      }
      CopySpectrum();
      fft.Execute(right);
      assert fft.output[..spectrumSize] == b;
      ok := CheckFinite(fft.output, spectrumSize);
      if !ok {
        return Some(RightSpectrum);
      }
      ok := MultiplyConjugate();
      if !ok {
        return Some(Product);
      }
      return None;
    }

    /** `operator()(left, right, oversampling_factor)`. The call counter
        advances even when a check fails. Both loops count with an `int` up
        to the extended size, so that size must stay below 2^31; then the
        negated main lobe index fits the `int` the call returns. */
    method Call(left: seq<Float>, right: seq<Float>, oversampling: int32, calls: CallCounter) returns (r: Outcome)
      requires Valid() && |left| == size && |right| == size && 1 <= size <= extendedSize
      requires extendedSize < IntLimit
      modifies calls, fft, fft.input, ifft, ifft.input, tmp
      ensures Valid() && calls.count == old(calls.count) + 1
      ensures r == ShiftOf(size, extendedSize, spectrumSize, fft.plan, ifft.plan, left, right, oversampling)
      ensures r.Shifted? ==> -(IntLimit as int) <= r.shift.offset < IntLimit
    {
      calls.Next();
      var failed := CrossSpectrum(left, right);
      if failed.Some? {
        return NotFinite(failed.value);
      }
      ghost var c := CrossCorrelationOf(fft.plan, ifft.plan, left, right, extendedSize, spectrumSize);
      ifft.Execute(tmp[..]);
      assert ifft.output == c;
      var ok := ifft.IsFinite((x: Float) => x.Finite?);
      if !ok {
        return NotFinite(CrossCorrelation);
      }
      var shift := ShiftFrom(ifft.output, size, oversampling);
      r := Shifted(shift);
    }
  }
}
