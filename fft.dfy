/** The FFT buffers and the cross-correlating Shifter of `fft.hpp`. The FFTW
    plans are not modelled: each buffer carries its transform as a function
    from the whole input buffer and an output index to that output element. */
module Fft {
  import opened Wrappers
  import opened Floats
  import opened Bits
  import opened PowerOfTwo

  /** data followed by copies of zero up to size elements. */
  function Padded<T>(data: seq<T>, size: nat, zero: T): (p: seq<T>)
    requires |data| <= size
    ensures |p| == size && p[..|data|] == data
    ensures forall i :: |data| <= i < size ==> p[i] == zero
  {
    data + seq(size - |data|, _ => zero)
  }

  /** What executing a plan over the input buffer leaves in the output buffer. */
  function Transform<In, Out>(plan: (seq<In>, nat) -> Out, input: seq<In>): (out: seq<Out>)
    ensures |out| == |input|
    ensures forall k :: 0 <= k < |out| ==> out[k] == plan(input, k)
  {
    seq(|input|, k requires 0 <= k < |input| => plan(input, k))
  }

  /** The sequence read through `std::reverse_iterator`. */
  function Reverse<T>(s: seq<T>): (r: seq<T>)
    ensures |r| == |s|
    ensures forall i :: 0 <= i < |s| ==> r[i] == s[|s| - 1 - i]
  {
    seq(|s|, i requires 0 <= i < |s| => s[|s| - 1 - i])
  }

  /** `FFTBase`: an input buffer of size elements, an output buffer, and the
      plan that maps one to the other. */
  class FFTBase<In, Out> {
    const size: nat
    const zero: In
    const plan: (seq<In>, nat) -> Out
    const input: array<In>
    var output: seq<Out>

    ghost predicate Valid()
      reads this
    {
      input.Length == size && |output| == size
    }

    /** The buffers are allocated uninitialised; the model starts them at the
        zero value and its transform. */
    constructor(size: nat, zero: In, plan: (seq<In>, nat) -> Out)
      ensures Valid() && fresh(input)
      ensures this.size == size && this.zero == zero && this.plan == plan
    {
      this.size := size;
      this.zero := zero;
      this.plan := plan;
      input := new In[size](_ => zero);
      output := Transform(plan, seq(size, _ => zero));
    }

    /** `operator()`: copy the data into the input buffer, fill the rest
        with zeros, execute the plan. */
    method Execute(data: seq<In>)
      requires Valid() && |data| <= size
      modifies this, input
      ensures Valid()
      ensures input[..] == Padded(data, size, zero)
      ensures output == Transform(plan, input[..])
    {
      var i := 0;
      while i < |data|
        invariant 0 <= i <= |data|
        invariant input[..i] == data[..i]
        modifies input
      {
        input[i] := data[i];
        i := i + 1;
      }
      while i < size
        invariant |data| <= i <= size
        invariant input[..|data|] == data
        invariant forall k :: |data| <= k < i ==> input[k] == zero
        modifies input
      {
        input[i] := zero;
        i := i + 1;
      }
      assert input[..] == Padded(data, size, zero);
      output := Transform(plan, input[..]);
    }

    /** `isfinite()`: true iff every output element is finite. */
    method IsFinite(finite: Out -> bool) returns (b: bool)
      requires Valid()
      ensures b <==> forall i :: 0 <= i < |output| ==> finite(output[i])
    {
      var i := 0;
      while i < |output|
        invariant 0 <= i <= |output|
        invariant forall k :: 0 <= k < i ==> finite(output[k])
      {
        if !finite(output[i]) {
          return false;
        }
        i := i + 1;
      }
      return true;
    }
  }

  /** The comparator given to `std::max_element`: a non-finite element is
      smaller than anything, a finite one larger than any non-finite one. */
  predicate MaxLess(a: Float, b: Float)
  {
    if !a.Finite? then true
    else if !b.Finite? then false
    else a.value < b.value
  }

  /** The index `std::max_element` returns for a non-empty range, i.e. the
      first maximum among the finite elements, or the last element when
      none is finite. */
  function MaxElementIndex(s: seq<Float>): (idx: nat)
    requires |s| >= 1
    ensures idx < |s|
    ensures s[idx].Finite? ==> forall k :: 0 <= k < |s| && s[k].Finite? ==> s[k].value <= s[idx].value
    ensures s[idx].Finite? ==> forall k :: 0 <= k < idx && s[k].Finite? ==> s[k].value < s[idx].value
    ensures s[idx].NonFinite? ==> idx == |s| - 1 && forall k :: 0 <= k < |s| ==> s[k].NonFinite?
  {
    if |s| == 1 then 0
    else
      var best := MaxElementIndex(s[..|s| - 1]);
      assert forall k :: 0 <= k < |s| - 1 ==> s[..|s| - 1][k] == s[k];
      if MaxLess(s[best], s[|s| - 1]) then |s| - 1 else best
  }

  /** `std::max_element` with that comparator, as a loop. */
  method MaxElement(s: seq<Float>) returns (idx: nat)
    requires |s| >= 1
    ensures idx == MaxElementIndex(s)
  {
    idx := 0;
    var i := 1;
    while i < |s|
      invariant 1 <= i <= |s|
      invariant idx == MaxElementIndex(s[..i])
    {
      assert s[..i + 1][..i] == s[..i];
      if MaxLess(s[idx], s[i]) {
        idx := i;
      }
      i := i + 1;
    }
    assert s[..i] == s;
  }

  /** One past the largest C++ `int`: the loop counters of `operator()`
      are `int`s. */
  const IntLimit: nat := 0x8000_0000

  const LeftNotFinite := "left is not finite"
  const RightNotFinite := "right is not finite"
  const ProductNotFinite := "product is not finite"
  const CorrelationNotFinite := "cross-correlation is not finite"

  /** Element-wise products of two spectra. */
  function Products(a: seq<Complex>, b: seq<Complex>): (p: seq<Complex>)
    requires |a| == |b|
    ensures |p| == |a|
    ensures forall i :: 0 <= i < |a| ==> p[i] == CMul(a[i], b[i])
  {
    seq(|a|, i requires 0 <= i < |a| => CMul(a[i], b[i]))
  }

  /** Spectrum of a real signal zero-padded to the extended size. */
  function Spectrum(forward: (seq<Float>, nat) -> Complex, signal: seq<Float>, extended: nat): (a: seq<Complex>)
    requires |signal| <= extended
    ensures |a| == extended
  {
    Transform(forward, Padded(signal, extended, Finite(0.0)))
  }

  /** Inverse transform of the product of the spectra of left and of right
      reversed: the cross-correlation, when no step overflows. */
  function Correlation(forward: (seq<Float>, nat) -> Complex, inverse: (seq<Complex>, nat) -> Float,
                       left: seq<Float>, right: seq<Float>, extended: nat): (c: seq<Float>)
    requires |left| <= extended && |right| <= extended
    ensures |c| == extended
  {
    var p := Products(Spectrum(forward, left, extended), Spectrum(forward, Reverse(right), extended));
    Transform(inverse, Padded(p, extended, ZeroC))
  }

  /** The result of `operator()`, with the final check made on the inverse
      transform's output: the errors in the order left, right, product,
      cross-correlation, then the lag of the first maximum and its value. */
  function Correlate(size: nat, extended: nat, forward: (seq<Float>, nat) -> Complex,
                     inverse: (seq<Complex>, nat) -> Float, left: seq<Float>, right: seq<Float>): Result<(int, Float)>
    requires |left| == size && |right| == size && 1 <= size <= extended
  {
    var a := Spectrum(forward, left, extended);
    var b := Spectrum(forward, Reverse(right), extended);
    if !AllFiniteComplex(a) then Failure(LeftNotFinite)
    else if !AllFiniteComplex(b) then Failure(RightNotFinite)
    else if !AllFiniteComplex(Products(a, b)) then Failure(ProductNotFinite)
    else
      var c := Correlation(forward, inverse, left, right, extended);
      if !AllFinite(c) then Failure(CorrelationNotFinite)
      else
        var idx := MaxElementIndex(c);
        Success((size - 1 - idx, c[idx]))
  }

  /** On success the value is finite and maximal in the correlation, the lag
      is size - 1 minus the first index holding it, and so lies in
      [size - extended, size - 1]. */
  lemma CorrelateLag(size: nat, extended: nat, forward: (seq<Float>, nat) -> Complex,
                     inverse: (seq<Complex>, nat) -> Float, left: seq<Float>, right: seq<Float>)
    requires |left| == size && |right| == size && 1 <= size <= extended
    requires Correlate(size, extended, forward, inverse, left, right).Success?
    ensures var (lag, value) := Correlate(size, extended, forward, inverse, left, right).value;
      var c := Correlation(forward, inverse, left, right, extended);
      var idx := size - 1 - lag;
      size - extended <= lag <= size - 1 && 0 <= idx < extended &&
      AllFinite(c) && value == c[idx] && value.Finite? &&
      (forall k :: 0 <= k < extended ==> c[k].value <= value.value) &&
      (forall k :: 0 <= k < idx ==> c[k].value < value.value)
  {
  }

  /** A non-finite left spectrum is reported first, whatever the right
      signal; the right spectrum is checked before the product. */
  lemma CorrelateCheckOrder(size: nat, extended: nat, forward: (seq<Float>, nat) -> Complex,
                            inverse: (seq<Complex>, nat) -> Float, left: seq<Float>, right: seq<Float>)
    requires |left| == size && |right| == size && 1 <= size <= extended
    ensures !AllFiniteComplex(Spectrum(forward, left, extended)) ==>
      Correlate(size, extended, forward, inverse, left, right) == Failure(LeftNotFinite)
    ensures AllFiniteComplex(Spectrum(forward, left, extended)) && !AllFiniteComplex(Spectrum(forward, Reverse(right), extended)) ==>
      Correlate(size, extended, forward, inverse, left, right) == Failure(RightNotFinite)
    ensures Correlate(size, extended, forward, inverse, left, right).Failure? ==>
      Correlate(size, extended, forward, inverse, left, right).error in {LeftNotFinite, RightNotFinite, ProductNotFinite, CorrelationNotFinite}
  {
  }

  /** `operator()` as written: the last check tests the forward buffer
      `fft_` again instead of `ifft_`. */
  function CorrelateAsWritten(size: nat, extended: nat, forward: (seq<Float>, nat) -> Complex,
                              inverse: (seq<Complex>, nat) -> Float, left: seq<Float>, right: seq<Float>): Result<(int, Float)>
    requires |left| == size && |right| == size && 1 <= size <= extended
  {
    var a := Spectrum(forward, left, extended);
    var b := Spectrum(forward, Reverse(right), extended);
    if !AllFiniteComplex(a) then Failure(LeftNotFinite)
    else if !AllFiniteComplex(b) then Failure(RightNotFinite)
    else if !AllFiniteComplex(Products(a, b)) then Failure(ProductNotFinite)
    else
      var c := Correlation(forward, inverse, left, right, extended);
      if !AllFiniteComplex(b) then Failure(CorrelationNotFinite)
      else
        var idx := MaxElementIndex(c);
        Success((size - 1 - idx, c[idx]))
  }

  /** As written, the cross-correlation check can never fail: a non-finite
      correlation is passed on to the maximum search, where the corrected
      check reports it. */
  lemma AsWrittenFinalCheckIsDead(size: nat, extended: nat, forward: (seq<Float>, nat) -> Complex,
                                  inverse: (seq<Complex>, nat) -> Float, left: seq<Float>, right: seq<Float>)
    requires |left| == size && |right| == size && 1 <= size <= extended
    ensures CorrelateAsWritten(size, extended, forward, inverse, left, right) != Failure(CorrelationNotFinite)
    ensures Correlate(size, extended, forward, inverse, left, right) == Failure(CorrelationNotFinite) ==>
      CorrelateAsWritten(size, extended, forward, inverse, left, right).Success?
  {
  }

  /** One-element signals whose inverse transform overflows: as written the
      call succeeds with a non-finite maximum, corrected it fails. */
  lemma AsWrittenExample()
    ensures CorrelateAsWritten(1, 1, (s, k) => ZeroC, (p, k) => NonFinite, [Finite(0.0)], [Finite(0.0)]) == Success((0, NonFinite))
    ensures Correlate(1, 1, (s, k) => ZeroC, (p, k) => NonFinite, [Finite(0.0)], [Finite(0.0)]) == Failure(CorrelationNotFinite)
  {
    var forward: (seq<Float>, nat) -> Complex := (s, k) => ZeroC;
    var inverse: (seq<Complex>, nat) -> Float := (p, k) => NonFinite;
    var a := Spectrum(forward, [Finite(0.0)], 1);
    assert a == [ZeroC];
    assert Reverse([Finite(0.0)]) == [Finite(0.0)];
    assert Products(a, a) == [ZeroC];
    assert Correlation(forward, inverse, [Finite(0.0)], [Finite(0.0)], 1) == [NonFinite];
  }

  /** The Shifter of `fft.hpp`. */
  class Shifter {
    const size: nat
    const extendedSize: nat
    const fft: FFTBase<Float, Complex>
    const ifft: FFTBase<Complex, Float>
    const tmp: array<Complex>

    ghost predicate Valid()
      reads this, fft, ifft
    {
      fft.Valid() && ifft.Valid() &&
      fft.size == extendedSize && ifft.size == extendedSize && tmp.Length == extendedSize &&
      fft.zero == Finite(0.0) && ifft.zero == ZeroC && ifft.input != tmp
    }

    /** The constructor: `extended_size_ = next_power_of_2(2 * size - 1)`,
        both transforms and the product buffer of that size. */
    constructor(size: nat, forward: (seq<Float>, nat) -> Complex, inverse: (seq<Complex>, nat) -> Float)
      requires size < SizeLimit()
      ensures Valid() && this.size == size
      ensures 1 <= size <= Pow2(62) ==> IsPowerOfTwo(extendedSize) && 2 * size - 1 <= extendedSize < 2 * (2 * size - 1)
      ensures size == 0 ==> extendedSize == 0
      ensures fft.plan == forward && ifft.plan == inverse
      ensures fresh(fft) && fresh(fft.input) && fresh(ifft) && fresh(ifft.input) && fresh(tmp)
    {
      this.size := size;
      var extended := ExtendedSize(size);
      extendedSize := extended;
      fft := new FFTBase(extended, Finite(0.0), forward);
      ifft := new FFTBase(extended, ZeroC, inverse);
      tmp := new Complex[extended](_ => ZeroC);
    }

    /** `tmp_[i] *= fft_.out_begin()[i]` for every i, stopping at the first
        product that is not finite. */
    method MultiplySpectrum() returns (ok: bool)
      requires Valid()
      modifies tmp
      ensures ok <==> AllFiniteComplex(Products(old(tmp[..]), fft.output))
      ensures ok ==> tmp[..] == Products(old(tmp[..]), fft.output)
    {
      ghost var p := Products(tmp[..], fft.output);
      var i := 0;
      while i < extendedSize
        invariant 0 <= i <= extendedSize
        invariant tmp[..i] == p[..i] && tmp[i..] == old(tmp[..])[i..]
        invariant forall k :: 0 <= k < i ==> IsFiniteComplex(p[k])
      {
        tmp[i] := CMul(tmp[i], fft.output[i]);
        if !IsFiniteComplex(tmp[i]) {
          return false;
        }
        i := i + 1;
      }
      assert tmp[..] == tmp[..i];
      return true;
    }

    /** `std::copy` of the forward output into the product buffer. */
    method CopySpectrum()
      requires Valid()
      modifies tmp
      ensures tmp[..] == fft.output
    {
      var i := 0;
      while i < extendedSize
        invariant 0 <= i <= extendedSize
        invariant tmp[..i] == fft.output[..i]
      {
        tmp[i] := fft.output[i];
        i := i + 1;
      }
    }

    /** The first half of `operator()`: the spectra of left and of right
        reversed, each checked, and their product in the buffer, checked;
        the message of the first check that fails, if any. */
    method CrossSpectrum(left: seq<Float>, right: seq<Float>) returns (err: Option<string>)
      requires Valid() && |left| == size && |right| == size && size <= extendedSize
      modifies fft, fft.input, tmp
      ensures Valid()
      ensures var a := Spectrum(fft.plan, left, extendedSize);
        var b := Spectrum(fft.plan, Reverse(right), extendedSize);
        err == (if !AllFiniteComplex(a) then Some(LeftNotFinite)
                else if !AllFiniteComplex(b) then Some(RightNotFinite)
                else if !AllFiniteComplex(Products(a, b)) then Some(ProductNotFinite)
                else None) &&
        (err.None? ==> tmp[..] == Products(a, b))
    {
      ghost var a := Spectrum(fft.plan, left, extendedSize);
      ghost var b := Spectrum(fft.plan, Reverse(right), extendedSize);
      fft.Execute(left);
      assert fft.output == a;
      var ok := fft.IsFinite(IsFiniteComplex);
      if !ok {
        return Some(LeftNotFinite);
      }
      CopySpectrum();
      fft.Execute(Reverse(right));
      assert fft.output == b;
      ok := fft.IsFinite(IsFiniteComplex);
      if !ok {
        return Some(RightNotFinite);
      }
      ok := MultiplySpectrum();
      if !ok {
        return Some(ProductNotFinite);
      }
      return None;
    }

    /** `operator()(left, right)`: the lag of the best match and the
        correlation value there, or the first check that failed. The product
        loop counts with an `int` up to the extended size, so that size must
        stay below 2^31. */
    method Call(left: seq<Float>, right: seq<Float>) returns (r: Result<(int, Float)>)
      requires Valid() && |left| == size && |right| == size && 1 <= size <= extendedSize
      requires extendedSize < IntLimit
      modifies fft, fft.input, ifft, ifft.input, tmp
      ensures Valid()
      ensures r == Correlate(size, extendedSize, fft.plan, ifft.plan, left, right)
    {
      var err := CrossSpectrum(left, right);
      if err.Some? {
        return Failure(err.value);
      }
      ghost var c := Correlation(fft.plan, ifft.plan, left, right, extendedSize);
      ifft.Execute(tmp[..]);
      assert ifft.output == c;
      var ok := ifft.IsFinite((x: Float) => x.Finite?);
      if !ok {
        return Failure(CorrelationNotFinite);
      }
      var idx := MaxElement(ifft.output);
      r := Success((size - 1 - idx, ifft.output[idx]));
    }
  }
}
