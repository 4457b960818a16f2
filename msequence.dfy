/** The binary maximum-length sequence generator: a Fibonacci linear-feedback
    shift register of degree n whose taps come from a fixed table, and a
    wrapper that groups its output bits into (level, run length) runs. */
module MSequence {
  import opened Wrappers
  import opened Bits

  /* ---------------------------------------------------------------------- */
  /* Tap table and tap mask                                                  */
  /* ---------------------------------------------------------------------- */

  /** The tap indices of the feedback polynomial of degree n; the first entry
      is n itself. Any other degree is rejected. */
  function CoefficientIndices(n: int): (r: Result<seq<int>>)
    ensures r.Success? <==> 3 <= n <= 14
    ensures r.Failure? ==> r.error == "Unsupported sequence length"
    ensures r.Success? ==>
      |r.value| >= 2 && r.value[0] == n &&
      forall i :: 0 < i < |r.value| ==> 1 <= r.value[i] < n
  {
    match n
    case 3 => Success([3, 1])
    case 4 => Success([4, 1])
    case 5 => Success([5, 2])
    case 6 => Success([6, 1])
    case 7 => Success([7, 1])
    case 8 => Success([8, 6, 5, 1])
    case 9 => Success([9, 4])
    case 10 => Success([10, 3])
    case 11 => Success([11, 2])
    case 12 => Success([12, 7, 4, 3])
    case 13 => Success([13, 4, 3, 1])
    case 14 => Success([14, 12, 11, 1])
    case _ => Failure("Unsupported sequence length")
  }

  /** What `compute_coeffs` demands of its indices: at least one, none above
      the first, and every shift `n - index` small enough for a 32-bit int. */
  predicate WellFormedIndices(indices: seq<int>)
  {
    |indices| > 0 &&
    forall j :: 0 <= j < |indices| ==> indices[0] - 31 < indices[j] <= indices[0]
  }

  /** The mask built from the first i indices: bit `n - index` per index. */
  function Mask(indices: seq<int>, i: nat): nat
    requires WellFormedIndices(indices) && i <= |indices|
  {
    if i == 0 then 0 else Or(Mask(indices, i - 1), Pow2(indices[0] - indices[i - 1]))
  }

  /** Exactly the bits `n - index` are set in the mask. */
  lemma {:induction false} MaskBits(indices: seq<int>, i: nat, k: nat)
    requires WellFormedIndices(indices) && i <= |indices|
    ensures Bit(Mask(indices, i), k) <==> exists j :: 0 <= j < i && k == indices[0] - indices[j]
  {
    if i == 0 {
      BitOfZero(k);
    } else {
      MaskBits(indices, i - 1, k);
      BitOfOr(Mask(indices, i - 1), Pow2(indices[0] - indices[i - 1]), k);
      BitOfPow2(indices[0] - indices[i - 1], k);
    }
  }

  /** `compute_coeffs`: OR together `1 << (n - index)` over all indices. */
  method ComputeCoeffs(indices: seq<int>) returns (coeffs: nat)
    requires WellFormedIndices(indices)
    ensures coeffs == Mask(indices, |indices|)
    ensures forall k: nat :: Bit(coeffs, k) <==> exists j :: 0 <= j < |indices| && k == indices[0] - indices[j]
  {
    var n := indices[0];
    coeffs := 0;
    for i := 0 to |indices|
      invariant coeffs == Mask(indices, i)
    {
      coeffs := Or(coeffs, Pow2(n - indices[i]));
    }
    forall k: nat
      ensures Bit(coeffs, k) <==> exists j :: 0 <= j < |indices| && k == indices[0] - indices[j]
    {
      MaskBits(indices, |indices|, k);
    }
  }

  /** The tap mask of a supported degree. */
  function TapMask(n: int): nat
    requires 3 <= n <= 14
  {
    var indices := CoefficientIndices(n).value;
    Mask(indices, |indices|)
  }

  /** What the register needs of a tap mask: bit 0 set (from the leading
      index n) and no bit at or above n. */
  predicate TapMaskOk(n: nat, coeffs: nat)
  {
    n >= 1 && coeffs % 2 == 1 && coeffs < Pow2(n)
  }

  lemma {:induction false} Pow2Increasing(a: nat, b: nat)
    requires a < b
    ensures Pow2(a) < Pow2(b)
    decreases b
  {
    if a < b - 1 {
      Pow2Increasing(a, b - 1);
    }
  }

  /** With indices at least 1 after the leading n, every mask bit is below n. */
  lemma {:induction false} MaskBelow(indices: seq<int>, i: nat)
    requires WellFormedIndices(indices) && i <= |indices| && indices[0] >= 1
    requires forall j :: 0 < j < |indices| ==> indices[j] >= 1
    ensures Mask(indices, i) < Pow2(indices[0])
  {
    if i > 0 {
      MaskBelow(indices, i - 1);
      Pow2Increasing(indices[0] - indices[i - 1], indices[0]);
      OrBelow(Mask(indices, i - 1), Pow2(indices[0] - indices[i - 1]), indices[0]);
    }
  }

  /** Every tabled mask has bit 0 set and fits in n bits. */
  lemma TapMaskValid(n: int)
    requires 3 <= n <= 14
    ensures TapMaskOk(n, TapMask(n))
  {
    var indices := CoefficientIndices(n).value;
    MaskBits(indices, |indices|, 0);
    MaskBelow(indices, |indices|);
  }

  /* ---------------------------------------------------------------------- */
  /* One register step and the orbit of the seed                            */
  /* ---------------------------------------------------------------------- */

  /** The output bit for a register value: parity of `reg & coeffs`. */
  predicate Feedback(reg: nat, coeffs: nat)
  {
    Parity(And(reg, coeffs))
  }

  /** `reg >> 1 | feedback << (n - 1)`. */
  function Next(n: nat, coeffs: nat, reg: nat): nat
    requires n >= 1
  {
    Or(reg / 2, if Feedback(reg, coeffs) then Pow2(n - 1) else 0)
  }

  /** Below 2^n the OR in a step is an addition. */
  lemma NextAsSum(n: nat, coeffs: nat, reg: nat)
    requires n >= 1 && reg < Pow2(n)
    ensures Next(n, coeffs, reg) == reg / 2 + (if Feedback(reg, coeffs) then Pow2(n - 1) else 0)
  {
    assert Pow2(n) == 2 * Pow2(n - 1);
    if Feedback(reg, coeffs) {
      OrHighBit(reg / 2, n - 1);
    }
  }

  /** From the seed 1 the feedback bit is 1, because bit 0 of the mask is set. */
  lemma SeedFeedback(coeffs: nat)
    requires coeffs % 2 == 1
    ensures Feedback(1, coeffs)
  {
    ParityAndOne(coeffs);
  }

  /** A step keeps the register nonzero and below 2^n. */
  lemma NextInRange(n: nat, coeffs: nat, reg: nat)
    requires TapMaskOk(n, coeffs) && 1 <= reg < Pow2(n)
    ensures 1 <= Next(n, coeffs, reg) < Pow2(n)
  {
    NextAsSum(n, coeffs, reg);
    assert Pow2(n) == 2 * Pow2(n - 1);
    if reg == 1 {
      SeedFeedback(coeffs);
    }
  }

  /** A step is injective on nonzero registers below 2^n. */
  lemma NextInjective(n: nat, coeffs: nat, a: nat, b: nat)
    requires TapMaskOk(n, coeffs) && 1 <= a < Pow2(n) && 1 <= b < Pow2(n)
    requires Next(n, coeffs, a) == Next(n, coeffs, b)
    ensures a == b
  {
    NextAsSum(n, coeffs, a);
    NextAsSum(n, coeffs, b);
    var p := Pow2(n - 1);
    assert Pow2(n) == 2 * p;
    assert a / 2 < p && b / 2 < p;
    assert Feedback(a, coeffs) == Feedback(b, coeffs);
    assert a / 2 == b / 2;
    if a != b {
      if a % 2 == 0 {
        assert b == a + 1;
        ParityAndFlipsLowBit(a, coeffs);
      } else {
        assert a == b + 1;
        ParityAndFlipsLowBit(b, coeffs);
      }
    }
  }

  /** The register after k steps from the seed 1. */
  function RegAt(n: nat, coeffs: nat, k: nat): nat
    requires n >= 1
  {
    if k == 0 then 1 else Next(n, coeffs, RegAt(n, coeffs, k - 1))
  }

  /** The bit emitted at step k (the value of `*iter` after k increments). */
  predicate BitAt(n: nat, coeffs: nat, k: nat)
    requires n >= 1
  {
    Feedback(RegAt(n, coeffs, k), coeffs)
  }

  /** The first k emitted bits. */
  function Emitted(n: nat, coeffs: nat, k: nat): (s: seq<bool>)
    requires n >= 1
    ensures |s| == k
  {
    if k == 0 then [] else Emitted(n, coeffs, k - 1) + [BitAt(n, coeffs, k - 1)]
  }

  /** How many of the steps 1..k brought the register back to 1. */
  function Returns(n: nat, coeffs: nat, k: nat): nat
    requires n >= 1
  {
    if k == 0 then 0 else Returns(n, coeffs, k - 1) + (if RegAt(n, coeffs, k) == 1 then 1 else 0)
  }

  lemma {:induction false} RegAtInRange(n: nat, coeffs: nat, k: nat)
    requires TapMaskOk(n, coeffs)
    ensures 1 <= RegAt(n, coeffs, k) < Pow2(n)
  {
    if k > 0 {
      RegAtInRange(n, coeffs, k - 1);
      NextInRange(n, coeffs, RegAt(n, coeffs, k - 1));
    }
  }

  /** No return to the seed among steps 1..k iff the return counter is zero
      (the two directions). */
  lemma {:induction false} ReturnsZero(n: nat, coeffs: nat, k: nat)
    requires n >= 1
    ensures Returns(n, coeffs, k) == 0 ==> forall j :: 1 <= j <= k ==> RegAt(n, coeffs, j) != 1
    ensures (forall j :: 1 <= j <= k ==> RegAt(n, coeffs, j) != 1) ==> Returns(n, coeffs, k) == 0
  {
    if k > 0 {
      ReturnsZero(n, coeffs, k - 1);
      if RegAt(n, coeffs, k) != 1 && Returns(n, coeffs, k - 1) != 0 {
        var i :| 1 <= i <= k - 1 && RegAt(n, coeffs, i) == 1;
        assert 1 <= i <= k;
      }
    }
  }

  /** Before the first return to the seed, no register value repeats. */
  lemma {:induction false} DistinctBeforeReturn(n: nat, coeffs: nat, i: nat, j: nat)
    requires TapMaskOk(n, coeffs) && i < j
    requires forall m :: 1 <= m <= j ==> RegAt(n, coeffs, m) != 1
    ensures RegAt(n, coeffs, i) != RegAt(n, coeffs, j)
  {
    if i > 0 && RegAt(n, coeffs, i) == RegAt(n, coeffs, j) {
      RegAtInRange(n, coeffs, i - 1);
      RegAtInRange(n, coeffs, j - 1);
      NextInjective(n, coeffs, RegAt(n, coeffs, i - 1), RegAt(n, coeffs, j - 1));
      DistinctBeforeReturn(n, coeffs, i - 1, j - 1);
    }
  }

  /** The registers visited in steps 0..m. */
  function Visited(n: nat, coeffs: nat, m: nat): set<nat>
    requires n >= 1
  {
    if m == 0 then {1} else Visited(n, coeffs, m - 1) + {RegAt(n, coeffs, m)}
  }

  lemma {:induction false} VisitedMembers(n: nat, coeffs: nat, m: nat, x: nat)
    requires n >= 1
    ensures x in Visited(n, coeffs, m) <==> exists i :: 0 <= i <= m && RegAt(n, coeffs, i) == x
  {
    if m > 0 {
      VisitedMembers(n, coeffs, m - 1, x);
      if RegAt(n, coeffs, m) == x {
        assert x in Visited(n, coeffs, m);
        assert 0 <= m <= m && RegAt(n, coeffs, m) == x;
      }
    } else {
      assert Visited(n, coeffs, m) == {1};
      if x == 1 {
        assert 0 <= 0 <= m && RegAt(n, coeffs, 0) == x;
      }
    }
  }

  lemma {:induction false} VisitedSize(n: nat, coeffs: nat, m: nat)
    requires TapMaskOk(n, coeffs)
    requires forall j :: 1 <= j <= m ==> RegAt(n, coeffs, j) != 1
    ensures |Visited(n, coeffs, m)| == m + 1
  {
    if m > 0 {
      VisitedSize(n, coeffs, m - 1);
      VisitedMembers(n, coeffs, m - 1, RegAt(n, coeffs, m));
      if RegAt(n, coeffs, m) in Visited(n, coeffs, m - 1) {
        var i :| 0 <= i <= m - 1 && RegAt(n, coeffs, i) == RegAt(n, coeffs, m);
        DistinctBeforeReturn(n, coeffs, i, m);
      }
    }
  }

  /** The values 1..b-1. */
  function Range(b: nat): set<nat>
  {
    if b <= 1 then {} else Range(b - 1) + {b - 1}
  }

  lemma {:induction false} RangeMembers(b: nat, x: nat)
    ensures x in Range(b) <==> 1 <= x < b
  {
    if b > 1 {
      RangeMembers(b - 1, x);
    }
  }

  lemma {:induction false} RangeSize(b: nat)
    requires b >= 1
    ensures |Range(b)| == b - 1
  {
    if b > 1 {
      RangeSize(b - 1);
      RangeMembers(b - 1, b - 1);
    }
  }

  lemma {:induction false} SubsetSize<T>(a: set<T>, b: set<T>)
    requires a <= b
    ensures |a| <= |b|
  {
    if a != {} {
      var x :| x in a;
      SubsetSize(a - {x}, b - {x});
    }
  }

  /** Pigeonhole: with no return, at most 2^n - 2 steps fit in the register. */
  lemma NoReturnBound(n: nat, coeffs: nat, m: nat)
    requires TapMaskOk(n, coeffs)
    requires forall j :: 1 <= j <= m ==> RegAt(n, coeffs, j) != 1
    ensures m + 1 <= Pow2(n) - 1
  {
    VisitedSize(n, coeffs, m);
    RangeSize(Pow2(n));
    forall x | x in Visited(n, coeffs, m)
      ensures x in Range(Pow2(n))
    {
      VisitedMembers(n, coeffs, m, x);
      var i :| 0 <= i <= m && RegAt(n, coeffs, i) == x;
      RegAtInRange(n, coeffs, i);
      RangeMembers(Pow2(n), x);
    }
    SubsetSize(Visited(n, coeffs, m), Range(Pow2(n)));
  }

  /** The register comes back to 1 within 2^n - 1 steps; p is the first
      such step. */
  lemma FirstReturn(n: nat, coeffs: nat) returns (p: nat)
    requires TapMaskOk(n, coeffs)
    ensures 1 <= p < Pow2(n) && RegAt(n, coeffs, p) == 1
    ensures forall j :: 1 <= j < p ==> RegAt(n, coeffs, j) != 1
  {
    var q := Pow2(n) - 1;
    if forall j :: 1 <= j <= q ==> RegAt(n, coeffs, j) != 1 {
      NoReturnBound(n, coeffs, q);
      assert false;
    }
    var w :| 1 <= w <= q && RegAt(n, coeffs, w) == 1;
    p := 1;
    while RegAt(n, coeffs, p) != 1
      invariant 1 <= p <= w
      invariant forall j :: 1 <= j < p ==> RegAt(n, coeffs, j) != 1
      decreases w - p
    {
      p := p + 1;
    }
  }

  /** Steps the register until it is 1 again, giving up after fuel steps. */
  function SearchReturn(n: nat, coeffs: nat, reg: nat, j: nat, fuel: nat): nat
    requires n >= 1
    decreases fuel
  {
    if fuel == 0 then j
    else
      var r := Next(n, coeffs, reg);
      if r == 1 then j + 1 else SearchReturn(n, coeffs, r, j + 1, fuel - 1)
  }

  lemma {:induction false} SearchReturnFinds(n: nat, coeffs: nat, reg: nat, j: nat, fuel: nat, p: nat)
    requires n >= 1 && reg == RegAt(n, coeffs, j)
    requires j < p <= j + fuel && RegAt(n, coeffs, p) == 1
    requires forall m :: j < m < p ==> RegAt(n, coeffs, m) != 1
    ensures SearchReturn(n, coeffs, reg, j, fuel) == p
    decreases fuel
  {
    if p != j + 1 {
      SearchReturnFinds(n, coeffs, Next(n, coeffs, reg), j + 1, fuel - 1, p);
    }
  }

  /** The number of steps until the register first returns to the seed. */
  function Period(n: nat, coeffs: nat): nat
    requires n >= 1
  {
    SearchReturn(n, coeffs, 1, 0, Pow2(n))
  }

  /** Period is the first return to the seed, and lies in 1..2^n-1. */
  lemma PeriodIsFirstReturn(n: nat, coeffs: nat)
    requires TapMaskOk(n, coeffs)
    ensures 1 <= Period(n, coeffs) < Pow2(n)
    ensures RegAt(n, coeffs, Period(n, coeffs)) == 1
    ensures forall j :: 1 <= j < Period(n, coeffs) ==> RegAt(n, coeffs, j) != 1
  {
    var p := FirstReturn(n, coeffs);
    SearchReturnFinds(n, coeffs, 1, 0, Pow2(n), p);
  }

  /** t lists consecutive register values. */
  predicate Trace(n: nat, coeffs: nat, t: seq<nat>)
    requires n >= 1
    decreases |t|
  {
    |t| <= 1 || (Next(n, coeffs, t[0]) == t[1] && Trace(n, coeffs, t[1..]))
  }

  /** No entry of s is the seed 1. */
  predicate AvoidsSeed(s: seq<nat>)
    decreases |s|
  {
    |s| == 0 || (s[0] != 1 && AvoidsSeed(s[1..]))
  }

  lemma {:induction false} TraceFollowsOrbit(n: nat, coeffs: nat, k: nat, t: seq<nat>, i: nat)
    requires n >= 1 && Trace(n, coeffs, t) && |t| > 0 && RegAt(n, coeffs, k) == t[0]
    requires i < |t|
    ensures RegAt(n, coeffs, k + i) == t[i]
    decreases i
  {
    if i > 0 {
      TraceFollowsOrbit(n, coeffs, k + 1, t[1..], i - 1);
    }
  }

  lemma {:induction false} AvoidsSeedAt(s: seq<nat>, i: nat)
    requires AvoidsSeed(s) && i < |s|
    ensures s[i] != 1
    decreases i
  {
    if i > 0 {
      AvoidsSeedAt(s[1..], i - 1);
    }
  }

  /** A full cycle of the register from the seed back to the seed, with no
      seed in between, has the period as its length. */
  lemma CycleGivesPeriod(n: nat, coeffs: nat, t: seq<nat>, inner: seq<nat>)
    requires TapMaskOk(n, coeffs)
    requires t == [1] + inner + [1] && Trace(n, coeffs, t) && AvoidsSeed(inner)
    ensures Period(n, coeffs) == |t| - 1
  {
    PeriodIsFirstReturn(n, coeffs);
    var p := Period(n, coeffs);
    TraceFollowsOrbit(n, coeffs, 0, t, |t| - 1);
    if p < |t| - 1 {
      TraceFollowsOrbit(n, coeffs, 0, t, p);
      AvoidsSeedAt(inner, p - 1);
    }
  }

  lemma TapMaskDegree3()
    ensures TapMask(3) == 5
  {
    assert Mask([3, 1], 1) == 1;
    assert Mask([3, 1], 2) == Or(1, 4) == 5;
  }

  /** Before the first return to the seed the step count is below the
      period. */
  lemma BeforeFirstReturn(n: nat, coeffs: nat, k: nat)
    requires TapMaskOk(n, coeffs) && Returns(n, coeffs, k) == 0
    ensures k < Period(n, coeffs)
  {
    PeriodIsFirstReturn(n, coeffs);
    ReturnsZero(n, coeffs, k);
  }

  /** Degree 3 steps through all 7 nonzero register values before the seed
      comes back. */
  lemma PeriodDegree3()
    ensures Period(3, TapMask(3)) == 7
  {
    TapMaskDegree3();
    var inner := [4, 6, 7, 3, 5, 2];
    var t := [1] + inner + [1];
    TraceDegree3(t);
    AvoidsSeedDegree3(inner);
    assert Pow2(3) == 8;
    CycleGivesPeriod(3, 5, t, inner);
  }

  /** For degrees 3, 4 and 5 the tabled taps give a maximum-length
      sequence: the register visits every nonzero value before the seed
      comes back. */
  lemma FullPeriodSmallDegrees(n: nat)
    requires 3 <= n <= 5
    ensures Period(n, TapMask(n)) == Pow2(n) - 1
  {
    assert Pow2(3) == 8 && Pow2(4) == 16 && Pow2(5) == 32;
    if n == 3 {
      PeriodDegree3();
    } else if n == 4 {
      PeriodDegree4();
    } else {
      PeriodDegree5();
    }
  }

  /** The register of degree 3 with tap mask 5, step by step from the seed. */
  lemma TraceDegree3(t: seq<nat>)
    requires t == [1, 4, 6, 7, 3, 5, 2, 1]
    ensures Trace(3, 5, t)
  {
    StepsDegree3();
    assert Trace(3, 5, t[6..]);
    assert Trace(3, 5, t[5..]);
    assert Trace(3, 5, t[4..]);
    assert Trace(3, 5, t[3..]);
    assert Trace(3, 5, t[2..]);
    assert Trace(3, 5, t[1..]);
  }

  lemma AvoidsSeedDegree3(inner: seq<nat>)
    requires inner == [4, 6, 7, 3, 5, 2]
    ensures AvoidsSeed(inner)
  {
    assert AvoidsSeed(inner[4..]);
    assert AvoidsSeed(inner[2..]);
  }

  /** One step of the degree-3 register, from its feedback bit. */
  lemma StepDegree3(reg: nat, next: nat)
    requires 1 <= reg < 8 && next == reg / 2 + (if Feedback(reg, 5) then 4 else 0)
    ensures Next(3, 5, reg) == next
  {
    assert Pow2(3) == 8;
    NextAsSum(3, 5, reg);
  }

  lemma FeedbackDegree3Low()
    ensures Feedback(1, 5) && !Feedback(2, 5) && Feedback(3, 5)
  {
    assert And(1, 5) == 1 && And(2, 5) == 0 && And(3, 5) == 1;
  }

  lemma FeedbackDegree3Middle()
    ensures Feedback(4, 5) && !Feedback(5, 5)
  {
    assert And(4, 5) == 4 && And(5, 5) == 5;
  }

  lemma FeedbackDegree3High()
    ensures Feedback(6, 5) && !Feedback(7, 5)
  {
    assert And(6, 5) == 4 && And(7, 5) == 5;
  }

  lemma StepsDegree3()
    ensures Next(3, 5, 1) == 4 && Next(3, 5, 4) == 6 && Next(3, 5, 6) == 7 && Next(3, 5, 7) == 3
    ensures Next(3, 5, 3) == 5 && Next(3, 5, 5) == 2 && Next(3, 5, 2) == 1
  {
    FeedbackDegree3Low();
    FeedbackDegree3Middle();
    FeedbackDegree3High();
    StepDegree3(1, 4);
    StepDegree3(4, 6);
    StepDegree3(6, 7);
    StepDegree3(7, 3);
    StepDegree3(3, 5);
    StepDegree3(5, 2);
    StepDegree3(2, 1);
  }

  /** One step of a register of degree n whose feedback bit is known. */
  lemma StepBy(n: nat, coeffs: nat, reg: nat, feedback: bool, next: nat)
    requires n >= 1 && reg < Pow2(n) && Feedback(reg, coeffs) == feedback
    requires next == reg / 2 + (if feedback then Pow2(n - 1) else 0)
    ensures Next(n, coeffs, reg) == next
  {
    NextAsSum(n, coeffs, reg);
  }

  /** For the tap mask 9 of degrees 4 and 5 the feedback is bit 0 xor bit 3. */
  lemma FeedbackNine(reg: nat)
    ensures Feedback(reg, 9) <==> (reg % 2 == 1) != ((reg / 8) % 2 == 1)
  {
    var z := reg / 8;
    assert And(z, 1) == z % 2;
    assert And(reg / 4, 2) == 2 * (z % 2) by {
      assert (reg / 4) / 2 == z;
    }
    assert And(reg / 2, 4) == 4 * (z % 2) by {
      assert (reg / 2) / 2 == reg / 4;
    }
    assert And(reg, 9) == 8 * (z % 2) + reg % 2;
    var x := 8 * (z % 2) + reg % 2;
    assert x / 2 == 4 * (z % 2);
    assert Parity(4 * (z % 2)) == (z % 2 == 1) by {
      assert Parity(2 * (z % 2)) == Parity(z % 2);
    }
  }

  lemma TapMaskDegree4()
    ensures TapMask(4) == 9
  {
    assert Pow2(3) == 8 && Or(1, 8) == 9;
    assert Mask([4, 1], 1) == 1;
    assert Mask([4, 1], 2) == 9;
  }

  lemma TapMaskDegree5()
    ensures TapMask(5) == 9
  {
    assert Pow2(3) == 8 && Or(1, 8) == 9;
    assert Mask([5, 2], 1) == 1;
    assert Mask([5, 2], 2) == 9;
  }

  lemma StepsDegree4A()
    ensures Next(4, 9, 1) == 8 && Next(4, 9, 8) == 12 && Next(4, 9, 12) == 14 && Next(4, 9, 14) == 15 && Next(4, 9, 15) == 7 && Next(4, 9, 7) == 11 && Next(4, 9, 11) == 5 && Next(4, 9, 5) == 10
  {
    assert Pow2(4) == 16 && Pow2(3) == 8;
    FeedbackNine(1);
    StepBy(4, 9, 1, true, 8);
    FeedbackNine(8);
    StepBy(4, 9, 8, true, 12);
    FeedbackNine(12);
    StepBy(4, 9, 12, true, 14);
    FeedbackNine(14);
    StepBy(4, 9, 14, true, 15);
    FeedbackNine(15);
    StepBy(4, 9, 15, false, 7);
    FeedbackNine(7);
    StepBy(4, 9, 7, true, 11);
    FeedbackNine(11);
    StepBy(4, 9, 11, false, 5);
    FeedbackNine(5);
    StepBy(4, 9, 5, true, 10);
  }

  lemma StepsDegree4B()
    ensures Next(4, 9, 10) == 13 && Next(4, 9, 13) == 6 && Next(4, 9, 6) == 3 && Next(4, 9, 3) == 9 && Next(4, 9, 9) == 4 && Next(4, 9, 4) == 2 && Next(4, 9, 2) == 1
  {
    assert Pow2(4) == 16 && Pow2(3) == 8;
    FeedbackNine(10);
    StepBy(4, 9, 10, true, 13);
    FeedbackNine(13);
    StepBy(4, 9, 13, false, 6);
    FeedbackNine(6);
    StepBy(4, 9, 6, false, 3);
    FeedbackNine(3);
    StepBy(4, 9, 3, true, 9);
    FeedbackNine(9);
    StepBy(4, 9, 9, false, 4);
    FeedbackNine(4);
    StepBy(4, 9, 4, false, 2);
    FeedbackNine(2);
    StepBy(4, 9, 2, false, 1);
  }

  /** Degree 4 steps through all 15 nonzero register values before the
      seed comes back. */
  lemma PeriodDegree4()
    ensures Period(4, TapMask(4)) == 15
  {
    TapMaskDegree4();
    StepsDegree4A();
    StepsDegree4B();
    assert Pow2(4) == 16;
    assert SearchReturn(4, 9, 2, 14, 2) == 15;
    assert SearchReturn(4, 9, 4, 13, 3) == 15;
    assert SearchReturn(4, 9, 9, 12, 4) == 15;
    assert SearchReturn(4, 9, 3, 11, 5) == 15;
    assert SearchReturn(4, 9, 6, 10, 6) == 15;
    assert SearchReturn(4, 9, 13, 9, 7) == 15;
    assert SearchReturn(4, 9, 10, 8, 8) == 15;
    assert SearchReturn(4, 9, 5, 7, 9) == 15;
    assert SearchReturn(4, 9, 11, 6, 10) == 15;
    assert SearchReturn(4, 9, 7, 5, 11) == 15;
    assert SearchReturn(4, 9, 15, 4, 12) == 15;
    assert SearchReturn(4, 9, 14, 3, 13) == 15;
    assert SearchReturn(4, 9, 12, 2, 14) == 15;
    assert SearchReturn(4, 9, 8, 1, 15) == 15;
    assert SearchReturn(4, 9, 1, 0, 16) == 15;
  }

  lemma StepsDegree5A()
    ensures Next(5, 9, 1) == 16 && Next(5, 9, 16) == 8 && Next(5, 9, 8) == 20 && Next(5, 9, 20) == 10 && Next(5, 9, 10) == 21 && Next(5, 9, 21) == 26 && Next(5, 9, 26) == 29 && Next(5, 9, 29) == 14
  {
    assert Pow2(5) == 32 && Pow2(4) == 16;
    FeedbackNine(1);
    StepBy(5, 9, 1, true, 16);
    FeedbackNine(16);
    StepBy(5, 9, 16, false, 8);
    FeedbackNine(8);
    StepBy(5, 9, 8, true, 20);
    FeedbackNine(20);
    StepBy(5, 9, 20, false, 10);
    FeedbackNine(10);
    StepBy(5, 9, 10, true, 21);
    FeedbackNine(21);
    StepBy(5, 9, 21, true, 26);
    FeedbackNine(26);
    StepBy(5, 9, 26, true, 29);
    FeedbackNine(29);
    StepBy(5, 9, 29, false, 14);
  }

  lemma StepsDegree5B()
    ensures Next(5, 9, 14) == 23 && Next(5, 9, 23) == 27 && Next(5, 9, 27) == 13 && Next(5, 9, 13) == 6 && Next(5, 9, 6) == 3 && Next(5, 9, 3) == 17 && Next(5, 9, 17) == 24 && Next(5, 9, 24) == 28
  {
    assert Pow2(5) == 32 && Pow2(4) == 16;
    FeedbackNine(14);
    StepBy(5, 9, 14, true, 23);
    FeedbackNine(23);
    StepBy(5, 9, 23, true, 27);
    FeedbackNine(27);
    StepBy(5, 9, 27, false, 13);
    FeedbackNine(13);
    StepBy(5, 9, 13, false, 6);
    FeedbackNine(6);
    StepBy(5, 9, 6, false, 3);
    FeedbackNine(3);
    StepBy(5, 9, 3, true, 17);
    FeedbackNine(17);
    StepBy(5, 9, 17, true, 24);
    FeedbackNine(24);
    StepBy(5, 9, 24, true, 28);
  }

  lemma StepsDegree5C()
    ensures Next(5, 9, 28) == 30 && Next(5, 9, 30) == 31 && Next(5, 9, 31) == 15 && Next(5, 9, 15) == 7 && Next(5, 9, 7) == 19 && Next(5, 9, 19) == 25 && Next(5, 9, 25) == 12 && Next(5, 9, 12) == 22
  {
    assert Pow2(5) == 32 && Pow2(4) == 16;
    FeedbackNine(28);
    StepBy(5, 9, 28, true, 30);
    FeedbackNine(30);
    StepBy(5, 9, 30, true, 31);
    FeedbackNine(31);
    StepBy(5, 9, 31, false, 15);
    FeedbackNine(15);
    StepBy(5, 9, 15, false, 7);
    FeedbackNine(7);
    StepBy(5, 9, 7, true, 19);
    FeedbackNine(19);
    StepBy(5, 9, 19, true, 25);
    FeedbackNine(25);
    StepBy(5, 9, 25, false, 12);
    FeedbackNine(12);
    StepBy(5, 9, 12, true, 22);
  }

  lemma StepsDegree5D()
    ensures Next(5, 9, 22) == 11 && Next(5, 9, 11) == 5 && Next(5, 9, 5) == 18 && Next(5, 9, 18) == 9 && Next(5, 9, 9) == 4 && Next(5, 9, 4) == 2 && Next(5, 9, 2) == 1
  {
    assert Pow2(5) == 32 && Pow2(4) == 16;
    FeedbackNine(22);
    StepBy(5, 9, 22, false, 11);
    FeedbackNine(11);
    StepBy(5, 9, 11, false, 5);
    FeedbackNine(5);
    StepBy(5, 9, 5, true, 18);
    FeedbackNine(18);
    StepBy(5, 9, 18, false, 9);
    FeedbackNine(9);
    StepBy(5, 9, 9, false, 4);
    FeedbackNine(4);
    StepBy(5, 9, 4, false, 2);
    FeedbackNine(2);
    StepBy(5, 9, 2, false, 1);
  }

  /** Degree 5 steps through all 31 nonzero register values before the
      seed comes back. */
  lemma PeriodDegree5()
    ensures Period(5, TapMask(5)) == 31
  {
    TapMaskDegree5();
    StepsDegree5A();
    StepsDegree5B();
    StepsDegree5C();
    StepsDegree5D();
    assert Pow2(5) == 32;
    assert SearchReturn(5, 9, 2, 30, 2) == 31;
    assert SearchReturn(5, 9, 4, 29, 3) == 31;
    assert SearchReturn(5, 9, 9, 28, 4) == 31;
    assert SearchReturn(5, 9, 18, 27, 5) == 31;
    assert SearchReturn(5, 9, 5, 26, 6) == 31;
    assert SearchReturn(5, 9, 11, 25, 7) == 31;
    assert SearchReturn(5, 9, 22, 24, 8) == 31;
    assert SearchReturn(5, 9, 12, 23, 9) == 31;
    assert SearchReturn(5, 9, 25, 22, 10) == 31;
    assert SearchReturn(5, 9, 19, 21, 11) == 31;
    assert SearchReturn(5, 9, 7, 20, 12) == 31;
    assert SearchReturn(5, 9, 15, 19, 13) == 31;
    assert SearchReturn(5, 9, 31, 18, 14) == 31;
    assert SearchReturn(5, 9, 30, 17, 15) == 31;
    assert SearchReturn(5, 9, 28, 16, 16) == 31;
    assert SearchReturn(5, 9, 24, 15, 17) == 31;
    assert SearchReturn(5, 9, 17, 14, 18) == 31;
    assert SearchReturn(5, 9, 3, 13, 19) == 31;
    assert SearchReturn(5, 9, 6, 12, 20) == 31;
    assert SearchReturn(5, 9, 13, 11, 21) == 31;
    assert SearchReturn(5, 9, 27, 10, 22) == 31;
    assert SearchReturn(5, 9, 23, 9, 23) == 31;
    assert SearchReturn(5, 9, 14, 8, 24) == 31;
    assert SearchReturn(5, 9, 29, 7, 25) == 31;
    assert SearchReturn(5, 9, 26, 6, 26) == 31;
    assert SearchReturn(5, 9, 21, 5, 27) == 31;
    assert SearchReturn(5, 9, 10, 4, 28) == 31;
    assert SearchReturn(5, 9, 20, 3, 29) == 31;
    assert SearchReturn(5, 9, 8, 2, 30) == 31;
    assert SearchReturn(5, 9, 16, 1, 31) == 31;
    assert SearchReturn(5, 9, 1, 0, 32) == 31;
  }


  /* ---------------------------------------------------------------------- */
  /* The iterator                                                            */
  /* ---------------------------------------------------------------------- */

  /** `BinaryMSequenceIter`: register `reg` (seeded with 1), tap mask
      `coeffs` and the count `overflow` of returns to the seed. The ghost
      `steps` counts the increments so far. */
  class BinaryMSequenceIter {
    const n: nat
    const coeffs: nat
    var reg: nat
    var overflow: nat
    ghost var steps: nat

    ghost predicate Valid()
      reads this
    {
      TapMaskOk(n, coeffs) &&
      reg == RegAt(n, coeffs, steps) &&
      overflow == Returns(n, coeffs, steps)
    }

    /** The private constructor from a degree and a ready tap mask. */
    constructor FromCoeffs(n: nat, coeffs: nat)
      requires TapMaskOk(n, coeffs)
      ensures this.n == n && this.coeffs == coeffs
      ensures reg == 1 && overflow == 0 && steps == 0
      ensures Valid()
    {
      this.n := n;
      this.coeffs := coeffs;
      reg := 1;
      overflow := 0;
      steps := 0;
    }

    /** The public constructor: looks up the taps of degree n and builds the
        mask, or fails for a degree outside the table. */
    static method Create(n: int) returns (r: Result<BinaryMSequenceIter>)
      ensures r.Success? <==> 3 <= n <= 14
      ensures r.Failure? ==> r.error == "Unsupported sequence length"
      ensures r.Success? ==>
        fresh(r.value) && r.value.Valid() &&
        r.value.n == n && r.value.coeffs == TapMask(n) &&
        r.value.reg == 1 && r.value.overflow == 0 && r.value.steps == 0
    {
      var indices := CoefficientIndices(n);
      if indices.Failure? {
        return Failure(indices.error);
      }
      var c := ComputeCoeffs(indices.value);
      TapMaskValid(n);
      var it := new BinaryMSequenceIter.FromCoeffs(n, c);
      return Success(it);
    }

    /** `operator*`: the current output bit. */
    predicate Current()
      reads this
      ensures Valid() ==> (Current() <==> BitAt(n, coeffs, steps))
    {
      Feedback(reg, coeffs)
    }

    /** `operator bool`: true until the register has come back to 1. */
    predicate HasNext()
      reads this
      ensures Valid() && HasNext() ==> forall j :: 1 <= j <= steps ==> RegAt(n, coeffs, j) != 1
      ensures Valid() && (forall j :: 1 <= j <= steps ==> RegAt(n, coeffs, j) != 1) ==> HasNext()
    {
      if n >= 1 then ReturnsZero(n, coeffs, steps); overflow == 0 else overflow == 0
    }

    /** `operator==`: equal register and return count (same mask required). */
    predicate SameState(other: BinaryMSequenceIter)
      reads this, other
      requires coeffs == other.coeffs
      ensures SameState(other) && n == other.n ==>
        (Current() <==> other.Current()) && (HasNext() <==> other.HasNext())
    {
      reg == other.reg && overflow == other.overflow
    }

    /** `operator++`: shift in the feedback bit; count a return to 1. */
    method Advance()
      requires Valid()
      modifies this
      ensures Valid()
      ensures steps == old(steps) + 1
      ensures reg == Next(n, coeffs, old(reg)) && 1 <= reg < Pow2(n)
      ensures overflow == old(overflow) + (if reg == 1 then 1 else 0)
    {
      var feedback := Current();
      reg := Or(reg / 2, if feedback then Pow2(n - 1) else 0);
      if reg == 1 {
        overflow := overflow + 1;
      }
      steps := steps + 1;
      RegAtInRange(n, coeffs, steps);
    }
  }

  /* ---------------------------------------------------------------------- */
  /* Grouping into runs                                                      */
  /* ---------------------------------------------------------------------- */

  /** count copies of level. */
  function Repeat(level: bool, count: nat): (s: seq<bool>)
    ensures |s| == count
    ensures forall i :: 0 <= i < count ==> s[i] == level
  {
    if count == 0 then [] else Repeat(level, count - 1) + [level]
  }

  /** The bits a sequence of runs stands for. */
  function Flatten(runs: seq<(bool, nat)>): seq<bool>
  {
    if runs == [] then [] else Flatten(runs[..|runs| - 1]) + Repeat(runs[|runs| - 1].0, runs[|runs| - 1].1)
  }

  /** Sum of the run lengths. */
  function TotalLength(runs: seq<(bool, nat)>): nat
  {
    if runs == [] then 0 else TotalLength(runs[..|runs| - 1]) + runs[|runs| - 1].1
  }

  lemma {:induction false} FlattenLength(runs: seq<(bool, nat)>)
    ensures |Flatten(runs)| == TotalLength(runs)
  {
    if runs != [] {
      FlattenLength(runs[..|runs| - 1]);
    }
  }

  /** Runs are nonempty and alternate in level. */
  predicate Alternating(runs: seq<(bool, nat)>)
  {
    (forall i :: 0 <= i < |runs| ==> runs[i].1 >= 1) &&
    (forall i :: 0 < i < |runs| ==> runs[i - 1].0 != runs[i].0)
  }

  /** Appending a run that differs in level from the last one keeps the runs
      alternating and extends the bits they stand for. */
  lemma AppendRun(runs: seq<(bool, nat)>, level: bool, count: nat)
    requires Alternating(runs) && count >= 1
    requires |runs| > 0 ==> runs[|runs| - 1].0 != level
    ensures Alternating(runs + [(level, count)])
    ensures Flatten(runs + [(level, count)]) == Flatten(runs) + Repeat(level, count)
  {
    assert (runs + [(level, count)])[..|runs|] == runs;
  }

  /** One more emitted bit equal to level extends the current run. */
  lemma {:induction false} RunEmitted(n: nat, coeffs: nat, start: nat, level: bool, count: nat)
    requires n >= 1
    requires forall j :: start <= j < start + count ==> BitAt(n, coeffs, j) == level
    ensures Emitted(n, coeffs, start + count) == Emitted(n, coeffs, start) + Repeat(level, count)
  {
    if count > 0 {
      RunEmitted(n, coeffs, start, level, count - 1);
    }
  }

  /** What holds between the runs handed out and an iterator that has made
      `steps` increments: the iterator stops at its first return to the seed,
      the runs spell out exactly the emitted bits and they alternate, and a
      live iterator's current bit starts a new run. */
  ghost predicate RunsInvariant(n: nat, coeffs: nat, steps: nat, runs: seq<(bool, nat)>)
    requires n >= 1
  {
    Returns(n, coeffs, steps) <= 1 &&
    (Returns(n, coeffs, steps) != 0 ==> RegAt(n, coeffs, steps) == 1) &&
    Flatten(runs) == Emitted(n, coeffs, steps) &&
    Alternating(runs) &&
    (|runs| > 0 && Returns(n, coeffs, steps) == 0 ==> BitAt(n, coeffs, steps) != runs[|runs| - 1].0)
  }

  /** A finished `take` loop re-establishes the invariant with one more run. */
  lemma TakeKeepsInvariant(n: nat, coeffs: nat, start: nat, steps: nat,
                           runs: seq<(bool, nat)>, level: bool, count: nat)
    requires n >= 1 && RunsInvariant(n, coeffs, start, runs)
    requires Returns(n, coeffs, start) == 0 && BitAt(n, coeffs, start) == level
    requires count >= 1 && steps == start + count
    requires Emitted(n, coeffs, steps) == Emitted(n, coeffs, start) + Repeat(level, count)
    requires Returns(n, coeffs, steps - 1) == 0
    requires !(Returns(n, coeffs, steps) == 0 && BitAt(n, coeffs, steps) == level)
    ensures RunsInvariant(n, coeffs, steps, runs + [(level, count)])
  {
    AppendRun(runs, level, count);
  }

  /** `GroupedBinaryMSequence`: the iterator plus the ghost list of runs
      handed out so far. */
  class GroupedBinaryMSequence {
    const iter: BinaryMSequenceIter
    ghost var runs: seq<(bool, nat)>

    ghost predicate Valid()
      reads this, iter
    {
      iter.Valid() && RunsInvariant(iter.n, iter.coeffs, iter.steps, runs)
    }

    constructor FromIter(it: BinaryMSequenceIter)
      requires it.Valid() && it.steps == 0
      ensures iter == it && runs == [] && Valid()
    {
      iter := it;
      runs := [];
    }

    /** The constructor: fails exactly as the iterator's does. */
    static method Create(n: int) returns (r: Result<GroupedBinaryMSequence>)
      ensures r.Success? <==> 3 <= n <= 14
      ensures r.Failure? ==> r.error == "Unsupported sequence length"
      ensures r.Success? ==>
        fresh(r.value) && fresh(r.value.iter) && r.value.Valid() &&
        r.value.iter.n == n && r.value.iter.coeffs == TapMask(n) &&
        r.value.iter.steps == 0 && r.value.runs == []
    {
      var it := BinaryMSequenceIter.Create(n);
      if it.Failure? {
        return Failure(it.error);
      }
      var g := new GroupedBinaryMSequence.FromIter(it.value);
      return Success(g);
    }

    /** `take`: nothing once exhausted; otherwise the current level and the
        number of increments until the iterator is exhausted or the bit
        changes. */
    method Take() returns (r: Option<(bool, nat)>)
      requires Valid()
      modifies this, iter
      ensures Valid()
      ensures !old(iter.HasNext()) ==> r == None && unchanged(this, iter)
      ensures old(iter.HasNext()) ==>
        r.Some? && r.value.0 == old(iter.Current()) && r.value.1 >= 1 &&
        runs == old(runs) + [r.value] &&
        iter.steps == old(iter.steps) + r.value.1
    {
      if !iter.HasNext() {
        return None;
      }
      var level := iter.Current();
      ghost var n, c, start := iter.n, iter.coeffs, iter.steps;
      ghost var before := runs;
      assert RunsInvariant(n, c, start, before) && Returns(n, c, start) == 0 && BitAt(n, c, start) == level;
      var count := RunLength(level);
      TakeKeepsInvariant(n, c, start, iter.steps, before, level, count);
      r := Some((level, count));
      runs := before + [(level, count)];
    }

    /** The do-while loop of `take`: increment the iterator until it is
        exhausted or its bit differs from `level`, counting the increments. */
    method RunLength(level: bool) returns (count: nat)
      requires iter.Valid() && iter.HasNext() && iter.Current() == level
      modifies iter
      ensures iter.Valid() && count >= 1 && iter.steps == old(iter.steps) + count
      ensures Returns(iter.n, iter.coeffs, iter.steps - 1) == 0
      ensures !(Returns(iter.n, iter.coeffs, iter.steps) == 0 && BitAt(iter.n, iter.coeffs, iter.steps) == level)
      ensures Emitted(iter.n, iter.coeffs, iter.steps) == Emitted(iter.n, iter.coeffs, old(iter.steps)) + Repeat(level, count)
    {
      ghost var start := iter.steps;
      BeforeFirstReturn(iter.n, iter.coeffs, start);
      count := 0;
      while true
        invariant iter.Valid() && iter.steps == start + count
        invariant Returns(iter.n, iter.coeffs, iter.steps) == 0 && BitAt(iter.n, iter.coeffs, iter.steps) == level
        invariant iter.steps < Period(iter.n, iter.coeffs)
        invariant forall j :: start <= j < iter.steps ==> BitAt(iter.n, iter.coeffs, j) == level
        decreases Period(iter.n, iter.coeffs) - iter.steps
      {
        ghost var previous := iter.steps;
        iter.Advance();
        count := count + 1;
        if !(iter.HasNext() && level == iter.Current()) {
          assert Returns(iter.n, iter.coeffs, previous) == 0;
          RunEmitted(iter.n, iter.coeffs, start, level, count);
          return;
        }
        BeforeFirstReturn(iter.n, iter.coeffs, iter.steps);
      }
    }

    /** Once exhausted, the iterator has stepped exactly one period. */
    lemma ExhaustedAtPeriod()
      requires Valid() && !iter.HasNext()
      ensures iter.steps == Period(iter.n, iter.coeffs)
    {
      var n, c, k := iter.n, iter.coeffs, iter.steps;
      assert k >= 1;
      ReturnsZero(n, c, k - 1);
      PeriodIsFirstReturn(n, c);
    }

    /** Once exhausted, the runs handed out cover exactly one period of the
        register. */
    lemma TotalIsPeriod()
      requires Valid() && !iter.HasNext()
      ensures TotalLength(runs) == iter.steps == Period(iter.n, iter.coeffs)
    {
      FlattenLength(runs);
      ExhaustedAtPeriod();
    }

    /** The iterator never runs past its first return to the seed. */
    lemma StepsWithinPeriod()
      requires Valid()
      ensures iter.steps <= Period(iter.n, iter.coeffs)
      ensures iter.HasNext() ==> iter.steps < Period(iter.n, iter.coeffs)
    {
      PeriodIsFirstReturn(iter.n, iter.coeffs);
      if !iter.HasNext() {
        ExhaustedAtPeriod();
      }
    }

    /** For degrees 3 to 5 the runs of a whole sequence add up to 2^n - 1:
        7, 15 and 31. */
    lemma ShortSequenceTotal()
      requires Valid() && !iter.HasNext() && 3 <= iter.n <= 5 && iter.coeffs == TapMask(iter.n)
      ensures TotalLength(runs) == Pow2(iter.n) - 1
    {
      TotalIsPeriod();
      FullPeriodSmallDegrees(iter.n);
    }
  }
}
