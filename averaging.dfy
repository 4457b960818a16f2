/** What `get_all_values` of the metric plugin's `main.cpp` writes for one
    metric: every sample, or the mean of each complete group of samples. */
module Averaging {
  import opened Signals

  /** One `cursor.write(ticks, value)`. */
  datatype Write = Write(ticks: int, value: real)

  /** The sum of the values of s[lo..hi]. */
  function Sum(s: seq<TimeValue>, lo: nat, hi: nat): real
    requires lo <= hi <= |s|
    decreases hi - lo
  {
    if lo == hi then 0.0 else Sum(s, lo, hi - 1) + s[hi - 1].value
  }

  lemma {:induction false} SumSplit(s: seq<TimeValue>, lo: nat, mid: nat, hi: nat)
    requires lo <= mid <= hi <= |s|
    decreases hi - mid
    ensures Sum(s, lo, hi) == Sum(s, lo, mid) + Sum(s, mid, hi)
  {
    if hi > mid {
      SumSplit(s, lo, mid, hi - 1);
    }
  }

  /** One more group of k is k more samples. */
  lemma MulStep(a: int, k: int)
    ensures (a + 1) * k == a * k + k
  {
  }

  lemma MulPred(g: int, h: int, k: int)
    requires h == g - 1
    ensures g * k == h * k + k
  {
  }

  /** Fewer groups of k hold at least k fewer samples. */
  lemma {:induction false} MulLess(a: int, b: int, k: int)
    requires a < b && k > 0
    decreases b - a
    ensures a * k + k <= b * k
  {
    MulStep(b - 1, k);
    if a + 1 < b {
      MulLess(a, b - 1, k);
    }
  }

  /** Group j of k samples lies inside n samples when j < n / k. */
  lemma GroupInside(j: nat, k: int, n: nat)
    requires k > 0 && j < n / k
    ensures (j + 1) * k <= n
  {
    var q := n / k;
    assert q * k <= n;
    if j + 1 < q {
      MulLess(j + 1, q, k);
    }
  }

  /** The write for group j of k samples: at the time of its last sample,
      the mean of its values. */
  function GroupWrite(data: seq<TimeValue>, k: int, j: nat, convert: int -> int): Write
    requires k > 0 && (j + 1) * k <= |data|
  {
    Write(convert(data[(j + 1) * k - 1].time), Sum(data, j * k, (j + 1) * k) / k as real)
  }

  /** A running sum of k samples ending at index i closes group g. */
  lemma ClosedGroup(data: seq<TimeValue>, k: int, g: nat, i: nat, sum: real, convert: int -> int)
    requires k > 0 && i < |data| && i + 1 == g * k + k && sum == Sum(data, i + 1 - k, i + 1)
    ensures i + 1 == (g + 1) * k
    ensures Write(convert(data[i].time), sum / k as real) == GroupWrite(data, k, g, convert)
  {
    MulStep(g, k);
  }

  /** What the averaging loop writes: one value per complete group of k
      samples, a trailing partial group dropped; nothing when k is not
      positive, since the running count never equals it. */
  function Averaged(data: seq<TimeValue>, k: int, convert: int -> int): seq<Write>
  {
    if k <= 0 then []
    else
      seq(|data| / k, j requires 0 <= j < |data| / k =>
        GroupInside(j, k, |data|);
        GroupWrite(data, k, j, convert))
  }

  /** The writes of the first g groups of k samples, in order. */
  function GroupsUpTo(data: seq<TimeValue>, k: int, g: nat, convert: int -> int): (r: seq<Write>)
    requires k > 0 && g * k <= |data|
    ensures |r| == g
  {
    if g == 0 then []
    else
      var h: nat := g - 1;
      MulPred(g, h, k);
      GroupsUpTo(data, k, h, convert) + [GroupWrite(data, k, h, convert)]
  }

  /** Entry j of the first g group writes is the write of group j. */
  lemma {:induction false} GroupsUpToAt(data: seq<TimeValue>, k: int, g: nat, convert: int -> int, j: nat)
    requires k > 0 && g * k <= |data| && j < g
    ensures (j + 1) * k <= |data|
    ensures GroupsUpTo(data, k, g, convert)[j] == GroupWrite(data, k, j, convert)
  {
    var h: nat := g - 1;
    MulPred(g, h, k);
    if j < h {
      GroupsUpToAt(data, k, h, convert, j);
    }
  }

  /** The writes of all complete groups are what the averaging writes. */
  lemma GroupsUpToIsAveraged(data: seq<TimeValue>, k: int, convert: int -> int)
    requires k > 0
    ensures (|data| / k) * k <= |data|
    ensures GroupsUpTo(data, k, |data| / k, convert) == Averaged(data, k, convert)
  {
    var g := |data| / k;
    var a := Averaged(data, k, convert);
    assert g * k <= |data|;
    var r := GroupsUpTo(data, k, g, convert);
    forall j | 0 <= j < g
      ensures r[j] == a[j]
    {
      GroupsUpToAt(data, k, g, convert, j);
    }
  }

  /** What the plain loop writes: every sample, in order. */
  function Plain(data: seq<TimeValue>, convert: int -> int): seq<Write>
  {
    seq(|data|, i requires 0 <= i < |data| => Write(convert(data[i].time), data[i].value))
  }

  /** The sum of the written values. */
  function Total(w: seq<Write>): real
    decreases |w|
  {
    if w == [] then 0.0 else Total(w[..|w| - 1]) + w[|w| - 1].value
  }

  /** Averaging by one writes every sample as it is. */
  lemma AveragedByOne(data: seq<TimeValue>, convert: int -> int)
    ensures Averaged(data, 1, convert) == Plain(data, convert)
  {
    var a := Averaged(data, 1, convert);
    forall j | 0 <= j < |data|
      ensures a[j] == Plain(data, convert)[j]
    {
      assert Sum(data, j, j + 1) == data[j].value;
    }
  }

  /** The written means, each weighted by k, add up to the sum of the
      samples in complete groups: no sample of a complete group is lost or
      counted twice. */
  lemma AveragedKeepsSum(data: seq<TimeValue>, k: int, convert: int -> int)
    requires k > 0
    ensures |Averaged(data, k, convert)| == |data| / k
    ensures (|data| / k) * k <= |data|
    ensures Scaled(Total(Averaged(data, k, convert)), k) == Sum(data, 0, (|data| / k) * k)
  {
    var a := Averaged(data, k, convert);
    if |data| / k > 0 {
      GroupInside(|data| / k - 1, k, |data|);
    }
    AveragedPrefixSum(data, k, convert, a, |data| / k, (|data| / k) * k);
    assert a[..|a|] == a;
  }

  /** x taken k times. */
  function Scaled(x: real, k: int): real
  {
    x * k as real
  }

  lemma {:induction false} AveragedPrefixSum(data: seq<TimeValue>, k: int, convert: int -> int, a: seq<Write>, g: nat, n: nat)
    requires k > 0 && a == Averaged(data, k, convert) && g <= |a| && n == g * k
    ensures n <= |data|
    ensures Scaled(Total(a[..g]), k) == Sum(data, 0, n)
  {
    if g > 0 {
      var h: nat := g - 1;
      MulStep(h, k);
      MulPred(g, h, k);
      var m: nat := n - k;
      GroupInside(h, k, |data|);
      AveragedPrefixSum(data, k, convert, a, h, m);
      assert a[..g][..h] == a[..h];
      assert a[h].value == Sum(data, m, n) / (k as real);
      SumSplit(data, 0, m, n);
      MeanStep(Total(a[..g]), Total(a[..h]), a[h].value, Sum(data, m, n), Sum(data, 0, m), k);
    } else {
      assert a[..g] == [];
      assert n == 0;
    }
  }

  /** Adding a group's mean to a running total of means scales back to
      adding the group's sum. */
  lemma MeanStep(total: real, before: real, w: real, part: real, prev: real, k: int)
    requires k > 0 && total == before + w && Scaled(before, k) == prev && w == part / k as real
    ensures Scaled(total, k) == prev + part
  {
    assert total * k as real == before * k as real + w * k as real;
  }

  /** n samples in g complete groups of k and a rest below k make n / k
      groups. */
  lemma DivideGroups(n: nat, k: int, g: nat, rest: int)
    requires k > 0 && 0 <= rest < k && n == g * k + rest
    ensures n / k == g
  {
    var q := n / k;
    assert n == q * k + n % k;
    if q < g {
      MulLess(q, g, k);
    } else if q > g {
      MulLess(g, q, k);
    }
  }
}
