/** CPU usage from two readings of the aggregate line of /proc/stat, on 64-bit unsigned counters. */
module CpuUsage {
  const WORD: nat := 0x1_0000_0000_0000_0000

  type Word = x: int | 0 <= x < WORD

  function Add64(a: int, b: int): Word {
    (a + b) % WORD
  }

  function Sub64(a: int, b: int): Word {
    (a - b) % WORD
  }

  datatype CpuSample = CpuSample(idle: Word, total: Word)

  // ---- Reading -------------------------------------------------------------

  /** A missing column counts as 0. */
  function Column(nums: seq<nat>, i: nat): nat {
    if i < |nums| then nums[i] else 0
  }

  /** Columns: user, nice, system, idle, iowait, irq, softirq, steal; later ones are ignored. */
  function SampleOf(nums: seq<nat>): CpuSample {
    var idleAll := Add64(Column(nums, 3), Column(nums, 4));
    var nonIdle := Add64(Add64(Add64(Add64(Add64(Column(nums, 0), Column(nums, 1)), Column(nums, 2)),
                                     Column(nums, 5)), Column(nums, 6)), Column(nums, 7));
    CpuSample(idleAll, Add64(idleAll, nonIdle))
  }

  function IdleTime(nums: seq<nat>): nat {
    Column(nums, 3) + Column(nums, 4)
  }

  function BusyTime(nums: seq<nat>): nat {
    Column(nums, 0) + Column(nums, 1) + Column(nums, 2) + Column(nums, 5) + Column(nums, 6) + Column(nums, 7)
  }

  lemma Shift(x: nat, k: nat)
    ensures (x + k * WORD) % WORD == x % WORD
  {
    if k > 0 {
      Shift(x, k - 1);
      assert (x + k * WORD) == (x + (k - 1) * WORD) + WORD;
    }
  }

  lemma AddWraps(a: nat, b: nat)
    ensures Add64(a % WORD, b) == (a + b) % WORD
    ensures Add64(a % WORD, b % WORD) == (a + b) % WORD
  {
    var p, q := a / WORD, b / WORD;
    assert a == p * WORD + a % WORD && b == q * WORD + b % WORD;
    Shift(a % WORD + b, p);
    Shift(a % WORD + b % WORD, p + q);
  }

  /** Columns: user, nice, system, idle, iowait, irq, softirq, steal. Missing ones count as 0, later ones are
      ignored. */
  lemma ColumnsMean(nums: seq<nat>)
    ensures |nums| == 8 ==>
              && IdleTime(nums) == nums[3] + nums[4]
              && BusyTime(nums) == nums[0] + nums[1] + nums[2] + nums[5] + nums[6] + nums[7]
    ensures |nums| < 8 ==> SampleOf(nums) == SampleOf(nums + [0])
    ensures 8 < |nums| ==> SampleOf(nums) == SampleOf(nums[..8])
    ensures WORD == 18446744073709551616
  {
    assert forall k: nat :: k < 8 && k < |nums| ==> (nums + [0])[k] == nums[k];
  }

  /** However often the intermediate sums wrap, only the totals matter. */
  lemma SampleIsWrappedSum(nums: seq<nat>)
    ensures SampleOf(nums) == CpuSample(IdleTime(nums) % WORD, (IdleTime(nums) + BusyTime(nums)) % WORD)
  {
    var u := Column(nums, 0) + Column(nums, 1);
    AddWraps(u, Column(nums, 2));
    AddWraps(u + Column(nums, 2), Column(nums, 5));
    AddWraps(u + Column(nums, 2) + Column(nums, 5), Column(nums, 6));
    AddWraps(u + Column(nums, 2) + Column(nums, 5) + Column(nums, 6), Column(nums, 7));
    AddWraps(IdleTime(nums), BusyTime(nums));
  }

  // ---- Usage ---------------------------------------------------------------

  /** Rounds a non-negative number to the nearest integer, halves upwards. */
  function RoundHalfUp(x: real): int
    requires 0.0 <= x
  {
    (x + 0.5).Floor
  }

  function Clamp(x: real): real {
    if x < 0.0 then 0.0 else if x > 100.0 then 100.0 else x
  }

  /** The share of a period of `t` that was not idle, in percent. */
  function Percentage(i: nat, t: nat): real
    requires 0 < t
  {
    (1.0 - i as real / t as real) * 100.0
  }

  /** A percentage for every pair of counter words, wrapped around or not. */
  function ComputeUsage(prev: CpuSample, cur: CpuSample): (u: int)
    ensures 0 <= u <= 100
  {
    if cur.total <= prev.total then 0
    else
      RoundHalfUp(Clamp(Percentage(Sub64(cur.idle, prev.idle), Sub64(cur.total, prev.total))))
  }

  lemma ScaleReal(x: real, y: real, t: real)
    requires 0.0 < t
    ensures x <= y <==> x * t <= y * t
    ensures x < y <==> x * t < y * t
  {
    if x <= y {
      assert 0.0 <= (y - x) * t;
    } else {
      assert 0.0 < (x - y) * t;
    }
    if x < y {
      assert 0.0 < (y - x) * t;
    } else {
      assert 0.0 <= (x - y) * t;
    }
  }

  /** The percentage before rounding, multiplied out. */
  lemma ExactPercentage(i: nat, t: nat)
    requires 0 < t
    ensures Percentage(i, t) * t as real == 100.0 * (t as real - i as real)
  {
    var q := i as real / t as real;
    assert q * t as real == i as real;
    assert ((1.0 - q) * 100.0) * t as real == 100.0 * (t as real - q * t as real);
  }

  lemma PercentageRange(x: real, i: nat, t: nat)
    requires 0 < t && x * t as real == 100.0 * (t as real - i as real)
    ensures i <= t ==> 0.0 <= x <= 100.0
    ensures t < i ==> x < 0.0
  {
    var tr := t as real;
    ScaleReal(0.0, x, tr);
    ScaleReal(x, 100.0, tr);
    ScaleReal(x, 0.0, tr);
    assert 0.0 * tr == 0.0;
  }

  lemma {:induction false} RealProduct(a: int, b: nat)
    ensures (a * b) as real == a as real * b as real
  {
    if b != 0 {
      RealProduct(a, b - 1);
      assert a * b == a * (b - 1) + a;
      assert a as real * b as real == a as real * (b - 1) as real + a as real by {
        assert b as real == (b - 1) as real + 1.0;
      }
    }
  }

  lemma ScaledBounds(lo: real, x: real, hi: real, t: real)
    requires 0.0 < t && lo <= x < hi
    ensures lo * t <= x * t < hi * t
  {
    ScaleReal(lo, x, t);
    ScaleReal(x, hi, t);
  }

  lemma Doubled(x: real, t: real)
    ensures (x + x) * t == x * t + x * t
  {}

  lemma ScaledIntegerBounds(lo: int, x: real, hi: int, t: nat)
    requires 0 < t && lo as real <= x + x < hi as real
    ensures (lo * t) as real <= x * t as real + x * t as real < (hi * t) as real
  {
    ScaledBounds(lo as real, x + x, hi as real, t as real);
    Doubled(x, t as real);
    RealProduct(lo, t);
    RealProduct(hi, t);
  }

  lemma Integers(a: int, xt: real, i: nat, t: nat, c: int)
    requires a as real <= xt + xt < c as real && xt == 100.0 * (t as real - i as real)
    ensures a <= 200 * (t - i) < c
  {
    assert (200 * (t - i)) as real == xt + xt;
  }

  /** Rounding x, as a statement about integers. */
  lemma RoundedPercentage(x: real, u: int, i: nat, t: nat)
    requires 0 < t && x * t as real == 100.0 * (t as real - i as real)
    requires u as real <= x + 0.5 < u as real + 1.0
    ensures (2 * u - 1) * t <= 200 * (t - i) < (2 * u + 1) * t
  {
    ScaledIntegerBounds(2 * u - 1, x, 2 * u + 1, t);
    Integers((2 * u - 1) * t, x * t as real, i, t, (2 * u + 1) * t);
  }

  /** With at least as much total time as idle time, usage is the percentage of busy time rounded to the
      nearest integer, halves upwards; more idle than total time counts as 0, and so does a total that did not
      grow. */
  lemma UsageIsNearestPercent(prev: CpuSample, cur: CpuSample)
    ensures cur.total <= prev.total ==> ComputeUsage(prev, cur) == 0
    ensures prev.total < cur.total ==>
              var i, t := Sub64(cur.idle, prev.idle), cur.total - prev.total;
              var u := ComputeUsage(prev, cur);
              && (i <= t ==> (2 * u - 1) * t <= 200 * (t - i) < (2 * u + 1) * t)
              && (t < i ==> u == 0)
  {
    if prev.total < cur.total {
      var i, t := Sub64(cur.idle, prev.idle), cur.total - prev.total;
      assert t == Sub64(cur.total, prev.total);
      var x := Percentage(i, t);
      ExactPercentage(i, t);
      PercentageRange(x, i, t);
      assert ComputeUsage(prev, cur) == RoundHalfUp(Clamp(x));
      if i <= t {
        RoundedPercentage(x, RoundHalfUp(x), i, t);
      }
    }
  }

  lemma ScaleInt(a: int, b: int, t: nat)
    requires a <= b
    ensures a * t <= b * t
  {
    assert 0 <= (b - a) * t;
  }

  lemma NearestAbove90(u: int, t: nat, i: nat)
    requires 0 < t && i <= t && (2 * u - 1) * t <= 200 * (t - i) < (2 * u + 1) * t
    ensures 90 < u <==> 181 * t <= 200 * (t - i)
  {
    if 90 < u {
      ScaleInt(181, 2 * u - 1, t);
    } else {
      ScaleInt(2 * u + 1, 181, t);
    }
  }

  lemma Unwrapped(a: nat, b: nat)
    requires a <= b < WORD
    ensures a % WORD == a && b % WORD == b && Sub64(b, a) == b - a
  {}

  /** The busy threshold for any two samples, wrapped counters and a falling idle included: usage is over 90
      exactly when the total grew and at least 90.5% of its growth was not idle, on the 64-bit differences. */
  lemma Over90Exact(prev: CpuSample, cur: CpuSample)
    ensures var i, t := Sub64(cur.idle, prev.idle), Sub64(cur.total, prev.total);
            90 < ComputeUsage(prev, cur) <==> prev.total < cur.total && 181 * t <= 200 * (t - i)
  {
    if prev.total < cur.total {
      var i, t := Sub64(cur.idle, prev.idle), Sub64(cur.total, prev.total);
      UsageIsNearestPercent(prev, cur);
      if i <= t {
        NearestAbove90(ComputeUsage(prev, cur), t, i);
      }
    }
  }

  lemma CountersGrow(before: seq<nat>, now: seq<nat>)
    requires forall k: nat :: k < 8 ==> Column(before, k) <= Column(now, k)
    ensures IdleTime(before) <= IdleTime(now) && BusyTime(before) <= BusyTime(now)
  {}

  /** In terms of the columns, when these only grew and did not overflow. */
  lemma Over90OfColumns(before: seq<nat>, now: seq<nat>)
    requires forall k: nat :: k < 8 ==> Column(before, k) <= Column(now, k)
    requires IdleTime(now) + BusyTime(now) < WORD
    ensures var busy := BusyTime(now) - BusyTime(before);
            var all := busy + IdleTime(now) - IdleTime(before);
            90 < ComputeUsage(SampleOf(before), SampleOf(now)) <==> 0 < all && 181 * all <= 200 * busy
  {
    SampleIsWrappedSum(before);
    SampleIsWrappedSum(now);
    var i0, b0, i1, b1 := IdleTime(before), BusyTime(before), IdleTime(now), BusyTime(now);
    CountersGrow(before, now);
    Unwrapped(i0, i1);
    Unwrapped(i0 + b0, i1 + b1);
    var p, c := CpuSample(i0, i0 + b0), CpuSample(i1, i1 + b1);
    assert p == SampleOf(before) && c == SampleOf(now);
    Over90Exact(p, c);
  }
}
