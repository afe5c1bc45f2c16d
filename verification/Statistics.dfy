/**
 The running mean of the scheduler's statistics: 64-bit integers, casts that
 wrap, and a division that truncates toward zero.
 */
module Statistics {
  import opened Wrappers

  const TWO_63: int := 0x8000_0000_0000_0000
  const TWO_64: int := 0x1_0000_0000_0000_0000

  predicate U64(x: int) { 0 <= x < TWO_64 }

  predicate I64(x: int) { -TWO_63 <= x < TWO_63 }

  /** Reinterprets 64 bits as signed, and back. */
  function AsI64(x: int): int {
    var y := x % TWO_64;
    if y < TWO_63 then y else y - TWO_64
  }

  function AsU64(x: int): nat {
    x % TWO_64
  }

  /** Division rounding toward zero. */
  function TruncDiv(a: int, b: int): int
    requires b != 0
  {
    if (a < 0) == (b < 0) then Abs(a) / Abs(b) else -(Abs(a) / Abs(b))
  }

  function Abs(x: int): nat {
    if x < 0 then -x else x
  }

  datatype Mean = Mean(value: nat, samples: nat)

  const EMPTY := Mean(TWO_64 - 1, 0)

  /**
   Moves the mean toward `x` by the truncated n-th part of the difference. None is a
   panic: an overflow when the build checks for them, or an impossible division.
   Without the checks sums and differences wrap.
   */
  function Blend(checks: bool, mean: nat, x: nat, n: nat): Option<nat> {
    var difference, divisor := AsI64(x) - AsI64(mean), AsI64(n);
    if checks && !I64(difference) then None
    else if divisor == 0 || (AsI64(difference) == -TWO_63 && divisor == -1) then None
    else
      var sum := AsI64(mean) + TruncDiv(AsI64(difference), divisor);
      if checks && !I64(sum) then None else Some(AsU64(sum))
  }

  /** One update of the mean with `count` samples that took `time` together. */
  function Updated(checks: bool, m: Mean, time: nat, count: nat): Option<Mean> {
    if count == 0 then Some(m)
    else if m.samples == 0 then Some(Mean(time / count, count))
    else Advanced(checks, m, time / count, count)
  }

  /** The mean moves toward `x` as if `count` samples had it. */
  function Advanced(checks: bool, m: Mean, x: nat, count: nat): Option<Mean> {
    var samples := m.samples + count;
    if checks && !U64(samples) then None
    else
      match Blend(checks, m.value, x, AsU64(samples))
      case None => None
      case Some(value) => Some(Mean(value, AsU64(samples)))
  }

  class RunningMean {
    var runningMean: nat
    var samples: nat

    constructor ()
      ensures Mean(runningMean, samples) == EMPTY == Mean(0xFFFF_FFFF_FFFF_FFFF, 0)
    {
      runningMean := TWO_64 - 1;
      samples := 0;
    }

    /** `checks` tells whether the build panics on overflow. */
    method Update(checks: bool, time: nat, count: nat) returns (panicked: bool)
      modifies this
      ensures panicked <==> Updated(checks, old(Mean(runningMean, samples)), time, count).None?
      ensures !panicked ==>
                Some(Mean(runningMean, samples)) == Updated(checks, old(Mean(runningMean, samples)), time, count)
    {
      if count > 0 {
        if samples == 0 {
          runningMean := time / count;
          samples := count;
        } else {
          if checks && !U64(samples + count) {
            return true;
          }
          samples := AsU64(samples + count);
          var difference := AsI64(time / count) - AsI64(runningMean);
          if checks && !I64(difference) {
            return true;
          }
          difference := AsI64(difference);
          if AsI64(samples) == 0 || (difference == -TWO_63 && AsI64(samples) == -1) {
            return true;
          }
          var sum := AsI64(runningMean) + TruncDiv(difference, AsI64(samples));
          if checks && !I64(sum) {
            return true;
          }
          runningMean := AsU64(sum);
        }
      }
      return false;
    }

    method Value() returns (value: nat)
      ensures value == runningMean
    {
      value := runningMean;
    }
  }

  // ----- Runs of updates -----

  datatype Sample = Sample(time: nat, count: nat)

  function Samples(history: seq<Sample>): nat {
    if history == [] then 0 else Samples(history[..|history| - 1]) + history[|history| - 1].count
  }

  /** Every update covers at least one sample and stays clear of the sign bit. */
  predicate Ordinary(history: seq<Sample>) {
    && Samples(history) < TWO_63
    && forall i :: 0 <= i < |history| ==> 0 < history[i].count && history[i].time / history[i].count < TWO_63
  }

  lemma {:induction false} OrdinaryPrefix(history: seq<Sample>)
    requires Ordinary(history) && history != []
    ensures Ordinary(history[..|history| - 1])
  {
  }

  /** The mean after these updates, whether or not the build checks for overflow. */
  function After(checks: bool, history: seq<Sample>): (m: Mean)
    requires Ordinary(history)
    ensures m.samples == Samples(history)
    ensures history == [] ==> m == EMPTY
    ensures history != [] ==> 0 < m.samples && m.value < TWO_63
  {
    if history == [] then EMPTY
    else
      OrdinaryPrefix(history);
      var before := After(checks, history[..|history| - 1]);
      var s := history[|history| - 1];
      StepBetween(checks, before, s);
      Updated(checks, before, s.time, s.count).value
  }

  lemma SmallCasts(x: int)
    requires I64(x)
    ensures AsI64(x) == x && (0 <= x ==> AsU64(x) == x)
  {
  }

  lemma {:induction false} Scale(q: nat, n: nat)
    requires 0 < n
    ensures q <= n * q
  {
    if 1 < n {
      Scale(q, n - 1);
      assert n * q == (n - 1) * q + q;
    }
  }

  lemma DivisionBounds(a: nat, n: nat)
    requires 0 < n
    ensures 0 <= a / n <= a && a - n < n * (a / n) <= a
  {
    assert a == n * (a / n) + a % n;
    Scale(a / n, n);
  }

  lemma TruncBetween(d: int, n: int)
    requires 0 < n
    ensures 0 <= d ==> 0 <= TruncDiv(d, n) <= d
    ensures d < 0 ==> d <= TruncDiv(d, n) <= 0
    ensures -n < n * TruncDiv(d, n) - d < n
  {
    DivisionBounds(Abs(d), n);
    assert n * -(Abs(d) / n) == -(n * (Abs(d) / n));
  }

  /** Without the products, which only the drift needs. */
  lemma QuotientBetween(d: int, n: int)
    requires 0 < n
    ensures 0 <= d ==> 0 <= TruncDiv(d, n) == d / n <= d
    ensures d < 0 ==> d <= TruncDiv(d, n) <= 0
  {
    TruncBetween(d, n);
  }

  /** Clear of the sign bit nothing overflows and the casts cancel. */
  lemma BlendExact(checks: bool, mean: nat, x: nat, n: nat)
    requires mean < TWO_63 && x < TWO_63 && 0 < n < TWO_63
    ensures 0 <= mean + TruncDiv(x - mean, n) < TWO_63
    ensures Blend(checks, mean, x, n) == Some(mean + TruncDiv(x - mean, n))
  {
    SmallCasts(x);
    SmallCasts(n);
    SmallCasts(mean);
    SmallCasts(x - mean);
    QuotientBetween(x - mean, n);
    SmallCasts(mean + TruncDiv(x - mean, n));
  }

  /** In range an update is a truncating step, in builds with and without overflow checks. */
  lemma AdvancedExact(checks: bool, m: Mean, x: nat, count: nat)
    requires 0 < count && x < TWO_63 && 0 < m.samples && m.samples + count < TWO_63 && m.value < TWO_63
    ensures var n := m.samples + count;
            && 0 <= m.value + TruncDiv(x - m.value, n)
            && Advanced(checks, m, x, count) == Some(Mean(m.value + TruncDiv(x - m.value, n), n))
  {
    SmallCasts(m.samples + count);
    BlendExact(checks, m.value, x, m.samples + count);
  }

  lemma AdvancedBetween(checks: bool, m: Mean, x: nat, count: nat)
    requires 0 < count && x < TWO_63 && 0 < m.samples && m.samples + count < TWO_63 && m.value < TWO_63
    ensures Advanced(checks, m, x, count).Some?
    ensures var next := Advanced(checks, m, x, count).value;
            && next.samples == m.samples + count
            && (m.value <= next.value <= x || x <= next.value <= m.value)
  {
    AdvancedExact(checks, m, x, count);
    QuotientBetween(x - m.value, m.samples + count);
  }

  /** An update moves the mean towards the time per sample, and never past it. */
  lemma StepBetween(checks: bool, m: Mean, s: Sample)
    requires 0 < s.count && s.time / s.count < TWO_63 && m.samples + s.count < TWO_63
    requires m.samples == 0 || m.value < TWO_63
    ensures Updated(checks, m, s.time, s.count).Some?
    ensures var x, next := s.time / s.count, Updated(checks, m, s.time, s.count).value;
            && next.samples == m.samples + s.count
            && (m.samples == 0 ==> next.value == x)
            && (0 < m.samples ==> m.value <= next.value <= x || x <= next.value <= m.value)
  {
    var x := TimePerSample(checks, m, s);
    if 0 < m.samples {
      AdvancedBetween(checks, m, x, s.count);
    }
  }

  lemma TimePerSample(checks: bool, m: Mean, s: Sample) returns (x: nat)
    requires 0 < s.count
    ensures x == s.time / s.count
    ensures Updated(checks, m, s.time, s.count)
            == if m.samples == 0 then Some(Mean(x, s.count)) else Advanced(checks, m, x, s.count)
  {
    x := s.time / s.count;
  }

  /** Truncation is towards zero: it treats both signs alike, and drops what is less than the divisor. */
  lemma TruncatesTowardsZero(d: int, n: int)
    requires 2 <= n
    ensures TruncDiv(-d, n) == -TruncDiv(d, n)
    ensures -n < d < n ==> TruncDiv(d, n) == 0
  {
    assert Abs(-d) == Abs(d);
    Halves(Abs(d), n);
    var q := Abs(d) / n;
    assert TruncDiv(d, n) == if d < 0 then -q else q;
    assert TruncDiv(-d, n) == if d > 0 then -q else q;
  }

  /** Without samples an update changes nothing; the first one with samples replaces the initial mean. */
  lemma FirstUpdates(checks: bool, time: nat, count: nat, m: Mean)
    ensures Updated(checks, m, time, 0) == Some(m)
    ensures 0 < count ==> Updated(checks, EMPTY, time, count) == Some(Mean(time / count, count))
  {
  }

  /** The mean lies between the smallest and the largest time per sample ever seen. */
  lemma {:induction false} MeanWithinRange(checks: bool, history: seq<Sample>, lo: nat, hi: nat)
    requires Ordinary(history) && history != []
    requires forall i :: 0 <= i < |history| ==> lo <= history[i].time / history[i].count <= hi
    ensures lo <= After(checks, history).value <= hi
  {
    var before, s := history[..|history| - 1], history[|history| - 1];
    OrdinaryPrefix(history);
    StepBetween(checks, After(checks, before), s);
    if before != [] {
      MeanWithinRange(checks, before, lo, hi);
    }
  }

  /** The casts, spelled out on the ranges that sums and differences of two words reach. */
  lemma Casts(x: int)
    requires -TWO_64 <= x < 2 * TWO_64
    ensures AsU64(x) == if x < 0 then x + TWO_64 else if x < TWO_64 then x else x - TWO_64
    ensures x < TWO_64 ==> AsI64(x) == if x < -TWO_63 then x + TWO_64 else if x < TWO_63 then x else x - TWO_64
  {
  }

  /** The signed difference of two words, wrapped or not, is their true difference as a signed word. */
  lemma DifferenceWraps(mean: nat, x: nat)
    requires mean < TWO_64 && x < TWO_64
    ensures AsI64(AsI64(x) - AsI64(mean)) == AsI64(x - mean)
  {
    Casts(x);
    Casts(mean);
    Casts(x - mean);
    Casts(AsI64(x) - AsI64(mean));
  }

  /** Adding to the signed word and casting back is adding to the word itself. */
  lemma SumWraps(mean: nat, q: int)
    requires mean < TWO_64 && -TWO_63 <= q < TWO_63
    ensures AsU64(AsI64(mean) + q) == AsU64(mean + q)
  {
    Casts(mean);
    Casts(AsI64(mean) + q);
    Casts(mean + q);
  }

  /** Without overflow checks a blend is modular: the truncated n-th part of the wrapped difference is added. */
  lemma BlendIsModular(mean: nat, x: nat, n: nat)
    requires mean < TWO_64 && x < TWO_64 && 2 <= n < TWO_63
    ensures -TWO_63 <= AsI64(x - mean) < TWO_63
    ensures Blend(false, mean, x, n) == Some(AsU64(mean + TruncDiv(AsI64(x - mean), n)))
  {
    SmallCasts(n);
    Casts(x - mean);
    DifferenceWraps(mean, x);
    QuotientBetween(AsI64(x - mean), n);
    SumWraps(mean, TruncDiv(AsI64(x - mean), n));
  }

  predicate Between(next: nat, mean: nat, x: nat) {
    mean <= next <= x || x <= next <= mean
  }

  /** A step towards `x`, along the true difference. */
  lemma ForwardStaysBetween(mean: nat, x: nat, q: int)
    requires mean < TWO_64 && x < TWO_64 && (0 <= q <= x - mean || x - mean <= q <= 0)
    ensures Between(AsU64(mean + q), mean, x)
  {
    Casts(mean + q);
  }

  /** A step the other way round the words, at most half the way, stays between only if it is none. */
  lemma BackwardLeaves(mean: nat, x: nat, q: int)
    requires mean < TWO_64 && x < TWO_64
    requires if mean <= x then q <= 0 && -2 * q <= TWO_64 - (x - mean) else 0 <= q && 2 * q <= TWO_64 - (mean - x)
    requires Abs(x - mean) >= TWO_63
    ensures Between(AsU64(mean + q), mean, x) <==> q == 0
  {
    Casts(mean + q);
  }

  lemma Halves(a: nat, n: nat)
    requires 2 <= n
    ensures 2 * (a / n) <= a && (a / n == 0 <==> a < n)
  {
    var q := a / n;
    assert a == n * q + a % n;
    assert n * q >= 2 * q by { assert n * q == 2 * q + (n - 2) * q; }
  }

  /**
   An update that does not panic keeps the mean between itself and the next time per
   sample, whatever 64-bit words they are, if and only if their difference fits a
   signed word or its complement is too small to survive the division. Without
   overflow checks no update panics.
   */
  lemma BlendStaysBetweenExactly(checks: bool, mean: nat, x: nat, n: nat)
    requires mean < TWO_64 && x < TWO_64 && 2 <= n < TWO_63
    ensures !checks ==> Blend(checks, mean, x, n).Some?
    ensures Blend(checks, mean, x, n).Some? ==>
              (Between(Blend(checks, mean, x, n).value, mean, x) <==>
               -TWO_63 <= x - mean < TWO_63 || TWO_64 - Abs(x - mean) < n)
  {
    ChecksOnlyPanic(mean, x, n);
    var q := BlendStep(mean, x, n);
    if -TWO_63 <= x - mean < TWO_63 {
      ForwardStaysBetween(mean, x, q);
    } else {
      BackwardLeaves(mean, x, q);
    }
  }

  lemma ChecksOnlyPanic(mean: nat, x: nat, n: nat)
    ensures Blend(true, mean, x, n).Some? ==> Blend(true, mean, x, n) == Blend(false, mean, x, n)
  {
  }

  /** The step that a blend takes: towards `x` if the difference fits a signed word, else the other way round. */
  lemma BlendStep(mean: nat, x: nat, n: nat) returns (q: int)
    requires mean < TWO_64 && x < TWO_64 && 2 <= n < TWO_63
    ensures Blend(false, mean, x, n) == Some(AsU64(mean + q))
    ensures -TWO_63 <= x - mean < TWO_63 ==> 0 <= q <= x - mean || x - mean <= q <= 0
    ensures !(-TWO_63 <= x - mean < TWO_63) ==>
              && 2 * Abs(q) <= TWO_64 - Abs(x - mean) && (q == 0 <==> TWO_64 - Abs(x - mean) < n)
              && if x < mean then 0 <= q else q <= 0
  {
    BlendIsModular(mean, x, n);
    if -TWO_63 <= x - mean < TWO_63 {
      Casts(x - mean);
      QuotientBetween(x - mean, n);
      q := TruncDiv(x - mean, n);
    } else {
      q := BackwardStep(x - mean, n);
    }
  }

  lemma BackwardStep(difference: int, n: nat) returns (q: int)
    requires 2 <= n && -TWO_64 < difference < TWO_64 && !(-TWO_63 <= difference < TWO_63)
    ensures q == TruncDiv(AsI64(difference), n)
    ensures 2 * Abs(q) <= TWO_64 - Abs(difference) && (q == 0 <==> TWO_64 - Abs(difference) < n)
    ensures if difference < 0 then 0 <= q else q <= 0
  {
    Casts(difference);
    var rest := TWO_64 - Abs(difference);
    var magnitude := Truncated(rest, n);
    assert AsI64(difference) == if difference < 0 then rest else -rest;
    q := if difference < 0 then magnitude else -magnitude;
  }

  /** Both signs of a number have the same quotient, at most half the number, but for its sign. */
  lemma Truncated(a: int, n: int) returns (q: int)
    requires 0 <= a && 2 <= n
    ensures TruncDiv(a, n) == q && TruncDiv(-a, n) == -q
    ensures 0 <= 2 * q <= a && (q == 0 <==> a < n)
  {
    Halves(a, n);
    q := a / n;
    assert Abs(-a) == a;
  }

  /** A sample that does it: after one instant update, 2^63 throws the mean beyond both. */
  lemma LargeSampleLeavesRange()
    ensures Updated(false, Mean(0, 1), TWO_63, 1) == Some(Mean(TWO_64 - TWO_63 / 2, 2))
    ensures !Between(TWO_64 - TWO_63 / 2, 0, TWO_63)
  {
    BlendIsModular(0, TWO_63, 2);
    Casts(TWO_63);
  }

  /** Another, reached from a new mean: an update near the largest word, then an instant one. */
  lemma LargeMeanLeavesRange()
    ensures Updated(false, EMPTY, TWO_64 - 10, 1) == Some(Mean(TWO_64 - 10, 1))
    ensures Updated(false, Mean(TWO_64 - 10, 1), 0, 1) == Some(Mean(TWO_64 - 5, 2))
    ensures !Between(TWO_64 - 5, TWO_64 - 10, 0)
  {
    BlendIsModular(TWO_64 - 10, 0, 2);
    Casts(10 - TWO_64);
    Casts(TWO_64 - 10 + 5);
  }

  function Sum(history: seq<Sample>): nat {
    if history == [] then 0 else Sum(history[..|history| - 1]) + history[|history| - 1].time
  }

  /** `mean` misses the exact mean of `n` values of this sum by at most (n-1)/2. */
  predicate WithinDrift(n: int, mean: int, sum: int) {
    2 * Abs(n * mean - sum) <= n * (n - 1)
  }

  lemma DriftStep(n: int, mean: int, x: int, sum: int)
    requires 1 < n && WithinDrift(n - 1, mean, sum)
    ensures WithinDrift(n, mean + TruncDiv(x - mean, n), sum + x)
  {
    var step := TruncDiv(x - mean, n);
    TruncBetween(x - mean, n);
    assert n * (mean + step) - (sum + x) == ((n - 1) * mean - sum) + (n * step - (x - mean));
    assert n * (n - 1) == (n - 1) * (n - 2) + 2 * (n - 1);
  }

  /** Truncation makes the mean drift, after n updates of one sample each by at most n(n-1)/2 in the sum. */
  lemma {:induction false} MeanDrift(checks: bool, history: seq<Sample>)
    requires Ordinary(history) && history != []
    requires forall i :: 0 <= i < |history| ==> history[i].count == 1
    ensures Samples(history) == |history| && WithinDrift(|history|, After(checks, history).value, Sum(history))
  {
    var n, before, s := |history|, history[..|history| - 1], history[|history| - 1];
    OrdinaryPrefix(history);
    assert s.time / s.count == s.time;
    if before == [] {
      assert Samples(before) == 0 && Sum(before) == 0;
    } else {
      MeanDrift(checks, before);
      var mean := After(checks, before).value;
      AdvancedExact(checks, After(checks, before), s.time, 1);
      DriftStep(n, mean, s.time, Sum(before));
    }
  }
}
