/**
 The scheduler's projection of worker progress: an event loop that advances to
 the next update of any worker until the data points are used up or a worker
 reaches the cap on its updates.
 */
module Simulation {
  import opened Arithmetic

  const U32_MAX: nat := 0xFFFF_FFFF
  const U64_MAX: nat := 0xFFFF_FFFF_FFFF_FFFF
  const TWO_31: nat := 0x8000_0000

  /** `x as i32` for an unsigned 32-bit `x`. */
  function AsI32(x: nat): int {
    if x < TWO_31 then x else x - (U32_MAX + 1)
  }

  function SaturatingAdd(a: nat, b: nat, max: nat): nat {
    if a + b <= max then a + b else max
  }

  /** The workers that take part: the shortest of the three inputs decides. */
  function Workers(progress: seq<nat>, batchSizes: seq<nat>, statistics: seq<nat>): nat {
    Min(Min(|progress|, |statistics|), |batchSizes|)
  }

  // ----- The closed form -----

  /** How many of the times p + s, p + 2s, p + 3s, ... are at most t. */
  function Count(p: nat, s: nat, t: nat): nat
    requires 0 < s
  {
    if t < p + s then 0 else (t - p) / s
  }

  /** The sum of a_i * b_i over the first n indices. */
  function Dot(a: seq<nat>, b: seq<nat>, n: nat): nat
    requires n <= |a| && n <= |b|
  {
    if n == 0 then 0 else Dot(a, b, n - 1) + a[n - 1] * b[n - 1]
  }

  function Total(a: seq<nat>, n: nat): nat
    requires n <= |a|
  {
    if n == 0 then 0 else Total(a, n - 1) + a[n - 1]
  }

  function Counts(progress: seq<nat>, statistics: seq<nat>, n: nat, t: nat): (counts: seq<nat>)
    requires n <= |progress| && n <= |statistics|
    requires forall i :: 0 <= i < n ==> 0 < statistics[i]
    ensures |counts| == n && forall i :: 0 <= i < n ==> counts[i] == Count(progress[i], statistics[i], t)
  {
    seq(n, i requires 0 <= i < n => Count(progress[i], statistics[i], t))
  }

  /** By time t the workers have covered the data points, or one of them has reached the cap. */
  predicate Done(progress: seq<nat>, batchSizes: seq<nat>, statistics: seq<nat>, left: nat, cap: nat, n: nat, t: nat)
    requires n <= |progress| && n <= |statistics| && n <= |batchSizes|
    requires forall i :: 0 <= i < n ==> 0 < statistics[i]
  {
    var counts := Counts(progress, statistics, n, t);
    Dot(batchSizes, counts, n) >= left || exists i :: 0 <= i < n && counts[i] >= cap
  }

  /** The closed form counts what it says. */
  lemma CountIsCardinality(p: nat, s: nat, t: nat)
    requires 0 < s
    ensures forall k: nat :: 1 <= k <= Count(p, s, t) <==> 1 <= k && p + k * s <= t
  {
    forall k: nat ensures 1 <= k <= Count(p, s, t) <==> 1 <= k && p + k * s <= t {
      if t >= p + s {
        var q, r := (t - p) / s, (t - p) % s;
        assert t - p == q * s + r;
        if k <= q {
          assert k * s <= q * s by { Monotone(k, q, s); }
        } else {
          assert (q + 1) * s <= k * s by { Monotone(q + 1, k, s); }
          assert (q + 1) * s == q * s + s;
        }
      } else if 1 <= k {
        Monotone(1, k, s);
      }
    }
  }

  // ----- Sums -----

  lemma {:induction false} DotAgree(a: seq<nat>, b: seq<nat>, c: seq<nat>, n: nat)
    requires n <= |a| && n <= |b| && n <= |c| && forall i :: 0 <= i < n ==> b[i] == c[i]
    ensures Dot(a, b, n) == Dot(a, c, n)
  {
    if n > 0 {
      DotAgree(a, b, c, n - 1);
    }
  }

  lemma {:induction false} DotBump(a: seq<nat>, b: seq<nat>, n: nat, i: nat)
    requires i < n <= |a| && n <= |b|
    ensures Dot(a, b[i := b[i] + 1], n) == Dot(a, b, n) + a[i]
  {
    if i == n - 1 {
      DotAgree(a, b, b[i := b[i] + 1], n - 1);
      assert a[i] * (b[i] + 1) == a[i] * b[i] + a[i];
    } else {
      DotBump(a, b, n - 1, i);
    }
  }

  lemma {:induction false} DotGrowth(a: seq<nat>, b: seq<nat>, c: seq<nat>, n: nat)
    requires n <= |a| && n <= |b| && n <= |c| && forall i :: 0 <= i < n ==> c[i] <= b[i] + 1
    ensures Dot(a, c, n) <= Dot(a, b, n) + Total(a, n)
  {
    if n > 0 {
      DotGrowth(a, b, c, n - 1);
      var x, y, z := a[n - 1], b[n - 1], c[n - 1];
      Monotone(z, y + 1, x);
      assert x * z == z * x && x * (y + 1) == (y + 1) * x && x * (y + 1) == x * y + x;
    }
  }

  /** How many updates the workers have left before all of them reach the cap. */
  function Headroom(updates: seq<nat>, cap: nat, n: nat): nat
    requires n <= |updates| && forall i :: 0 <= i < n ==> updates[i] <= cap
  {
    if n == 0 then 0 else Headroom(updates, cap, n - 1) + (cap - updates[n - 1])
  }

  lemma {:induction false} HeadroomFalls(before: seq<nat>, after: seq<nat>, cap: nat, n: nat, i: nat)
    requires n <= |before| && n <= |after| && i <= n
    requires forall k :: 0 <= k < n ==> before[k] <= after[k] <= cap
    requires i < n ==> before[i] < after[i]
    ensures Headroom(after, cap, n) <= Headroom(before, cap, n)
    ensures i < n ==> Headroom(after, cap, n) < Headroom(before, cap, n)
  {
    if n > 0 {
      HeadroomFalls(before, after, cap, n - 1, if i < n then i else n - 1);
    }
  }

  // ----- The loop -----

  datatype Inputs = Inputs(progress: seq<nat>, batchSizes: seq<nat>, statistics: seq<nat>, left: nat, cap: nat) {

    function N(): nat { Workers(progress, batchSizes, statistics) }

    /** A cap of zero stops at the first update, as a cap of one does. */
    function Cap(): nat { if cap == 0 then 1 else cap }

    /**
     Machine integers, a first addition that does not overflow, at least one
     worker if there is anything to do, and batches whose sum stays a 32-bit integer.
     */
    predicate InRange() {
      && left <= U32_MAX && cap <= U32_MAX
      && (forall i :: 0 <= i < |progress| && i < |statistics| ==> progress[i] + statistics[i] <= U64_MAX)
      && (0 < AsI32(left) ==> 0 < N())
      && Total(batchSizes, N()) < TWO_31
    }

    /** Every worker makes progress. */
    predicate Moving() {
      forall i :: 0 <= i < N() ==> 0 < statistics[i]
    }

    /** When worker i finishes its k-th update from now. */
    function EventTime(i: nat, k: nat): nat
      requires i < |progress| && i < |statistics|
    {
      Min(progress[i] + k * statistics[i], U64_MAX)
    }

    predicate DoneBy(t: nat)
      requires Moving()
    {
      Done(progress, batchSizes, statistics, left, Cap(), N(), t)
    }

    /** What holds of the loop's variables whenever a round of simultaneous updates is complete. */
    ghost predicate Consistent(toGo: int, updates: seq<nat>, nextUpdate: seq<nat>) {
      && |updates| == |batchSizes| && |nextUpdate| == Min(|progress|, |statistics|)
      && (forall i :: 0 <= i < N() ==> updates[i] <= Cap() && nextUpdate[i] == EventTime(i, updates[i] + 1))
      && (forall i :: N() <= i < |updates| ==> updates[i] == 0)
      && toGo + Dot(batchSizes, updates, N()) == left
    }

    ghost predicate Capped(updates: seq<nat>)
      requires N() <= |updates|
    {
      exists i :: 0 <= i < N() && updates[i] == Cap()
    }

    /** Exactly the updates up to `time` have been counted. */
    ghost predicate InStep(time: nat, updates: seq<nat>)
      requires N() <= |updates|
    {
      forall i :: 0 <= i < N() ==>
                    && (0 < updates[i] ==> EventTime(i, updates[i]) <= time)
                    && (time < EventTime(i, updates[i] + 1) || time == EventTime(i, updates[i] + 1) == U64_MAX)
    }
  }

  /** While no update falls between, the closed form stays at the counted updates. */
  lemma InStepCounts(x: Inputs, updates: seq<nat>, i: nat, t: nat)
    requires x.Moving() && i < x.N() <= |updates| && t < U64_MAX
    requires 0 < updates[i] ==> x.EventTime(i, updates[i]) <= t
    requires t < x.EventTime(i, updates[i] + 1)
    ensures Count(x.progress[i], x.statistics[i], t) == updates[i]
  {
    var p, s, u := x.progress[i], x.statistics[i], updates[i];
    CountIsCardinality(p, s, t);
    var c := Count(p, s, t);
    assert 1 <= u <= c <==> 1 <= u && p + u * s <= t;
    assert 1 <= u + 1 <= c <==> p + (u + 1) * s <= t;
  }

  /** Nothing is done strictly between the last complete round and the next event. */
  lemma NotDoneBetween(x: Inputs, time: nat, toGo: int, updates: seq<nat>, nextUpdate: seq<nat>, t: nat)
    requires x.Moving() && x.Consistent(toGo, updates, nextUpdate) && x.InStep(time, updates)
    requires 0 < toGo && (forall i :: 0 <= i < x.N() ==> updates[i] < x.Cap())
    requires time <= t < U64_MAX && forall i :: 0 <= i < x.N() ==> t < nextUpdate[i]
    ensures !x.DoneBy(t)
  {
    var counts := Counts(x.progress, x.statistics, x.N(), t);
    forall i | 0 <= i < x.N() ensures counts[i] == updates[i] {
      InStepCounts(x, updates, i, t);
    }
    DotAgree(x.batchSizes, counts, updates, x.N());
  }

  lemma DoneAtExit(x: Inputs, time: nat, toGo: int, updates: seq<nat>, nextUpdate: seq<nat>)
    requires x.Moving() && x.Consistent(toGo, updates, nextUpdate) && x.InStep(time, updates) && time < U64_MAX
    ensures forall i :: 0 <= i < x.N() ==> updates[i] == Count(x.progress[i], x.statistics[i], time)
    ensures x.DoneBy(time) <==> toGo <= 0 || exists i :: 0 <= i < x.N() && updates[i] >= x.Cap()
  {
    var counts := Counts(x.progress, x.statistics, x.N(), time);
    forall i | 0 <= i < x.N() ensures counts[i] == updates[i] {
      InStepCounts(x, updates, i, time);
    }
    DotAgree(x.batchSizes, counts, updates, x.N());
  }

  /** The indices of all smallest keys among the first n, in ascending order. */
  method MinSet(keys: seq<nat>, n: nat) returns (indices: seq<nat>)
    requires 0 < n <= |keys|
    ensures indices != []
    ensures forall j :: 0 <= j < |indices| ==> indices[j] < n
    ensures forall j, k :: 0 <= j < k < |indices| ==> indices[j] < indices[k]
    ensures forall i :: 0 <= i < n ==> (i in indices <==> forall k :: 0 <= k < n ==> keys[i] <= keys[k])
  {
    indices := [0];
    for i := 1 to n
      invariant indices != [] && indices[|indices| - 1] < i
      invariant forall j :: 0 <= j < |indices| ==> indices[j] < i
      invariant forall j, k :: 0 <= j < k < |indices| ==> indices[j] < indices[k]
      invariant forall k :: 0 <= k < i ==> keys[indices[0]] <= keys[k]
      invariant forall k :: 0 <= k < i ==> (k in indices <==> keys[k] == keys[indices[0]])
    {
      if keys[i] < keys[indices[0]] {
        indices := [i];
      } else if keys[i] == keys[indices[0]] {
        indices := indices + [i];
      }
    }
  }

  /** Each worker listed in `indices` has made one more update. */
  ghost predicate Fired(indices: seq<nat>, before: seq<nat>, after: seq<nat>) {
    |after| == |before| && forall i :: 0 <= i < |before| ==> after[i] == before[i] + if i in indices then 1 else 0
  }

  lemma EventSaturates(x: Inputs, i: nat, k: nat)
    requires i < |x.progress| && i < |x.statistics|
    ensures SaturatingAdd(x.EventTime(i, k), x.statistics[i], U64_MAX) == x.EventTime(i, k + 1)
  {
    assert (k + 1) * x.statistics[i] == k * x.statistics[i] + x.statistics[i];
  }

  /** One more update of worker i keeps the variables consistent. */
  lemma FireKeepsConsistent(x: Inputs, toGo: int, updates: seq<nat>, nextUpdate: seq<nat>, i: nat)
    requires x.InRange() && x.Consistent(toGo, updates, nextUpdate) && i < x.N() && updates[i] < x.Cap()
    ensures var after := updates[i := SaturatingAdd(updates[i], 1, U32_MAX)];
            && after[i] == updates[i] + 1
            && x.Consistent(toGo - AsI32(x.batchSizes[i]), after,
                            nextUpdate[i := SaturatingAdd(nextUpdate[i], x.statistics[i], U64_MAX)])
            && (x.Capped(after) <==> x.Capped(updates) || after[i] >= x.cap)
  {
    var after := updates[i := SaturatingAdd(updates[i], 1, U32_MAX)];
    assert forall k :: 0 <= k < x.N() && k != i ==> after[k] == updates[k];
    DotBump(x.batchSizes, updates, x.N(), i);
    BatchIsSmall(x.batchSizes, x.N(), i);
    EventSaturates(x, i, updates[i] + 1);
  }

  /** The inner loop: all workers of the smallest event time make their update. */
  method Fire(x: Inputs, indices: seq<nat>, toGo: int, updates: seq<nat>, nextUpdate: seq<nat>)
    returns (toGo': int, updates': seq<nat>, nextUpdate': seq<nat>, capped: bool)
    requires x.InRange() && 0 < toGo && x.Consistent(toGo, updates, nextUpdate)
    requires forall i :: 0 <= i < x.N() ==> updates[i] < x.Cap()
    requires forall j :: 0 <= j < |indices| ==> indices[j] < x.N()
    requires forall j, k :: 0 <= j < k < |indices| ==> indices[j] < indices[k]
    ensures Fired(indices, updates, updates') && x.Consistent(toGo', updates', nextUpdate')
    ensures capped <==> x.Capped(updates')
  {
    toGo', updates', nextUpdate', capped := toGo, updates, nextUpdate, false;
    for j := 0 to |indices|
      invariant Fired(indices[..j], updates, updates') && x.Consistent(toGo', updates', nextUpdate')
      invariant capped <==> x.Capped(updates')
    {
      var idx := indices[j];
      assert indices[..j + 1] == indices[..j] + [idx] && idx !in indices[..j];
      FireKeepsConsistent(x, toGo', updates', nextUpdate', idx);
      toGo' := toGo' - AsI32(x.batchSizes[idx]);
      updates' := updates'[idx := SaturatingAdd(updates'[idx], 1, U32_MAX)];
      if updates'[idx] >= x.cap {
        capped := true;
      }
      nextUpdate' := nextUpdate'[idx := SaturatingAdd(nextUpdate'[idx], x.statistics[idx], U64_MAX)];
    }
  }

  lemma {:induction false} BatchIsSmall(batchSizes: seq<nat>, n: nat, i: nat)
    requires i < n <= |batchSizes|
    ensures batchSizes[i] <= Total(batchSizes, n)
  {
    if i < n - 1 {
      BatchIsSmall(batchSizes, n - 1, i);
    }
  }

  lemma {:induction false} DotZero(a: seq<nat>, b: seq<nat>, n: nat)
    requires n <= |a| && n <= |b| && forall i :: 0 <= i < n ==> b[i] == 0
    ensures Dot(a, b, n) == 0
  {
    if n > 0 {
      DotZero(a, b, n - 1);
    }
  }

  /** The least event time has been reached, not passed, by every worker, and fired exactly those that reach it. */
  lemma RoundStaysInStep(x: Inputs, time: nat, updates: seq<nat>, nextUpdate: seq<nat>, indices: seq<nat>,
                         newTime: nat, updates': seq<nat>)
    requires x.Moving() && |updates| == |x.batchSizes| && |nextUpdate| >= x.N() && x.InStep(time, updates)
    requires forall i :: 0 <= i < x.N() ==> nextUpdate[i] == x.EventTime(i, updates[i] + 1)
    requires forall i :: 0 <= i < x.N() ==> (i in indices <==> nextUpdate[i] == newTime) && newTime <= nextUpdate[i]
    requires exists i :: 0 <= i < x.N() && i in indices
    requires Fired(indices, updates, updates')
    ensures x.InStep(newTime, updates')
  {
    forall i | 0 <= i < x.N()
      ensures 0 < updates'[i] ==> x.EventTime(i, updates'[i]) <= newTime
      ensures newTime < x.EventTime(i, updates'[i] + 1) || newTime == x.EventTime(i, updates'[i] + 1) == U64_MAX
    {
      var s, u := x.statistics[i], updates'[i];
      assert (u + 1) * s == u * s + s;
      if i !in indices && 0 < u {
        assert x.EventTime(i, u) <= time;
      }
    }
  }

  /** How far the work must have got when the projection stops. */
  ghost predicate Projected(x: Inputs, time: nat, toGo: int, updates: seq<nat>, capped: bool) {
    && |updates| == |x.batchSizes|
    && (forall i :: 0 <= i < |updates| ==> updates[i] <= if i < x.N() then x.Cap() else 0)
    && toGo + Dot(x.batchSizes, updates, x.N()) == x.left
    && 0 < toGo + Total(x.batchSizes, x.N())
    && (capped <==> x.Capped(updates))
    && (toGo <= 0 || capped)
  }

  /** The closed form, at the least time by which the work is done or a worker is capped. */
  ghost predicate Least(x: Inputs, time: nat, updates: seq<nat>)
    requires |updates| == |x.batchSizes|
  {
    x.Moving() ==>
      && (forall t: nat :: t < time ==> !x.DoneBy(t))
      && (time < U64_MAX ==>
            && x.DoneBy(time)
            && forall i :: 0 <= i < x.N() ==> updates[i] == Count(x.progress[i], x.statistics[i], time))
  }

  /** The counted updates are those up to `time`, and nothing was done earlier. */
  ghost predicate OnTime(x: Inputs, time: nat, updates: seq<nat>)
    requires x.N() <= |updates|
  {
    x.Moving() ==> x.InStep(time, updates) && forall t: nat :: t < time ==> !x.DoneBy(t)
  }

  lemma RoundKeepsOnTime(x: Inputs, time: nat, toGo: int, updates: seq<nat>, nextUpdate: seq<nat>,
                         indices: seq<nat>, newTime: nat, updates': seq<nat>)
    requires x.Consistent(toGo, updates, nextUpdate) && OnTime(x, time, updates) && 0 < toGo
    requires forall i :: 0 <= i < x.N() ==> updates[i] < x.Cap()
    requires indices != [] && indices[0] < x.N() && newTime == nextUpdate[indices[0]]
    requires Fired(indices, updates, updates')
    requires forall i :: 0 <= i < x.N() ==>
                           (i in indices <==> forall k :: 0 <= k < x.N() ==> nextUpdate[i] <= nextUpdate[k])
    ensures OnTime(x, newTime, updates')
  {
    assert indices[0] in indices;
    if x.Moving() {
      RoundStaysInStep(x, time, updates, nextUpdate, indices, newTime, updates');
      forall t: nat | t < newTime ensures !x.DoneBy(t) {
        if time <= t {
          NotDoneBetween(x, time, toGo, updates, nextUpdate, t);
        }
      }
    }
  }

  method Project(x: Inputs) returns (time: nat, toGo: int, updates: seq<nat>, capped: bool)
    requires x.InRange()
    ensures x.left == 0 || 0x8000_0000 <= x.left ==>
              && (time, toGo, capped) == (0, if x.left == 0 then 0 else x.left - 0x1_0000_0000, false)
              && |updates| == |x.batchSizes| && forall i :: 0 <= i < |updates| ==> updates[i] == 0
    ensures 0 < x.left < 0x8000_0000 ==> Projected(x, time, toGo, updates, capped) && Least(x, time, updates)
  {
    updates := seq(|x.batchSizes|, _ => 0);
    time, toGo, capped := 0, AsI32(x.left), false;
    if toGo <= 0 {
      return;
    }
    var nextUpdate: seq<nat> :=
      seq(Min(|x.progress|, |x.statistics|), i requires 0 <= i < |x.progress| && i < |x.statistics| =>
          x.progress[i] + x.statistics[i]);
    DotZero(x.batchSizes, updates, x.N());
    while toGo > 0
      invariant !capped && x.Consistent(toGo, updates, nextUpdate) && 0 < toGo + Total(x.batchSizes, x.N())
      invariant forall i :: 0 <= i < x.N() ==> updates[i] < x.Cap()
      invariant OnTime(x, time, updates)
      decreases Headroom(updates, x.Cap(), x.N())
    {
      var minIndices := MinSet(nextUpdate, x.N());
      ghost var oldTime, oldToGo, before, oldNext := time, toGo, updates, nextUpdate;
      time := nextUpdate[minIndices[0]];
      toGo, updates, nextUpdate, capped := Fire(x, minIndices, toGo, updates, nextUpdate);
      HeadroomFalls(before, updates, x.Cap(), x.N(), minIndices[0]);
      DotGrowth(x.batchSizes, before, updates, x.N());
      RoundKeepsOnTime(x, oldTime, oldToGo, before, oldNext, minIndices, time, updates);
      if capped {
        break;
      }
    }
    if x.Moving() && time < U64_MAX {
      DoneAtExit(x, time, toGo, updates, nextUpdate);
    }
  }
}
