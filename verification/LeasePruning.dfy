/**
 The prune loop snapshots the expired leases under one lock and removes them
 one by one under later locks, by identifier only. This module says exactly
 which leases that can remove.
 */
module LeasePruning {
  import opened Common
  import opened Wrappers
  import opened HyphaResources
  import opened HyphaLeases
  import opened LeaseManager
  import opened LeaseProtocol

  /** The clock never runs backwards and renewals ask for a positive duration. */
  ghost predicate Timely(s: State, step: Step) {
    && (step.InsertLease? || step.Snapshot? || step.RenewLease? ==> s.clock <= step.now)
    && (step.Spawn? && step.task.RenewWaiting? ==> 0 < step.task.duration)
  }

  ghost predicate AllTimely(s: State, steps: seq<Step>)
    requires Legal(s, steps)
    decreases |steps|
  {
    steps == [] || (Timely(s, steps[0]) && AllTimely(Apply(s, steps[0]), steps[1..]))
  }

  /** A lease of a snapshot taken at `at` is still as it was, or was renewed past `at`, or is gone for good. */
  predicate Tracked(s: State, copy: Lease<ResourceLease>, at: Time) {
    && copy.timeout <= at <= s.clock
    && copy.id in s.owners
    && (copy.id in s.leases ==> s.leases[copy.id] == copy || at < s.leases[copy.id].timeout)
  }

  ghost predicate SnapshotsTracked(s: State) {
    && (forall id :: id in s.leases ==> id in s.owners)
    && (forall tid :: tid in s.tasks && (s.tasks[tid].RenewWaiting? || s.tasks[tid].RenewChecked?) ==>
                        0 < s.tasks[tid].duration)
    && (forall tid, i :: tid in s.tasks && (s.tasks[tid].Proceeding? || s.tasks[tid].ProceedTaken?)
                         && 0 <= i < |s.tasks[tid].queue| ==>
                           Tracked(s, s.tasks[tid].queue[i], s.tasks[tid].at))
  }

  lemma StepKeepsCopy(s: State, step: Step, copy: Lease<ResourceLease>, at: Time)
    requires Enabled(s, step) && Timely(s, step) && Tracked(s, copy, at) && SnapshotsTracked(s)
    ensures Tracked(Apply(s, step), copy, at)
  {
    var t := Apply(s, step);
    if !step.InsertLease? && !step.RenewLease? {
      assert t.owners == s.owners && s.clock <= t.clock;
      assert forall id :: id in t.leases ==> id in s.leases && t.leases[id] == s.leases[id];
    }
  }

  lemma OnlyOwnTask(s: State, step: Step)
    requires Enabled(s, step)
    ensures step.tid in Apply(s, step).tasks
    ensures Apply(s, step).tasks == s.tasks[step.tid := Apply(s, step).tasks[step.tid]]
  {
  }

  lemma StepKeepsTracked(s: State, step: Step)
    requires Enabled(s, step) && Timely(s, step) && SnapshotsTracked(s) && Ownership(s)
    ensures SnapshotsTracked(Apply(s, step))
  {
    var t := Apply(s, step);
    forall tid, i | tid in t.tasks && (t.tasks[tid].Proceeding? || t.tasks[tid].ProceedTaken?)
                    && 0 <= i < |t.tasks[tid].queue|
      ensures Tracked(t, t.tasks[tid].queue[i], t.tasks[tid].at)
    {
      if step.Snapshot? && tid == step.tid {
        SnapshotIsTracked(s, step, i);
      } else {
        var j := QueueOrigin(s, step, tid, i);
        StepKeepsCopy(s, step, s.tasks[tid].queue[j], s.tasks[tid].at);
      }
    }
  }

  lemma SnapshotIsTracked(s: State, step: Step, i: nat)
    requires Enabled(s, step) && Timely(s, step) && Ownership(s)
    requires step.Snapshot? && i < |step.queue|
    ensures var t := Apply(s, step); Tracked(t, step.queue[i], t.tasks[step.tid].at)
  {
    LeasesKeepOwnership(s, step);
  }

  /** Queues only shrink from the front, except when a snapshot fills one. */
  lemma QueueOrigin(s: State, step: Step, tid: TaskId, i: nat) returns (j: nat)
    requires Enabled(s, step) && !(step.Snapshot? && tid == step.tid)
    requires var t := Apply(s, step).tasks;
             tid in t && (t[tid].Proceeding? || t[tid].ProceedTaken?) && i < |t[tid].queue|
    ensures j == if step.TakeNext? && tid == step.tid then i + 1 else i
    ensures && tid in s.tasks && (s.tasks[tid].Proceeding? || s.tasks[tid].ProceedTaken?)
            && j < |s.tasks[tid].queue|
            && Apply(s, step).tasks[tid].queue[i] == s.tasks[tid].queue[j]
            && Apply(s, step).tasks[tid].at == s.tasks[tid].at
  {
    j := if step.TakeNext? && tid == step.tid then i + 1 else i;
    if tid != step.tid {
      OnlyOwnTask(s, step);
    }
  }

  lemma {:induction false} RunKeepsTracked(s: State, steps: seq<Step>)
    requires Legal(s, steps) && AllTimely(s, steps) && Inv(s) && SnapshotsTracked(s)
    ensures SnapshotsTracked(Run(s, steps))
    decreases |steps|
  {
    if steps != [] {
      StepKeepsInv(s, steps[0]);
      StepKeepsTracked(s, steps[0]);
      RunKeepsTracked(Apply(s, steps[0]), steps[1..]);
    }
  }

  // ----- Renewals since the snapshot -----

  /** The step renews the lease: it finds it in the ledger and moves its timeout. */
  ghost predicate Renews(s: State, step: Step, id: Id)
    requires Enabled(s, step)
  {
    step.RenewLease? && s.tasks[step.tid].id == id && id in s.leases
  }

  /** The timeout that the last renewal of the lease in these steps gave it. */
  ghost function LastRenewal(s: State, steps: seq<Step>, id: Id): Option<Time>
    requires Legal(s, steps)
    decreases |steps|
  {
    if steps == [] then None
    else
      var later := LastRenewal(Apply(s, steps[0]), steps[1..], id);
      if later.Some? then later
      else if Renews(s, steps[0], id) then Some(steps[0].now + s.tasks[steps[0].tid].duration)
      else None
  }

  /** One step leaves a stored lease alone, renews it, or removes it. */
  lemma StepOnLease(s: State, step: Step, id: Id)
    requires Enabled(s, step) && Ownership(s) && id in s.owners
    ensures var t := Apply(s, step);
            && id in t.owners
            && (id in t.leases ==> id in s.leases)
            && (id in t.leases ==>
                  t.leases[id] == if Renews(s, step, id)
                                  then s.leases[id].(timeout := step.now + s.tasks[step.tid].duration)
                                  else s.leases[id])
  {
  }

  /** A lease that is still stored after some steps differs from before by its last renewal only. */
  lemma {:induction false} LeaseFollowsRenewals(s: State, steps: seq<Step>, id: Id)
    requires Legal(s, steps) && Inv(s) && id in s.owners
    ensures id in Run(s, steps).leases ==>
              && id in s.leases
              && var renewal := LastRenewal(s, steps, id);
              Run(s, steps).leases[id] ==
              if renewal.Some? then s.leases[id].(timeout := renewal.value) else s.leases[id]
    decreases |steps|
  {
    if steps != [] {
      StepOnLease(s, steps[0], id);
      StepKeepsInv(s, steps[0]);
      LeaseFollowsRenewals(Apply(s, steps[0]), steps[1..], id);
    }
  }

  /** Renewals run forward in time, and for a positive duration. */
  lemma {:induction false} RenewalIsLater(s: State, steps: seq<Step>, id: Id)
    requires Legal(s, steps) && AllTimely(s, steps) && Inv(s) && SnapshotsTracked(s)
    ensures LastRenewal(s, steps, id).Some? ==> s.clock < LastRenewal(s, steps, id).value
    decreases |steps|
  {
    if steps != [] {
      var t := Apply(s, steps[0]);
      StepKeepsInv(s, steps[0]);
      StepKeepsTracked(s, steps[0]);
      ClockRises(s, steps[0]);
      RenewalIsLater(t, steps[1..], id);
    }
  }

  lemma ClockRises(s: State, step: Step)
    requires Enabled(s, step) && Timely(s, step)
    ensures s.clock <= Apply(s, step).clock
  {
  }

  // ----- What a snapshot hands to the removals -----

  /** The task has taken its snapshot. */
  predicate PastSnapshot(s: State, tid: TaskId) {
    tid in s.tasks && (s.tasks[tid].Proceeding? || s.tasks[tid].ProceedTaken? || s.tasks[tid].Finished?)
  }

  lemma StaysPastSnapshot(s: State, step: Step, tid: TaskId)
    requires Enabled(s, step) && PastSnapshot(s, tid)
    ensures PastSnapshot(Apply(s, step), tid) && !(step.Snapshot? && step.tid == tid)
  {
    if tid != step.tid {
      OnlyOwnTask(s, step);
    }
  }

  /** A task that is pruning works through the copies of its own snapshot. */
  lemma {:induction false} QueueIsFromSnapshot(s: State, steps: seq<Step>, tid: TaskId, i: nat)
    requires Legal(s, steps) && PastSnapshot(s, tid)
    requires var t := Run(s, steps).tasks;
             tid in t && (t[tid].Proceeding? || t[tid].ProceedTaken?) && i < |t[tid].queue|
    ensures s.tasks[tid].Proceeding? || s.tasks[tid].ProceedTaken?
    ensures Run(s, steps).tasks[tid].queue[i] in s.tasks[tid].queue
    ensures Run(s, steps).tasks[tid].at == s.tasks[tid].at
    decreases |steps|
  {
    if steps != [] {
      var t := Apply(s, steps[0]);
      StaysPastSnapshot(s, steps[0], tid);
      QueueIsFromSnapshot(t, steps[1..], tid, i);
      var x := Run(s, steps).tasks[tid].queue[i];
      var k :| 0 <= k < |t.tasks[tid].queue| && t.tasks[tid].queue[k] == x;
      var _ := QueueOrigin(s, steps[0], tid, k);
    }
  }

  /** Every pruning task took a snapshot in the run. */
  lemma {:induction false} SnapshotExists(s: State, steps: seq<Step>, tid: TaskId)
    requires Legal(s, steps) && !PastSnapshot(s, tid)
    requires var t := Run(s, steps); tid in t.tasks && t.tasks[tid].Proceeding?
    ensures exists k :: 0 <= k < |steps| && steps[k].Snapshot? && steps[k].tid == tid
    decreases |steps|
  {
    if !(steps[0].Snapshot? && steps[0].tid == tid) {
      if tid != steps[0].tid {
        OnlyOwnTask(s, steps[0]);
      }
      if PastSnapshot(Apply(s, steps[0]), tid) {
        NeverProceeds(Apply(s, steps[0]), steps[1..], tid);
      } else {
        SnapshotExists(Apply(s, steps[0]), steps[1..], tid);
        var k :| 0 <= k < |steps[1..]| && steps[1..][k].Snapshot? && steps[1..][k].tid == tid;
        assert steps[k + 1] == steps[1..][k];
      }
    }
  }

  lemma {:induction false} NeverProceeds(s: State, steps: seq<Step>, tid: TaskId)
    requires Legal(s, steps) && tid in s.tasks && s.tasks[tid].Finished?
    ensures tid in Run(s, steps).tasks && Run(s, steps).tasks[tid] == s.tasks[tid]
    decreases |steps|
  {
    if steps != [] {
      OnlyOwnTask(s, steps[0]);
      assert steps[0].tid != tid;
      NeverProceeds(Apply(s, steps[0]), steps[1..], tid);
    }
  }

  // ----- Which leases are pruned too early -----

  /** What the next removal of a pruning task takes: the lease now stored under the identifier of its copy. */
  ghost predicate AboutToPrune(s: State, tid: TaskId) {
    && tid in s.tasks && s.tasks[tid].Proceeding? && s.tasks[tid].queue != []
    && s.tasks[tid].queue[0].id in s.leases
  }

  lemma SinceSnapshot(s: State, snapshot: Step, steps: seq<Step>)
    requires Inv(s) && SnapshotsTracked(s) && Enabled(s, snapshot) && Timely(s, snapshot) && snapshot.Snapshot?
    requires Legal(Apply(s, snapshot), steps) && AllTimely(Apply(s, snapshot), steps)
    requires AboutToPrune(Run(Apply(s, snapshot), steps), snapshot.tid)
    ensures var after := Apply(s, snapshot);
            var t := Run(after, steps);
            var copy := t.tasks[snapshot.tid].queue[0];
            && copy.id in after.leases && after.leases[copy.id] == copy && copy.timeout <= snapshot.now <= t.clock
            && var renewal := LastRenewal(after, steps, copy.id);
            && t.leases[copy.id] == (if renewal.Some? then copy.(timeout := renewal.value) else copy)
            && (renewal.Some? ==> snapshot.now < renewal.value)
  {
    var after := Apply(s, snapshot);
    var t := Run(after, steps);
    var copy := t.tasks[snapshot.tid].queue[0];
    StepKeepsInv(s, snapshot);
    StepKeepsTracked(s, snapshot);
    RunKeepsTracked(after, steps);
    QueueIsFromSnapshot(after, steps, snapshot.tid, 0);
    assert copy in snapshot.queue && copy.id in s.leases && s.leases[copy.id] == copy;
    LeaseFollowsRenewals(after, steps, copy.id);
    RenewalIsLater(after, steps, copy.id);
  }

  /**
   The removal takes the lease before its current timeout if and only if, since the
   snapshot, the lease was renewed and its last renewal has not run out at the time
   of removal. In particular every unexpired lease that is pruned was renewed.
   */
  lemma PrunedUnexpiredExactlyIfRenewed(capacity: Resources, before: seq<Step>, snapshot: Step, steps: seq<Step>)
    requires Legal(Init(capacity), before) && AllTimely(Init(capacity), before)
    requires var s := Run(Init(capacity), before);
             && Enabled(s, snapshot) && Timely(s, snapshot) && snapshot.Snapshot?
             && Legal(Apply(s, snapshot), steps) && AllTimely(Apply(s, snapshot), steps)
             && AboutToPrune(Run(Apply(s, snapshot), steps), snapshot.tid)
    ensures var after := Apply(Run(Init(capacity), before), snapshot);
            var t := Run(after, steps);
            var copy := t.tasks[snapshot.tid].queue[0];
            var renewal := LastRenewal(after, steps, copy.id);
            && Enabled(t, TakeNext(snapshot.tid))
            && Apply(t, TakeNext(snapshot.tid)).tasks[snapshot.tid].ProceedTaken?
            && var pruned := Apply(t, TakeNext(snapshot.tid)).tasks[snapshot.tid].lease;
            && pruned.id == copy.id
            && (t.clock < pruned.timeout <==> renewal.Some? && t.clock < renewal.value)
            && (pruned != copy <==> renewal.Some?)
            && (snapshot.now < pruned.timeout <==> renewal.Some?)
  {
    InitInv(capacity);
    RunKeepsTracked(Init(capacity), before);
    RunKeepsInv(Init(capacity), before);
    SinceSnapshot(Run(Init(capacity), before), snapshot, steps);
  }

  lemma {:induction false} SplitLegal(s: State, a: seq<Step>, b: seq<Step>)
    requires Legal(s, a + b)
    ensures Legal(s, a) && Legal(Run(s, a), b) && Run(s, a + b) == Run(Run(s, a), b)
    ensures AllTimely(s, a + b) ==> AllTimely(s, a) && AllTimely(Run(s, a), b)
    decreases |a|
  {
    if a == [] {
      assert a + b == b;
    } else {
      assert (a + b)[1..] == a[1..] + b;
      SplitLegal(Apply(s, a[0]), a[1..], b);
    }
  }

  /** Every run that is about to prune has a snapshot of that task to which the result above applies. */
  lemma PruningRunSplits(capacity: Resources, steps: seq<Step>, tid: TaskId) returns (k: nat)
    requires Legal(Init(capacity), steps) && AllTimely(Init(capacity), steps)
    requires AboutToPrune(Run(Init(capacity), steps), tid)
    ensures k < |steps| && steps[k].Snapshot? && steps[k].tid == tid
    ensures Legal(Init(capacity), steps[..k]) && AllTimely(Init(capacity), steps[..k])
    ensures var s := Run(Init(capacity), steps[..k]);
            && Enabled(s, steps[k]) && Timely(s, steps[k])
            && Legal(Apply(s, steps[k]), steps[k + 1..]) && AllTimely(Apply(s, steps[k]), steps[k + 1..])
            && Run(Apply(s, steps[k]), steps[k + 1..]) == Run(Init(capacity), steps)
  {
    SnapshotExists(Init(capacity), steps, tid);
    k :| 0 <= k < |steps| && steps[k].Snapshot? && steps[k].tid == tid;
    assert steps == steps[..k] + steps[k..];
    SplitLegal(Init(capacity), steps[..k], steps[k..]);
    assert steps[k..][0] == steps[k] && steps[k..][1..] == steps[k + 1..];
  }

  lemma LegalCons(s: State, step: Step, rest: seq<Step>)
    requires Enabled(s, step) && Legal(Apply(s, step), rest)
    ensures Legal(s, [step] + rest) && Run(s, [step] + rest) == Run(Apply(s, step), rest)
    ensures Timely(s, step) && AllTimely(Apply(s, step), rest) ==> AllTimely(s, [step] + rest)
  {
    assert ([step] + rest)[1..] == rest;
  }

  lemma {:induction false} FreshTask(used: set<TaskId>) returns (tid: TaskId)
    ensures forall other :: other in used ==> other < tid
    decreases used
  {
    tid := 0;
    if used != {} {
      var other :| other in used;
      tid := FreshTask(used - {other});
      tid := if tid <= other then other + 1 else tid;
      assert forall x :: x in used ==> x == other || x in used - {other};
    }
  }

  lemma {:induction false} ListingExists(leases: Leases, ids: set<Id>) returns (list: seq<Lease<ResourceLease>>)
    requires WellFormed(leases) && ids <= leases.Keys
    ensures Lists(list, leases, ids)
    decreases ids
  {
    list := [];
    if ids != {} {
      var id :| id in ids;
      list := ListingExists(leases, ids - {id});
      MentionsSnoc(list, leases[id]);
      assert forall other :: other in ids ==> other == id || other in ids - {id};
      list := list + [leases[id]];
    }
  }

  lemma ListingFrom(leases: Leases, ids: set<Id>, first: Id) returns (list: seq<Lease<ResourceLease>>)
    requires WellFormed(leases) && ids <= leases.Keys && first in ids
    ensures Lists(list, leases, ids) && list != [] && list[0] == leases[first]
  {
    var rest := ListingExists(leases, ids - {first});
    list := [leases[first]] + rest;
    forall id | id in ids ensures Mentions(list, id) {
      if id == first {
        assert list[0].id == id;
      } else {
        assert id in ids - {first} && Mentions(rest, id);
        var i :| 0 <= i < |rest| && rest[i].id == id;
        assert list[i + 1].id == id;
      }
    }
  }

  lemma SnapshotOutruns(s: State, pruner: TaskId, renewer: TaskId, id: Id, peer: PeerId, duration: nat)
    returns (steps: seq<Step>)
    requires WellFormed(s.leases) && id in s.leases && pruner != renewer
    requires pruner in s.tasks && s.tasks[pruner] == ProceedWaiting
    requires renewer in s.tasks && s.tasks[renewer] == RenewChecked(peer, id, duration) && duration > 0
    ensures Legal(s, steps) && AllTimely(s, steps)
    ensures var t := Run(s, steps);
            && pruner in t.tasks && t.tasks[pruner].ProceedTaken? && t.tasks[pruner].lease.id == id
            && t.tasks[pruner].lease.timeout == t.clock + duration
            && renewer in t.tasks && t.tasks[renewer] == Finished(Renewed(t.tasks[pruner].lease))
  {
    var now := if s.clock < s.leases[id].timeout then s.leases[id].timeout else s.clock;
    var queue := ListingFrom(s.leases, ExpiredIds(s.leases, now), id);
    var snapshot, renew, take := Snapshot(pruner, now, queue), RenewLease(renewer, now), TakeNext(pruner);
    var s1 := Apply(s, snapshot);
    var s2 := DoRenewLease(s1, renewer, now);
    LegalCons(s2, take, []);
    LegalCons(s1, renew, [take] + []);
    LegalCons(s, snapshot, [renew] + ([take] + []));
    steps := [snapshot] + ([renew] + ([take] + []));
  }

  /**
   A renewal acknowledged after the snapshot does not save the lease: from any
   state any lease can be pruned right after it was renewed, for whatever duration.
   */
  lemma RenewedLeaseCanBePruned(s: State, id: Id, duration: nat)
    requires WellFormed(s.leases) && id in s.leases && duration > 0
    ensures exists steps, tid, renewer ::
              && Legal(s, steps) && AllTimely(s, steps)
              && var t := Run(s, steps);
              && tid in t.tasks && t.tasks[tid].ProceedTaken? && t.tasks[tid].lease.id == id
              && t.tasks[tid].lease.timeout == t.clock + duration
              && renewer in t.tasks && t.tasks[renewer] == Finished(Renewed(t.tasks[tid].lease))
  {
    var pruner := FreshTask(s.tasks.Keys);
    var renewer := pruner + 1;
    var peer := s.leases[id].leasable.peer;
    var spawnPruner, spawnRenewer := Spawn(pruner, ProceedWaiting), Spawn(renewer, RenewWaiting(peer, id, duration));
    var s1 := Become(s, pruner, ProceedWaiting);
    var s2 := Become(s1, renewer, RenewWaiting(peer, id, duration));
    var s3 := DoCheckOwner(s2, renewer);
    var race := SnapshotOutruns(s3, pruner, renewer, id, peer, duration);
    LegalCons(s2, CheckOwner(renewer), race);
    LegalCons(s1, spawnRenewer, [CheckOwner(renewer)] + race);
    LegalCons(s, spawnPruner, [spawnRenewer] + ([CheckOwner(renewer)] + race));
    assert Legal(s, [spawnPruner] + ([spawnRenewer] + ([CheckOwner(renewer)] + race)));
  }
}
