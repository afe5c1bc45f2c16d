/** What the tasks of the interleaved protocol report, and what is true of the tables when they do. */
module LeaseOutcomes {
  import opened HyphaResources
  import opened WorkerResources
  import opened HyphaLeases
  import opened LeaseManager
  import opened LeaseProtocol
  import opened LeasePruning

  // ----- Prunes -----

  /** The first k leases of the list are out of the ledger for good. */
  ghost predicate Gone(s: State, list: seq<Lease<ResourceLease>>, k: int) {
    && 0 <= k <= |list|
    && (forall i :: 0 <= i < |list| ==> list[i].id in s.owners)
    && forall i :: 0 <= i < k ==> list[i].id !in s.leases
  }

  /** Every lease reported as removed was listed. */
  ghost predicate FromList(removed: seq<Lease<ResourceLease>>, list: seq<Lease<ResourceLease>>) {
    forall j :: 0 <= j < |removed| ==> Mentions(list, removed[j].id)
  }

  /** How far the prune has come with its list. */
  ghost predicate Working(s: State, tid: TaskId, list: seq<Lease<ResourceLease>>) {
    && tid in s.tasks
    && match s.tasks[tid]
       case Proceeding(_, queue, removed) =>
         |queue| <= |list| && queue == list[|list| - |queue|..] && Gone(s, list, |list| - |queue|)
         && FromList(removed, list)
       case ProceedTaken(lease, _, queue, removed) =>
         |queue| < |list| && queue == list[|list| - |queue|..] && Gone(s, list, |list| - |queue|)
         && lease.id == list[|list| - |queue| - 1].id && FromList(removed, list)
       case Finished(Pruned(removed)) => Gone(s, list, |list|) && FromList(removed, list)
       case _ => false
  }

  lemma GoneStays(s: State, step: Step, list: seq<Lease<ResourceLease>>, k: int)
    requires Enabled(s, step) && Ownership(s) && Gone(s, list, k)
    ensures Gone(Apply(s, step), list, k)
  {
    forall i | 0 <= i < |list|
      ensures list[i].id in Apply(s, step).owners && (i < k ==> list[i].id !in Apply(s, step).leases)
    {
      StepOnLease(s, step, list[i].id);
    }
  }

  lemma FromListSnoc(removed: seq<Lease<ResourceLease>>, lease: Lease<ResourceLease>, list: seq<Lease<ResourceLease>>)
    requires FromList(removed, list) && Mentions(list, lease.id)
    ensures FromList(removed + [lease], list)
  {
  }

  lemma OwnTakeKeepsWorking(s: State, tid: TaskId, list: seq<Lease<ResourceLease>>)
    requires Enabled(s, TakeNext(tid)) && Ownership(s) && Working(s, tid, list)
    ensures Working(Apply(s, TakeNext(tid)), tid, list)
  {
    var queue := s.tasks[tid].queue;
    var k := |list| - |queue|;
    GoneStays(s, TakeNext(tid), list, k);
    assert queue[0] == list[k] && queue[1..] == list[k + 1..];
    var t := Apply(s, TakeNext(tid));
    assert list[k].id !in t.leases;
    if list[k].id in s.leases {
      assert t.tasks[tid].lease.id == list[k].id;
    }
  }

  lemma OwnReleaseKeepsWorking(s: State, tid: TaskId, list: seq<Lease<ResourceLease>>)
    requires Enabled(s, Release(tid)) && Ownership(s) && Working(s, tid, list)
    requires Apply(s, Release(tid)).tasks[tid] != Finished(UnknownReservationReported)
    ensures Working(Apply(s, Release(tid)), tid, list)
  {
    var k := |list| - |s.tasks[tid].queue|;
    GoneStays(s, Release(tid), list, k);
    assert list[k - 1].id == s.tasks[tid].lease.id;
    FromListSnoc(s.tasks[tid].removed, s.tasks[tid].lease, list);
  }

  lemma OthersKeepWorking(s: State, step: Step, tid: TaskId, list: seq<Lease<ResourceLease>>)
    requires Enabled(s, step) && Ownership(s) && Working(s, tid, list) && step.tid != tid
    ensures Working(Apply(s, step), tid, list)
  {
    OnlyOwnTask(s, step);
    match s.tasks[tid] {
      case Proceeding(_, queue, _) => GoneStays(s, step, list, |list| - |queue|);
      case ProceedTaken(_, _, queue, _) => GoneStays(s, step, list, |list| - |queue|);
      case Finished(_) => GoneStays(s, step, list, |list|);
    }
  }

  lemma StepKeepsWorking(s: State, step: Step, tid: TaskId, list: seq<Lease<ResourceLease>>)
    requires Enabled(s, step) && Inv(s) && Working(s, tid, list)
    ensures Working(Apply(s, step), tid, list)
  {
    if step.tid != tid {
      OthersKeepWorking(s, step, tid, list);
    } else {
      match step {
        case TakeNext(_) => OwnTakeKeepsWorking(s, tid, list);
        case Release(_) =>
          StepKeepsInv(s, step);
          OwnReleaseKeepsWorking(s, tid, list);
        case FinishProceed(_) => GoneStays(s, step, list, |list|);
      }
    }
  }

  lemma {:induction false} RunKeepsWorking(s: State, steps: seq<Step>, tid: TaskId, list: seq<Lease<ResourceLease>>)
    requires Legal(s, steps) && Inv(s) && Working(s, tid, list)
    ensures Working(Run(s, steps), tid, list)
    decreases |steps|
  {
    if steps != [] {
      StepKeepsWorking(s, steps[0], tid, list);
      StepKeepsInv(s, steps[0]);
      RunKeepsWorking(Apply(s, steps[0]), steps[1..], tid, list);
    }
  }

  /**
   A prune works through its whole list, whatever other tasks do in between: when it
   reports its result, no lease that it had listed is in the ledger, those that others
   removed first included, and it reports only leases that it had listed.
   */
  lemma PruneFinishesItsList(capacity: Resources, before: seq<Step>, snapshot: Step, steps: seq<Step>)
    requires Legal(Init(capacity), before) && snapshot.Snapshot? && Enabled(Run(Init(capacity), before), snapshot)
    requires Legal(Apply(Run(Init(capacity), before), snapshot), steps)
    ensures var t := Run(Apply(Run(Init(capacity), before), snapshot), steps);
            && snapshot.tid in t.tasks
            && (t.tasks[snapshot.tid].Finished? ==>
                  && t.tasks[snapshot.tid].outcome.Pruned?
                  && (forall i :: 0 <= i < |snapshot.queue| ==> snapshot.queue[i].id !in t.leases)
                  && (forall j :: 0 <= j < |t.tasks[snapshot.tid].outcome.leases| ==>
                        Mentions(snapshot.queue, t.tasks[snapshot.tid].outcome.leases[j].id)))
  {
    var s := Run(Init(capacity), before);
    InitInv(capacity);
    RunKeepsInv(Init(capacity), before);
    StepKeepsInv(s, snapshot);
    var after := Apply(s, snapshot);
    assert snapshot.queue[0..] == snapshot.queue;
    assert Working(after, snapshot.tid, snapshot.queue);
    RunKeepsWorking(after, steps, snapshot.tid, snapshot.queue);
  }

  /** How many sections the prune still has to run. */
  function Left(t: Task): nat {
    match t
    case Proceeding(_, queue, _) => 2 * |queue| + 1
    case ProceedTaken(_, _, queue, _) => 2 * |queue| + 2
    case _ => 0
  }

  /** A prune is never stuck: until it has finished it can take a section, and each brings it closer to the end. */
  lemma PruneAdvances(s: State, tid: TaskId)
    requires Inv(s) && tid in s.tasks && (s.tasks[tid].Proceeding? || s.tasks[tid].ProceedTaken?)
    ensures exists step: Step :: step.tid == tid && Enabled(s, step)
    ensures forall step: Step :: step.tid == tid && Enabled(s, step) ==>
                                   Left(Apply(s, step).tasks[tid]) < Left(s.tasks[tid])
  {
    if s.tasks[tid].ProceedTaken? {
      assert Enabled(s, Release(tid));
    } else if s.tasks[tid].queue == [] {
      assert Enabled(s, FinishProceed(tid));
    } else {
      assert Enabled(s, TakeNext(tid));
    }
  }

  // ----- Requests and renewals -----

  /** Each of the two checks of a request rejects it exactly if it does not fit then, and leaves the tables alone. */
  lemma RejectedExactly(s: State, tid: TaskId, id: Id)
    requires tid in s.tasks
    ensures s.tasks[tid].RequestWaiting? ==>
              var t := DoCheckAvailable(s, tid);
              && t.reservations == s.reservations && t.leases == s.leases
              && (t.tasks[tid] == Finished(Rejected) <==>
                  !AtMost(s.tasks[tid].request, Available(s.capacity, s.reservations)))
              && (t.tasks[tid] != Finished(Rejected) ==> t.tasks[tid].RequestChecked?)
    ensures s.tasks[tid].RequestChecked? && id !in s.reservations ==>
              var t := DoReserve(s, tid, id);
              && t.leases == s.leases
              && (t.tasks[tid] == Finished(Rejected) <==>
                  !AtMost(s.tasks[tid].request, Available(s.capacity, s.reservations)))
              && (t.tasks[tid] == Finished(Rejected) <==> t.reservations == s.reservations)
  {
    if s.tasks[tid].RequestWaiting? || s.tasks[tid].RequestChecked? {
      ComparisonIsProductOrder(Available(s.capacity, s.reservations), s.tasks[tid].request);
    }
    if s.tasks[tid].RequestChecked? && id !in s.reservations {
      assert id in s.reservations[id := s.tasks[tid].request];
    }
  }

  /** A renewal that passed the owner check fails only if the lease has gone since, and then brings nothing back. */
  lemma CheckedRenewalAnswers(s: State, tid: TaskId, now: Time)
    requires Ownership(s) && tid in s.tasks && s.tasks[tid].RenewChecked?
    ensures var id, t := s.tasks[tid].id, Apply(s, RenewLease(tid, now));
            && t.reservations == s.reservations
            && (id !in s.leases ==> t.tasks[tid] == Finished(NotFound) && t.leases == s.leases)
            && (id in s.leases ==>
                  && t.tasks[tid].Finished? && t.tasks[tid].outcome.Renewed?
                  && t.tasks[tid].outcome.lease == t.leases[id]
                  && t.leases[id].timeout == now + s.tasks[tid].duration
                  && t.leases[id].leasable == s.leases[id].leasable && s.leases[id].leasable.peer == s.tasks[tid].peer)
  {
  }
}
