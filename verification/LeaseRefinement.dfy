/**
 The manager of a single caller is the interleaved protocol run without
 interference: the steps of one task, taken back to back, have the effect that the
 contracts of the manager's methods give.
 */
module LeaseRefinement {
  import opened Common
  import opened HyphaResources
  import opened WorkerResources
  import opened HyphaLeases
  import opened LeaseManager
  import opened LeaseProtocol
  import opened LeasePruning
  import opened Sequences

  /** `request`: reserve, then insert, or nothing at all. */
  lemma SoloRequest(s: State, tid: TaskId, peer: PeerId, request: Resources, duration: nat, now: Time,
                    reservation: Id, id: Id) returns (steps: seq<Step>)
    requires tid !in s.tasks && reservation !in s.issued && id !in s.owners
    ensures Legal(s, steps)
    ensures var t, lease := Run(s, steps), Lease(id, ResourceLease(peer, reservation), now + duration);
            if AtMost(request, Available(s.capacity, s.reservations)) then
              && t.tasks == s.tasks[tid := Finished(Granted(lease))]
              && t.reservations == s.reservations[reservation := request]
              && t.leases == s.leases[id := lease]
            else
              && t.tasks == s.tasks[tid := Finished(Rejected)]
              && t.reservations == s.reservations && t.leases == s.leases
  {
    ComparisonIsProductOrder(Available(s.capacity, s.reservations), request);
    var spawn, check := Spawn(tid, RequestWaiting(peer, request, duration)), CheckAvailable(tid);
    var s1 := Apply(s, spawn);
    var s2 := Apply(s1, check);
    var rest: seq<Step> := [];
    if AtMost(request, Available(s.capacity, s.reservations)) {
      var reserve, insert := Reserve(tid, reservation), InsertLease(tid, id, now);
      var s3 := Apply(s2, reserve);
      LegalCons(s3, insert, []);
      LegalCons(s2, reserve, [insert] + []);
      rest := [reserve] + ([insert] + []);
    }
    LegalCons(s1, check, rest);
    LegalCons(s, spawn, [check] + rest);
    steps := [spawn] + ([check] + rest);
  }

  /** `remove`: take the lease out, then release what it held, or report that there is none. */
  lemma SoloRemove(s: State, tid: TaskId, id: Id) returns (steps: seq<Step>)
    requires tid !in s.tasks
    ensures Legal(s, steps)
    ensures var t := Run(s, steps);
            && t.leases == s.leases - {id} && t.reservations == s.reservations - Held(s.leases, {id})
            && t.tasks == s.tasks[tid := Finished(
                            if id !in s.leases then NotFound
                            else if s.leases[id].leasable.reservation in s.reservations then Removed(s.leases[id])
                            else UnknownReservationReported)]
  {
    var spawn, take := Spawn(tid, RemoveWaiting(id)), TakeLease(tid);
    var s1 := Apply(s, spawn);
    var rest: seq<Step> := [];
    if id in s.leases {
      LegalCons(Apply(s1, take), Release(tid), []);
      rest := [Release(tid)] + [];
      assert Held(s.leases, {id}) == {s.leases[id].leasable.reservation};
    } else {
      assert Held(s.leases, {id}) == {} && s.leases - {id} == s.leases;
    }
    LegalCons(s1, take, rest);
    LegalCons(s, spawn, [take] + rest);
    steps := [spawn] + ([take] + rest);
  }

  /** An owner-checked `renew`: moves the timeout of a lease of that peer, and of no other. */
  lemma SoloRenew(s: State, tid: TaskId, peer: PeerId, id: Id, duration: nat, now: Time) returns (steps: seq<Step>)
    requires tid !in s.tasks
    ensures Legal(s, steps)
    ensures var t := Run(s, steps);
            && t.reservations == s.reservations
            && if id in s.leases && s.leases[id].leasable.peer == peer then
                 var lease := s.leases[id].(timeout := now + duration);
                 t.leases == s.leases[id := lease] && t.tasks == s.tasks[tid := Finished(Renewed(lease))]
               else
                 && t.leases == s.leases
                 && t.tasks == s.tasks[tid := Finished(if id in s.leases then Forbidden else NotFound)]
  {
    var spawn, check := Spawn(tid, RenewWaiting(peer, id, duration)), CheckOwner(tid);
    var s1 := Apply(s, spawn);
    var rest: seq<Step> := [];
    if id in s.leases && s.leases[id].leasable.peer == peer {
      LegalCons(Apply(s1, check), RenewLease(tid, now), []);
      rest := [RenewLease(tid, now)] + [];
    }
    LegalCons(s1, check, rest);
    LegalCons(s, spawn, [check] + rest);
    steps := [spawn] + ([check] + rest);
  }

  lemma ListsRest(queue: seq<Lease<ResourceLease>>, leases: Leases, ids: set<Id>)
    requires queue != [] && Lists(queue, leases, ids)
    ensures Lists(queue[1..], leases - {queue[0].id}, ids - {queue[0].id})
  {
    forall id | id in ids - {queue[0].id} ensures Mentions(queue[1..], id) {
      assert Mentions(queue, id);
      var i :| 0 <= i < |queue| && queue[i].id == id;
      assert queue[1..][i - 1].id == id;
    }
  }

  lemma TakeFirst(s: State, tid: TaskId, ids: set<Id>)
    requires Inv(s) && tid in s.tasks && s.tasks[tid].Proceeding? && s.tasks[tid].queue != []
    requires Lists(s.tasks[tid].queue, s.leases, ids)
    ensures var taken := Apply(s, TakeNext(tid)); var Proceeding(at, queue, removed) := s.tasks[tid];
            && Inv(taken) && taken.leases == s.leases - {queue[0].id} && taken.reservations == s.reservations
            && taken.tasks == s.tasks[tid := ProceedTaken(queue[0], at, queue[1..], removed)]
  {
    StepKeepsInv(s, TakeNext(tid));
  }

  lemma ReleaseTaken(s: State, tid: TaskId)
    requires Inv(s) && tid in s.tasks && s.tasks[tid].ProceedTaken?
    ensures var next := Apply(s, Release(tid)); var ProceedTaken(lease, at, queue, removed) := s.tasks[tid];
            && Inv(next) && next.leases == s.leases
            && next.reservations == s.reservations - {lease.leasable.reservation}
            && next.tasks == s.tasks[tid := Proceeding(at, queue, removed + [lease])]
  {
    HolderFinds(s, ByTask(tid));
    StepKeepsInv(s, Release(tid));
  }

  /** One removal of a prune: the lease leaves the ledger, then its reservation is released. */
  lemma PruneOne(s: State, tid: TaskId, ids: set<Id>) returns (next: State)
    requires Inv(s) && tid in s.tasks && s.tasks[tid].Proceeding? && s.tasks[tid].queue != []
    requires Lists(s.tasks[tid].queue, s.leases, ids)
    ensures Enabled(s, TakeNext(tid)) && Enabled(Apply(s, TakeNext(tid)), Release(tid))
    ensures next == Apply(Apply(s, TakeNext(tid)), Release(tid)) && Inv(next)
    ensures var Proceeding(at, queue, removed) := s.tasks[tid]; var first := queue[0];
            && next.leases == s.leases - {first.id}
            && next.reservations == s.reservations - Held(s.leases, {first.id})
            && next.tasks == s.tasks[tid := Proceeding(at, queue[1..], removed + [first])]
  {
    TakeFirst(s, tid, ids);
    ReleaseTaken(Apply(s, TakeNext(tid)), tid);
    next := Apply(Apply(s, TakeNext(tid)), Release(tid));
    var first := s.tasks[tid].queue[0];
    assert Held(s.leases, {first.id}) == {first.leasable.reservation};
  }

  lemma NothingToPrune(s: State, tid: TaskId, ids: set<Id>)
    requires tid in s.tasks && s.tasks[tid].Proceeding? && s.tasks[tid].queue == [] && Lists([], s.leases, ids)
    ensures Legal(s, [FinishProceed(tid)])
    ensures var t := Run(s, [FinishProceed(tid)]);
            && t.leases == s.leases - ids && t.reservations == s.reservations - Held(s.leases, ids)
            && t.tasks == s.tasks[tid := Finished(Pruned(s.tasks[tid].removed))]
  {
    var none: seq<Lease<ResourceLease>> := [];
    assert forall id :: !Mentions(none, id);
    assert ids == {};
    assert Held(s.leases, {}) == {} && s.leases - {} == s.leases && s.reservations - {} == s.reservations;
    LegalCons(s, FinishProceed(tid), []);
    assert [FinishProceed(tid)] + [] == [FinishProceed(tid)];
  }

  /** The removals of one prune, each followed by its release. */
  lemma {:induction false} SoloPrune(s: State, tid: TaskId, ids: set<Id>) returns (steps: seq<Step>)
    requires Inv(s) && tid in s.tasks && s.tasks[tid].Proceeding?
    requires Lists(s.tasks[tid].queue, s.leases, ids)
    ensures Legal(s, steps)
    ensures var t := Run(s, steps);
            && t.leases == s.leases - ids && t.reservations == s.reservations - Held(s.leases, ids)
            && t.tasks == s.tasks[tid := Finished(Pruned(s.tasks[tid].removed + s.tasks[tid].queue))]
    decreases |s.tasks[tid].queue|
  {
    var queue, removed := s.tasks[tid].queue, s.tasks[tid].removed;
    if queue == [] {
      NothingToPrune(s, tid, ids);
      AppendNothing(removed);
      steps := [FinishProceed(tid)];
    } else {
      var id := queue[0].id;
      var next := PruneOne(s, tid, ids);
      ListsRest(queue, s.leases, ids);
      var rest := SoloPrune(next, tid, ids - {id});
      AppendHead(removed, queue);
      OneThenRest(s.reservations, s.leases, id, ids);
      LegalCons(Apply(s, TakeNext(tid)), Release(tid), rest);
      LegalCons(s, TakeNext(tid), [Release(tid)] + rest);
      steps := [TakeNext(tid)] + ([Release(tid)] + rest);
    }
  }

  lemma OneThenRest(reservations: map<Id, Resources>, leases: Leases, id: Id, ids: set<Id>)
    requires id in leases && id in ids
    ensures leases - {id} - (ids - {id}) == leases - ids
    ensures reservations - Held(leases, {id}) - Held(leases - {id}, ids - {id}) == reservations - Held(leases, ids)
  {
    var left, rest := leases - {id}, ids - {id};
    forall r ensures r in Held(leases, ids) <==> r in Held(leases, {id}) + Held(left, rest) {
      if x :| x in ids && x in leases && leases[x].leasable.reservation == r {
        assert x != id ==> x in rest && x in left && left[x].leasable.reservation == r;
        assert x == id ==> r in Held(leases, {id});
      }
    }
    assert Held(leases, ids) == Held(leases, {id}) + Held(left, rest);
  }

  lemma TakeSnapshot(s: State, tid: TaskId, now: Time, queue: seq<Lease<ResourceLease>>) returns (next: State)
    requires Inv(s) && tid !in s.tasks && Lists(queue, s.leases, ExpiredIds(s.leases, now))
    ensures Enabled(s, Spawn(tid, ProceedWaiting))
    ensures Enabled(Apply(s, Spawn(tid, ProceedWaiting)), Snapshot(tid, now, queue))
    ensures next == Apply(Apply(s, Spawn(tid, ProceedWaiting)), Snapshot(tid, now, queue)) && Inv(next)
    ensures next.leases == s.leases && next.reservations == s.reservations
    ensures next.tasks == s.tasks[tid := Proceeding(now, queue, [])]
  {
    var waiting := Apply(s, Spawn(tid, ProceedWaiting));
    StepKeepsInv(s, Spawn(tid, ProceedWaiting));
    next := Apply(waiting, Snapshot(tid, now, queue));
    StepKeepsInv(waiting, Snapshot(tid, now, queue));
  }

  /** `proceed`: removes and returns exactly the expired leases, with what they hold. */
  lemma SoloProceed(s: State, tid: TaskId, now: Time) returns (steps: seq<Step>, pruned: seq<Lease<ResourceLease>>)
    requires Inv(s) && tid !in s.tasks
    ensures Legal(s, steps) && Lists(pruned, s.leases, ExpiredIds(s.leases, now))
    ensures var t, expired := Run(s, steps), ExpiredIds(s.leases, now);
            && t.leases == s.leases - expired && t.reservations == s.reservations - Held(s.leases, expired)
            && t.tasks == s.tasks[tid := Finished(Pruned(pruned))]
  {
    pruned := ListingExists(s.leases, ExpiredIds(s.leases, now));
    var spawn, snapshot := Spawn(tid, ProceedWaiting), Snapshot(tid, now, pruned);
    var next := TakeSnapshot(s, tid, now, pruned);
    var rest := SoloPrune(next, tid, ExpiredIds(s.leases, now));
    AppendNothing(pruned);
    LegalCons(Apply(s, spawn), snapshot, rest);
    LegalCons(s, spawn, [snapshot] + rest);
    steps := [spawn] + ([snapshot] + rest);
  }
}
