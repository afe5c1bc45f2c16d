/**
 Any number of concurrent tasks over the ledger and the reservation table.
 The two tables have separate locks, so every section that holds one lock is
 one step, and the steps of different tasks interleave freely. Identifiers
 drawn by a step are fresh, clock readings are arbitrary.
 */
module LeaseProtocol {
  import opened Common
  import opened Wrappers
  import opened HyphaResources
  import opened WorkerResources
  import opened HyphaLeases
  import opened LeaseManager

  type TaskId = nat

  datatype Outcome =
    | Granted(lease: Lease<ResourceLease>)
    | Rejected
    | Removed(lease: Lease<ResourceLease>)
    | NotFound
    | Pruned(leases: seq<Lease<ResourceLease>>)
    | Renewed(lease: Lease<ResourceLease>)
    | Forbidden
    | UnknownReservationReported

  datatype Task =
    | RequestWaiting(peer: PeerId, request: Resources, duration: nat)
    | RequestChecked(peer: PeerId, request: Resources, duration: nat)   // the check under the read lock passed
    | RequestReserved(peer: PeerId, duration: nat, reservation: Id)     // reserved, not yet in the ledger
    | RemoveWaiting(id: Id)
    | RemoveTaken(lease: Lease<ResourceLease>)                          // out of the ledger, not yet released
    | ProceedWaiting
    | Proceeding(at: Time, queue: seq<Lease<ResourceLease>>, removed: seq<Lease<ResourceLease>>)
    | ProceedTaken(lease: Lease<ResourceLease>, at: Time, queue: seq<Lease<ResourceLease>>,
                   removed: seq<Lease<ResourceLease>>)
    | RenewWaiting(peer: PeerId, id: Id, duration: nat)
    | RenewChecked(peer: PeerId, id: Id, duration: nat)                 // the owner check passed
    | Finished(outcome: Outcome)

  /**
   `issued`, `released` and `owners` record the past: all reservations ever
   made, all ever released, and the peer each lease was ever granted to.
   */
  datatype State = State(
    capacity: Resources, reservations: map<Id, Resources>, leases: Leases, tasks: map<TaskId, Task>,
    issued: set<Id>, released: seq<Id>, owners: map<Id, PeerId>, clock: Time)

  datatype Step =
    | Spawn(tid: TaskId, task: Task)
    | CheckAvailable(tid: TaskId)
    | Reserve(tid: TaskId, id: Id)
    | InsertLease(tid: TaskId, id: Id, now: Time)
    | TakeLease(tid: TaskId)
    | Release(tid: TaskId)
    | Snapshot(tid: TaskId, now: Time, queue: seq<Lease<ResourceLease>>)
    | TakeNext(tid: TaskId)
    | FinishProceed(tid: TaskId)
    | CheckOwner(tid: TaskId)
    | RenewLease(tid: TaskId, now: Time)

  function Init(capacity: Resources): State {
    State(capacity, map[], map[], map[], {}, [], map[], 0)
  }

  /** The program point and the freshness of identifiers; never that a reservation exists. */
  ghost predicate Enabled(s: State, step: Step) {
    match step
    case Spawn(tid, task) =>
      tid !in s.tasks && (task.RequestWaiting? || task.RemoveWaiting? || task.ProceedWaiting? || task.RenewWaiting?)
    case CheckAvailable(tid) => tid in s.tasks && s.tasks[tid].RequestWaiting?
    case Reserve(tid, id) => tid in s.tasks && s.tasks[tid].RequestChecked? && id !in s.issued
    case InsertLease(tid, id, _) => tid in s.tasks && s.tasks[tid].RequestReserved? && id !in s.owners
    case TakeLease(tid) => tid in s.tasks && s.tasks[tid].RemoveWaiting?
    case Release(tid) => tid in s.tasks && Releasing(s.tasks[tid])
    case Snapshot(tid, now, queue) =>
      tid in s.tasks && s.tasks[tid].ProceedWaiting? && Lists(queue, s.leases, ExpiredIds(s.leases, now))
    case TakeNext(tid) => tid in s.tasks && s.tasks[tid].Proceeding? && s.tasks[tid].queue != []
    case FinishProceed(tid) => tid in s.tasks && s.tasks[tid].Proceeding? && s.tasks[tid].queue == []
    case CheckOwner(tid) => tid in s.tasks && s.tasks[tid].RenewWaiting?
    case RenewLease(tid, _) => tid in s.tasks && s.tasks[tid].RenewChecked?
  }

  predicate Releasing(t: Task) {
    t.RemoveTaken? || t.ProceedTaken?
  }

  function Become(s: State, tid: TaskId, task: Task): State {
    s.(tasks := s.tasks[tid := task])
  }

  ghost function DoCheckAvailable(s: State, tid: TaskId): State
    requires tid in s.tasks && s.tasks[tid].RequestWaiting?
  {
    var t := s.tasks[tid];
    Become(s, tid, if Geq(Available(s.capacity, s.reservations), t.request)
                   then RequestChecked(t.peer, t.request, t.duration) else Finished(Rejected))
  }

  /** The check is repeated under the write lock, then the reservation is made. */
  ghost function DoReserve(s: State, tid: TaskId, id: Id): State
    requires tid in s.tasks && s.tasks[tid].RequestChecked?
  {
    var t := s.tasks[tid];
    if Geq(Available(s.capacity, s.reservations), t.request) then
      Become(s, tid, RequestReserved(t.peer, t.duration, id))
      .(reservations := s.reservations[id := t.request], issued := s.issued + {id})
    else
      Become(s, tid, Finished(Rejected))
  }

  function DoInsertLease(s: State, tid: TaskId, id: Id, now: Time): State
    requires tid in s.tasks && s.tasks[tid].RequestReserved?
  {
    var t := s.tasks[tid];
    var lease := Lease(id, ResourceLease(t.peer, t.reservation), now + t.duration);
    Become(s, tid, Finished(Granted(lease)))
    .(leases := s.leases[id := lease], owners := s.owners[id := t.peer], clock := now)
  }

  function DoTakeLease(s: State, tid: TaskId): State
    requires tid in s.tasks && s.tasks[tid].RemoveWaiting?
  {
    var id := s.tasks[tid].id;
    if id in s.leases then Become(s, tid, RemoveTaken(s.leases[id])).(leases := s.leases - {id})
    else Become(s, tid, Finished(NotFound))
  }

  function DoRelease(s: State, tid: TaskId): State
    requires tid in s.tasks && Releasing(s.tasks[tid])
  {
    var t := s.tasks[tid];
    var reservation := t.lease.leasable.reservation;
    if reservation !in s.reservations then
      Become(s, tid, Finished(UnknownReservationReported))
    else
      Become(s, tid, if t.RemoveTaken? then Finished(Removed(t.lease))
                     else Proceeding(t.at, t.queue, t.removed + [t.lease]))
      .(reservations := s.reservations - {reservation}, released := s.released + [reservation])
  }

  /** The next lease of the snapshot is removed by identifier, without looking at its timeout again. */
  function DoTakeNext(s: State, tid: TaskId): State
    requires tid in s.tasks && s.tasks[tid].Proceeding? && s.tasks[tid].queue != []
  {
    var t := s.tasks[tid];
    var id := t.queue[0].id;
    if id in s.leases then
      Become(s, tid, ProceedTaken(s.leases[id], t.at, t.queue[1..], t.removed)).(leases := s.leases - {id})
    else
      Become(s, tid, Proceeding(t.at, t.queue[1..], t.removed))
  }

  function DoCheckOwner(s: State, tid: TaskId): State
    requires tid in s.tasks && s.tasks[tid].RenewWaiting?
  {
    var t := s.tasks[tid];
    Become(s, tid, if t.id !in s.leases then Finished(NotFound)
                   else if s.leases[t.id].leasable.peer == t.peer then RenewChecked(t.peer, t.id, t.duration)
                   else Finished(Forbidden))
  }

  function DoRenewLease(s: State, tid: TaskId, now: Time): State
    requires tid in s.tasks && s.tasks[tid].RenewChecked?
  {
    var t := s.tasks[tid];
    if t.id !in s.leases then Become(s, tid, Finished(NotFound)).(clock := now)
    else
      var lease := s.leases[t.id].(timeout := now + t.duration);
      Become(s, tid, Finished(Renewed(lease))).(leases := s.leases[t.id := lease], clock := now)
  }

  ghost function Apply(s: State, step: Step): State
    requires Enabled(s, step)
  {
    match step
    case Spawn(tid, task) => Become(s, tid, task)
    case CheckAvailable(tid) => DoCheckAvailable(s, tid)
    case Reserve(tid, id) => DoReserve(s, tid, id)
    case InsertLease(tid, id, now) => DoInsertLease(s, tid, id, now)
    case TakeLease(tid) => DoTakeLease(s, tid)
    case Release(tid) => DoRelease(s, tid)
    case Snapshot(tid, now, queue) => Become(s, tid, Proceeding(now, queue, [])).(clock := now)
    case TakeNext(tid) => DoTakeNext(s, tid)
    case FinishProceed(tid) => Become(s, tid, Finished(Pruned(s.tasks[tid].removed)))
    case CheckOwner(tid) => DoCheckOwner(s, tid)
    case RenewLease(tid, now) => DoRenewLease(s, tid, now)
  }

  ghost predicate Legal(s: State, steps: seq<Step>)
    decreases |steps|
  {
    steps == [] || (Enabled(s, steps[0]) && Legal(Apply(s, steps[0]), steps[1..]))
  }

  ghost function Run(s: State, steps: seq<Step>): State
    requires Legal(s, steps)
    decreases |steps|
  {
    if steps == [] then s else Run(Apply(s, steps[0]), steps[1..])
  }

  // ----- Who holds which reservation -----

  datatype Holder = InLedger(id: Id) | ByTask(tid: TaskId)

  function HeldBy(s: State, h: Holder): Option<Id> {
    match h
    case InLedger(id) => if id in s.leases then Some(s.leases[id].leasable.reservation) else None
    case ByTask(tid) =>
      if tid !in s.tasks then None
      else if s.tasks[tid].RequestReserved? then Some(s.tasks[tid].reservation)
      else if Releasing(s.tasks[tid]) then Some(s.tasks[tid].lease.leasable.reservation)
      else None
  }

  /** Every live reservation has exactly one holder, and holders hold only live reservations. */
  ghost predicate Exclusive(held: Holder -> Option<Id>, live: set<Id>) {
    && (forall h :: held(h).Some? ==> held(h).value in live)
    && (forall h, k :: held(h).Some? && held(h) == held(k) ==> h == k)
    && (forall r :: r in live ==> exists h :: held(h) == Some(r))
  }

  ghost predicate OneHolder(s: State) {
    Exclusive(h => HeldBy(s, h), s.reservations.Keys)
  }

  /** The past agrees with the tables: every issued reservation is live or was released, once. */
  ghost predicate History(s: State) {
    && (forall r :: r in s.issued <==> r in s.reservations || r in s.released)
    && (forall r :: r in s.released ==> r !in s.reservations)
    && (forall i, j :: 0 <= i < j < |s.released| ==> s.released[i] != s.released[j])
    && (forall tid :: tid in s.tasks ==> s.tasks[tid] != Finished(UnknownReservationReported))
  }

  /** Leases never change hands, so a passed owner check stays valid. */
  ghost predicate Ownership(s: State) {
    && WellFormed(s.leases)
    && (forall id :: id in s.leases ==> id in s.owners && s.owners[id] == s.leases[id].leasable.peer)
    && (forall tid :: tid in s.tasks && s.tasks[tid].RenewChecked? ==>
                        s.tasks[tid].id in s.owners && s.owners[s.tasks[tid].id] == s.tasks[tid].peer)
  }

  ghost predicate Inv(s: State) {
    OneHolder(s) && History(s) && Ownership(s)
  }

  /** Only `from` lets go of its reservation and only `to` takes up `r`. */
  lemma HandoverKeepsExclusive(held: Holder -> Option<Id>, live: set<Id>, held': Holder -> Option<Id>, live': set<Id>,
                               from: Option<Holder>, to: Option<Holder>, r: Id)
    requires Exclusive(held, live)
    requires forall h :: held'(h) == if to == Some(h) then Some(r) else if from == Some(h) then None else held(h)
    requires to.Some? ==> held(to.value).None?
    requires if from.Some? then held(from.value) == Some(r) else to.Some? ==> r !in live
    requires forall q :: q in live' <==> (q in live && !(from.Some? && q == r)) || (to.Some? && q == r)
    ensures Exclusive(held', live')
  {
    forall q | q in live' ensures exists h :: held'(h) == Some(q) {
      if to.Some? && q == r {
        assert held'(to.value) == Some(q);
      } else {
        var h :| held(h) == Some(q);
        assert held'(h) == Some(q);
      }
    }
  }

  lemma HandoverKeepsOneHolder(s: State, t: State, from: Option<Holder>, to: Option<Holder>, r: Id)
    requires OneHolder(s)
    requires forall h :: HeldBy(t, h) ==
                         if to == Some(h) then Some(r) else if from == Some(h) then None else HeldBy(s, h)
    requires to.Some? ==> HeldBy(s, to.value).None?
    requires if from.Some? then HeldBy(s, from.value) == Some(r) else to.Some? ==> r !in s.reservations
    requires forall q :: q in t.reservations <==>
                         (q in s.reservations && !(from.Some? && q == r)) || (to.Some? && q == r)
    ensures OneHolder(t)
  {
    HandoverKeepsExclusive(h => HeldBy(s, h), s.reservations.Keys, h => HeldBy(t, h), t.reservations.Keys, from, to, r);
  }

  lemma HolderFinds(s: State, h: Holder)
    requires OneHolder(s) && HeldBy(s, h).Some?
    ensures HeldBy(s, h).value in s.reservations
  {
    var held := h => HeldBy(s, h);
    assert held(h).Some?;
  }

  lemma ReserveKeepsOneHolder(s: State, tid: TaskId, id: Id)
    requires OneHolder(s) && tid in s.tasks && s.tasks[tid].RequestChecked? && id !in s.reservations
    ensures OneHolder(DoReserve(s, tid, id))
  {
    var t := DoReserve(s, tid, id);
    if id in t.reservations {
      HandoverKeepsOneHolder(s, t, None, Some(ByTask(tid)), id);
    } else {
      HandoverKeepsOneHolder(s, t, None, None, 0);
    }
  }

  lemma InsertKeepsOneHolder(s: State, tid: TaskId, id: Id, now: Time)
    requires OneHolder(s) && tid in s.tasks && s.tasks[tid].RequestReserved? && id !in s.leases
    ensures OneHolder(DoInsertLease(s, tid, id, now))
  {
    HolderFinds(s, ByTask(tid));
    HandoverKeepsOneHolder(s, DoInsertLease(s, tid, id, now), Some(ByTask(tid)), Some(InLedger(id)),
                           s.tasks[tid].reservation);
  }

  lemma ReleaseKeepsOneHolder(s: State, tid: TaskId)
    requires OneHolder(s) && tid in s.tasks && Releasing(s.tasks[tid])
    ensures OneHolder(DoRelease(s, tid))
  {
    HolderFinds(s, ByTask(tid));
    HandoverKeepsOneHolder(s, DoRelease(s, tid), Some(ByTask(tid)), None, s.tasks[tid].lease.leasable.reservation);
  }

  lemma TakeKeepsOneHolder(s: State, t: State, tid: TaskId, id: Id)
    requires OneHolder(s) && HeldBy(s, ByTask(tid)).None? && t.reservations == s.reservations
    requires forall h :: h != ByTask(tid) && h != InLedger(id) ==> HeldBy(t, h) == HeldBy(s, h)
    requires HeldBy(t, InLedger(id)).None? && HeldBy(t, ByTask(tid)) == HeldBy(s, InLedger(id))
    ensures OneHolder(t)
  {
    var h := InLedger(id);
    if HeldBy(s, h).Some? {
      HolderFinds(s, h);
      HandoverKeepsOneHolder(s, t, Some(h), Some(ByTask(tid)), HeldBy(s, h).value);
    } else {
      HandoverKeepsOneHolder(s, t, None, None, 0);
    }
  }

  predicate Quiet(step: Step) {
    !step.Reserve? && !step.InsertLease? && !step.Release? && !step.TakeLease? && !step.TakeNext?
  }

  lemma QuietKeepsOneHolder(s: State, step: Step)
    requires OneHolder(s) && Enabled(s, step) && Quiet(step)
    ensures OneHolder(Apply(s, step))
  {
    HandoverKeepsOneHolder(s, Apply(s, step), None, None, 0);
  }

  lemma StepKeepsOneHolder(s: State, step: Step)
    requires OneHolder(s) && Enabled(s, step)
    requires forall r :: r in s.reservations ==> r in s.issued
    requires forall id :: id in s.leases ==> id in s.owners
    ensures OneHolder(Apply(s, step))
  {
    match step
    case Reserve(tid, id) => ReserveKeepsOneHolder(s, tid, id);
    case InsertLease(tid, id, now) => InsertKeepsOneHolder(s, tid, id, now);
    case Release(tid) => ReleaseKeepsOneHolder(s, tid);
    case TakeLease(tid) => TakeKeepsOneHolder(s, DoTakeLease(s, tid), tid, s.tasks[tid].id);
    case TakeNext(tid) => TakeKeepsOneHolder(s, DoTakeNext(s, tid), tid, s.tasks[tid].queue[0].id);
    case _ => QuietKeepsOneHolder(s, step);
  }

  lemma ReleaseKeepsHistory(s: State, tid: TaskId)
    requires OneHolder(s) && History(s) && tid in s.tasks && Releasing(s.tasks[tid])
    ensures History(DoRelease(s, tid))
  {
    HolderFinds(s, ByTask(tid));
  }

  lemma QuietKeepsHistory(s: State, step: Step)
    requires History(s) && Enabled(s, step) && !step.Reserve? && !step.Release?
    ensures History(Apply(s, step))
  {
    var t := Apply(s, step);
    assert t.reservations == s.reservations && t.issued == s.issued && t.released == s.released;
    assert t.tasks == s.tasks[step.tid := t.tasks[step.tid]];
  }

  lemma StepKeepsHistory(s: State, step: Step)
    requires OneHolder(s) && History(s) && Enabled(s, step)
    ensures History(Apply(s, step))
  {
    if step.Release? {
      ReleaseKeepsHistory(s, step.tid);
    } else if !step.Reserve? {
      QuietKeepsHistory(s, step);
    }
  }

  lemma LeasesKeepOwnership(s: State, step: Step)
    requires Ownership(s) && Enabled(s, step)
    ensures var t := Apply(s, step);
            && WellFormed(t.leases)
            && (forall id :: id in s.owners ==> id in t.owners && t.owners[id] == s.owners[id])
            && (forall id :: id in t.leases ==> id in t.owners && t.owners[id] == t.leases[id].leasable.peer)
  {
    var t := Apply(s, step);
    if !step.InsertLease? && !step.RenewLease? {
      assert t.owners == s.owners;
      assert forall id :: id in t.leases ==> id in s.leases && t.leases[id] == s.leases[id];
    }
  }

  lemma StepKeepsOwnership(s: State, step: Step)
    requires Ownership(s) && Enabled(s, step)
    ensures Ownership(Apply(s, step))
  {
    var t := Apply(s, step);
    LeasesKeepOwnership(s, step);
    assert t.tasks == s.tasks[step.tid := t.tasks[step.tid]];
  }

  lemma StepKeepsInv(s: State, step: Step)
    requires Inv(s) && Enabled(s, step)
    ensures Inv(Apply(s, step))
  {
    StepKeepsOneHolder(s, step);
    StepKeepsHistory(s, step);
    StepKeepsOwnership(s, step);
  }

  lemma {:induction false} RunKeepsInv(s: State, steps: seq<Step>)
    requires Inv(s) && Legal(s, steps)
    ensures Inv(Run(s, steps))
    decreases |steps|
  {
    if steps != [] {
      StepKeepsInv(s, steps[0]);
      RunKeepsInv(Apply(s, steps[0]), steps[1..]);
    }
  }

  // ----- What holds after every legal run -----

  ghost function PendingIds(s: State): set<Id> {
    set tid | tid in s.tasks && s.tasks[tid].RequestReserved? :: s.tasks[tid].reservation
  }

  ghost function ReleasingIds(s: State): set<Id> {
    set tid | tid in s.tasks && Releasing(s.tasks[tid]) :: s.tasks[tid].lease.leasable.reservation
  }

  lemma InitInv(capacity: Resources)
    ensures Inv(Init(capacity))
  {
    var held := h => HeldBy(Init(capacity), h);
    assert forall h :: held(h).None?;
  }

  lemma HoldersCover(s: State, r: Id)
    requires OneHolder(s) && r in s.reservations
    ensures r in Held(s.leases, s.leases.Keys) + PendingIds(s) + ReleasingIds(s)
  {
    var held := h => HeldBy(s, h);
    var h :| held(h) == Some(r);
    match h
    case InLedger(id) => assert r in Held(s.leases, s.leases.Keys);
    case ByTask(tid) => assert r in PendingIds(s) || r in ReleasingIds(s);
  }

  lemma HoldersApart(s: State, r: Id)
    requires OneHolder(s)
    ensures r in Held(s.leases, s.leases.Keys) ==> r in s.reservations && r !in PendingIds(s) + ReleasingIds(s)
    ensures r in PendingIds(s) ==> r in s.reservations && r !in ReleasingIds(s)
    ensures r in ReleasingIds(s) ==> r in s.reservations
  {
    var held := h => HeldBy(s, h);
    assert Exclusive(held, s.reservations.Keys);
    assert forall id :: id in s.leases ==> held(InLedger(id)) == Some(s.leases[id].leasable.reservation);
    assert forall tid :: tid in s.tasks ==> held(ByTask(tid)) == HeldBy(s, ByTask(tid));
  }

  lemma OneHolderPartitions(s: State)
    requires OneHolder(s)
    ensures s.reservations.Keys == Held(s.leases, s.leases.Keys) + PendingIds(s) + ReleasingIds(s)
    ensures Held(s.leases, s.leases.Keys) !! PendingIds(s) !! ReleasingIds(s)
  {
    var ledger, pending, releasing := Held(s.leases, s.leases.Keys), PendingIds(s), ReleasingIds(s);
    forall r ensures r in s.reservations <==> r in ledger || r in pending || r in releasing {
      HoldersApart(s, r);
      if r in s.reservations {
        HoldersCover(s, r);
      }
    }
    forall r ensures !(r in ledger && r in pending) && !(r in ledger + pending && r in releasing) {
      HoldersApart(s, r);
    }
  }

  /**
   The live reservations are the disjoint union of those of ledger leases, those
   reserved but not yet inserted, and those removed but not yet released; and
   within each of the three, different leases or tasks hold different ones.
   */
  lemma ReservationsPartitioned(capacity: Resources, steps: seq<Step>)
    requires Legal(Init(capacity), steps)
    ensures var s := Run(Init(capacity), steps);
            && s.reservations.Keys == Held(s.leases, s.leases.Keys) + PendingIds(s) + ReleasingIds(s)
            && Held(s.leases, s.leases.Keys) !! PendingIds(s) !! ReleasingIds(s)
            && OneHolder(s)
  {
    InitInv(capacity);
    RunKeepsInv(Init(capacity), steps);
    OneHolderPartitions(Run(Init(capacity), steps));
  }

  /** Nothing is released twice or unknown to the table, and a quiescent worker leaks nothing. */
  lemma ReleasedExactlyOnce(capacity: Resources, steps: seq<Step>)
    requires Legal(Init(capacity), steps)
    ensures var s := Run(Init(capacity), steps);
            && (forall tid :: tid in s.tasks ==> s.tasks[tid] != Finished(UnknownReservationReported))
            && s.issued == s.reservations.Keys + (set r | r in s.released)
            && s.reservations.Keys !! (set r | r in s.released)
            && (forall i, j :: 0 <= i < j < |s.released| ==> s.released[i] != s.released[j])
            && ((forall tid :: tid in s.tasks ==> s.tasks[tid].Finished?) ==>
                  s.reservations.Keys == Held(s.leases, s.leases.Keys))
  {
    InitInv(capacity);
    RunKeepsInv(Init(capacity), steps);
    ReservationsPartitioned(capacity, steps);
    var s := Run(Init(capacity), steps);
    if forall tid :: tid in s.tasks ==> s.tasks[tid].Finished? {
      assert PendingIds(s) == {} && ReleasingIds(s) == {};
    }
  }

  /** A renewal that passed the owner check renews that peer's lease, whatever ran in between. */
  lemma RenewalStaysWithOwner(capacity: Resources, steps: seq<Step>, tid: TaskId)
    requires Legal(Init(capacity), steps)
    requires var s := Run(Init(capacity), steps);
             tid in s.tasks && s.tasks[tid].RenewChecked? && s.tasks[tid].id in s.leases
    ensures var s := Run(Init(capacity), steps);
            s.leases[s.tasks[tid].id].leasable.peer == s.tasks[tid].peer
  {
    InitInv(capacity);
    RunKeepsInv(Init(capacity), steps);
  }

  // ----- Capacity -----

  /** Every request made in the run satisfies `ok`. */
  ghost predicate RequestsSatisfy(steps: seq<Step>, ok: Resources -> bool) {
    forall i :: 0 <= i < |steps| && steps[i].Spawn? && steps[i].task.RequestWaiting? ==> ok(steps[i].task.request)
  }

  ghost predicate AllSatisfy(s: State, ok: Resources -> bool) {
    && (forall r :: r in s.reservations ==> ok(s.reservations[r]))
    && (forall tid :: tid in s.tasks && (s.tasks[tid].RequestWaiting? || s.tasks[tid].RequestChecked?) ==>
                        ok(s.tasks[tid].request))
  }

  lemma ReserveKeepsWithin(s: State, tid: TaskId, id: Id)
    requires tid in s.tasks && s.tasks[tid].RequestChecked? && id !in s.reservations
    requires AllNonNegative(s.reservations) && NonNegative(s.tasks[tid].request)
    requires Within(s.capacity, s.reservations)
    ensures Within(s.capacity, DoReserve(s, tid, id).reservations)
  {
    var request := s.tasks[tid].request;
    ComparisonIsProductOrder(Available(s.capacity, s.reservations), request);
    ApplyKeepsWithin(s.capacity, s.reservations, ReserveOp(id, request));
  }

  lemma StepKeepsSatisfy(s: State, step: Step, ok: Resources -> bool)
    requires Enabled(s, step) && AllSatisfy(s, ok)
    requires step.Spawn? && step.task.RequestWaiting? ==> ok(step.task.request)
    ensures AllSatisfy(Apply(s, step), ok)
  {
    var t := Apply(s, step);
    assert t.tasks == s.tasks[step.tid := t.tasks[step.tid]];
    if !step.Reserve? && !step.Release? {
      assert t.reservations == s.reservations;
    }
  }

  lemma StepKeepsWithin(s: State, step: Step)
    requires Enabled(s, step) && AllSatisfy(s, r => NonNegative(r)) && Within(s.capacity, s.reservations)
    requires step.Reserve? ==> step.id !in s.reservations
    ensures Within(s.capacity, Apply(s, step).reservations)
  {
    if step.Reserve? {
      ReserveKeepsWithin(s, step.tid, step.id);
    } else if step.Release? {
      ApplyKeepsWithin(s.capacity, s.reservations, ReleaseOp(s.tasks[step.tid].lease.leasable.reservation));
    } else {
      assert Apply(s, step).reservations == s.reservations;
    }
  }

  ghost predicate Bounded(s: State, capacity: Resources, ok: Resources -> bool) {
    Inv(s) && AllSatisfy(s, ok) && s.capacity == capacity && Within(capacity, s.reservations)
  }

  lemma StepKeepsBounded(s: State, step: Step, capacity: Resources, ok: Resources -> bool)
    requires Enabled(s, step) && Bounded(s, capacity, ok)
    requires forall r :: ok(r) ==> NonNegative(r)
    requires step.Spawn? && step.task.RequestWaiting? ==> ok(step.task.request)
    ensures Bounded(Apply(s, step), capacity, ok)
  {
    StepKeepsInv(s, step);
    StepKeepsSatisfy(s, step, ok);
    StepKeepsWithin(s, step);
  }

  lemma {:induction false} RunKeepsBounded(s: State, steps: seq<Step>, capacity: Resources, ok: Resources -> bool)
    requires Legal(s, steps) && Bounded(s, capacity, ok)
    requires (forall r :: ok(r) ==> NonNegative(r)) && RequestsSatisfy(steps, ok)
    ensures Bounded(Run(s, steps), capacity, ok)
    decreases |steps|
  {
    if steps != [] {
      StepKeepsBounded(s, steps[0], capacity, ok);
      RunKeepsBounded(Apply(s, steps[0]), steps[1..], capacity, ok);
    }
  }

  /** Concurrent requests and releases never over-commit the worker. */
  lemma NeverOvercommitted(capacity: Resources, steps: seq<Step>)
    requires NonNegative(capacity) && Legal(Init(capacity), steps) && RequestsSatisfy(steps, r => NonNegative(r))
    ensures AtMost(Total(Run(Init(capacity), steps).reservations), capacity)
    ensures var table := Run(Init(capacity), steps).reservations;
            && FieldTotal((r: Resources) => r.gpu, table) <= capacity.gpu
            && FieldTotal((r: Resources) => r.cpu, table) <= capacity.cpu
            && FieldTotal((r: Resources) => r.storage, table) <= capacity.storage
            && FieldTotal((r: Resources) => r.memory, table) <= capacity.memory
  {
    TotalIsFieldwise(Run(Init(capacity), steps).reservations);
    InitInv(capacity);
    RunKeepsBounded(Init(capacity), steps, capacity, r => NonNegative(r));
  }

  /** When every request asks for the whole non-zero worker, at most one lease exists at a time. */
  lemma WholeWorkerIsExclusive(capacity: Resources, steps: seq<Step>)
    requires NonNegative(capacity) && capacity != ZERO
    requires Legal(Init(capacity), steps) && RequestsSatisfy(steps, r => r == capacity)
    ensures var s := Run(Init(capacity), steps);
            && (forall a, b :: a in s.reservations && b in s.reservations ==> a == b)
            && (forall a, b :: a in s.leases && b in s.leases ==> a == b)
  {
    var ok := r => r == capacity;
    InitInv(capacity);
    RunKeepsBounded(Init(capacity), steps, capacity, ok);
    var s := Run(Init(capacity), steps);
    forall a, b | a in s.reservations && b in s.reservations ensures a == b {
      if a != b {
        TotalExtract(s.reservations, a);
        TotalExtract(s.reservations - {a}, b);
        TotalNonNegative(s.reservations - {a} - {b});
      }
    }
    forall a, b | a in s.leases && b in s.leases ensures a == b {
      var held := h => HeldBy(s, h);
      assert held(InLedger(a)).Some? && held(InLedger(b)).Some?;
    }
  }
}
