/**
 The scheduler's renewal loop against the interleaved worker: any tasks may run
 between the renewals of one lease, prune loops among them. Seen from the lease this
 is the timed system of LeaseRenewal, so that on schedule no prune ever lists it.
 */
module RenewalProtocol {
  import opened Common
  import opened HyphaResources
  import opened HyphaLeases
  import P = LeaseProtocol
  import R = LeaseRenewal

  /** The worker, the time, and where the renewal loop of the lease stands. */
  datatype State = State(now: Time, worker: P.State, phase: R.Phase)

  datatype Act =
    | Advance(to: Time)
    | Worker(step: P.Step)       // a section of any task, except a renewal of the lease
    | Renewal(tid: P.TaskId)     // a renewal of the lease arrives
    | Response
    | Wake

  function View(s: State): R.State {
    R.State(s.now, s.worker.leases, s.phase)
  }

  /** The time that a step reads. */
  predicate ReadsClock(step: P.Step, now: Time) {
    step.InsertLease? || step.Snapshot? || step.RenewLease? ==> step.now == now
  }

  /** Tasks do what they like, but nothing except a prune takes the lease out. */
  ghost predicate Enabled(D: nat, id: Id, s: State, act: Act) {
    match act
    case Advance(to) => R.Enabled(D, id, View(s), R.Advance(to))
    case Worker(step) =>
      && P.Enabled(s.worker, step) && ReadsClock(step, s.now)
      && (step.TakeLease? || step.RenewLease? ==> s.worker.tasks[step.tid].id != id)
    case Renewal(tid) =>
      && s.phase.RequestInFlight? && P.Enabled(s.worker, P.RenewLease(tid, s.now))
      && s.worker.tasks[tid].id == id && s.worker.tasks[tid].duration == LEASE_TIMEOUT
    case Response => R.Enabled(D, id, View(s), R.ResponseArrives)
    case Wake => R.Enabled(D, id, View(s), R.Wake)
  }

  ghost function Apply(D: nat, id: Id, s: State, act: Act): State
    requires Enabled(D, id, s, act)
  {
    match act
    case Advance(to) => s.(now := to)
    case Worker(step) => s.(worker := P.Apply(s.worker, step))
    case Renewal(tid) =>
      State(s.now, P.Apply(s.worker, P.RenewLease(tid, s.now)),
            if id in s.worker.leases then R.ResponseInFlight(s.now, s.now + LEASE_TIMEOUT) else R.Stopped)
    case Response => s.(phase := R.Apply(D, id, View(s), R.ResponseArrives).phase)
    case Wake => s.(phase := R.Apply(D, id, View(s), R.Wake).phase)
  }

  ghost predicate Legal(D: nat, id: Id, s: State, acts: seq<Act>)
    decreases |acts|
  {
    acts == [] || (Enabled(D, id, s, acts[0]) && Legal(D, id, Apply(D, id, s, acts[0]), acts[1..]))
  }

  ghost function Run(D: nat, id: Id, s: State, acts: seq<Act>): State
    requires Legal(D, id, s, acts)
    decreases |acts|
  {
    if acts == [] then s else Run(D, id, Apply(D, id, s, acts[0]), acts[1..])
  }

  /** No prune has the lease on its list. */
  ghost predicate Unlisted(id: Id, worker: P.State) {
    forall tid, i ::
      tid in worker.tasks && (worker.tasks[tid].Proceeding? || worker.tasks[tid].ProceedTaken?)
      && 0 <= i < |worker.tasks[tid].queue|
      ==> worker.tasks[tid].queue[i].id != id
  }

  ghost predicate OnSchedule(D: nat, id: Id, s: State) {
    R.InTime(D, id, View(s)) && id in s.worker.owners && Unlisted(id, s.worker)
  }

  lemma InTimeIsAlive(D: nat, id: Id, s: R.State)
    requires 4 * D < LEASE_TIMEOUT && R.InTime(D, id, s)
    ensures R.Alive(id, s)
  {
  }

  /** A section of another task leaves the lease as it is, because no prune has listed it. */
  lemma StepSparesLease(id: Id, worker: P.State, step: P.Step, now: Time)
    requires P.Enabled(worker, step) && ReadsClock(step, now)
    requires step.TakeLease? || step.RenewLease? ==> worker.tasks[step.tid].id != id
    requires id in worker.leases && id in worker.owners && Unlisted(id, worker)
    ensures var next := P.Apply(worker, step);
            id in next.leases && next.leases[id] == worker.leases[id] && id in next.owners
  {
  }

  lemma StepKeepsUnlisted(id: Id, worker: P.State, step: P.Step, now: Time)
    requires P.Enabled(worker, step) && ReadsClock(step, now)
    requires id !in ExpiredIds(worker.leases, now) && Unlisted(id, worker)
    ensures Unlisted(id, P.Apply(worker, step))
  {
  }

  /** Every act is an event of the timed system. */
  lemma ActKeepsSchedule(D: nat, id: Id, s: State, act: Act)
    requires 4 * D < LEASE_TIMEOUT && OnSchedule(D, id, s) && Enabled(D, id, s, act)
    ensures OnSchedule(D, id, Apply(D, id, s, act))
  {
    var t := Apply(D, id, s, act);
    InTimeIsAlive(D, id, View(s));
    match act {
      case Advance(to) => R.EventKeepsInTime(D, id, View(s), R.Advance(to));
      case Response => R.EventKeepsInTime(D, id, View(s), R.ResponseArrives);
      case Wake => R.EventKeepsInTime(D, id, View(s), R.Wake);
      case Worker(step) =>
        StepSparesLease(id, s.worker, step, s.now);
        StepKeepsUnlisted(id, s.worker, step, s.now);
        R.EventKeepsInTime(D, id, View(s), R.Others(t.worker.leases));
      case Renewal(tid) =>
        StepKeepsUnlisted(id, s.worker, P.RenewLease(tid, s.now), s.now);
        R.EventKeepsInTime(D, id, View(s), R.RequestArrives);
    }
  }

  lemma {:induction false} RunKeepsSchedule(D: nat, id: Id, s: State, acts: seq<Act>)
    requires 4 * D < LEASE_TIMEOUT && OnSchedule(D, id, s) && Legal(D, id, s, acts)
    ensures OnSchedule(D, id, Run(D, id, s, acts))
    decreases |acts|
  {
    if acts != [] {
      ActKeepsSchedule(D, id, s, acts[0]);
      RunKeepsSchedule(D, id, Apply(D, id, s, acts[0]), acts[1..]);
    }
  }

  /**
   A lease that was just offered and is renewed with one-way delays below a quarter of
   its duration stays in the ledger and on no prune's list, whatever other tasks run in
   between: the pruning race cannot reach it.
   */
  lemma RenewedLeaseIsNeverListed(D: nat, id: Id, s: State, acts: seq<Act>)
    requires 4 * D < LEASE_TIMEOUT && R.Initial(id, View(s)) && id in s.worker.owners && Unlisted(id, s.worker)
    requires Legal(D, id, s, acts)
    ensures var t := Run(D, id, s, acts);
            && id in t.worker.leases && id !in ExpiredIds(t.worker.leases, t.now) && Unlisted(id, t.worker)
  {
    RunKeepsSchedule(D, id, s, acts);
    InTimeIsAlive(D, id, View(Run(D, id, s, acts)));
  }
}
