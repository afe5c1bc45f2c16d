/**
 The scheduler's renew-and-sleep loop for one lease against the worker's ledger,
 in real time. Both sides read one monotone clock; a one-way delay covers
 everything between sending (retries included) and arrival, and is at most D.
 */
module LeaseRenewal {
  import opened Common
  import opened HyphaResources
  import opened HyphaLeases
  import opened LeaseManager

  const FALLBACK: nat := 6 * SECOND

  /** Where the loop stands; `deadline` bounds the arrival of the renewal in flight. */
  datatype Phase =
    | RequestInFlight(deadline: Time)
    | ResponseInFlight(received: Time, timeout: Time)
    | Sleeping(until: Time)
    | Stopped

  datatype State = State(now: Time, leases: Leases, phase: Phase)

  datatype Event =
    | Advance(to: Time)
    | RequestArrives
    | ResponseArrives
    | Wake
    | Prune                          // remove every expired lease
    | Others(leases: Leases)         // whatever happens to the other leases

  /** How long the loop sleeps after a response that carries `timeout`. */
  function SafeDuration(timeout: Time, now: Time): nat {
    (if now <= timeout then timeout - now else FALLBACK) / 3 * 2
  }

  predicate Enabled(D: nat, id: Id, s: State, e: Event) {
    match e
    case Advance(to) =>
      s.now <= to &&
      (match s.phase
       case RequestInFlight(deadline) => to <= deadline
       case ResponseInFlight(received, _) => to <= received + D
       case Sleeping(until) => to <= until
       case Stopped => true)
    case RequestArrives => s.phase.RequestInFlight?
    case ResponseArrives => s.phase.ResponseInFlight?
    case Wake => s.phase.Sleeping? && s.now == s.phase.until
    case Prune => true
    case Others(leases) =>
      (id in leases <==> id in s.leases) && (id in leases ==> leases[id] == s.leases[id])
  }

  ghost function Apply(D: nat, id: Id, s: State, e: Event): State
    requires Enabled(D, id, s, e)
  {
    match e
    case Advance(to) => s.(now := to)
    case RequestArrives =>
      if id in s.leases then
        var timeout := s.now + LEASE_TIMEOUT;
        s.(leases := s.leases[id := s.leases[id].(timeout := timeout)], phase := ResponseInFlight(s.now, timeout))
      else
        s.(phase := Stopped)
    case ResponseArrives => s.(phase := Sleeping(s.now + SafeDuration(s.phase.timeout, s.now)))
    case Wake => s.(phase := RequestInFlight(s.now + D))
    case Prune => s.(leases := s.leases - ExpiredIds(s.leases, s.now))
    case Others(leases) => s.(leases := leases)
  }

  ghost predicate Legal(D: nat, id: Id, s: State, events: seq<Event>)
    decreases |events|
  {
    events == [] || (Enabled(D, id, s, events[0]) && Legal(D, id, Apply(D, id, s, events[0]), events[1..]))
  }

  ghost function Run(D: nat, id: Id, s: State, events: seq<Event>): State
    requires Legal(D, id, s, events)
    decreases |events|
  {
    if events == [] then s else Run(D, id, Apply(D, id, s, events[0]), events[1..])
  }

  /** The lease was just offered, and the first renewal is on its way to arrive before the offer expires. */
  predicate Initial(id: Id, s: State) {
    && id in s.leases && s.leases[id].timeout == s.now + OFFER_TIMEOUT
    && s.phase.RequestInFlight? && s.now <= s.phase.deadline < s.now + OFFER_TIMEOUT
  }

  /** The lease is in the ledger and a prune snapshot taken now does not contain it. */
  ghost predicate Alive(id: Id, s: State) {
    id in s.leases && id !in ExpiredIds(s.leases, s.now)
  }

  predicate InTime(D: nat, id: Id, s: State) {
    && id in s.leases
    && var timeout := s.leases[id].timeout;
    match s.phase
    case RequestInFlight(deadline) => s.now <= deadline < timeout
    case ResponseInFlight(received, t) => t == timeout == received + LEASE_TIMEOUT && received <= s.now <= received + D
    case Sleeping(until) => s.now <= until && until + D < timeout
    case Stopped => false
  }

  lemma EventKeepsInTime(D: nat, id: Id, s: State, e: Event)
    requires 4 * D < LEASE_TIMEOUT && InTime(D, id, s) && Enabled(D, id, s, e)
    ensures InTime(D, id, Apply(D, id, s, e))
  {
  }

  lemma {:induction false} RunKeepsInTime(D: nat, id: Id, s: State, events: seq<Event>)
    requires 4 * D < LEASE_TIMEOUT && InTime(D, id, s) && Legal(D, id, s, events)
    ensures InTime(D, id, Run(D, id, s, events))
    decreases |events|
  {
    if events != [] {
      EventKeepsInTime(D, id, s, events[0]);
      RunKeepsInTime(D, id, Apply(D, id, s, events[0]), events[1..]);
    }
  }

  /**
   The loop sleeps two thirds of what is left of the lease, rounded down by less than two
   nanoseconds, and four seconds if the timeout has passed when the reply arrives.
   */
  lemma SleepsTwoThirds(D: nat, id: Id, s: State)
    requires s.phase.ResponseInFlight?
    ensures var t, left := Apply(D, id, s, ResponseArrives), s.phase.timeout - s.now;
            && t.leases == s.leases && t.now == s.now && t.phase.Sleeping?
            && (left >= 0 ==> 2 * left - 6 < 3 * (t.phase.until - t.now) <= 2 * left)
            && (left < 0 ==> t.phase.until == t.now + 4 * SECOND)
  {
  }

  /** A renewal that finds no lease ends the loop; nothing else does, and nothing starts it again. */
  lemma LossEndsTheLoop(D: nat, id: Id, s: State, e: Event)
    requires Enabled(D, id, s, e)
    ensures Apply(D, id, s, e).phase.Stopped? <==> s.phase.Stopped? || (e.RequestArrives? && id !in s.leases)
  {
  }

  lemma Cons(D: nat, id: Id, s: State, e: Event, t: State, rest: seq<Event>) returns (events: seq<Event>)
    requires Enabled(D, id, s, e) && Apply(D, id, s, e) == t && Legal(D, id, t, rest)
    ensures Legal(D, id, s, events) && Run(D, id, s, events) == Run(D, id, t, rest)
  {
    events := [e] + rest;
    assert events[1..] == rest;
  }

  /** With both delays at a quarter of the lease, the second renewal is overtaken by the timeout. */
  lemma QuarterDelayExpires(D: nat, id: Id, s: State)
    requires 4 * D >= LEASE_TIMEOUT && Initial(id, s)
    ensures exists events :: Legal(D, id, s, events) && !Alive(id, Run(D, id, s, events))
  {
    var start, quarter := s.now, LEASE_TIMEOUT / 4;
    var timeout := start + LEASE_TIMEOUT;
    var leases := s.leases[id := s.leases[id].(timeout := timeout)];
    var wake := start + quarter + (LEASE_TIMEOUT - quarter) / 3 * 2;
    var s1 := State(start, leases, ResponseInFlight(start, timeout));
    var s2 := s1.(now := start + quarter);
    var s3 := s2.(phase := Sleeping(wake));
    var s4 := s3.(now := wake);
    var s5 := s4.(phase := RequestInFlight(wake + D));
    var s6 := s5.(now := timeout);
    var events := Cons(D, id, s5, Advance(timeout), s6, []);
    events := Cons(D, id, s4, Wake, s5, events);
    events := Cons(D, id, s3, Advance(wake), s4, events);
    events := Cons(D, id, s2, ResponseArrives, s3, events);
    events := Cons(D, id, s1, Advance(start + quarter), s2, events);
    events := Cons(D, id, s, RequestArrives, s1, events);
  }

  /**
   No run ever exposes the lease to a prune snapshot if and only if every
   one-way delay stays below a quarter of the lease duration.
   */
  lemma RenewalKeepsLeaseAliveExactly(D: nat, id: Id, s: State)
    requires Initial(id, s)
    ensures (forall events :: Legal(D, id, s, events) ==> Alive(id, Run(D, id, s, events)))
            <==> 4 * D < LEASE_TIMEOUT
  {
    if 4 * D < LEASE_TIMEOUT {
      forall events | Legal(D, id, s, events) ensures Alive(id, Run(D, id, s, events)) {
        RunKeepsInTime(D, id, s, events);
      }
    } else {
      QuarterDelayExpires(D, id, s);
    }
  }
}
