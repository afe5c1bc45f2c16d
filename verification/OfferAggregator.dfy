/**
 The stream that collects worker offers until it has enough distinct peers, the
 deadline passes, or the offers end. A poll is given the timer clock, the offers
 ready now, and whether the offer stream then ends or is pending.
 */
module OfferAggregator {
  import opened Common
  import opened Wrappers
  import opened HyphaResources
  import opened Scoring
  import opened StableSort
  import opened HyphaLeases
  import opened Candidates
  import opened Sequences

  const EXPIRY_BUFFER: nat := 100 * 1_000_000   // nanoseconds

  /** An offer with the wall clock and the timer clock read while it is handled. */
  datatype Arrival = Arrival(peer: PeerId, offer: Offer, wall: Time, instant: Time)

  /** The deadline timer is ready once `now` has reached it. */
  datatype Ready = Ready(now: Time, arrivals: seq<Arrival>, ended: bool)

  datatype Answer = Pending | Finished | Offers(offers: seq<(PeerId, Offer)>)

  datatype Config = Config(maxOffers: Option<nat>, hardDeadline: Time, upperPrice: real, weights: Weights)

  /** `seen` is the history of acceptable offers, `reset` the wall and timer clocks when the list last changed. */
  datatype State = State(
    offers: seq<Candidate>, capacity: nat, diversity: bool, received: nat, returned: bool, deadline: Time,
    seen: seq<Candidate>, reset: Option<(Time, Time)>)

  function Init(desired: nat, diversity: bool, deadline: Time): State {
    State([], if desired < 1 then 1 else desired, diversity, 0, false, deadline, [], None)
  }

  function ToCandidate(c: Config, a: Arrival): Candidate {
    Candidate(a.peer, a.offer, Score(c.weights, a.offer.price, a.offer.resources))
  }

  function Unpack(offers: seq<Candidate>): (unpacked: seq<(PeerId, Offer)>)
    ensures |unpacked| == |offers|
    ensures forall i :: 0 <= i < |offers| ==> unpacked[i] == (offers[i].peer, offers[i].offer)
  {
    seq(|offers|, i requires 0 <= i < |offers| => (offers[i].peer, offers[i].offer))
  }

  /** When the timer must fire for this candidate: a buffer before its expiry, or at once. */
  function Expiry(timeout: Time, wall: Time, instant: Time): Time
    requires wall <= timeout
  {
    instant + if timeout - wall > EXPIRY_BUFFER then timeout - wall - EXPIRY_BUFFER else 0
  }

  /** The earliest of the hard deadline and the expiries of the unexpired candidates. */
  function Deadline(hardDeadline: Time, offers: seq<Candidate>, wall: Time, instant: Time): Time {
    if offers == [] then hardDeadline
    else
      var earlier, last := Deadline(hardDeadline, offers[..|offers| - 1], wall, instant), offers[|offers| - 1];
      if wall <= last.offer.timeout && Expiry(last.offer.timeout, wall, instant) < earlier
      then Expiry(last.offer.timeout, wall, instant)
      else earlier
  }

  /** Hands out the candidates and leaves an empty list of capacity zero. */
  function Take(s: State): (State, Answer) {
    (s.(offers := [], capacity := 0, diversity := false, returned := true), Offers(Unpack(s.offers)))
  }

  /** Handles one offer; the flag tells whether the list changed. */
  function Receive(c: Config, s: State, a: Arrival): (State, bool) {
    var counted := s.(received := s.received + 1);
    if a.offer.price > c.upperPrice then (counted, false)
    else
      var recorded := counted.(seen := s.seen + [ToCandidate(c, a)]);
      match Insertion(s.offers, s.capacity, s.diversity, ToCandidate(c, a))
      case Err(_) => (recorded, false)
      case Ok(offers) =>
        (recorded.(offers := offers, deadline := Deadline(c.hardDeadline, offers, a.wall, a.instant),
                   reset := Some((a.wall, a.instant))), true)
  }

  function Drain(c: Config, s: State, arrivals: seq<Arrival>, ended: bool): (State, Answer)
    decreases |arrivals|
  {
    if arrivals == [] then (if ended then Take(s) else (s, Pending))
    else
      var (t, changed) := Receive(c, s, arrivals[0]);
      if changed && |t.offers| >= t.capacity then Take(t) else Drain(c, t, arrivals[1..], ended)
  }

  function Poll(c: Config, s: State, ready: Ready): (State, Answer) {
    if s.returned then (s, Finished)
    else if c.maxOffers.Some? && s.received >= c.maxOffers.value then Take(s)
    else if s.deadline <= ready.now then Take(s)
    else Drain(c, s, ready.arrivals, ready.ended)
  }

  class GreedyOfferAggregator {
    const config: Config
    var candidates: CandidateList
    var offersReceived: nat
    var returned: bool
    var deadline: Time
    ghost var seen: seq<Candidate>
    ghost var reset: Option<(Time, Time)>

    ghost function Abstract(): State
      reads this, candidates
    {
      State(candidates.offers, candidates.capacity, candidates.diversity, offersReceived, returned, deadline,
            seen, reset)
    }

    constructor (config: Config, desired: nat, diversity: bool)
      ensures this.config == config && fresh(candidates)
      ensures Abstract() == Init(desired, diversity, config.hardDeadline)
    {
      this.config := config;
      candidates := new CandidateList(if desired < 1 then 1 else desired, diversity);
      offersReceived, returned, deadline, seen, reset := 0, false, config.hardDeadline, [], None;
    }

    method TakeCandidates() returns (answer: Answer)
      modifies this
      ensures fresh(candidates) && (Abstract(), answer) == Take(old(Abstract()))
    {
      answer := Offers(Unpack(candidates.offers));
      candidates := new CandidateList(0, false);
      returned := true;
    }

    method ResetDeadline(wall: Time, instant: Time)
      modifies this`deadline
      ensures deadline == Deadline(config.hardDeadline, candidates.offers, wall, instant)
    {
      var newDeadline := config.hardDeadline;
      for i := 0 to |candidates.offers|
        invariant newDeadline == Deadline(config.hardDeadline, candidates.offers[..i], wall, instant)
      {
        var timeout := candidates.offers[i].offer.timeout;
        if wall <= timeout {
          var timeUntilExpiry := timeout - wall;
          var durationUntilExpiry := if timeUntilExpiry > EXPIRY_BUFFER then timeUntilExpiry - EXPIRY_BUFFER else 0;
          var candidate := instant + durationUntilExpiry;
          if candidate < newDeadline {
            newDeadline := candidate;
          }
        }
        assert candidates.offers[..i + 1][..i] == candidates.offers[..i];
      }
      assert candidates.offers[..|candidates.offers|] == candidates.offers;
      deadline := newDeadline;
    }

    method ReceiveOffer(a: Arrival) returns (changed: bool)
      modifies this, candidates
      ensures candidates == old(candidates)
      ensures (Abstract(), changed) == Receive(config, old(Abstract()), a)
    {
      offersReceived := offersReceived + 1;
      if a.offer.price > config.upperPrice {
        return false;
      }
      var candidate := ToCandidate(config, a);
      var inserted := candidates.TryInsert(candidate);
      seen := seen + [candidate];
      changed := inserted.Ok?;
      if changed {
        ResetDeadline(a.wall, a.instant);
        reset := Some((a.wall, a.instant));
      }
    }

    method PollNext(ready: Ready) returns (answer: Answer)
      modifies this, candidates
      ensures candidates == old(candidates) || fresh(candidates)
      ensures (Abstract(), answer) == Poll(config, old(Abstract()), ready)
    {
      if returned {
        return Finished;
      }
      if config.maxOffers.Some? && offersReceived >= config.maxOffers.value {
        answer := TakeCandidates();
        return;
      }
      if deadline <= ready.now {
        answer := TakeCandidates();
        return;
      }
      for i := 0 to |ready.arrivals|
        invariant candidates == old(candidates)
        invariant Drain(config, Abstract(), ready.arrivals[i..], ready.ended)
                  == Drain(config, old(Abstract()), ready.arrivals, ready.ended)
      {
        assert ready.arrivals[i..][1..] == ready.arrivals[i + 1..];
        var changed := ReceiveOffer(ready.arrivals[i]);
        if changed && |candidates.offers| >= candidates.capacity {
          answer := TakeCandidates();
          return;
        }
      }
      if ready.ended {
        answer := TakeCandidates();
      } else {
        answer := Pending;
      }
    }
  }

  // ----- The deadline -----

  /** The deadline leaves the candidate the buffer before its expiry, or has come at once. */
  predicate LeavesBuffer(deadline: Time, x: Candidate, wall: Time, instant: Time) {
    deadline <= instant || deadline + wall + EXPIRY_BUFFER <= instant + x.offer.timeout
  }

  /** The candidate is what sets the deadline. */
  predicate SetsDeadline(deadline: Time, x: Candidate, wall: Time, instant: Time) {
    && wall <= x.offer.timeout
    && if x.offer.timeout - wall > EXPIRY_BUFFER
       then deadline + wall + EXPIRY_BUFFER == instant + x.offer.timeout
       else deadline == instant
  }

  /**
   The reset deadline leaves every unexpired candidate the buffer, or has come at once,
   and is as late as that and the hard deadline allow.
   */
  lemma {:induction false} DeadlineIsEarliest(hardDeadline: Time, offers: seq<Candidate>, wall: Time, instant: Time)
    ensures var d := Deadline(hardDeadline, offers, wall, instant);
            && d <= hardDeadline
            && (forall x :: x in offers && wall <= x.offer.timeout ==> LeavesBuffer(d, x, wall, instant))
            && (d == hardDeadline || exists x :: x in offers && SetsDeadline(d, x, wall, instant))
  {
    if offers != [] {
      var before, last := offers[..|offers| - 1], offers[|offers| - 1];
      DeadlineIsEarliest(hardDeadline, before, wall, instant);
      assert offers == before + [last];
      assert forall x :: x in offers <==> x in before || x == last;
    }
  }

  // ----- Whole runs -----

  /** The answers of a sequence of polls, and the state it ends in. */
  function Run(c: Config, s: State, polls: seq<Ready>): (State, seq<Answer>)
    decreases |polls|
  {
    if polls == [] then (s, [])
    else
      var (t, answer) := Poll(c, s, polls[0]);
      var (u, answers) := Run(c, t, polls[1..]);
      (u, [answer] + answers)
  }

  /** Before it answers, a diverse aggregator holds the selection of what it saw, which is not yet full. */
  ghost predicate Collecting(c: Config, capacity: nat, s: State) {
    && !s.returned && s.diversity && s.capacity == capacity && 0 < capacity
    && s.offers == After(capacity, s.seen) && |s.offers| < capacity
    && Priced(c, s.seen)
  }

  ghost predicate Priced(c: Config, seen: seq<Candidate>) {
    forall x :: x in seen ==> x.offer.price <= c.upperPrice
  }

  /** The result is the selection of everything seen, and nobody was left out. */
  ghost predicate Complete(c: Config, capacity: nat, seen: seq<Candidate>, offers: seq<(PeerId, Offer)>) {
    offers == Unpack(After(capacity, seen)) && |offers| == |Peers(seen)| <= capacity && Priced(c, seen)
  }

  function Noted(c: Config, a: Arrival): seq<Candidate> {
    if a.offer.price > c.upperPrice then [] else [ToCandidate(c, a)]
  }

  /** The candidates among the arrivals, in order. */
  function Acceptable(c: Config, arrivals: seq<Arrival>): seq<Candidate> {
    if arrivals == [] then [] else Noted(c, arrivals[0]) + Acceptable(c, arrivals[1..])
  }

  lemma InitCollects(c: Config, desired: nat)
    ensures var s := Init(desired, true, c.hardDeadline);
            Collecting(c, s.capacity, s) && s.capacity == (if desired < 1 then 1 else desired)
  {
  }

  lemma AfterSnoc(capacity: nat, seen: seq<Candidate>, x: Candidate)
    ensures After(capacity, seen + [x]) == match Insertion(After(capacity, seen), capacity, true, x)
                                           case Ok(after) => after
                                           case Err(_) => After(capacity, seen)
  {
    assert (seen + [x])[..|seen|] == seen;
  }

  /** One offer keeps the aggregator collecting unless it comes from the last peer desired. */
  lemma ReceiveCollects(c: Config, capacity: nat, s: State, a: Arrival)
    requires Collecting(c, capacity, s)
    ensures var (t, changed) := Receive(c, s, a);
            && t.seen == s.seen + Noted(c, a)
            && if changed && |t.offers| >= t.capacity
               then
                 && Complete(c, capacity, t.seen, Unpack(t.offers)) && |t.offers| == capacity
                 && a.peer !in Peers(s.seen)
               else Collecting(c, capacity, t)
  {
    var (t, changed) := Receive(c, s, a);
    var x := ToCandidate(c, a);
    if a.offer.price <= c.upperPrice {
      AfterSnoc(capacity, s.seen, x);
      AfterSize(capacity, s.seen);
      AfterSize(capacity, t.seen);
      PeersSnoc(s.seen, x);
    }
  }

  lemma {:induction false} DrainIsSound(c: Config, capacity: nat, s: State, arrivals: seq<Arrival>, ended: bool)
    requires Collecting(c, capacity, s)
    ensures var (t, answer) := Drain(c, s, arrivals, ended);
            match answer
            case Pending => Collecting(c, capacity, t)
            case Finished => false
            case Offers(offers) => t.returned && Complete(c, capacity, t.seen, offers)
    decreases |arrivals|
  {
    if arrivals == [] {
      AfterSize(capacity, s.seen);
    } else {
      ReceiveCollects(c, capacity, s, arrivals[0]);
      var (t, changed) := Receive(c, s, arrivals[0]);
      if !(changed && |t.offers| >= t.capacity) {
        DrainIsSound(c, capacity, t, arrivals[1..], ended);
      }
    }
  }

  lemma PollIsSound(c: Config, capacity: nat, s: State, ready: Ready)
    requires Collecting(c, capacity, s)
    ensures var (t, answer) := Poll(c, s, ready);
            match answer
            case Pending => Collecting(c, capacity, t)
            case Finished => false
            case Offers(offers) => t.returned && Complete(c, capacity, t.seen, offers)
  {
    AfterSize(capacity, s.seen);
    DrainIsSound(c, capacity, s, ready.arrivals, ready.ended);
  }

  lemma {:induction false} ReturnedStaysFinished(c: Config, s: State, polls: seq<Ready>)
    requires s.returned
    ensures var (t, answers) := Run(c, s, polls);
            t == s && |answers| == |polls| && forall i :: 0 <= i < |answers| ==> answers[i] == Finished
    decreases |polls|
  {
    if polls != [] {
      ReturnedStaysFinished(c, s, polls[1..]);
    }
  }

  /**
   A run answers with a result at most once: pending before, finished after. The
   result selects from everything seen, leaving no peer out.
   */
  lemma {:induction false} RunIsSound(c: Config, capacity: nat, s: State, polls: seq<Ready>, i: nat)
    requires Collecting(c, capacity, s) && i < |polls|
    ensures var (t, answers) := Run(c, s, polls);
            && |answers| == |polls|
            && (answers[i].Offers? ==>
                  && Complete(c, capacity, t.seen, answers[i].offers)
                  && (forall j :: 0 <= j < i ==> answers[j] == Pending)
                  && (forall j :: i < j < |answers| ==> answers[j] == Finished))
    decreases |polls|
  {
    var (t, answer) := Poll(c, s, polls[0]);
    var (u, answers) := Run(c, t, polls[1..]);
    PollIsSound(c, capacity, s, polls[0]);
    if t.returned {
      ReturnedStaysFinished(c, t, polls[1..]);
    } else if polls[1..] != [] {
      RunIsSound(c, capacity, t, polls[1..], if i > 0 then i - 1 else 0);
    }
  }

  lemma ChosenAt(capacity: nat, seen: seq<Candidate>, i: nat)
    requires 0 < capacity && i < |After(capacity, seen)|
    ensures var x := After(capacity, seen)[i];
            Best(seen, x.peer) == Some(x) && x.peer in Peers(seen) && x in seen
  {
    AfterSelects(capacity, seen);
    var x := After(capacity, seen)[i];
    assert x in After(capacity, seen);
    BestIsLeast(seen, x.peer);
  }

  lemma ChosenCover(capacity: nat, seen: seq<Candidate>, p: PeerId)
    requires 0 < capacity && |Peers(seen)| <= capacity && p in Peers(seen)
    ensures exists i :: 0 <= i < |After(capacity, seen)| && After(capacity, seen)[i].peer == p
  {
    var chosen := After(capacity, seen);
    AfterSelects(capacity, seen);
    AfterSize(capacity, seen);
    DistinctCount(chosen);
    forall q | q in Peers(chosen) ensures q in Peers(seen) {
      var x :| x in chosen && x.peer == q;
      BestIsLeast(seen, q);
    }
    Cardinality(Peers(chosen), Peers(seen));
    var x :| x in chosen && x.peer == p;
  }

  /**
   What a complete result means: in order of score, one offer for every acceptable
   peer seen and for no other, each the best its peer made, none above the limit.
   */
  lemma CompleteMeans(c: Config, capacity: nat, seen: seq<Candidate>, offers: seq<(PeerId, Offer)>)
    requires 0 < capacity && Complete(c, capacity, seen, offers)
    ensures forall p :: p in Peers(seen) ==> exists i :: 0 <= i < |offers| && offers[i].0 == p
    ensures forall i, j :: 0 <= i < j < |offers| ==>
                             && offers[i].0 != offers[j].0
                             && Best(seen, offers[i].0).Some? && Best(seen, offers[j].0).Some?
                             && Best(seen, offers[i].0).value.score <= Best(seen, offers[j].0).value.score
    ensures forall i :: 0 <= i < |offers| ==>
                          && offers[i].0 in Peers(seen)
                          && Best(seen, offers[i].0).Some? && Best(seen, offers[i].0).value.offer == offers[i].1
                          && offers[i].1.price <= c.upperPrice
  {
    var chosen := After(capacity, seen);
    forall i | 0 <= i < |chosen| ensures Best(seen, chosen[i].peer) == Some(chosen[i]) && chosen[i] in seen {
      ChosenAt(capacity, seen, i);
    }
    forall p | p in Peers(seen) ensures exists i :: 0 <= i < |offers| && offers[i].0 == p {
      ChosenCover(capacity, seen, p);
      var i :| 0 <= i < |chosen| && chosen[i].peer == p;
      assert offers[i].0 == p;
    }
    forall i, j | 0 <= i < j < |chosen| ensures chosen[i].peer != chosen[j].peer && chosen[i].score <= chosen[j].score {
      AfterSelects(capacity, seen);
      DistinctAt(chosen, i, j);
      assert LowerScore(chosen[i], chosen[j]);
    }
  }

  lemma DistinctAt(offers: seq<Candidate>, i: nat, j: nat)
    requires Distinct(offers) && i < j < |offers|
    ensures offers[i].peer != offers[j].peer
  {
    assert offers == offers[..i] + [offers[i]] + offers[i + 1..];
    assert offers[j] == offers[i + 1..][j - i - 1];
    assert offers[i] in offers && offers[j] in offers;
    assert multiset(offers)[offers[j]] ==
           multiset(offers[..i])[offers[j]] + multiset([offers[i]])[offers[j]] + multiset(offers[i + 1..])[offers[j]];
  }

  // ----- When it answers -----

  lemma ReceiveSeen(c: Config, s: State, a: Arrival)
    ensures Receive(c, s, a).0.seen == s.seen + Noted(c, a)
  {
  }

  /** What a poll consumes: everything while pending, some prefix in any case. */
  lemma {:induction false} DrainSeen(c: Config, s: State, arrivals: seq<Arrival>)
    ensures var (t, answer) := Drain(c, s, arrivals, false);
            && t.seen <= s.seen + Acceptable(c, arrivals)
            && (answer.Pending? ==> t.seen == s.seen + Acceptable(c, arrivals))
    decreases |arrivals|
  {
    if arrivals == [] {
      assert s.seen + [] == s.seen;
    } else {
      var a, rest := arrivals[0], Acceptable(c, arrivals[1..]);
      var (t, changed) := Receive(c, s, a);
      ReceiveSeen(c, s, a);
      assert s.seen + (Noted(c, a) + rest) == t.seen + rest;
      DrainSeen(c, t, arrivals[1..]);
    }
  }

  /** It answers only when the offer just handled completed the list. */
  lemma {:induction false} DrainStops(c: Config, capacity: nat, s: State, arrivals: seq<Arrival>)
    requires Collecting(c, capacity, s)
    ensures var (t, answer) := Drain(c, s, arrivals, false);
            answer.Offers? ==>
              |answer.offers| == capacity && t.seen != [] && |Peers(t.seen[..|t.seen| - 1])| < capacity
    decreases |arrivals|
  {
    if arrivals != [] {
      var (t, changed) := Receive(c, s, arrivals[0]);
      ReceiveCollects(c, capacity, s, arrivals[0]);
      if changed && |t.offers| >= t.capacity {
        AfterSize(capacity, s.seen);
        assert t.seen[..|t.seen| - 1] == s.seen;
      } else {
        DrainStops(c, capacity, t, arrivals[1..]);
      }
    }
  }

  lemma MorePeers(seen: seq<Candidate>, all: seq<Candidate>)
    requires seen <= all
    ensures |Peers(seen)| <= |Peers(all)|
  {
    assert forall x :: x in seen ==> x in all;
    Cardinality(Peers(seen), Peers(all));
  }

  /**
   While neither deadline nor end intervenes, a poll answers if and only if the
   offers seen reach the desired number of acceptable peers; it then stops at the
   offer that brought the last of them, and the result has one entry for each.
   */
  lemma AnswersAtTheLastPeer(c: Config, capacity: nat, s: State, arrivals: seq<Arrival>)
    requires Collecting(c, capacity, s)
    ensures var (t, answer) := Drain(c, s, arrivals, false);
            var all := s.seen + Acceptable(c, arrivals);
            && (answer.Offers? <==> |Peers(all)| >= capacity)
            && (answer.Offers? ==>
                  && t.seen <= all && |answer.offers| == |Peers(t.seen)| == capacity
                  && t.seen != [] && |Peers(t.seen[..|t.seen| - 1])| < capacity)
  {
    var (t, answer) := Drain(c, s, arrivals, false);
    DrainIsSound(c, capacity, s, arrivals, false);
    DrainSeen(c, s, arrivals);
    DrainStops(c, capacity, s, arrivals);
    if answer.Offers? {
      MorePeers(t.seen, s.seen + Acceptable(c, arrivals));
    } else {
      AfterSize(capacity, t.seen);
    }
  }

  // ----- When a whole run answers -----

  /** Everything that arrives over the polls, in order. */
  function Arrivals(polls: seq<Ready>): seq<Arrival> {
    if polls == [] then [] else polls[0].arrivals + Arrivals(polls[1..])
  }

  /** Neither the deadline nor the end of the stream nor a limit on offers intervenes in the poll. */
  predicate Calm(c: Config, s: State, ready: Ready) {
    (c.maxOffers.Some? ==> s.received < c.maxOffers.value) && ready.now < s.deadline && !ready.ended
  }

  /** Nor in any poll of a run until it has answered. */
  predicate Undisturbed(c: Config, s: State, polls: seq<Ready>)
    decreases |polls|
  {
    polls != [] && !s.returned ==> Calm(c, s, polls[0]) && Undisturbed(c, Poll(c, s, polls[0]).0, polls[1..])
  }

  lemma {:induction false} AcceptableAppend(c: Config, a: seq<Arrival>, b: seq<Arrival>)
    ensures Acceptable(c, a + b) == Acceptable(c, a) + Acceptable(c, b)
  {
    if a == [] {
      assert a + b == b && [] + Acceptable(c, b) == Acceptable(c, b);
    } else {
      AcceptableAppend(c, a[1..], b);
      assert (a + b)[1..] == a[1..] + b;
      AppendAssociates(Noted(c, a[0]), Acceptable(c, a[1..]), Acceptable(c, b));
    }
  }

  /** `seen` is the shortest prefix of `all` with that many peers. */
  ghost predicate ShortestWith(capacity: nat, seen: seq<Candidate>, all: seq<Candidate>) {
    && seen <= all && |Peers(seen)| == capacity
    && forall k :: 0 <= k < |seen| ==> |Peers(all[..k])| < capacity
  }

  lemma LastPeerIsShortest(capacity: nat, seen: seq<Candidate>, all: seq<Candidate>)
    requires seen <= all && |Peers(seen)| == capacity && seen != [] && |Peers(seen[..|seen| - 1])| < capacity
    ensures ShortestWith(capacity, seen, all)
  {
    forall k | 0 <= k < |seen| ensures |Peers(all[..k])| < capacity {
      assert all[..k] <= seen[..|seen| - 1];
      MorePeers(all[..k], seen[..|seen| - 1]);
    }
  }

  /** One undisturbed poll: it keeps collecting all that arrives, or answers at the last peer desired. */
  lemma UndisturbedPoll(c: Config, capacity: nat, s: State, ready: Ready)
    requires Collecting(c, capacity, s) && Calm(c, s, ready)
    ensures var (t, answer) := Poll(c, s, ready);
            var all := s.seen + Acceptable(c, ready.arrivals);
            && (t.returned <==> |Peers(all)| >= capacity)
            && (!t.returned ==> answer == Pending && Collecting(c, capacity, t) && t.seen == all)
            && (t.returned ==> answer == Offers(Unpack(After(capacity, t.seen))) && ShortestWith(capacity, t.seen, all))
  {
    var (t, answer) := Poll(c, s, ready);
    assert (t, answer) == Drain(c, s, ready.arrivals, false);
    DrainIsSound(c, capacity, s, ready.arrivals, false);
    DrainSeen(c, s, ready.arrivals);
    AnswersAtTheLastPeer(c, capacity, s, ready.arrivals);
    if answer.Offers? {
      LastPeerIsShortest(capacity, t.seen, s.seen + Acceptable(c, ready.arrivals));
    }
  }

  /**
   Over any undisturbed run the aggregator answers if and only if the acceptable
   offers of all polls reach the desired number of peers. It then has seen the
   shortest part of them with that many peers, and answered the selection of it.
   */
  lemma {:induction false} RunAnswersAtTheLastPeer(c: Config, capacity: nat, s: State, polls: seq<Ready>)
    requires Collecting(c, capacity, s) && Undisturbed(c, s, polls)
    ensures var (t, answers) := Run(c, s, polls);
            var all := s.seen + Acceptable(c, Arrivals(polls));
            && (t.returned <==> |Peers(all)| >= capacity)
            && (t.returned ==>
                  ShortestWith(capacity, t.seen, all) && Offers(Unpack(After(capacity, t.seen))) in answers)
            && (!t.returned ==> t.seen == all && forall i :: 0 <= i < |answers| ==> answers[i] == Pending)
    decreases |polls|
  {
    if polls == [] {
      AppendNothing(s.seen);
      AfterSize(capacity, s.seen);
    } else {
      var (t, answer) := Poll(c, s, polls[0]);
      UndisturbedPoll(c, capacity, s, polls[0]);
      AcceptableAppend(c, polls[0].arrivals, Arrivals(polls[1..]));
      AppendAssociates(s.seen, Acceptable(c, polls[0].arrivals), Acceptable(c, Arrivals(polls[1..])));
      if t.returned {
        AnsweredAtOnce(c, capacity, s, polls);
      } else {
        RunAnswersAtTheLastPeer(c, capacity, t, polls[1..]);
        PendingFirst(c, s, polls);
      }
    }
  }

  /** A pending poll goes in front of what the rest of the run answers. */
  lemma PendingFirst(c: Config, s: State, polls: seq<Ready>)
    requires polls != [] && Poll(c, s, polls[0]).1 == Pending
    ensures var t := Poll(c, s, polls[0]).0;
      && Run(c, s, polls).0 == Run(c, t, polls[1..]).0
      && (forall x :: x in Run(c, t, polls[1..]).1 ==> x in Run(c, s, polls).1)
      && ((forall i :: 0 <= i < |Run(c, t, polls[1..]).1| ==> Run(c, t, polls[1..]).1[i] == Pending) ==>
          forall i :: 0 <= i < |Run(c, s, polls).1| ==> Run(c, s, polls).1[i] == Pending)
  {
    var answers := Run(c, Poll(c, s, polls[0]).0, polls[1..]).1;
    assert Run(c, s, polls).1 == [Pending] + answers;
  }

  lemma AnsweredAtOnce(c: Config, capacity: nat, s: State, polls: seq<Ready>)
    requires Collecting(c, capacity, s) && polls != [] && Calm(c, s, polls[0]) && Poll(c, s, polls[0]).0.returned
    ensures var (t, answers) := Run(c, s, polls);
            var all := s.seen + Acceptable(c, polls[0].arrivals) + Acceptable(c, Arrivals(polls[1..]));
            && t.returned && |Peers(all)| >= capacity
            && ShortestWith(capacity, t.seen, all) && Offers(Unpack(After(capacity, t.seen))) in answers
  {
    var (t, answer) := Poll(c, s, polls[0]);
    UndisturbedPoll(c, capacity, s, polls[0]);
    ReturnedStaysFinished(c, t, polls[1..]);
    ShortestInLonger(capacity, t.seen, s.seen + Acceptable(c, polls[0].arrivals), Acceptable(c, Arrivals(polls[1..])));
    assert Run(c, s, polls).1[0] == answer;
  }

  /** An aggregator that is asked for no offers waits as long as it is undisturbed, whatever arrives. */
  lemma {:induction false} NothingDesiredWaits(c: Config, s: State, polls: seq<Ready>)
    requires s.capacity == 0 && s.offers == [] && !s.returned && Undisturbed(c, s, polls)
    ensures var (t, answers) := Run(c, s, polls);
            !t.returned && forall i :: 0 <= i < |answers| ==> answers[i] == Pending
    decreases |polls|
  {
    if polls != [] {
      DrainNothing(c, s, polls[0].arrivals);
      NothingDesiredWaits(c, Poll(c, s, polls[0]).0, polls[1..]);
    }
  }

  lemma {:induction false} DrainNothing(c: Config, s: State, arrivals: seq<Arrival>)
    requires s.capacity == 0 && s.offers == [] && !s.returned
    ensures var (t, answer) := Drain(c, s, arrivals, false);
            answer == Pending && t.capacity == 0 && t.offers == [] && !t.returned
    decreases |arrivals|
  {
    if arrivals != [] {
      DrainNothing(c, Receive(c, s, arrivals[0]).0, arrivals[1..]);
    }
  }

  lemma ShortestInLonger(capacity: nat, seen: seq<Candidate>, all: seq<Candidate>, later: seq<Candidate>)
    requires ShortestWith(capacity, seen, all)
    ensures ShortestWith(capacity, seen, all + later) && |Peers(all + later)| >= capacity
  {
    MorePeers(seen, all + later);
    assert forall k :: 0 <= k < |seen| ==> (all + later)[..k] == all[..k];
  }

  // ----- The deadline over whole runs -----

  /** Until it answers, the deadline is the one computed when the list last changed. */
  predicate DeadlineTracked(c: Config, s: State) {
    !s.returned ==>
      match s.reset
      case None => s.offers == [] && s.deadline == c.hardDeadline
      case Some((wall, instant)) => s.deadline == Deadline(c.hardDeadline, s.offers, wall, instant)
  }

  lemma {:induction false} DrainKeepsDeadline(c: Config, s: State, arrivals: seq<Arrival>, ended: bool)
    requires DeadlineTracked(c, s)
    ensures DeadlineTracked(c, Drain(c, s, arrivals, ended).0)
    decreases |arrivals|
  {
    if arrivals != [] {
      var (t, changed) := Receive(c, s, arrivals[0]);
      if !(changed && |t.offers| >= t.capacity) {
        DrainKeepsDeadline(c, t, arrivals[1..], ended);
      }
    }
  }

  lemma {:induction false} RunKeepsDeadline(c: Config, s: State, polls: seq<Ready>)
    requires DeadlineTracked(c, s)
    ensures DeadlineTracked(c, Run(c, s, polls).0)
    decreases |polls|
  {
    if polls != [] {
      DrainKeepsDeadline(c, s, polls[0].arrivals, polls[0].ended);
      RunKeepsDeadline(c, Poll(c, s, polls[0]).0, polls[1..]);
    }
  }

  /**
   While an aggregator has not answered, its deadline never passes the hard deadline, nor
   comes later than the buffer before the expiry of any candidate that was unexpired when
   the list last changed, unless it came at once then; it is as late as these allow; and a
   poll that comes at the deadline hands the candidates out.
   */
  lemma DeadlineNeverPasses(c: Config, desired: nat, diversity: bool, polls: seq<Ready>, ready: Ready)
    ensures var (t, _) := Run(c, Init(desired, diversity, c.hardDeadline), polls);
            !t.returned ==>
              && t.deadline <= c.hardDeadline
              && (t.reset.None? ==> t.offers == [] && t.deadline == c.hardDeadline)
              && (t.reset.Some? ==>
                    var (wall, instant) := t.reset.value;
                    && (forall x :: x in t.offers && wall <= x.offer.timeout ==>
                          t.deadline <= instant || t.deadline + wall + EXPIRY_BUFFER <= instant + x.offer.timeout)
                    && (t.deadline == c.hardDeadline
                        || exists x :: x in t.offers && SetsDeadline(t.deadline, x, wall, instant)))
              && (t.deadline <= ready.now ==>
                    Poll(c, t, ready).0.returned && Poll(c, t, ready).1 == Offers(Unpack(t.offers)))
  {
    var (t, _) := Run(c, Init(desired, diversity, c.hardDeadline), polls);
    RunKeepsDeadline(c, Init(desired, diversity, c.hardDeadline), polls);
    if !t.returned && t.reset.Some? {
      var (wall, instant) := t.reset.value;
      DeadlineIsEarliest(c.hardDeadline, t.offers, wall, instant);
      assert forall x :: x in t.offers && wall <= x.offer.timeout ==> LeavesBuffer(t.deadline, x, wall, instant);
    }
  }

  /** A poll at the hard deadline or later finds or leaves the aggregator answered. */
  lemma AnsweredByHardDeadline(c: Config, desired: nat, diversity: bool, polls: seq<Ready>, ready: Ready)
    requires c.hardDeadline <= ready.now
    ensures Poll(c, Run(c, Init(desired, diversity, c.hardDeadline), polls).0, ready).0.returned
  {
    DeadlineNeverPasses(c, desired, diversity, polls, ready);
  }

  // ----- What is accepted, counted and answered in any run -----

  /** The acceptable candidates are the offers priced at or below the limit, under their scores. */
  lemma {:induction false} AcceptableExactly(c: Config, arrivals: seq<Arrival>, x: Candidate)
    ensures x in Acceptable(c, arrivals) <==>
      exists a :: a in arrivals && a.offer.price <= c.upperPrice
                  && x == Candidate(a.peer, a.offer, Score(c.weights, a.offer.price, a.offer.resources))
  {
    if arrivals != [] {
      AcceptableExactly(c, arrivals[1..], x);
      assert arrivals == [arrivals[0]] + arrivals[1..];
      assert forall a :: a in arrivals <==> a == arrivals[0] || a in arrivals[1..];
    }
  }

  // ----- The limit on offers -----

  lemma {:induction false} DrainCounts(c: Config, s: State, arrivals: seq<Arrival>, ended: bool)
    requires !s.returned
    ensures var (t, answer) := Drain(c, s, arrivals, ended);
            && (answer == Pending ==> t.received == s.received + |arrivals|)
            && ((forall a :: a in arrivals ==> a.offer.price > c.upperPrice) && !ended ==> answer == Pending)
    decreases |arrivals|
  {
    if arrivals != [] {
      DrainCounts(c, Receive(c, s, arrivals[0]).0, arrivals[1..], ended);
    }
  }

  /** A poll that does not answer goes over the limit exactly if more arrives than the limit has left. */
  lemma LimitHoldsExactly(c: Config, s: State, ready: Ready)
    requires !s.returned && c.maxOffers.Some? && Poll(c, s, ready).1 == Pending
    ensures Poll(c, s, ready).0.received <= c.maxOffers.value <==> |ready.arrivals| <= c.maxOffers.value - s.received
  {
    DrainCounts(c, s, ready.arrivals, ready.ended);
  }

  /** The limit is looked at before a poll takes its first offer, and not after: enough overpriced offers pass it. */
  lemma OnePollPassesLimit(c: Config, s: State, ready: Ready)
    requires !s.returned && c.maxOffers.Some? && s.received < c.maxOffers.value
    requires ready.now < s.deadline && !ready.ended
    requires |ready.arrivals| > c.maxOffers.value - s.received
    requires forall a :: a in ready.arrivals ==> a.offer.price > c.upperPrice
    ensures Poll(c, s, ready).1 == Pending && Poll(c, s, ready).0.received > c.maxOffers.value
  {
    DrainCounts(c, s, ready.arrivals, ready.ended);
  }

  // ----- What is selected -----

  /** What a list of either kind keeps of the offers seen. */
  function Selection(diversity: bool, capacity: nat, seen: seq<Candidate>): seq<Candidate> {
    if diversity then After(capacity, seen) else PlainAfter(capacity, seen).0
  }

  lemma SelectionSnoc(diversity: bool, capacity: nat, seen: seq<Candidate>, x: Candidate)
    ensures Selection(diversity, capacity, seen + [x]) ==
            match Insertion(Selection(diversity, capacity, seen), capacity, diversity, x)
            case Ok(after) => after
            case Err(_) => Selection(diversity, capacity, seen)
  {
    assert (seen + [x])[..|seen|] == seen;
  }

  /** Until it answers, an aggregator holds the selection of what it saw, all under their scores. */
  ghost predicate Selecting(c: Config, diversity: bool, capacity: nat, s: State) {
    && Scored(c, s.seen)
    && (!s.returned ==>
          s.diversity == diversity && s.capacity == capacity && s.offers == Selection(diversity, capacity, s.seen))
  }

  ghost predicate Scored(c: Config, seen: seq<Candidate>) {
    forall x :: x in seen ==> x.score == Score(c.weights, x.offer.price, x.offer.resources)
  }

  lemma ReceiveKeepsSelecting(c: Config, diversity: bool, capacity: nat, s: State, a: Arrival)
    requires Selecting(c, diversity, capacity, s) && !s.returned
    ensures var (t, changed) := Receive(c, s, a);
            && Selecting(c, diversity, capacity, t) && !t.returned && t.received == s.received + 1
            && (!changed ==> t.offers == s.offers)
  {
    SelectionSnoc(diversity, capacity, s.seen, ToCandidate(c, a));
  }

  lemma {:induction false} DrainSelects(c: Config, diversity: bool, capacity: nat, s: State,
                                        arrivals: seq<Arrival>, ended: bool)
    requires Selecting(c, diversity, capacity, s) && !s.returned
    ensures var (t, answer) := Drain(c, s, arrivals, ended);
            && Selecting(c, diversity, capacity, t)
            && (t.returned <==> answer.Offers?)
            && (answer.Offers? ==> answer.offers == Unpack(Selection(diversity, capacity, t.seen)))
            && (!answer.Offers? ==> answer == Pending && !ended && t.received == s.received + |arrivals|)
    decreases |arrivals|
  {
    if arrivals != [] {
      ReceiveKeepsSelecting(c, diversity, capacity, s, arrivals[0]);
      var (t, changed) := Receive(c, s, arrivals[0]);
      if !(changed && |t.offers| >= t.capacity) {
        DrainSelects(c, diversity, capacity, t, arrivals[1..], ended);
      }
    }
  }

  /** One poll of an aggregator that has not answered. */
  lemma PollSelects(c: Config, diversity: bool, capacity: nat, s: State, ready: Ready)
    requires Selecting(c, diversity, capacity, s) && !s.returned
    ensures var (t, answer) := Poll(c, s, ready);
            && Selecting(c, diversity, capacity, t)
            && (t.returned <==> answer.Offers?)
            && (answer.Offers? ==> answer.offers == Unpack(Selection(diversity, capacity, t.seen)))
            && (!answer.Offers? ==> answer == Pending && t.received == s.received + |ready.arrivals|)
            && (ready.ended || (c.maxOffers.Some? && s.received >= c.maxOffers.value) ==> answer.Offers?)
            && (c.maxOffers.Some? && s.received >= c.maxOffers.value ==> t.seen == s.seen)
  {
    DrainSelects(c, diversity, capacity, s, ready.arrivals, ready.ended);
  }

  lemma {:induction false} RunSelects(c: Config, diversity: bool, capacity: nat, s: State, polls: seq<Ready>)
    requires Selecting(c, diversity, capacity, s) && !s.returned
    ensures var (t, answers) := Run(c, s, polls);
            && Selecting(c, diversity, capacity, t)
            && (!t.returned ==> t.received == s.received + |Arrivals(polls)|)
            && forall i :: 0 <= i < |answers| && answers[i].Offers? ==>
                             answers[i].offers == Unpack(Selection(diversity, capacity, t.seen))
    decreases |polls|
  {
    if polls != [] {
      PollSelects(c, diversity, capacity, s, polls[0]);
      var (t, answer) := Poll(c, s, polls[0]);
      if t.returned {
        ReturnedStaysFinished(c, t, polls[1..]);
      } else {
        RunSelects(c, diversity, capacity, t, polls[1..]);
      }
    }
  }

  /**
   An aggregator of either kind, after any polls: what it answered is the selection of the
   offers seen. If it has not answered, the next poll does at the end of the stream, even
   with no candidate, and as soon as the offers received, those above the price limit
   included, reach the limit on their number; then it looks at no more of them.
   */
  lemma AnswersTheSelection(c: Config, desired: nat, diversity: bool, polls: seq<Ready>, ready: Ready)
    ensures var s := Init(desired, diversity, c.hardDeadline);
            var (t, answers) := Run(c, s, polls);
            && (forall i :: 0 <= i < |answers| && answers[i].Offers? ==>
                  answers[i].offers == Unpack(Selection(diversity, s.capacity, t.seen)))
            && (!t.returned ==>
                  var (u, answer) := Poll(c, t, ready);
                  && (answer.Offers? ==> answer.offers == Unpack(Selection(diversity, s.capacity, u.seen)))
                  && (ready.ended ==> answer.Offers?)
                  && (c.maxOffers.Some? && |Arrivals(polls)| >= c.maxOffers.value ==>
                        answer.Offers? && u.seen == t.seen))
  {
    var s := Init(desired, diversity, c.hardDeadline);
    RunSelects(c, diversity, s.capacity, s, polls);
    var (t, answers) := Run(c, s, polls);
    if !t.returned {
      PollSelects(c, diversity, s.capacity, t, ready);
    }
  }

  lemma SelectionIsSorted(diversity: bool, capacity: nat, seen: seq<Candidate>)
    requires 0 < capacity
    ensures Sorted(LowerScore, Selection(diversity, capacity, seen))
    ensures forall x :: x in Selection(diversity, capacity, seen) ==> x in seen
  {
    if diversity {
      AfterSelects(capacity, seen);
      var chosen := After(capacity, seen);
      forall x | x in chosen ensures x in seen {
        var i :| 0 <= i < |chosen| && chosen[i] == x;
        ChosenAt(capacity, seen, i);
      }
    } else {
      PlainListIsBest(capacity, seen);
      var (kept, dropped) := PlainAfter(capacity, seen);
      forall x | x in kept ensures x in seen {
        assert x in multiset(kept) + multiset(dropped);
      }
    }
  }

  /** Between offers of the same resources the lower price comes first, whatever the weights charge for. */
  lemma LowerPriceFirst(c: Config, desired: nat, diversity: bool, polls: seq<Ready>, i: nat, j: nat, k: nat)
    requires var (t, answers) := Run(c, Init(desired, diversity, c.hardDeadline), polls);
             && i < |answers| && answers[i].Offers? && j < k < |answers[i].offers|
             && answers[i].offers[j].1.resources == answers[i].offers[k].1.resources
             && Chargeable(c.weights, answers[i].offers[j].1.resources)
    ensures var answer := Run(c, Init(desired, diversity, c.hardDeadline), polls).1[i];
            answer.offers[j].1.price <= answer.offers[k].1.price
  {
    var s := Init(desired, diversity, c.hardDeadline);
    var (t, answers) := Run(c, s, polls);
    RunSelects(c, diversity, s.capacity, s, polls);
    SelectionIsSorted(diversity, s.capacity, t.seen);
    var selection := Selection(diversity, s.capacity, t.seen);
    var x, y := selection[j], selection[k];
    assert LowerScore(x, y) && x in selection && y in selection;
    HigherPriceScoresHigher(c.weights, x.offer.resources, y.offer.price, x.offer.price);
  }

  // ----- From the start -----

  /**
   A new aggregator for `desired` offers, polled any number of times: it answers at
   most once, every answer is complete, and undisturbed it answers exactly when
   enough distinct peers have made an acceptable offer.
   */
  lemma NewAggregatorAnswers(c: Config, desired: nat, polls: seq<Ready>)
    ensures var s := Init(desired, true, c.hardDeadline);
            var (t, answers) := Run(c, s, polls);
            var all := Acceptable(c, Arrivals(polls));
            && s.capacity == (if desired < 1 then 1 else desired)
            && |answers| == |polls|
            && (forall i, j :: 0 <= i < j < |answers| && answers[i].Offers? ==> answers[j] == Finished)
            && (forall i :: 0 <= i < |answers| && answers[i].Offers? ==>
                              Complete(c, s.capacity, t.seen, answers[i].offers))
            && (Undisturbed(c, s, polls) ==>
                  && (t.returned <==> |Peers(all)| >= s.capacity)
                  && (t.returned ==>
                        && ShortestWith(s.capacity, t.seen, all)
                        && Offers(Unpack(After(s.capacity, t.seen))) in answers))
  {
    var s := Init(desired, true, c.hardDeadline);
    var (t, answers) := Run(c, s, polls);
    InitCollects(c, desired);
    if polls != [] {
      RunIsSound(c, s.capacity, s, polls, 0);
    }
    forall i | 0 <= i < |answers| && answers[i].Offers?
      ensures Complete(c, s.capacity, t.seen, answers[i].offers)
      ensures forall j :: i < j < |answers| ==> answers[j] == Finished
    {
      RunIsSound(c, s.capacity, s, polls, i);
    }
    if Undisturbed(c, s, polls) {
      RunAnswersAtTheLastPeer(c, s.capacity, s, polls);
      var all := Acceptable(c, Arrivals(polls));
      assert [] + all == all;
    }
  }
}
