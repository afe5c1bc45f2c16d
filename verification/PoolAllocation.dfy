/**
 The pool together with the allocator it is given: each tick asks one fresh offer
 aggregator for exactly the workers that are missing.
 */
module PoolAllocation {
  import opened Common
  import opened Wrappers
  import opened HyphaLeases
  import opened Candidates
  import opened StableSort
  import A = OfferAggregator
  import P = Pool

  /** One worker for every offer, with the peer and the resources of the offer, in the order of the offers. */
  function Workers(offers: seq<(PeerId, Offer)>, joinedAt: nat -> Time): (workers: seq<P.Descriptor>)
    ensures |workers| == |offers|
    ensures forall i :: 0 <= i < |offers| ==>
                          workers[i] == P.Descriptor(offers[i].0, offers[i].1.resources, joinedAt(i))
  {
    seq(|offers|, i requires 0 <= i < |offers| => P.Descriptor(offers[i].0, offers[i].1.resources, joinedAt(i)))
  }

  /** What the allocator makes of the aggregator's answer. */
  function Allocate(answer: A.Answer, joinedAt: nat -> Time): P.Outcome {
    if answer.Offers? && answer.offers != [] then Ok(Workers(answer.offers, joinedAt)) else Err(P.NoOffersReceived)
  }

  /** The outcome is made of the i-th answer of a diverse aggregator that was asked for `needed` workers. */
  ghost predicate Yields(needed: nat, outcome: P.Outcome,
                         c: A.Config, polls: seq<A.Ready>, i: nat, joinedAt: nat -> Time)
  {
    && i < |A.Run(c, A.Init(needed, true, c.hardDeadline), polls).1|
    && outcome == Allocate(A.Run(c, A.Init(needed, true, c.hardDeadline), polls).1[i], joinedAt)
  }

  /** The outcome comes from some such aggregator. */
  ghost predicate AllocatedFor(needed: nat, outcome: P.Outcome) {
    exists c, polls, i: nat, joinedAt :: Yields(needed, outcome, c, polls, i, joinedAt)
  }

  predicate DistinctPeers(batch: seq<P.Descriptor>) {
    forall p :: p in P.Peers(batch) ==> P.Peers(batch)[p] == 1
  }

  /** An allocation has at most as many workers as asked for, of different peers. */
  lemma AllocationFits(needed: nat, outcome: P.Outcome)
    requires AllocatedFor(needed, outcome) && outcome.Ok? && needed > 0
    ensures 0 < |outcome.value| <= needed && DistinctPeers(outcome.value)
  {
    var c, polls, i: nat, joinedAt :| Yields(needed, outcome, c, polls, i, joinedAt);
    var s := A.Init(needed, true, c.hardDeadline);
    var (t, answers) := A.Run(c, s, polls);
    A.NewAggregatorAnswers(c, needed, polls);
    var offers := answers[i].offers;
    A.CompleteMeans(c, needed, t.seen, offers);
    DifferentPeers(outcome.value);
  }

  lemma DifferentPeers(batch: seq<P.Descriptor>)
    requires forall i, j :: 0 <= i < j < |batch| ==> batch[i].peer != batch[j].peer
    ensures DistinctPeers(batch)
  {
    if batch != [] {
      var d, rest := batch[0], batch[1..];
      DifferentPeers(rest);
      assert batch == [d] + rest;
      P.PeersCons(d, rest);
      assert forall i :: 0 <= i < |rest| ==> P.PeersOf(rest)[i] != d.peer;
    }
  }

  /** A successful allocation was made for the number of workers missing at its tick. */
  ghost predicate ForMissing(c: P.Config, s: P.State, e: P.Event) {
    e.Tick? && e.outcome.Ok? && |s.members| < c.target ==> AllocatedFor(c.target - |s.members|, e.outcome)
  }

  /** Every allocation of the run was. */
  ghost predicate AllocatorDriven(c: P.Config, s: P.State, events: seq<P.Event>)
    decreases |events|
  {
    events != [] ==>
      && ForMissing(c, s, events[0])
      && AllocatorDriven(c, P.Step(c, s, events[0]), events[1..])
  }

  /** No batch repeats a peer of a current member. */
  ghost predicate NewPeers(c: P.Config, s: P.State, events: seq<P.Event>)
    decreases |events|
  {
    events != [] ==>
      && (forall p :: p in P.Peers(P.Batch(c, s, events[0])) ==> p !in P.Peers(s.members))
      && NewPeers(c, P.Step(c, s, events[0]), events[1..])
  }

  lemma {:induction false} AllocatorIsModerate(c: P.Config, s: P.State, events: seq<P.Event>)
    requires AllocatorDriven(c, s, events)
    ensures P.Moderate(c, s, events)
    ensures P.FreshBatches(c, s, events) <==> NewPeers(c, s, events)
    decreases |events|
  {
    if events != [] {
      var batch := P.Batch(c, s, events[0]);
      if batch != [] {
        AllocationFits(c.target - |s.members|, events[0].outcome);
      } else {
        assert P.Peers(batch) == multiset{};
      }
      AllocatorIsModerate(c, P.Step(c, s, events[0]), events[1..]);
    }
  }

  /**
   With the repository's own allocator a new pool never exceeds its target, and its
   batches repeat no peer of their own, so that members and running handles
   correspond one to one as long as no batch brings back a current member's peer.
   */
  lemma PoolWithAllocator(c: P.Config, events: seq<P.Event>)
    requires P.Legal(c, P.INIT, events) && AllocatorDriven(c, P.INIT, events)
    ensures P.WithinTarget(c, P.INIT, events)
    ensures NewPeers(c, P.INIT, events) ==> P.Matched(P.Run(c, P.INIT, events))
  {
    AllocatorIsModerate(c, P.INIT, events);
    P.WithinTargetExactly(c, P.INIT, events);
    P.InitIsSound(c);
    if NewPeers(c, P.INIT, events) {
      P.HandlesMatchMembers(c, P.INIT, events);
    }
  }

  // ----- The allocator can bring back the peer of a member -----

  lemma SortOne(x: Candidate)
    ensures Sort(LowerScore, [x]) == [x]
  {
    assert Sort(LowerScore, [x][1..]) == [] && [x] + [] == [x];
  }

  /** An aggregator that receives one acceptable offer before the offers end answers with it. */
  lemma OneOfferAnswer(c: A.Config, desired: nat, a: A.Arrival)
    requires c.maxOffers.None? && c.hardDeadline > 0 && a.offer.price <= c.upperPrice
    ensures A.Poll(c, A.Init(desired, true, c.hardDeadline), A.Ready(0, [a], true)).1 == A.Offers([(a.peer, a.offer)])
  {
    var s, x := A.Init(desired, true, c.hardDeadline), A.ToCandidate(c, a);
    var (t, changed) := A.Receive(c, s, a);
    assert Position([], a.peer) == None && [] + [x] == [x];
    SortOne(x);
    assert changed && t.offers == [x];
    assert A.Drain(c, t, [a][1..], true) == A.Take(t);
    assert A.Unpack([x]) == [(a.peer, a.offer)];
  }

  /** So any single worker is an allocation for any number. */
  lemma OneOfferAllocation(needed: nat, d: P.Descriptor)
    requires needed > 0
    ensures AllocatedFor(needed, Ok([d]))
  {
    var offer := Offer(0, 0.0, d.resources, 0);
    var c := A.Config(None, 1, 0.0, HyphaResources.DEFAULT_WEIGHTS);
    var ready := A.Ready(0, [A.Arrival(d.peer, offer, 0, 0)], true);
    OneOfferAnswer(c, needed, ready.arrivals[0]);
    var answers := A.Run(c, A.Init(needed, true, c.hardDeadline), [ready]).1;
    assert answers[0] == A.Offers([(d.peer, offer)]);
    var joinedAt := (i: nat) => d.joinedAt;
    assert Workers([(d.peer, offer)], joinedAt) == [d];
    assert Yields(needed, Ok([d]), c, [ready], 0, joinedAt);
  }

  lemma DrivenCons(c: P.Config, s: P.State, e: P.Event, rest: seq<P.Event>)
    ensures AllocatorDriven(c, s, [e] + rest) <==>
      ForMissing(c, s, e) && AllocatorDriven(c, P.Step(c, s, e), rest)
  {
    assert ([e] + rest)[1..] == rest;
  }

  /**
   The repository's own allocator can cause the loss: asked twice, it may answer with
   the same peer each time, and the first exit then leaves a running handle and no member.
   */
  lemma AllocatorRepeatsPeer(c: P.Config, a: P.Descriptor, b: P.Descriptor, now: Time)
    requires c.target >= 2 && (c.min <= 1 || c.grace > 0) && a.peer == b.peer
    ensures var events := [P.Tick(now, Ok([a])), P.Tick(now, Ok([b])), P.Exit(a.peer)];
            && P.Legal(c, P.INIT, events) && AllocatorDriven(c, P.INIT, events)
            && P.Run(c, P.INIT, events).members == [] && P.Run(c, P.INIT, events).watchers == multiset{a.peer}
  {
    P.RepeatedPeerRun(c, a, b, now);
    P.AdmitsTwo(c, a, b, now);
    MissingOne(c, P.INIT, a, now, 0);
    MissingOne(c, P.Step(c, P.INIT, P.Tick(now, Ok([a]))), b, now, 1);
    DrivenThree(c, P.INIT, P.Tick(now, Ok([a])), P.Tick(now, Ok([b])), P.Exit(a.peer));
  }

  lemma MissingOne(c: P.Config, s: P.State, d: P.Descriptor, now: Time, n: nat)
    requires |s.members| == n < c.target
    ensures ForMissing(c, s, P.Tick(now, Ok([d])))
  {
    OneOfferAllocation(c.target - n, d);
  }

  lemma DrivenThree(c: P.Config, s: P.State, e1: P.Event, e2: P.Event, e3: P.Event)
    requires ForMissing(c, s, e1) && ForMissing(c, P.Step(c, s, e1), e2) && e3.Exit?
    ensures AllocatorDriven(c, s, [e1, e2, e3])
  {
    var s1 := P.Step(c, s, e1);
    DrivenCons(c, P.Step(c, s1, e2), e3, []);
    DrivenCons(c, s1, e2, [e3] + []);
    DrivenCons(c, s, e1, [e2] + ([e3] + []));
    P.AsConcatenation(e1, e2, e3);
  }
}
