/**
 The worker's arbiter on one batch of requests: filter, score, sort, and grant
 leases greedily. No lease is released while a batch is processed.
 */
module Arbiter {
  import opened Common
  import opened Wrappers
  import opened StableSort
  import opened Scoring
  import opened HyphaResources
  import opened WorkerResources
  import opened HyphaLeases
  import opened LeaseManager

  type Executor = nat

  datatype OfferStrategy = Flexible | Whole

  datatype Request = Request(id: Id, executors: seq<Executor>, resources: Resources, bid: real)

  datatype Scored = Scored(score: real, peer: PeerId, request: Request)

  datatype Offer = Offer(peer: PeerId, id: Id, requestId: Id, price: real, resources: Resources, timeout: Time)

  /** What the worker is and how it offers itself. */
  datatype Config = Config(
    supported: set<Executor>, worker: Resources, strategy: OfferStrategy, price: real, floor: real, weights: Weights)

  predicate Eligible(c: Config, request: Request) {
    && (forall e :: e in request.executors ==> e in c.supported)
    && !(request.bid < c.floor)
    && !Gt(request.resources, c.worker)
  }

  function ToScored(c: Config, peer: PeerId, request: Request): Scored {
    Scored(Score(c.weights, request.bid, request.resources), peer, request)
  }

  /** The eligible requests of the batch, in arrival order. */
  function Eligibles(c: Config, batch: seq<(PeerId, Request)>): seq<Scored> {
    if batch == [] then []
    else if Eligible(c, batch[0].1) then [ToScored(c, batch[0].0, batch[0].1)] + Eligibles(c, batch[1..])
    else Eligibles(c, batch[1..])
  }

  predicate HigherScore(a: Scored, b: Scored) {
    -a.score <= -b.score
  }

  function Ranked(c: Config, batch: seq<(PeerId, Request)>): seq<Scored> {
    Sort(HigherScore, Eligibles(c, batch))
  }

  function OfferedResources(c: Config, request: Request): Resources {
    if c.strategy == Whole then c.worker else request.resources
  }

  function OfferedPrice(c: Config, request: Request): real {
    if c.strategy == Whole && c.price > request.bid then c.price else request.bid
  }

  // ----- The greedy specification -----

  /** In order, takes everything that still fits. */
  function Greedy(c: Config, available: Resources, ranked: seq<Scored>): seq<Scored>
    decreases |ranked|
  {
    if ranked == [] then []
    else
      var wanted := OfferedResources(c, ranked[0].request);
      if AtMost(wanted, available)
      then [ranked[0]] + Greedy(c, available.Sub(wanted), ranked[1..])
      else Greedy(c, available, ranked[1..])
  }

  function OfferFor(c: Config, granted: Scored, id: Id, now: Time): Offer {
    Offer(granted.peer, id, granted.request.id, OfferedPrice(c, granted.request),
          OfferedResources(c, granted.request), now + OFFER_TIMEOUT)
  }

  /** The next fresh identifiers, and what the clock reads as each lease is made. */
  datatype Draw = Draw(reservation: Id, lease: Id, clock: Id -> Time) {
    function Next(): Draw { Draw(reservation + 1, lease + 1, clock) }

    function Now(): Time { clock(lease) }
  }

  /** The tables and the offers made so far while a batch is granted. */
  datatype Progress = Progress(reservations: map<Id, Resources>, leases: Leases, offers: seq<Offer>, draw: Draw)

  function LeaseFor(granted: Scored, draw: Draw): Lease<ResourceLease> {
    Lease(draw.lease, ResourceLease(granted.peer, draw.reservation), draw.Now() + OFFER_TIMEOUT)
  }

  function Grant(c: Config, p: Progress, granted: Scored): Progress {
    Progress(p.reservations[p.draw.reservation := OfferedResources(c, granted.request)],
             p.leases[p.draw.lease := LeaseFor(granted, p.draw)],
             p.offers + [OfferFor(c, granted, p.draw.lease, p.draw.Now())],
             p.draw.Next())
  }

  ghost function GrantIfFits(c: Config, capacity: Resources, p: Progress, s: Scored): Progress {
    if AtMost(OfferedResources(c, s.request), Available(capacity, p.reservations)) then Grant(c, p, s) else p
  }

  ghost function GrantEach(c: Config, capacity: Resources, p: Progress, ranked: seq<Scored>): Progress
    decreases |ranked|
  {
    if ranked == [] then p else GrantEach(c, capacity, GrantIfFits(c, capacity, p, ranked[0]), ranked[1..])
  }

  function GrantAll(c: Config, p: Progress, grants: seq<Scored>): Progress
    decreases |grants|
  {
    if grants == [] then p else GrantAll(c, Grant(c, p, grants[0]), grants[1..])
  }

  ghost predicate Fresh(p: Progress) {
    && (forall r :: r in p.reservations ==> r < p.draw.reservation)
    && (forall id :: id in p.leases ==> id < p.draw.lease)
  }

  /** Requesting a lease for each in turn grants exactly the greedy selection. */
  lemma {:induction false} GrantEachIsGreedy(c: Config, capacity: Resources, p: Progress, ranked: seq<Scored>)
    requires Fresh(p)
    ensures GrantEach(c, capacity, p, ranked)
            == GrantAll(c, p, Greedy(c, Available(capacity, p.reservations), ranked))
    decreases |ranked|
  {
    if ranked != [] {
      var wanted := OfferedResources(c, ranked[0].request);
      if AtMost(wanted, Available(capacity, p.reservations)) {
        TotalInsert(p.reservations, p.draw.reservation, wanted);
        GrantEachIsGreedy(c, capacity, Grant(c, p, ranked[0]), ranked[1..]);
      } else {
        GrantEachIsGreedy(c, capacity, p, ranked[1..]);
      }
    }
  }

  /** Granting adds one reservation and one lease each, under the identifiers drawn, and keeps the rest. */
  lemma {:induction false} GrantAllKeeps(c: Config, p: Progress, grants: seq<Scored>)
    requires Fresh(p)
    ensures var q, n := GrantAll(c, p, grants), |grants|;
            && (forall r :: r in q.reservations <==>
                              r in p.reservations || p.draw.reservation <= r < p.draw.reservation + n)
            && (forall r :: r in p.reservations ==> q.reservations[r] == p.reservations[r])
            && (forall id :: id in q.leases <==> id in p.leases || p.draw.lease <= id < p.draw.lease + n)
            && (forall id :: id in p.leases ==> q.leases[id] == p.leases[id])
            && |q.offers| == |p.offers| + n && p.offers <= q.offers
    decreases |grants|
  {
    if grants != [] {
      GrantAllKeeps(c, Grant(c, p, grants[0]), grants[1..]);
    }
  }

  /** The i-th grant becomes one reservation, one lease and one offer. */
  lemma {:induction false} GrantAllExactly(c: Config, p: Progress, grants: seq<Scored>, i: nat)
    requires Fresh(p) && i < |grants|
    ensures var q, d := GrantAll(c, p, grants), Draw(p.draw.reservation + i, p.draw.lease + i, p.draw.clock);
            && d.reservation in q.reservations && d.lease in q.leases && |p.offers| + i < |q.offers|
            && q.reservations[d.reservation] == (if c.strategy == Whole then c.worker else grants[i].request.resources)
            && q.leases[d.lease]
               == Lease(d.lease, ResourceLease(grants[i].peer, d.reservation), d.clock(d.lease) + OFFER_TIMEOUT)
            && q.offers[|p.offers| + i] == OfferFor(c, grants[i], d.lease, d.clock(d.lease))
    decreases |grants|
  {
    var next := Grant(c, p, grants[0]);
    if i > 0 {
      GrantAllExactly(c, next, grants[1..], i - 1);
    } else {
      GrantAllKeeps(c, next, grants[1..]);
    }
  }

  class Arbiter {
    const config: Config
    const manager: ResourceLeaseManager

    constructor (config: Config, manager: ResourceLeaseManager)
      ensures this.config == config && this.manager == manager
    {
      this.config := config;
      this.manager := manager;
    }

    /** The first loop and the sort: filter and score the batch, best first. */
    method RankRequests(batch: seq<(PeerId, Request)>) returns (scored: seq<Scored>)
      ensures scored == Ranked(config, batch)
    {
      scored := [];
      assert batch[0..] == batch && scored + Eligibles(config, batch) == Eligibles(config, batch);
      for i := 0 to |batch|
        invariant scored + Eligibles(config, batch[i..]) == Eligibles(config, batch)
      {
        var (peer, request) := batch[i];
        assert batch[i..][1..] == batch[i + 1..];
        if exists e :: e in request.executors && e !in config.supported {
          continue;
        }
        if request.bid < config.floor {
          continue;
        }
        if Gt(request.resources, config.worker) {
          continue;
        }
        var score := Score(config.weights, request.bid, request.resources);
        ghost var rest := Eligibles(config, batch[i + 1..]);
        assert scored + ([Scored(score, peer, request)] + rest) == scored + [Scored(score, peer, request)] + rest;
        scored := scored + [Scored(score, peer, request)];
      }
      assert scored == Eligibles(config, batch);
      scored := Sort(HigherScore, scored);
    }

    ghost function Tables(offers: seq<Offer>, draw: Draw): Progress
      reads manager.resourceManager, manager.ledger
    {
      Progress(manager.resourceManager.reservations, manager.ledger.leases, offers, draw)
    }

    /** The body of the second loop: request a lease for one request and offer it. */
    method GrantOne(scored: Scored, ghost offers: seq<Offer>, draw: Draw) returns (offer: Option<Offer>)
      requires manager.Valid() && Fresh(Tables(offers, draw))
      modifies manager.resourceManager, manager.ledger
      ensures manager.Valid()
      ensures var before := old(Tables(offers, draw));
              var after := GrantIfFits(config, manager.resourceManager.capacity, before, scored);
              && Fresh(after)
              && Tables(after.offers, after.draw) == after
              && (if offer.Some? then after.offers == offers + [offer.value] && after.draw == draw.Next()
                  else after == before)
    {
      var Scored(_, peer, request) := scored;
      var resources, price := request.resources, request.bid;
      if config.strategy == Whole {
        resources := config.worker;
        price := if config.price > request.bid then config.price else request.bid;
      }
      var lease := manager.Request(peer, resources, OFFER_TIMEOUT, draw.Now(), draw.reservation, draw.lease);
      offer := if lease.Ok? then Some(Offer(peer, lease.value.id, request.id, price, resources, lease.value.timeout))
               else None;
      if offer.None? {
        assert Tables(offers, draw) == old(Tables(offers, draw));
      } else {
        assert Tables(offers + [offer.value], draw.Next()) == Grant(config, old(Tables(offers, draw)), scored);
      }
    }

    method GrantRanked(scored: seq<Scored>, draw: Draw) returns (offers: seq<Offer>, ghost last: Draw)
      requires manager.Valid() && Fresh(Tables([], draw))
      modifies manager.resourceManager, manager.ledger
      ensures manager.Valid()
      ensures Tables(offers, last) == GrantEach(config, manager.resourceManager.capacity, old(Tables([], draw)), scored)
    {
      offers := [];
      var current := draw;
      ghost var capacity := manager.resourceManager.capacity;
      for i := 0 to |scored|
        invariant manager.Valid() && Fresh(Tables(offers, current))
        invariant GrantEach(config, capacity, Tables(offers, current), scored[i..])
                  == GrantEach(config, capacity, old(Tables([], draw)), scored)
      {
        assert scored[i..][1..] == scored[i + 1..];
        var offer := GrantOne(scored[i], offers, current);
        if offer.Some? {
          offers := offers + [offer.value];
          current := current.Next();
        }
      }
      last := current;
    }

    /** A batch is granted greedily, best score first. */
    method ProcessRequests(batch: seq<(PeerId, Request)>, draw: Draw) returns (offers: seq<Offer>)
      requires manager.Valid() && Fresh(Tables([], draw))
      modifies manager.resourceManager, manager.ledger
      ensures manager.Valid()
      ensures var available := Available(manager.resourceManager.capacity, old(manager.resourceManager.reservations));
              var result := GrantAll(config, old(Tables([], draw)), Greedy(config, available, Ranked(config, batch)));
              && offers == result.offers
              && manager.ledger.leases == result.leases
              && manager.resourceManager.reservations == result.reservations
    {
      var scored := RankRequests(batch);
      GrantEachIsGreedy(config, manager.resourceManager.capacity, Tables([], draw), scored);
      ghost var last;
      offers, last := GrantRanked(scored, draw);
    }
  }

  // ----- What the greedy order means -----

  lemma TotalPreorderByScore()
    ensures TotalPreorder(HigherScore)
  {
  }

  /** Best scores first; requests of equal score keep their arrival order; nothing eligible is lost or added. */
  lemma RankedOrder(c: Config, batch: seq<(PeerId, Request)>, score: real)
    ensures var ranked, same := Ranked(c, batch), (s: Scored) => s.score == score;
            && (forall i, j :: 0 <= i < j < |ranked| ==> ranked[i].score >= ranked[j].score)
            && multiset(ranked) == multiset(Eligibles(c, batch))
            && Filter(same, ranked) == Filter(same, Eligibles(c, batch))
  {
    TotalPreorderByScore();
    SortElements(HigherScore, Eligibles(c, batch));
    SortSorted(HigherScore, Eligibles(c, batch));
    SortStable(HigherScore, Eligibles(c, batch), (s: Scored) => s.score == score);
  }

  /** The requests a selection picks, in order. */
  function Chosen(ranked: seq<Scored>, pick: seq<bool>): seq<Scored>
    requires |pick| == |ranked|
  {
    if ranked == [] then []
    else if pick[0] then [ranked[0]] + Chosen(ranked[1..], pick[1..])
    else Chosen(ranked[1..], pick[1..])
  }

  function Demand(c: Config, grants: seq<Scored>): Resources {
    if grants == [] then ZERO else OfferedResources(c, grants[0].request).Add(Demand(c, grants[1..]))
  }

  function GreedyPick(c: Config, available: Resources, ranked: seq<Scored>): (pick: seq<bool>)
    ensures |pick| == |ranked|
    decreases |ranked|
  {
    if ranked == [] then []
    else
      var wanted := OfferedResources(c, ranked[0].request);
      var fits := AtMost(wanted, available);
      [fits] + GreedyPick(c, if fits then available.Sub(wanted) else available, ranked[1..])
  }

  lemma {:induction false} GreedyIsChosen(c: Config, available: Resources, ranked: seq<Scored>)
    ensures Greedy(c, available, ranked) == Chosen(ranked, GreedyPick(c, available, ranked))
    decreases |ranked|
  {
    if ranked != [] {
      var wanted := OfferedResources(c, ranked[0].request);
      GreedyIsChosen(c, if AtMost(wanted, available) then available.Sub(wanted) else available, ranked[1..]);
    }
  }

  lemma {:induction false} DemandNonNegative(c: Config, grants: seq<Scored>)
    requires forall s :: s in grants ==> NonNegative(OfferedResources(c, s.request))
    ensures NonNegative(Demand(c, grants))
  {
    if grants != [] {
      DemandNonNegative(c, grants[1..]);
    }
  }

  lemma {:induction false} ChosenAreRanked(ranked: seq<Scored>, pick: seq<bool>)
    requires |pick| == |ranked|
    ensures forall s :: s in Chosen(ranked, pick) ==> s in ranked
  {
    if ranked != [] {
      ChosenAreRanked(ranked[1..], pick[1..]);
    }
  }

  lemma {:induction false} GreedyFits(c: Config, available: Resources, ranked: seq<Scored>)
    requires NonNegative(available)
    ensures AtMost(Demand(c, Greedy(c, available, ranked)), available)
    decreases |ranked|
  {
    if ranked != [] {
      var wanted := OfferedResources(c, ranked[0].request);
      GreedyFits(c, if AtMost(wanted, available) then available.Sub(wanted) else available, ranked[1..]);
    }
  }

  /**
   No other selection that fits serves a higher-ranked request: where one first
   differs from the greedy one, it has dropped a request that was granted.
   */
  lemma {:induction false} GreedyIsPriorityOptimal(c: Config, available: Resources, ranked: seq<Scored>,
                                                   other: seq<bool>, i: nat)
    requires NonNegative(available)
    requires forall s :: s in ranked ==> NonNegative(OfferedResources(c, s.request))
    requires i < |other| == |ranked| && AtMost(Demand(c, Chosen(ranked, other)), available)
    requires var pick := GreedyPick(c, available, ranked);
             (forall j :: 0 <= j < i ==> pick[j] == other[j]) && pick[i] != other[i]
    ensures GreedyPick(c, available, ranked)[i]
    decreases i
  {
    var wanted := OfferedResources(c, ranked[0].request);
    var fits := AtMost(wanted, available);
    ChosenAreRanked(ranked[1..], other[1..]);
    DemandNonNegative(c, Chosen(ranked[1..], other[1..]));
    assert other[0] ==> ([ranked[0]] + Chosen(ranked[1..], other[1..]))[1..] == Chosen(ranked[1..], other[1..]);
    if i > 0 {
      var left := if fits then available.Sub(wanted) else available;
      var pick := GreedyPick(c, available, ranked);
      assert other[0] == pick[0] == fits;
      GreedyIsPriorityOptimal(c, left, ranked[1..], other[1..], i - 1);
    }
  }

  // ----- Prices, coverage, exclusivity -----

  /** Whatever is granted was asked for in the batch, is supported, bids the floor and does not exceed the worker. */
  lemma {:induction false} GrantsAreEligible(c: Config, available: Resources, batch: seq<(PeerId, Request)>, s: Scored)
    requires s in Greedy(c, available, Ranked(c, batch))
    ensures Eligible(c, s.request) && (s.peer, s.request) in batch
    ensures forall e :: e in s.request.executors ==> e in c.supported
    ensures s.request.bid >= c.floor && !(AtMost(c.worker, s.request.resources) && s.request.resources != c.worker)
    ensures s.score == Score(c.weights, s.request.bid, s.request.resources)
  {
    GreedyIsChosen(c, available, Ranked(c, batch));
    ChosenAreRanked(Ranked(c, batch), GreedyPick(c, available, Ranked(c, batch)));
    SortElements(HigherScore, Eligibles(c, batch));
    EligiblesAreEligible(c, batch, s);
    ComparisonIsProductOrder(s.request.resources, c.worker);
  }

  lemma {:induction false} EligiblesAreEligible(c: Config, batch: seq<(PeerId, Request)>, s: Scored)
    requires s in Eligibles(c, batch)
    ensures Eligible(c, s.request) && (s.peer, s.request) in batch && s == ToScored(c, s.peer, s.request)
  {
    if s in Eligibles(c, batch[1..]) {
      EligiblesAreEligible(c, batch[1..], s);
    }
  }

  /** No request is dropped that is supported, bids the floor and does not exceed the worker. */
  lemma EveryEligibleIsRanked(c: Config, batch: seq<(PeerId, Request)>, peer: PeerId, request: Request)
    requires (peer, request) in batch
    requires forall e :: e in request.executors ==> e in c.supported
    requires request.bid >= c.floor && !(AtMost(c.worker, request.resources) && request.resources != c.worker)
    ensures Scored(Score(c.weights, request.bid, request.resources), peer, request) in Ranked(c, batch)
  {
    ComparisonIsProductOrder(request.resources, c.worker);
    EligibleIsKept(c, batch, peer, request);
    SortElements(HigherScore, Eligibles(c, batch));
  }

  lemma {:induction false} EligibleIsKept(c: Config, batch: seq<(PeerId, Request)>, peer: PeerId, request: Request)
    requires (peer, request) in batch && Eligible(c, request)
    ensures ToScored(c, peer, request) in Eligibles(c, batch)
  {
    if batch[0] != (peer, request) {
      EligibleIsKept(c, batch[1..], peer, request);
    }
  }

  /** Between requests for the same resources the higher bid comes first, whatever the weights charge for. */
  lemma HigherBidFirst(c: Config, batch: seq<(PeerId, Request)>, i: nat, j: nat)
    requires i < j < |Ranked(c, batch)|
    requires Ranked(c, batch)[i].request.resources == Ranked(c, batch)[j].request.resources
    requires Chargeable(c.weights, Ranked(c, batch)[i].request.resources)
    ensures Ranked(c, batch)[i].request.bid >= Ranked(c, batch)[j].request.bid
  {
    var ranked := Ranked(c, batch);
    var a, b := ranked[i], ranked[j];
    RankedOrder(c, batch, a.score);
    SortElements(HigherScore, Eligibles(c, batch));
    EligiblesAreEligible(c, batch, a);
    EligiblesAreEligible(c, batch, b);
    HigherPriceScoresHigher(c.weights, a.request.resources, a.request.bid, b.request.bid);
  }

  /**
   Every offer names its lease, request and peer and expires with the lease. A flexible
   one is exactly what was asked for, at the bid; a whole one is the entire worker, at the
   higher of the bid and the worker's price. The bid is at or above the floor.
   */
  lemma OffersArePricedFairly(c: Config, available: Resources, batch: seq<(PeerId, Request)>, i: nat, id: Id, now: Time)
    requires i < |Greedy(c, available, Ranked(c, batch))|
    ensures var granted := Greedy(c, available, Ranked(c, batch))[i];
            var offer := OfferFor(c, granted, id, now);
            && offer.id == id && offer.requestId == granted.request.id && offer.peer == granted.peer
            && offer.timeout == now + OFFER_TIMEOUT
            && offer.price >= granted.request.bid >= c.floor
            && (c.strategy == Whole ==>
                  && offer.price >= c.price && (offer.price == c.price || offer.price == granted.request.bid)
                  && offer.resources == c.worker)
            && (c.strategy == Flexible ==>
                  offer.price == granted.request.bid && offer.resources == granted.request.resources)
  {
    GrantsAreEligible(c, available, batch, Greedy(c, available, Ranked(c, batch))[i]);
  }

  /** An idle non-zero worker offered as a whole goes to the top-ranked request alone. */
  lemma {:induction false} WholeGoesToTheBest(c: Config, ranked: seq<Scored>)
    requires c.strategy == Whole && NonNegative(c.worker) && c.worker != ZERO && ranked != []
    ensures Greedy(c, c.worker, ranked) == [ranked[0]]
  {
    ExhaustedGrantsNothing(c, ranked[1..]);
    assert c.worker.Sub(c.worker) == ZERO;
  }

  lemma {:induction false} ExhaustedGrantsNothing(c: Config, ranked: seq<Scored>)
    requires c.strategy == Whole && NonNegative(c.worker) && c.worker != ZERO
    ensures Greedy(c, ZERO, ranked) == []
  {
    if ranked != [] {
      ExhaustedGrantsNothing(c, ranked[1..]);
    }
  }

  /**
   The filter lets through requests that do not fit the worker: an eligible
   request fits it exactly when the two are comparable.
   */
  lemma EligibleFitsExactlyIfComparable(c: Config, request: Request)
    requires Eligible(c, request)
    ensures AtMost(request.resources, c.worker) <==> PartialCmp(request.resources, c.worker).Some?
  {
    ComparisonIsProductOrder(request.resources, c.worker);
  }

  /** A request for two GPUs and no CPU passes the filter of a worker with one of each, which the offer cannot cover. */
  lemma EligibleMayNotFit(peer: PeerId)
    ensures exists c: Config, request: Request ::
              && c.strategy == Whole && Eligible(c, request)
              && !AtMost(request.resources, OfferedResources(c, request))
              && Greedy(c, c.worker, Ranked(c, [(peer, request)])) != []
  {
    var worker := Resources(1.0, 1.0, 0.0, 0.0);
    var c := Config({}, worker, Whole, 100.0, 100.0, DEFAULT_WEIGHTS);
    var request := Request(0, [], Resources(2.0, 0.0, 0.0, 0.0), 100.0);
    ComparisonIsProductOrder(request.resources, worker);
    var batch := [(peer, request)];
    assert batch[1..] == [];
    assert Eligibles(c, batch) == [ToScored(c, peer, request)];
    SortElements(HigherScore, Eligibles(c, batch));
    WholeGoesToTheBest(c, Ranked(c, batch));
    assert Eligible(c, request) && !AtMost(request.resources, OfferedResources(c, request));
  }
}
