/**
 The tracker that hands data slices to workers, round after round: a worker gets
 its own or unowned slices first, then steals; departures re-open the slice the
 worker was last given.
 */
module SliceTracking {
  import opened Common
  import opened Wrappers
  import opened Arithmetic
  import opened Sequences

  datatype Slice = Slice(hash: nat, peer: Option<PeerId>, processed: bool)

  datatype Tracker = Tracker(slices: seq<Slice>, processing: map<PeerId, nat>, rounds: nat)

  predicate OpenTo(s: Slice, peer: PeerId) {
    !s.processed && (s.peer.None? || s.peer.value == peer)
  }

  /** The first slice open to the peer. */
  function FirstOpen(slices: seq<Slice>, peer: PeerId): (found: Option<nat>)
    ensures found.Some? ==> found.value < |slices| && OpenTo(slices[found.value], peer)
    ensures found.Some? ==> forall i :: 0 <= i < found.value ==> !OpenTo(slices[i], peer)
    ensures found.None? ==> forall i :: 0 <= i < |slices| ==> !OpenTo(slices[i], peer)
  {
    FirstIndex((s: Slice) => OpenTo(s, peer), slices)
  }

  /** The first slice with this hash. */
  function FirstHash(slices: seq<Slice>, hash: nat): (found: Option<nat>)
    ensures found.Some? ==> found.value < |slices| && slices[found.value].hash == hash
    ensures found.Some? ==> forall i :: 0 <= i < found.value ==> slices[i].hash != hash
    ensures found.None? ==> forall i :: 0 <= i < |slices| ==> slices[i].hash != hash
  {
    FirstIndex((s: Slice) => s.hash == hash, slices)
  }

  /** How many unprocessed slices the peer owns. */
  function OpenOwned(slices: seq<Slice>, peer: PeerId): nat {
    if slices == [] then 0
    else
      var last := slices[|slices| - 1];
      OpenOwned(slices[..|slices| - 1], peer) + if !last.processed && last.peer == Some(peer) then 1 else 0
  }

  predicate AllProcessed(slices: seq<Slice>) {
    forall i :: 0 <= i < |slices| ==> slices[i].processed
  }

  /** An owner with the fewest unprocessed slices among those that have any. */
  ghost predicate FewestOpen(slices: seq<Slice>, owner: PeerId) {
    && 0 < OpenOwned(slices, owner)
    && forall q :: 0 < OpenOwned(slices, q) ==> OpenOwned(slices, owner) <= OpenOwned(slices, q)
  }

  function Reopened(slices: seq<Slice>): (reopened: seq<Slice>)
    ensures |reopened| == |slices|
    ensures forall i :: 0 <= i < |slices| ==> reopened[i] == slices[i].(processed := false)
  {
    seq(|slices|, i requires 0 <= i < |slices| => slices[i].(processed := false))
  }

  /** A new round starts when everything is processed. */
  function Start(t: Tracker): Tracker {
    if AllProcessed(t.slices) then t.(rounds := t.rounds + 1, slices := Reopened(t.slices)) else t
  }

  /** The slices `next` may hand to the peer: its first open one, or else the first of an owner with the fewest open. */
  ghost predicate Picks(slices: seq<Slice>, peer: PeerId, i: nat) {
    match FirstOpen(slices, peer)
    case Some(j) => i == j
    case None => exists owner :: FewestOpen(slices, owner) && FirstOpen(slices, owner) == Some(i)
  }

  function HandOut(t: Tracker, peer: PeerId, i: nat): Tracker
    requires i < |t.slices|
  {
    var hash := t.slices[i].hash;
    t.(slices := t.slices[i := Slice(hash, Some(peer), true)], processing := t.processing[peer := hash])
  }

  function Disowned(slices: seq<Slice>, peer: PeerId): (disowned: seq<Slice>)
    ensures |disowned| == |slices|
    ensures forall i :: 0 <= i < |slices| ==>
                          disowned[i] == if slices[i].peer == Some(peer) then slices[i].(peer := None) else slices[i]
  {
    seq(|slices|, i requires 0 <= i < |slices| =>
        if slices[i].peer == Some(peer) then slices[i].(peer := None) else slices[i])
  }

  /** The slice a departure marks unprocessed. */
  function Given(t: Tracker, peer: PeerId): (given: Option<nat>)
    ensures given.Some? ==> given.value < |t.slices|
  {
    if peer in t.processing then FirstHash(t.slices, t.processing[peer]) else None
  }

  function Without(t: Tracker, peer: PeerId): Tracker {
    var slices := Disowned(t.slices, peer);
    var given := Given(t, peer);
    t.(slices := if given.Some? then slices[given.value := slices[given.value].(processed := false)] else slices,
       processing := t.processing - {peer})
  }

  lemma SameHashes(a: seq<Slice>, b: seq<Slice>, hash: nat)
    requires |a| == |b| && forall i :: 0 <= i < |a| ==> a[i].hash == b[i].hash
    ensures FirstHash(a, hash) == FirstHash(b, hash)
  {
    var x, y := FirstHash(a, hash), FirstHash(b, hash);
    assert x.Some? ==> y.Some? && y.value <= x.value;
    assert y.Some? ==> x.Some? && x.value <= y.value;
  }

  lemma {:induction false} OpenOwnedExists(slices: seq<Slice>, peer: PeerId)
    ensures 0 < OpenOwned(slices, peer) <==>
            exists i :: 0 <= i < |slices| && !slices[i].processed && slices[i].peer == Some(peer)
  {
    if slices != [] {
      var before := slices[..|slices| - 1];
      OpenOwnedExists(before, peer);
      assert forall i :: 0 <= i < |before| ==> before[i] == slices[i];
    }
  }

  predicate Counts(s: Slice, peer: PeerId) {
    !s.processed && s.peer == Some(peer)
  }

  lemma {:induction false} OpenOwnedUpdate(slices: seq<Slice>, i: nat, s: Slice, peer: PeerId)
    requires i < |slices|
    ensures OpenOwned(slices[i := s], peer) ==
            OpenOwned(slices, peer) - (if Counts(slices[i], peer) then 1 else 0) + (if Counts(s, peer) then 1 else 0)
  {
    var n := |slices| - 1;
    if i == n {
      assert slices[i := s][..n] == slices[..n];
    } else {
      OpenOwnedUpdate(slices[..n], i, s, peer);
      assert slices[i := s][..n] == slices[..n][i := s];
    }
  }

  /** The first slice owned by the peer. */
  function FirstOwned(slices: seq<Slice>, peer: PeerId): (found: Option<nat>)
    ensures found.Some? ==> found.value < |slices| && slices[found.value].peer == Some(peer)
    ensures found.None? ==> forall i :: 0 <= i < |slices| ==> slices[i].peer != Some(peer)
  {
    FirstIndex((s: Slice) => s.peer == Some(peer), slices)
  }

  class SliceTracker {
    var slices: seq<Slice>
    var processing: map<PeerId, nat>
    var rounds: nat

    function Abstract(): Tracker
      reads this
    {
      Tracker(slices, processing, rounds)
    }

    constructor (hashes: seq<nat>)
      ensures Abstract() == New(hashes)
    {
      slices := seq(|hashes|, i requires 0 <= i < |hashes| => Slice(hashes[i], None, false));
      processing, rounds := map[], 0;
    }

    /** Counts the open slices of each owner, from zero, and returns an owner with the lowest count. */
    method SlowPeer() returns (slow: Option<PeerId>)
      requires forall i :: 0 <= i < |slices| && !slices[i].processed ==> slices[i].peer.Some?
      ensures slow.None? <==> AllProcessed(slices)
      ensures slow.Some? ==> FewestOpen(slices, slow.value)
    {
      var counts: map<PeerId, nat> := map[];
      for i := 0 to |slices|
        invariant forall p :: p in counts <==> 0 < OpenOwned(slices[..i], p)
        invariant forall p :: p in counts ==> counts[p] + 1 == OpenOwned(slices[..i], p)
      {
        assert slices[..i + 1][..i] == slices[..i];
        if !slices[i].processed {
          var owner := slices[i].peer.value;
          counts := counts[owner := if owner in counts then counts[owner] + 1 else 0];
        }
      }
      assert slices[..|slices|] == slices;
      slow := None;
      var rest := counts.Keys;
      while rest != {}
        invariant rest <= counts.Keys
        invariant slow.None? ==> rest == counts.Keys
        invariant slow.Some? ==> slow.value in counts
                                 && forall q :: q in counts.Keys - rest ==> counts[slow.value] <= counts[q]
        decreases rest
      {
        var p :| p in rest;
        if slow.None? || counts[p] < counts[slow.value] {
          slow := Some(p);
        }
        rest := rest - {p};
      }
      forall i | 0 <= i < |slices| && !slices[i].processed ensures slices[i].peer.value in counts.Keys {
        OpenOwnedExists(slices, slices[i].peer.value);
      }
      if slow.Some? {
        OpenOwnedExists(slices, slow.value);
        assert forall q :: q in counts ==> q in counts.Keys - rest;
      }
    }

    /** `next`; without slices it would recurse for ever. */
    method Next(peer: PeerId) returns (hash: nat, ghost index: nat)
      requires slices != []
      modifies this
      ensures Picks(Start(old(Abstract())).slices, peer, index) && index < |old(slices)|
      ensures hash == old(slices)[index].hash
      ensures Abstract() == HandOut(Start(old(Abstract())), peer, index)
      decreases AllProcessed(slices)
    {
      var open := FirstOpen(slices, peer);
      if open.Some? {
        index := open.value;
        hash := slices[open.value].hash;
        slices := slices[open.value := slices[open.value].(processed := true, peer := Some(peer))];
        processing := processing[peer := hash];
      } else {
        var slow := SlowPeer();
        if slow.Some? {
          OpenOwnedExists(slices, slow.value);
          var stolen := FirstOpen(slices, slow.value);
          index := stolen.value;
          hash := slices[stolen.value].hash;
          slices := slices[stolen.value := slices[stolen.value].(processed := true, peer := Some(peer))];
          processing := processing[peer := hash];
        } else {
          rounds := rounds + 1;
          slices := Reopened(slices);
          assert !slices[0].processed;
          hash, index := Next(peer);
        }
      }
    }

    /** Takes the peer off every slice, one at a time. */
    method Disown(peer: PeerId)
      modifies this`slices
      ensures slices == Disowned(old(slices), peer)
    {
      ghost var before := slices;
      var found := FirstOwned(slices, peer);
      while found.Some?
        invariant |slices| == |before| && found == FirstOwned(slices, peer)
        invariant forall k :: 0 <= k < |before| ==>
                                slices[k] == before[k]
                                || (before[k].peer == Some(peer) && slices[k] == before[k].(peer := None))
        decreases OpenOwned(Reopened(slices), peer)
      {
        var i := found.value;
        OpenOwnedUpdate(Reopened(slices), i, Reopened(slices)[i].(peer := None), peer);
        assert Reopened(slices[i := slices[i].(peer := None)])
            == Reopened(slices)[i := Reopened(slices)[i].(peer := None)];
        slices := slices[i := slices[i].(peer := None)];
        found := FirstOwned(slices, peer);
      }
      assert slices == Disowned(before, peer);
    }

    method RemoveWorker(peer: PeerId)
      modifies this
      ensures Abstract() == Without(old(Abstract()), peer)
      ensures peer !in processing && forall i :: 0 <= i < |slices| ==> slices[i].peer != Some(peer)
    {
      ghost var before := slices;
      Disown(peer);
      if peer in processing {
        var hash := processing[peer];
        processing := processing - {peer};
        SameHashes(slices, before, hash);
        var given := FirstHash(slices, hash);
        if given.Some? {
          slices := slices[given.value := slices[given.value].(processed := false)];
        }
      } else {
        assert processing - {peer} == processing;
      }
    }
  }

  function New(hashes: seq<nat>): Tracker {
    Tracker(seq(|hashes|, i requires 0 <= i < |hashes| => Slice(hashes[i], None, false)), map[], 0)
  }

  // ----- Runs of requests and departures -----

  /** `index` resolves the tie-break the table's iteration order decides. */
  datatype Op = Serve(peer: PeerId, index: nat) | Leave(peer: PeerId)

  ghost predicate Enabled(t: Tracker, op: Op) {
    op.Serve? ==> op.index < |t.slices| && Picks(Start(t).slices, op.peer, op.index)
  }

  ghost function Apply(t: Tracker, op: Op): Tracker
    requires Enabled(t, op)
  {
    match op
    case Serve(peer, index) => HandOut(Start(t), peer, index)
    case Leave(peer) => Without(t, peer)
  }

  ghost predicate Legal(t: Tracker, ops: seq<Op>)
    decreases |ops|
  {
    ops == [] || (Enabled(t, ops[0]) && Legal(Apply(t, ops[0]), ops[1..]))
  }

  ghost function Run(t: Tracker, ops: seq<Op>): Tracker
    requires Legal(t, ops)
    decreases |ops|
  {
    if ops == [] then t else Run(Apply(t, ops[0]), ops[1..])
  }

  /** How often slice i is handed out, and how often a departure marks it unprocessed again. */
  function Handed(ops: seq<Op>, i: nat): nat {
    if ops == [] then 0 else (if ops[0].Serve? && ops[0].index == i then 1 else 0) + Handed(ops[1..], i)
  }

  ghost function Undone(t: Tracker, ops: seq<Op>, i: nat): nat
    requires Legal(t, ops)
    decreases |ops|
  {
    if ops == [] then 0
    else
      (if ops[0].Leave? && Given(t, ops[0].peer) == Some(i) && t.slices[i].processed then 1 else 0)
      + Undone(Apply(t, ops[0]), ops[1..], i)
  }

  /** What slice i adds to the tracker's books. */
  function Booked(t: Tracker, i: nat): nat
    requires i < |t.slices|
  {
    t.rounds + if t.slices[i].processed then 1 else 0
  }

  /** `Next` always has something to pick, and what it picks is unprocessed. */
  lemma PickIsOpen(slices: seq<Slice>, peer: PeerId, i: nat)
    requires Picks(slices, peer, i)
    ensures i < |slices| && !slices[i].processed
  {
  }

  /** Every slice is booked once per hand-out and unbooked once per departure that re-opens it. */
  lemma {:induction false} SliceAccounting(t: Tracker, ops: seq<Op>, i: nat)
    requires Legal(t, ops) && i < |t.slices|
    ensures |Run(t, ops).slices| == |t.slices|
    ensures Booked(Run(t, ops), i) + Undone(t, ops, i) == Booked(t, i) + Handed(ops, i)
    decreases |ops|
  {
    if ops != [] {
      if ops[0].Serve? {
        PickIsOpen(Start(t).slices, ops[0].peer, ops[0].index);
      }
      SliceAccounting(Apply(t, ops[0]), ops[1..], i);
    }
  }

  predicate NoDepartures(ops: seq<Op>) {
    forall k :: 0 <= k < |ops| ==> ops[k].Serve?
  }

  lemma {:induction false} NothingUndone(t: Tracker, ops: seq<Op>, i: nat)
    requires Legal(t, ops) && NoDepartures(ops)
    ensures Undone(t, ops, i) == 0
    decreases |ops|
  {
    if ops != [] {
      NothingUndone(Apply(t, ops[0]), ops[1..], i);
    }
  }

  /** Without departures, no slice is ever two hand-outs ahead of another. */
  lemma FairHandOut(hashes: seq<nat>, ops: seq<Op>, i: nat, j: nat)
    requires Legal(New(hashes), ops) && NoDepartures(ops) && i < |hashes| && j < |hashes|
    ensures Handed(ops, i) <= Handed(ops, j) + 1
  {
    SliceAccounting(New(hashes), ops, i);
    SliceAccounting(New(hashes), ops, j);
    NothingUndone(New(hashes), ops, i);
    NothingUndone(New(hashes), ops, j);
  }

  function TotalHanded(ops: seq<Op>, n: nat): nat {
    if n == 0 then 0 else TotalHanded(ops, n - 1) + Handed(ops, n - 1)
  }

  lemma {:induction false} TotalHandedIsLength(ops: seq<Op>, n: nat)
    requires NoDepartures(ops) && forall k :: 0 <= k < |ops| ==> ops[k].index < n
    ensures TotalHanded(ops, n) == |ops|
    decreases |ops|
  {
    if ops == [] {
      TotalZero(n);
    } else {
      TotalHandedIsLength(ops[1..], n);
      TotalCons(ops, n);
    }
  }

  lemma {:induction false} TotalZero(n: nat)
    ensures TotalHanded([], n) == 0
  {
    if n > 0 { TotalZero(n - 1); }
  }

  lemma {:induction false} TotalCons(ops: seq<Op>, n: nat)
    requires ops != [] && ops[0].Serve?
    ensures TotalHanded(ops, n) == TotalHanded(ops[1..], n) + if ops[0].index < n then 1 else 0
  {
    if n > 0 { TotalCons(ops, n - 1); }
  }

  lemma {:induction false} TotalBounds(ops: seq<Op>, n: nat, lo: nat)
    requires forall i :: 0 <= i < n ==> lo <= Handed(ops, i) <= lo + 1
    ensures n * lo <= TotalHanded(ops, n) <= n * lo + n
    ensures TotalHanded(ops, n) == n * lo ==> forall i :: 0 <= i < n ==> Handed(ops, i) == lo
    ensures TotalHanded(ops, n) == n * lo + n ==> forall i :: 0 <= i < n ==> Handed(ops, i) == lo + 1
  {
    if n > 0 {
      TotalBounds(ops, n - 1, lo);
      assert n * lo == (n - 1) * lo + lo;
    }
  }

  lemma {:induction false} HandedSplit(a: seq<Op>, b: seq<Op>, i: nat)
    ensures Handed(a + b, i) == Handed(a, i) + Handed(b, i)
  {
    if a == [] {
      assert a + b == b;
    } else {
      assert (a + b)[1..] == a[1..] + b;
      HandedSplit(a[1..], b, i);
    }
  }

  lemma {:induction false} LegalPrefix(t: Tracker, ops: seq<Op>, m: nat)
    requires Legal(t, ops) && m <= |ops|
    ensures Legal(t, ops[..m])
    decreases |ops|
  {
    if m > 0 {
      LegalPrefix(Apply(t, ops[0]), ops[1..], m - 1);
      assert ops[..m][1..] == ops[1..][..m - 1];
    }
  }

  lemma {:induction false} IndexInRange(t: Tracker, ops: seq<Op>, k: nat)
    requires Legal(t, ops) && k < |ops| && ops[k].Serve?
    ensures ops[k].index < |t.slices|
    decreases |ops|
  {
    if k > 0 {
      IndexInRange(Apply(t, ops[0]), ops[1..], k - 1);
    }
  }

  lemma Between(n: nat, lo: nat, b: nat)
    requires 0 < n && n * lo <= b * n <= n * lo + n
    ensures b == lo || (b == lo + 1 && b * n == n * lo + n)
  {
    if b < lo {
      Monotone(b + 1, lo, n);
    } else if lo + 1 < b {
      Monotone(lo + 2, b, n);
    }
    assert (b + 1) * n == b * n + n && (lo + 2) * n == lo * n + 2 * n && lo * n == n * lo && (lo + 1) * n == lo * n + n;
  }

  lemma EqualCounts(ops: seq<Op>, n: nat, lo: nat, b: nat)
    requires 0 < n && (forall i :: 0 <= i < n ==> lo <= Handed(ops, i) <= lo + 1) && TotalHanded(ops, n) == b * n
    ensures forall i :: 0 <= i < n ==> Handed(ops, i) == b
  {
    TotalBounds(ops, n, lo);
    Between(n, lo, b);
    assert b == lo ==> b * n == n * lo;
  }

  /** After b whole rounds of hand-outs without departures, every slice was handed out exactly b times. */
  lemma WholeRounds(hashes: seq<nat>, ops: seq<Op>, b: nat)
    requires Legal(New(hashes), ops) && NoDepartures(ops) && |ops| == b * |hashes| && hashes != []
    ensures forall i :: 0 <= i < |hashes| ==> Handed(ops, i) == b
  {
    var n, lo := |hashes|, Run(New(hashes), ops).rounds;
    forall i | 0 <= i < n ensures lo <= Handed(ops, i) <= lo + 1 {
      SliceAccounting(New(hashes), ops, i);
      NothingUndone(New(hashes), ops, i);
    }
    forall k | 0 <= k < |ops| ensures ops[k].index < n {
      IndexInRange(New(hashes), ops, k);
    }
    TotalHandedIsLength(ops, n);
    EqualCounts(ops, n, lo, b);
  }

  /** Without departures every aligned block of n hand-outs, to any peers, is a permutation of the n slices. */
  lemma BlocksArePermutations(hashes: seq<nat>, ops: seq<Op>, b: nat, i: nat)
    requires Legal(New(hashes), ops) && NoDepartures(ops) && i < |hashes|
    requires (b + 1) * |hashes| <= |ops|
    ensures b * |hashes| <= (b + 1) * |hashes|
    ensures Handed(ops[b * |hashes|..(b + 1) * |hashes|], i) == 1
  {
    var n := |hashes|;
    var from, to := b * n, (b + 1) * n;
    assert to == from + n;
    LegalPrefix(New(hashes), ops, from);
    LegalPrefix(New(hashes), ops, to);
    WholeRounds(hashes, ops[..from], b);
    WholeRounds(hashes, ops[..to], b + 1);
    assert ops[..to] == ops[..from] + ops[from..to];
    HandedSplit(ops[..from], ops[from..to], i);
  }

  // ----- Stealing and departures -----

  /** A stolen slice comes from an owner with the fewest open slices, and only when nothing else is open. */
  lemma StolenFromFewest(t: Tracker, peer: PeerId, i: nat)
    requires Enabled(t, Serve(peer, i))
    requires Start(t).slices[i].peer.Some? && Start(t).slices[i].peer != Some(peer)
    ensures forall k :: 0 <= k < |t.slices| ==> !OpenTo(Start(t).slices[k], peer)
    ensures FewestOpen(Start(t).slices, Start(t).slices[i].peer.value)
  {
    var slices := Start(t).slices;
    var owner :| FewestOpen(slices, owner) && FirstOpen(slices, owner) == Some(i);
  }

  /** An owner with the most unprocessed slices: the slowest peer of the round. */
  ghost predicate MostOpen(slices: seq<Slice>, owner: PeerId) {
    0 < OpenOwned(slices, owner) && forall q :: OpenOwned(slices, q) <= OpenOwned(slices, owner)
  }

  /** All peers with unprocessed slices have equally many. */
  ghost predicate LevelOpen(slices: seq<Slice>) {
    forall p, q :: 0 < OpenOwned(slices, p) && 0 < OpenOwned(slices, q) ==> OpenOwned(slices, p) == OpenOwned(slices, q)
  }

  /** The victim of a theft is the slowest peer exactly if all peers with open slices have equally many. */
  lemma StolenFromSlowestExactly(t: Tracker, peer: PeerId, i: nat)
    requires Enabled(t, Serve(peer, i))
    requires Start(t).slices[i].peer.Some? && Start(t).slices[i].peer != Some(peer)
    ensures MostOpen(Start(t).slices, Start(t).slices[i].peer.value) <==> LevelOpen(Start(t).slices)
  {
    StolenFromFewest(t, peer, i);
    FewestIsMostExactly(Start(t).slices, Start(t).slices[i].peer.value);
  }

  lemma FewestIsMostExactly(slices: seq<Slice>, owner: PeerId)
    requires FewestOpen(slices, owner)
    ensures MostOpen(slices, owner) <==> LevelOpen(slices)
  {
    if MostOpen(slices, owner) {
      forall p, q | 0 < OpenOwned(slices, p) && 0 < OpenOwned(slices, q)
        ensures OpenOwned(slices, p) == OpenOwned(slices, q)
      {
        assert OpenOwned(slices, owner) <= OpenOwned(slices, p) <= OpenOwned(slices, owner);
        assert OpenOwned(slices, owner) <= OpenOwned(slices, q) <= OpenOwned(slices, owner);
      }
    }
    if LevelOpen(slices) {
      forall q ensures OpenOwned(slices, q) <= OpenOwned(slices, owner) {
        assert 0 < OpenOwned(slices, q) ==> OpenOwned(slices, q) == OpenOwned(slices, owner);
      }
    }
  }

  /** A peer finds a slice to pick if and only if there are slices; without any, every restart needs another. */
  lemma AlwaysServable(t: Tracker, peer: PeerId)
    ensures (exists i :: Enabled(t, Serve(peer, i))) <==> t.slices != []
    ensures AllProcessed(Start(t).slices) <==> t.slices == []
  {
    if t.slices != [] {
      var slices := Start(t).slices;
      assert t.slices[0].processed ==> AllProcessed(t.slices) ==> !slices[0].processed;
      if FirstOpen(slices, peer).Some? {
        assert Enabled(t, Serve(peer, FirstOpen(slices, peer).value));
      } else {
        var k :| 0 <= k < |slices| && !slices[k].processed;
        var owner := slices[k].peer.value;
        OpenOwnedExists(slices, owner);
        var fewest := FewestExists(slices, owner);
        OpenOwnedExists(slices, fewest);
        assert Enabled(t, Serve(peer, FirstOpen(slices, fewest).value));
      }
    }
  }

  lemma {:induction false} FewestExists(slices: seq<Slice>, owner: PeerId) returns (fewest: PeerId)
    requires 0 < OpenOwned(slices, owner)
    ensures FewestOpen(slices, fewest)
    decreases OpenOwned(slices, owner)
  {
    fewest := owner;
    if q :| 0 < OpenOwned(slices, q) < OpenOwned(slices, owner) {
      fewest := FewestExists(slices, q);
    }
  }

  lemma LegalCons(t: Tracker, op: Op, u: Tracker, rest: seq<Op>) returns (ops: seq<Op>)
    requires Enabled(t, op) && Apply(t, op) == u && Legal(u, rest)
    ensures ops == [op] + rest && Legal(t, ops) && Run(t, ops) == Run(u, rest)
  {
    ops := [op] + rest;
    assert ops[1..] == rest;
  }

  lemma SingleIsServed(t: Tracker, peer: PeerId)
    requires |t.slices| == 1
    ensures Enabled(t, Serve(peer, 0))
  {
    AlwaysServable(t, peer);
    var i :| Enabled(t, Serve(peer, i));
  }

  // ----- Cache affinity -----

  /** How many of the requests come from the peer. */
  function Calls(ops: seq<Op>, peer: PeerId): nat {
    if ops == [] then 0 else (if ops[0].peer == peer then 1 else 0) + Calls(ops[1..], peer)
  }

  predicate AllOwned(slices: seq<Slice>) {
    forall i :: 0 <= i < |slices| ==> slices[i].peer.Some?
  }

  /** The requests still to come match, peer by peer, the open slices each peer owns. */
  ghost predicate Matched(slices: seq<Slice>, ops: seq<Op>) {
    forall p :: Calls(ops, p) == OpenOwned(slices, p)
  }

  /** No slice changes hands: each request gets an unprocessed slice of its own peer. */
  lemma {:induction false} MatchedServesOwn(t: Tracker, ops: seq<Op>, k: nat)
    requires Legal(t, ops) && NoDepartures(ops) && AllOwned(t.slices) && Matched(t.slices, ops)
    ensures k < |ops| ==> ops[k].index < |t.slices| && t.slices[ops[k].index].peer == Some(ops[k].peer)
    ensures |Run(t, ops).slices| == |t.slices|
    ensures forall i :: 0 <= i < |t.slices| ==>
                          && Run(t, ops).slices[i].peer == t.slices[i].peer
                          && Run(t, ops).slices[i].hash == t.slices[i].hash
    ensures AllProcessed(Run(t, ops).slices) && Run(t, ops).rounds == t.rounds
    decreases |ops|
  {
    if ops == [] {
      forall i | 0 <= i < |t.slices| ensures t.slices[i].processed {
        OpenOwnedExists(t.slices, t.slices[i].peer.value);
      }
    } else {
      var p, i := ops[0].peer, ops[0].index;
      assert 0 < Calls(ops, p) == OpenOwned(t.slices, p);
      OpenOwnedExists(t.slices, p);
      assert Start(t) == t;
      var next := Apply(t, ops[0]);
      assert t.slices[i].peer == Some(p);
      forall q ensures Calls(ops[1..], q) == OpenOwned(next.slices, q) {
        OpenOwnedUpdate(t.slices, i, next.slices[i], q);
        assert Calls(ops, q) == OpenOwned(t.slices, q);
      }
      MatchedServesOwn(next, ops[1..], if k > 0 then k - 1 else 0);
    }
  }

  /**
   From a finished round in which every slice has an owner, if each peer asks
   exactly as often as it owns slices, in any order, then every request is served
   from the peer's own slices, nothing is stolen, and ownership is unchanged.
   */
  lemma CacheAffinity(t: Tracker, ops: seq<Op>, k: nat)
    requires t.slices != [] && AllProcessed(t.slices) && AllOwned(t.slices)
    requires Legal(t, ops) && NoDepartures(ops) && k < |ops|
    requires forall p :: Calls(ops, p) == OpenOwned(Reopened(t.slices), p)
    ensures ops[k].index < |t.slices| && t.slices[ops[k].index].peer == Some(ops[k].peer)
    ensures Run(t, ops).slices == t.slices && Run(t, ops).rounds == t.rounds + 1
  {
    StartFirst(t, ops);
    MatchedServesOwn(Start(t), ops, k);
  }

  lemma StartFirst(t: Tracker, ops: seq<Op>)
    requires t.slices != [] && AllProcessed(t.slices) && Legal(t, ops) && NoDepartures(ops) && ops != []
    ensures Legal(Start(t), ops) && Run(Start(t), ops) == Run(t, ops)
  {
    assert !Start(t).slices[0].processed;
    assert Start(Start(t)) == Start(t);
  }

  // ----- The sum over all slices -----

  function Processed(slices: seq<Slice>): nat {
    if slices == [] then 0 else Processed(slices[..|slices| - 1]) + if slices[|slices| - 1].processed then 1 else 0
  }

  lemma {:induction false} ProcessedUpdate(slices: seq<Slice>, i: nat, s: Slice)
    requires i < |slices|
    ensures Processed(slices[i := s]) ==
            Processed(slices) - (if slices[i].processed then 1 else 0) + (if s.processed then 1 else 0)
  {
    var n := |slices| - 1;
    if i == n {
      assert slices[i := s][..n] == slices[..n];
    } else {
      ProcessedUpdate(slices[..n], i, s);
      assert slices[i := s][..n] == slices[..n][i := s];
    }
  }

  lemma {:induction false} ProcessedAgree(a: seq<Slice>, b: seq<Slice>)
    requires |a| == |b| && forall i :: 0 <= i < |a| ==> a[i].processed == b[i].processed
    ensures Processed(a) == Processed(b)
  {
    if a != [] {
      ProcessedAgree(a[..|a| - 1], b[..|b| - 1]);
    }
  }

  lemma {:induction false} ProcessedAll(slices: seq<Slice>)
    ensures AllProcessed(slices) ==> Processed(slices) == |slices| && Processed(Reopened(slices)) == 0
  {
    if slices != [] {
      var before := slices[..|slices| - 1];
      ProcessedAll(before);
      ProcessedAgree(Reopened(slices)[..|slices| - 1], Reopened(before));
    }
  }

  function Served(ops: seq<Op>): nat {
    if ops == [] then 0 else (if ops[0].Serve? then 1 else 0) + Served(ops[1..])
  }

  /** How many departures really marked a slice unprocessed. */
  ghost function Flips(t: Tracker, ops: seq<Op>): nat
    requires Legal(t, ops)
    decreases |ops|
  {
    if ops == [] then 0
    else
      (if ops[0].Leave? && Given(t, ops[0].peer).Some? && t.slices[Given(t, ops[0].peer).value].processed then 1 else 0)
      + Flips(Apply(t, ops[0]), ops[1..])
  }

  /** The tracker's books as one number. */
  function Books(t: Tracker): nat {
    t.rounds * |t.slices| + Processed(t.slices)
  }

  lemma StartKeepsBooks(t: Tracker)
    ensures Books(Start(t)) == Books(t)
  {
    ProcessedAll(t.slices);
    assert (t.rounds + 1) * |t.slices| == t.rounds * |t.slices| + |t.slices|;
  }

  lemma ServeAccounting(t: Tracker, peer: PeerId, i: nat)
    requires Enabled(t, Serve(peer, i))
    ensures Books(HandOut(Start(t), peer, i)) == Books(t) + 1
  {
    StartKeepsBooks(t);
    PickIsOpen(Start(t).slices, peer, i);
    ProcessedUpdate(Start(t).slices, i, Slice(t.slices[i].hash, Some(peer), true));
  }

  lemma LeaveAccounting(t: Tracker, peer: PeerId)
    ensures var given := Given(t, peer);
            Books(Without(t, peer)) == Books(t) - if given.Some? && t.slices[given.value].processed then 1 else 0
  {
    var given, disowned := Given(t, peer), Disowned(t.slices, peer);
    ProcessedAgree(t.slices, disowned);
    if given.Some? {
      ProcessedUpdate(disowned, given.value, disowned[given.value].(processed := false));
    }
  }

  /** Rounds times slices plus processed slices is the hand-outs minus the departures that flipped a slice. */
  lemma {:induction false} TrackerAccounting(t: Tracker, ops: seq<Op>)
    requires Legal(t, ops)
    ensures |Run(t, ops).slices| == |t.slices|
    ensures Books(Run(t, ops)) + Flips(t, ops) == Books(t) + Served(ops)
    decreases |ops|
  {
    if ops != [] {
      match ops[0] {
        case Serve(peer, i) => ServeAccounting(t, peer, i);
        case Leave(peer) => LeaveAccounting(t, peer);
      }
      TrackerAccounting(Apply(t, ops[0]), ops[1..]);
    }
  }
}
