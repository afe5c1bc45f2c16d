/**
 What the tracker's tables remember of the hand-outs and departures so far, and
 what follows for the two surprises of the tracker: whom a theft takes from, and
 which slice a departure re-opens.
 */
module SliceHistory {
  import opened Common
  import opened Wrappers
  import opened SliceTracking

  /** The slice last handed to the peer since it last left. */
  function LastGiven(ops: seq<Op>, peer: PeerId): Option<nat> {
    if ops == [] then None
    else
      var before, last := LastGiven(ops[..|ops| - 1], peer), ops[|ops| - 1];
      if last.peer != peer then before else if last.Serve? then Some(last.index) else None
  }

  /** The peer last handed the slice, unless it has left since. */
  function Holder(ops: seq<Op>, i: nat): Option<PeerId> {
    if ops == [] then None
    else
      var before, last := Holder(ops[..|ops| - 1], i), ops[|ops| - 1];
      match last
      case Serve(peer, index) => if index == i then Some(peer) else before
      case Leave(peer) => if before == Some(peer) then None else before
  }

  predicate DistinctHashes(hashes: seq<nat>) {
    forall i, j :: 0 <= i < j < |hashes| ==> hashes[i] != hashes[j]
  }

  /** The slices keep their hashes, and the table of owners and the table of last hand-outs follow the history. */
  ghost predicate Recorded(hashes: seq<nat>, t: Tracker, past: seq<Op>) {
    && |t.slices| == |hashes|
    && (forall i :: 0 <= i < |hashes| ==> t.slices[i].hash == hashes[i] && t.slices[i].peer == Holder(past, i))
    && (forall p :: p in t.processing <==> LastGiven(past, p).Some?)
    && (forall p :: p in t.processing ==>
                      LastGiven(past, p).value < |hashes| && t.processing[p] == hashes[LastGiven(past, p).value])
  }

  lemma HistorySnoc(past: seq<Op>, op: Op)
    ensures forall p :: LastGiven(past + [op], p) ==
                        if op.peer != p then LastGiven(past, p) else if op.Serve? then Some(op.index) else None
    ensures forall i :: Holder(past + [op], i) ==
                        match op
                        case Serve(peer, index) => if index == i then Some(peer) else Holder(past, i)
                        case Leave(peer) => if Holder(past, i) == Some(peer) then None else Holder(past, i)
  {
    assert (past + [op])[..|past|] == past;
  }

  lemma StepIsRecorded(hashes: seq<nat>, t: Tracker, past: seq<Op>, op: Op)
    requires Recorded(hashes, t, past) && Enabled(t, op)
    ensures Recorded(hashes, Apply(t, op), past + [op])
  {
    HistorySnoc(past, op);
  }

  lemma {:induction false} RunIsRecorded(hashes: seq<nat>, t: Tracker, past: seq<Op>, ops: seq<Op>)
    requires Recorded(hashes, t, past) && Legal(t, ops)
    ensures Recorded(hashes, Run(t, ops), past + ops)
    decreases |ops|
  {
    if ops == [] {
      assert past + ops == past;
    } else {
      StepIsRecorded(hashes, t, past, ops[0]);
      RunIsRecorded(hashes, Apply(t, ops[0]), past + [ops[0]], ops[1..]);
      assert past + [ops[0]] + ops[1..] == past + ops;
    }
  }

  /** In every run the owner of a slice is its last holder, and the slice to re-open is the one last handed out. */
  lemma HistoryIsRecorded(hashes: seq<nat>, ops: seq<Op>)
    requires Legal(New(hashes), ops)
    ensures Recorded(hashes, Run(New(hashes), ops), ops)
  {
    RunIsRecorded(hashes, New(hashes), [], ops);
    assert [] + ops == ops;
  }

  // ----- Departures -----

  /** The departure of the peer marks slice i unprocessed again. */
  ghost predicate Reopens(t: Tracker, peer: PeerId, i: int) {
    0 <= i < |t.slices| && t.slices[i].processed && !Without(t, peer).slices[i].processed
  }

  /** Slice i belongs to another worker than the peer. */
  predicate TakenOver(t: Tracker, peer: PeerId, i: int) {
    0 <= i < |t.slices| && t.slices[i].peer.Some? && t.slices[i].peer != Some(peer)
  }

  lemma GivenIsLast(hashes: seq<nat>, t: Tracker, past: seq<Op>, peer: PeerId)
    requires DistinctHashes(hashes) && Recorded(hashes, t, past)
    ensures Given(t, peer) == LastGiven(past, peer)
  {
    if peer in t.processing {
      var i := LastGiven(past, peer).value;
      assert t.slices[i].hash == t.processing[peer];
    }
  }

  /** A departure re-opens a slice exactly if it is processed and the one last handed to the peer that leaves. */
  lemma DepartureReopensExactly(hashes: seq<nat>, ops: seq<Op>, peer: PeerId, i: nat)
    requires DistinctHashes(hashes) && Legal(New(hashes), ops) && i < |hashes|
    ensures var t := Run(New(hashes), ops);
            && |t.slices| == |hashes| && t.slices[i].peer == Holder(ops, i)
            && (Reopens(t, peer, i) <==> t.slices[i].processed && LastGiven(ops, peer) == Some(i))
  {
    HistoryIsRecorded(hashes, ops);
    GivenIsLast(hashes, Run(New(hashes), ops), ops, peer);
  }

  /**
   After every run, a departure re-opens a slice that another worker took over if
   and only if the slice last handed to the peer is processed and now held by a
   different worker. A caller can tell before the call: the table names a processed
   slice of another owner.
   */
  lemma DepartureReopensTakenOverExactly(hashes: seq<nat>, ops: seq<Op>, peer: PeerId)
    requires DistinctHashes(hashes) && Legal(New(hashes), ops)
    ensures var t, given := Run(New(hashes), ops), LastGiven(ops, peer);
            && |t.slices| == |hashes| && (given.Some? ==> given.value < |hashes|)
            && ((exists i :: Reopens(t, peer, i) && TakenOver(t, peer, i)) <==>
                && given.Some? && t.slices[given.value].processed
                && Holder(ops, given.value).Some? && Holder(ops, given.value) != Some(peer))
            && ((exists i :: Reopens(t, peer, i) && TakenOver(t, peer, i)) <==>
                && peer in t.processing
                && exists i :: TakenOver(t, peer, i) && t.slices[i].processed && t.slices[i].hash == t.processing[peer])
  {
    var t, given := Run(New(hashes), ops), LastGiven(ops, peer);
    HistoryIsRecorded(hashes, ops);
    GivenIsLast(hashes, t, ops, peer);
    if i :| Reopens(t, peer, i) && TakenOver(t, peer, i) {
      DepartureReopensExactly(hashes, ops, peer, i);
      assert TakenOver(t, peer, i) && t.slices[i].processed && t.slices[i].hash == t.processing[peer];
    }
    if given.Some? && t.slices[given.value].processed && TakenOver(t, peer, given.value) {
      DepartureReopensExactly(hashes, ops, peer, given.value);
      assert Reopens(t, peer, given.value);
    }
    if peer in t.processing {
      assert t.slices[given.value].hash == t.processing[peer];
    }
  }

  /**
   It happens: with one slice, the second peer takes it over from the first, whose
   departure re-opens it, so that a third hand-out gives it away within the same round.
   */
  lemma DepartureReopensStolenSlice(hash: nat, first: PeerId, second: PeerId, third: PeerId)
    requires first != second
    ensures var start, stolen := New([hash]), [Serve(first, 0), Serve(second, 0)];
            && Legal(start, stolen) && Run(start, stolen).slices == [Slice(hash, Some(second), true)]
            && Legal(start, stolen + [Leave(first)])
            && Run(start, stolen + [Leave(first)]).slices == [Slice(hash, Some(second), false)]
            && Legal(start, stolen + [Leave(first), Serve(third, 0)])
            && Run(start, stolen + [Leave(first), Serve(third, 0)]).rounds == Run(start, stolen).rounds
  {
    var t0 := New([hash]);
    SingleIsServed(t0, first);
    var t1 := HandOut(Start(t0), first, 0);
    SingleIsServed(t1, second);
    var t2 := HandOut(Start(t1), second, 0);
    assert Given(t2, first) == Some(0);
    var t3 := Without(t2, first);
    SingleIsServed(t3, third);
    var t4 := HandOut(Start(t3), third, 0);
    var stolen := [Serve(first, 0), Serve(second, 0)];
    TwoThen(t0, first, second, t1, t2, []);
    assert stolen + [] == stolen;
    var left := LegalCons(t2, Leave(first), t3, []);
    TwoThen(t0, first, second, t1, t2, left);
    var again := LegalCons(t3, Serve(third, 0), t4, []);
    var both := LegalCons(t2, Leave(first), t3, again);
    TwoThen(t0, first, second, t1, t2, both);
    assert left == [Leave(first)] && both == [Leave(first), Serve(third, 0)];
  }

  lemma TwoThen(t0: Tracker, first: PeerId, second: PeerId, t1: Tracker, t2: Tracker, rest: seq<Op>)
    requires Enabled(t0, Serve(first, 0)) && Apply(t0, Serve(first, 0)) == t1
    requires Enabled(t1, Serve(second, 0)) && Apply(t1, Serve(second, 0)) == t2
    requires Legal(t2, rest)
    ensures var ops := [Serve(first, 0), Serve(second, 0)] + rest; Legal(t0, ops) && Run(t0, ops) == Run(t2, rest)
  {
    var tail := LegalCons(t1, Serve(second, 0), t2, rest);
    var ops := LegalCons(t0, Serve(first, 0), t1, tail);
    assert ops == [Serve(first, 0), Serve(second, 0)] + rest;
  }

  // ----- Thefts -----

  /**
   A theft need not hit the slowest peer: after a round in which one peer got two
   slices and another got one, a third peer takes the only slice of the other.
   */
  lemma TheftSparesTheSlowest(a: nat, b: nat, c: nat, slow: PeerId, fast: PeerId, thief: PeerId)
    requires slow != fast && thief != slow && thief != fast
    ensures var t := Tracker([Slice(a, Some(slow), true), Slice(b, Some(slow), true), Slice(c, Some(fast), true)],
                             map[slow := b, fast := c], 0);
            var round := [Serve(slow, 0), Serve(slow, 1), Serve(fast, 2)];
            && Legal(New([a, b, c]), round) && Run(New([a, b, c]), round) == t
            && OpenOwned(Start(t).slices, slow) == 2 && OpenOwned(Start(t).slices, fast) == 1
            && Enabled(t, Serve(thief, 2)) && !MostOpen(Start(t).slices, fast)
  {
    var t0 := New([a, b, c]);
    var sa, sb, sc := Slice(a, None, false), Slice(b, None, false), Slice(c, None, false);
    var ta, tb, tc := Slice(a, Some(slow), true), Slice(b, Some(slow), true), Slice(c, Some(fast), true);
    var t1 := Tracker([ta, sb, sc], map[slow := a], 0);
    var t2 := Tracker([ta, tb, sc], map[slow := b], 0);
    var t := Tracker([ta, tb, tc], map[slow := b, fast := c], 0);
    assert t0.slices == [sa, sb, sc];
    assert !t0.slices[0].processed && !t1.slices[1].processed && !t2.slices[2].processed;
    var ops := LegalCons(t2, Serve(fast, 2), t, []);
    ops := LegalCons(t1, Serve(slow, 1), t2, ops);
    ops := LegalCons(t0, Serve(slow, 0), t1, ops);
    assert ops == [Serve(slow, 0), Serve(slow, 1), Serve(fast, 2)];
    TheftIsOpen(a, b, c, slow, fast, thief);
  }

  lemma TheftIsOpen(a: nat, b: nat, c: nat, slow: PeerId, fast: PeerId, thief: PeerId)
    requires slow != fast && thief != slow && thief != fast
    ensures var t := Tracker([Slice(a, Some(slow), true), Slice(b, Some(slow), true), Slice(c, Some(fast), true)],
                             map[slow := b, fast := c], 0);
            && OpenOwned(Start(t).slices, slow) == 2 && OpenOwned(Start(t).slices, fast) == 1
            && Enabled(t, Serve(thief, 2)) && !MostOpen(Start(t).slices, fast)
  {
    OpenAgain(a, b, c, slow, fast);
    var t := Tracker([Slice(a, Some(slow), true), Slice(b, Some(slow), true), Slice(c, Some(fast), true)],
                     map[slow := b, fast := c], 0);
    var open := Start(t).slices;
    assert open == [Slice(a, Some(slow), false), Slice(b, Some(slow), false), Slice(c, Some(fast), false)];
    assert FewestOpen(open, fast) && OpenOwned(open, slow) > OpenOwned(open, fast);
    assert FirstOpen(open, fast) == Some(2) && FirstOpen(open, thief) == None;
  }

  lemma OpenAgain(a: nat, b: nat, c: nat, slow: PeerId, fast: PeerId)
    requires slow != fast
    ensures var open := [Slice(a, Some(slow), false), Slice(b, Some(slow), false), Slice(c, Some(fast), false)];
            OpenOwned(open, slow) == 2 && OpenOwned(open, fast) == 1
  {
    var x, y, z := Slice(a, Some(slow), false), Slice(b, Some(slow), false), Slice(c, Some(fast), false);
    assert [x, y, z][..2] == [x, y] && [x, y][..1] == [x];
    assert OpenOwned([x], slow) == 1 && OpenOwned([x], fast) == 0;
    assert OpenOwned([x, y], slow) == 2 && OpenOwned([x, y], fast) == 0;
  }
}
