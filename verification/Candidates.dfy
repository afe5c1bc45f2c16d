/**
 The allocator's candidate list: at most `capacity` offers, one per peer, kept
 sorted while offers arrive. Online insertion is shown to select what an offline
 choice over all offers seen would.
 */
module Candidates {
  import opened Common
  import opened Wrappers
  import opened StableSort
  import opened Sequences
  import opened HyphaResources
  import opened HyphaLeases

  datatype Offer = Offer(id: Id, price: real, resources: Resources, timeout: Time)

  datatype Candidate = Candidate(peer: PeerId, offer: Offer, score: real)

  datatype CandidatesError = Rejected | Full

  predicate LowerScore(a: Candidate, b: Candidate) {
    a.score <= b.score
  }

  function HasScore(score: real): Candidate -> bool {
    (c: Candidate) => c.score == score
  }

  lemma LowerScoreIsTotal()
    ensures TotalPreorder(LowerScore)
  {
  }

  /** The first offer of the peer in the list. */
  function Position(offers: seq<Candidate>, peer: PeerId): (position: Option<nat>)
    ensures position.Some? ==> position.value < |offers| && offers[position.value].peer == peer
    ensures position.None? ==> forall i :: 0 <= i < |offers| ==> offers[i].peer != peer
  {
    FirstIndex((c: Candidate) => c.peer == peer, offers)
  }

  function Insertion(offers: seq<Candidate>, capacity: nat, diversity: bool, c: Candidate)
    : Result<seq<Candidate>, CandidatesError>
  {
    var position := if diversity then Position(offers, c.peer) else None;
    if position.Some? then
      if c.score < offers[position.value].score then Ok(Sort(LowerScore, offers[position.value := c]))
      else Err(Rejected)
    else if |offers| < capacity then Ok(Sort(LowerScore, offers + [c]))
    else if 0 < |offers| && c.score < offers[|offers| - 1].score then Ok(Sort(LowerScore, offers[|offers| - 1 := c]))
    else Err(Full)
  }

  class CandidateList {
    var offers: seq<Candidate>
    const capacity: nat
    const diversity: bool

    constructor (capacity: nat, diversity: bool)
      ensures this.capacity == capacity && this.diversity == diversity && offers == []
    {
      this.capacity := capacity;
      this.diversity := diversity;
      offers := [];
    }

    method TryInsert(candidate: Candidate) returns (result: Result<(), CandidatesError>)
      modifies this
      ensures match Insertion(old(offers), capacity, diversity, candidate)
              case Ok(after) => result == Ok(()) && offers == after
              case Err(e) => result == Err(e) && offers == old(offers)
    {
      if diversity {
        var position := Position(offers, candidate.peer);
        if position.Some? {
          if candidate.score < offers[position.value].score {
            offers := offers[position.value := candidate];
            SortOffers();
            return Ok(());
          }
          return Err(Rejected);
        }
      }
      if |offers| < capacity {
        offers := offers + [candidate];
        SortOffers();
        return Ok(());
      }
      if 0 < |offers| && candidate.score < offers[|offers| - 1].score {
        offers := offers[|offers| - 1 := candidate];
        SortOffers();
        return Ok(());
      }
      result := Err(Full);
    }

    /** Best score first; the same offers as before, those of equal score in the order they had. */
    method SortOffers()
      modifies this
      ensures forall i, j :: 0 <= i < j < |offers| ==> offers[i].score <= offers[j].score
      ensures multiset(offers) == multiset(old(offers))
      ensures forall score :: Filter(HasScore(score), offers) == Filter(HasScore(score), old(offers))
      ensures offers == Sort(LowerScore, old(offers))
    {
      ghost var before := offers;
      offers := Sort(LowerScore, offers);
      LowerScoreIsTotal();
      SortSorted(LowerScore, before);
      SortElements(LowerScore, before);
      assert forall i, j :: 0 <= i < j < |offers| ==> LowerScore(offers[i], offers[j]);
      forall score ensures Filter(HasScore(score), offers) == Filter(HasScore(score), before) {
        SortStable(LowerScore, before, HasScore(score));
      }
    }
  }

  // ----- The offline view of everything seen -----

  /** The list after all of `seen` has been offered. */
  function After(capacity: nat, seen: seq<Candidate>): seq<Candidate> {
    if seen == [] then []
    else
      var before := After(capacity, seen[..|seen| - 1]);
      match Insertion(before, capacity, true, seen[|seen| - 1])
      case Ok(after) => after
      case Err(_) => before
  }

  /** The peer's best offer, the earliest one among equals. */
  function Best(seen: seq<Candidate>, peer: PeerId): Option<Candidate> {
    if seen == [] then None
    else
      var before, last := Best(seen[..|seen| - 1], peer), seen[|seen| - 1];
      if last.peer == peer && (before.None? || last.score < before.value.score) then Some(last) else before
  }

  function Peers(seen: seq<Candidate>): set<PeerId> {
    set c | c in seen :: c.peer
  }

  /** `Best` is the least score of the peer, at its first occurrence, and exists for exactly the peers seen. */
  lemma {:induction false} BestIsLeast(seen: seq<Candidate>, peer: PeerId)
    ensures Best(seen, peer).Some? <==> peer in Peers(seen)
    ensures Best(seen, peer).Some? ==>
              var best := Best(seen, peer).value;
              && best.peer == peer
              && (exists i :: 0 <= i < |seen| && seen[i] == best
                              && forall j :: 0 <= j < i && seen[j].peer == peer ==> best.score < seen[j].score)
              && (forall i :: 0 <= i < |seen| && seen[i].peer == peer ==> best.score <= seen[i].score)
  {
    if seen != [] {
      var before, last := seen[..|seen| - 1], seen[|seen| - 1];
      BestIsLeast(before, peer);
      assert seen == before + [last];
      if Best(before, peer).Some? {
        var i :| 0 <= i < |before| && before[i] == Best(before, peer).value
                  && forall j :: 0 <= j < i && before[j].peer == peer ==>
                                   Best(before, peer).value.score < before[j].score;
        assert seen[i] == before[i];
      }
      assert seen[|seen| - 1] == last;
    }
  }

  /** No peer occurs twice. */
  ghost predicate Distinct(offers: seq<Candidate>) {
    && (forall a, b :: a in offers && b in offers && a.peer == b.peer ==> a == b)
    && (forall a :: a in offers ==> multiset(offers)[a] == 1)
  }

  /** `offers` are the `capacity` best peers of `seen`, each with its best offer, in any order. */
  ghost predicate Chosen(capacity: nat, seen: seq<Candidate>, offers: seq<Candidate>) {
    && Distinct(offers) && |offers| <= capacity
    && (forall c :: c in offers ==> Best(seen, c.peer) == Some(c))
    && (forall p :: Best(seen, p).Some? && p !in Peers(offers) ==>
                      |offers| == capacity && forall c :: c in offers ==> c.score <= Best(seen, p).value.score)
  }

  ghost predicate Selected(capacity: nat, seen: seq<Candidate>, offers: seq<Candidate>) {
    Chosen(capacity, seen, offers) && Sorted(LowerScore, offers)
  }

  lemma SortingSelects(capacity: nat, seen: seq<Candidate>, offers: seq<Candidate>)
    requires Chosen(capacity, seen, offers)
    ensures Selected(capacity, seen, Sort(LowerScore, offers))
  {
    var sorted := Sort(LowerScore, offers);
    SortSorted(LowerScore, offers);
    SortElements(LowerScore, offers);
    assert Peers(sorted) == Peers(offers);
  }

  lemma DistinctReplace(offers: seq<Candidate>, i: nat, c: Candidate)
    requires Distinct(offers) && i < |offers|
    requires c.peer == offers[i].peer || c.peer !in Peers(offers)
    ensures Distinct(offers[i := c])
    ensures forall x :: x in offers[i := c] <==> x == c || (x in offers && x != offers[i])
  {
    var after := offers[i := c];
    assert multiset(after) == multiset(offers) - multiset{offers[i]} + multiset{c};
    assert multiset(offers)[offers[i]] == 1;
    forall x ensures x in after <==> x == c || (x in offers && x != offers[i]) {
      assert x in after <==> multiset(after)[x] > 0;
      assert x in offers <==> multiset(offers)[x] > 0;
    }
  }

  lemma PeersSnoc(seen: seq<Candidate>, c: Candidate)
    ensures Peers(seen + [c]) == Peers(seen) + {c.peer}
    ensures |Peers(seen + [c])| == |Peers(seen)| + if c.peer in Peers(seen) then 0 else 1
  {
    assert Peers(seen + [c]) == Peers(seen) + {c.peer};
    if c.peer in Peers(seen) {
      assert Peers(seen) + {c.peer} == Peers(seen);
    }
  }

  lemma BestSnoc(seen: seq<Candidate>, c: Candidate, peer: PeerId)
    ensures Best(seen + [c], peer) ==
            if c.peer == peer && (Best(seen, peer).None? || c.score < Best(seen, peer).value.score) then Some(c)
            else Best(seen, peer)
  {
    assert (seen + [c])[..|seen|] == seen;
  }

  lemma BestOfOthers(seen: seq<Candidate>, c: Candidate)
    ensures forall p :: p != c.peer ==> Best(seen + [c], p) == Best(seen, p)
  {
    forall p | p != c.peer ensures Best(seen + [c], p) == Best(seen, p) {
      BestSnoc(seen, c, p);
    }
  }

  lemma ImproveKeepsChosen(capacity: nat, seen: seq<Candidate>, offers: seq<Candidate>, i: nat, c: Candidate)
    requires Chosen(capacity, seen, offers)
    requires i < |offers| && offers[i].peer == c.peer && c.score < offers[i].score
    ensures Chosen(capacity, seen + [c], offers[i := c])
  {
    var after := offers[i := c];
    assert offers[i] in offers;
    DistinctReplace(offers, i, c);
    BestOfOthers(seen, c);
    BestSnoc(seen, c, c.peer);
    assert c in after && forall x :: x in offers ==> x in after || x.peer == c.peer;
    assert Peers(after) == Peers(offers);
  }

  lemma AppendKeepsChosen(capacity: nat, seen: seq<Candidate>, offers: seq<Candidate>, c: Candidate)
    requires Chosen(capacity, seen, offers) && c.peer !in Peers(offers) && |offers| < capacity
    ensures Chosen(capacity, seen + [c], offers + [c])
  {
    BestOfOthers(seen, c);
    BestSnoc(seen, c, c.peer);
    assert c in offers + [c];
    assert Peers(offers + [c]) == Peers(offers) + {c.peer};
  }

  lemma EvictKeepsChosen(capacity: nat, seen: seq<Candidate>, offers: seq<Candidate>, c: Candidate)
    requires Selected(capacity, seen, offers) && c.peer !in Peers(offers) && |offers| == capacity > 0
    requires c.score < offers[capacity - 1].score
    ensures Chosen(capacity, seen + [c], offers[capacity - 1 := c])
  {
    var last := offers[capacity - 1];
    var after := offers[capacity - 1 := c];
    assert last in offers;
    DistinctReplace(offers, capacity - 1, c);
    BestOfOthers(seen, c);
    BestSnoc(seen, c, c.peer);
    forall x | x in offers ensures x.score <= last.score {
      var i :| 0 <= i < capacity && offers[i] == x;
    }
    forall p | Best(seen + [c], p).Some? && p !in Peers(after)
      ensures forall x :: x in after ==> x.score <= Best(seen + [c], p).value.score
    {
      assert c in after && p != c.peer;
      if p in Peers(offers) {
        var x :| x in offers && x.peer == p;
        assert x == last;
      }
    }
  }

  lemma RefuseKeepsChosen(capacity: nat, seen: seq<Candidate>, offers: seq<Candidate>, c: Candidate)
    requires Chosen(capacity, seen, offers)
    requires if c.peer in Peers(offers) then forall x :: x in offers && x.peer == c.peer ==> x.score <= c.score
             else |offers| == capacity && forall x :: x in offers ==> x.score <= c.score
    ensures Chosen(capacity, seen + [c], offers)
  {
    BestOfOthers(seen, c);
    BestSnoc(seen, c, c.peer);
  }

  /** One more offer keeps the list the best selection of everything seen. */
  lemma InsertionSelects(capacity: nat, seen: seq<Candidate>, offers: seq<Candidate>, c: Candidate)
    requires 0 < capacity && Selected(capacity, seen, offers)
    ensures match Insertion(offers, capacity, true, c)
            case Ok(after) => Selected(capacity, seen + [c], after)
            case Err(_) => Selected(capacity, seen + [c], offers)
  {
    var position := Position(offers, c.peer);
    var last := |offers| - 1;
    if position.Some? {
      var i := position.value;
      assert offers[i] in offers;
      if c.score < offers[i].score {
        ImproveKeepsChosen(capacity, seen, offers, i, c);
        SortingSelects(capacity, seen + [c], offers[i := c]);
      } else {
        RefuseKeepsChosen(capacity, seen, offers, c);
      }
    } else if |offers| < capacity {
      AppendKeepsChosen(capacity, seen, offers, c);
      SortingSelects(capacity, seen + [c], offers + [c]);
    } else if c.score < offers[last].score {
      EvictKeepsChosen(capacity, seen, offers, c);
      SortingSelects(capacity, seen + [c], offers[last := c]);
    } else {
      RefuseKeepsChosen(capacity, seen, offers, c);
    }
  }

  lemma {:induction false} AfterSelects(capacity: nat, seen: seq<Candidate>)
    requires 0 < capacity
    ensures Selected(capacity, seen, After(capacity, seen))
  {
    if seen != [] {
      var before := seen[..|seen| - 1];
      AfterSelects(capacity, before);
      InsertionSelects(capacity, before, After(capacity, before), seen[|seen| - 1]);
      assert before + [seen[|seen| - 1]] == seen;
    }
  }

  // ----- The scores are the k smallest per-peer minima -----

  /** The peers whose best score is below `score`, and those at or below it. */
  ghost function Below(seen: seq<Candidate>, score: real): set<PeerId> {
    set p | p in Peers(seen) && Best(seen, p).Some? && Best(seen, p).value.score < score
  }

  ghost function AtOrBelow(seen: seq<Candidate>, score: real): set<PeerId> {
    set p | p in Peers(seen) && Best(seen, p).Some? && Best(seen, p).value.score <= score
  }

  lemma {:induction false} DistinctCount(offers: seq<Candidate>)
    requires Distinct(offers)
    ensures |Peers(offers)| == |offers|
  {
    if offers != [] {
      var before, last := offers[..|offers| - 1], offers[|offers| - 1];
      assert offers == before + [last];
      assert multiset(offers)[last] == multiset(before)[last] + 1;
      DistinctPrefix(offers, |offers| - 1);
      DistinctCount(before);
      assert Peers(offers) == Peers(before) + {last.peer};
      assert last !in before && forall x :: x in before ==> x in offers;
    }
  }

  lemma DistinctPrefix(offers: seq<Candidate>, n: nat)
    requires Distinct(offers) && n <= |offers|
    ensures Distinct(offers[..n])
  {
    assert offers == offers[..n] + offers[n..];
    forall a | a in offers[..n] ensures multiset(offers[..n])[a] == 1 {
      assert multiset(offers)[a] == multiset(offers[..n])[a] + multiset(offers[n..])[a];
    }
  }

  lemma AfterSize(capacity: nat, seen: seq<Candidate>)
    requires 0 < capacity
    ensures |After(capacity, seen)| == (if |Peers(seen)| <= capacity then |Peers(seen)| else capacity)
    ensures |After(capacity, seen)| < capacity ==> Peers(After(capacity, seen)) == Peers(seen)
  {
    var offers := After(capacity, seen);
    AfterSelects(capacity, seen);
    DistinctCount(offers);
    forall p ensures Best(seen, p).Some? <==> p in Peers(seen) { BestIsLeast(seen, p); }
    assert |offers| <= capacity && Peers(offers) <= Peers(seen);
    Cardinality(Peers(offers), Peers(seen));
    if |offers| < capacity {
      forall p | p in Peers(seen) ensures p in Peers(offers) {
        assert Best(seen, p).Some?;
      }
      assert Peers(seen) == Peers(offers);
    } else {
      assert capacity == |offers| == |Peers(offers)| <= |Peers(seen)|;
    }
  }

  /**
   After any offers, the list has one entry per peer up to its capacity, each the
   best its peer ever offered, and the i-th score is the i-th smallest of all
   peers' best scores: at most i peers are below it and more than i at or below
   it, counting those rejected or evicted on the way.
   */
  lemma OnlineIsOffline(capacity: nat, seen: seq<Candidate>)
    requires 0 < capacity
    ensures var offers := After(capacity, seen);
            && |offers| == (if |Peers(seen)| <= capacity then |Peers(seen)| else capacity)
            && |Peers(offers)| == |offers|
            && (forall c :: c in offers ==> Best(seen, c.peer) == Some(c))
            && (forall i :: 0 <= i < |offers| ==>
                              |Below(seen, offers[i].score)| <= i < |AtOrBelow(seen, offers[i].score)|)
  {
    var offers := After(capacity, seen);
    AfterSelects(capacity, seen);
    AfterSize(capacity, seen);
    DistinctCount(offers);
    forall i | 0 <= i < |offers|
      ensures |Below(seen, offers[i].score)| <= i < |AtOrBelow(seen, offers[i].score)|
    {
      RankOf(capacity, seen, offers, i);
    }
  }

  lemma RankOf(capacity: nat, seen: seq<Candidate>, offers: seq<Candidate>, i: nat)
    requires Selected(capacity, seen, offers) && i < |offers|
    ensures |Below(seen, offers[i].score)| <= i < |AtOrBelow(seen, offers[i].score)|
  {
    var score := offers[i].score;
    DistinctPrefix(offers, i);
    DistinctCount(offers[..i]);
    DistinctPrefix(offers, i + 1);
    DistinctCount(offers[..i + 1]);
    assert offers[i] in offers;
    forall p | p in Below(seen, score) ensures p in Peers(offers[..i]) {
      BelowIsEarlier(capacity, seen, offers, i, p);
    }
    Cardinality(Below(seen, score), Peers(offers[..i]));
    forall p | p in Peers(offers[..i + 1]) ensures p in AtOrBelow(seen, score) {
      EarlierIsAtOrBelow(capacity, seen, offers, i, p);
    }
    Cardinality(Peers(offers[..i + 1]), AtOrBelow(seen, score));
  }

  lemma EarlierIsAtOrBelow(capacity: nat, seen: seq<Candidate>, offers: seq<Candidate>, i: nat, p: PeerId)
    requires Selected(capacity, seen, offers) && i < |offers| && p in Peers(offers[..i + 1])
    ensures p in AtOrBelow(seen, offers[i].score)
  {
    var c :| c in offers[..i + 1] && c.peer == p;
    var j :| 0 <= j < i + 1 && offers[..i + 1][j] == c;
    assert offers[j] == c && c in offers;
    assert j < i ==> LowerScore(offers[j], offers[i]);
    BestIsLeast(seen, p);
  }

  lemma BelowIsEarlier(capacity: nat, seen: seq<Candidate>, offers: seq<Candidate>, i: nat, p: PeerId)
    requires Selected(capacity, seen, offers) && i < |offers| && p in Below(seen, offers[i].score)
    ensures p in Peers(offers[..i])
  {
    var best := Best(seen, p).value;
    assert offers[i] in offers && best.score < offers[i].score;
    var c :| c in offers && c.peer == p;
    assert c == best;
    var j :| 0 <= j < |offers| && offers[j] == c;
    assert i <= j ==> LowerScore(offers[i], offers[j]);
    assert offers[..i][j] == c;
  }

  lemma {:induction false} Cardinality<T>(a: set<T>, b: set<T>)
    requires a <= b
    ensures |a| <= |b| && (|a| == |b| ==> a == b)
    decreases a
  {
    if a != {} {
      var x :| x in a;
      Cardinality(a - {x}, b - {x});
    }
  }

  // ----- Refusals -----

  /**
   A diverse list refuses an offer as rejected if and only if its peer already has one
   at least as good, and as full if and only if its peer has none, there is no room and
   nothing in the list is worse.
   */
  lemma DiverseRefusals(capacity: nat, seen: seq<Candidate>, offers: seq<Candidate>, c: Candidate)
    requires Selected(capacity, seen, offers)
    ensures Insertion(offers, capacity, true, c) == Err(Rejected) <==>
            exists x :: x in offers && x.peer == c.peer && x.score <= c.score
    ensures Insertion(offers, capacity, true, c) == Err(Full) <==>
            |offers| >= capacity && forall x :: x in offers ==> x.peer != c.peer && x.score <= c.score
  {
    var position := Position(offers, c.peer);
    if position.Some? {
      var own := offers[position.value];
      forall x | x in offers && x.peer == c.peer ensures x == own {
        assert Best(seen, x.peer) == Some(x) && Best(seen, own.peer) == Some(own);
      }
    }
    forall x | x in offers ensures x.score <= offers[|offers| - 1].score {
      var i :| 0 <= i < |offers| && offers[i] == x;
      assert i < |offers| - 1 ==> LowerScore(offers[i], offers[|offers| - 1]);
    }
  }

  // ----- The list when peers may have several entries -----

  /** What a list without diversity keeps, and what it refuses or evicts, after all of `seen`. */
  function PlainAfter(capacity: nat, seen: seq<Candidate>): (seq<Candidate>, seq<Candidate>) {
    if seen == [] then ([], [])
    else
      var (kept, dropped) := PlainAfter(capacity, seen[..|seen| - 1]);
      PlainStep(capacity, kept, dropped, seen[|seen| - 1])
  }

  ghost predicate PlainSelected(capacity: nat, seen: seq<Candidate>, kept: seq<Candidate>, dropped: seq<Candidate>) {
    && Sorted(LowerScore, kept)
    && |kept| == (if |seen| <= capacity then |seen| else capacity)
    && multiset(kept) + multiset(dropped) == multiset(seen)
    && forall k, d :: k in kept && d in dropped ==> k.score <= d.score
  }

  /** What one more offer does to the two. */
  function PlainStep(capacity: nat, kept: seq<Candidate>, dropped: seq<Candidate>, c: Candidate)
    : (seq<Candidate>, seq<Candidate>)
  {
    match Insertion(kept, capacity, false, c)
    case Err(_) => (kept, dropped + [c])
    case Ok(after) => (after, if |kept| < capacity || kept == [] then dropped else dropped + [kept[|kept| - 1]])
  }

  /** Without diversity the list is, in order of score, the best of all offers, up to its capacity. */
  lemma {:induction false} PlainListIsBest(capacity: nat, seen: seq<Candidate>)
    ensures var (kept, dropped) := PlainAfter(capacity, seen); PlainSelected(capacity, seen, kept, dropped)
  {
    if seen != [] {
      var front, c := seen[..|seen| - 1], seen[|seen| - 1];
      assert front + [c] == seen;
      PlainListIsBest(capacity, front);
      PlainInsertion(capacity, front, PlainAfter(capacity, front).0, PlainAfter(capacity, front).1, c);
    }
  }

  lemma LastIsWorst(kept: seq<Candidate>)
    requires Sorted(LowerScore, kept) && kept != []
    ensures forall k :: k in kept ==> k.score <= kept[|kept| - 1].score
  {
    forall k | k in kept ensures k.score <= kept[|kept| - 1].score {
      var i :| 0 <= i < |kept| && kept[i] == k;
      assert i < |kept| - 1 ==> LowerScore(kept[i], kept[|kept| - 1]);
    }
  }

  lemma PlainSizes(capacity: nat, seen: seq<Candidate>, kept: seq<Candidate>, dropped: seq<Candidate>)
    requires PlainSelected(capacity, seen, kept, dropped)
    ensures |kept| + |dropped| == |seen|
  {
    assert |multiset(kept) + multiset(dropped)| == |multiset(seen)|;
  }

  lemma PlainAppend(capacity: nat, seen: seq<Candidate>, kept: seq<Candidate>, dropped: seq<Candidate>, c: Candidate)
    requires PlainSelected(capacity, seen, kept, dropped) && |kept| < capacity
    ensures PlainSelected(capacity, seen + [c], Sort(LowerScore, kept + [c]), dropped)
  {
    PlainSizes(capacity, seen, kept, dropped);
    assert dropped == [];
    LowerScoreIsTotal();
    SortSorted(LowerScore, kept + [c]);
    SortElements(LowerScore, kept + [c]);
  }

  lemma PlainEvict(capacity: nat, seen: seq<Candidate>, kept: seq<Candidate>, dropped: seq<Candidate>, c: Candidate)
    requires PlainSelected(capacity, seen, kept, dropped) && |kept| == capacity && kept != []
    requires c.score < kept[|kept| - 1].score
    ensures var n := |kept| - 1;
            PlainSelected(capacity, seen + [c], Sort(LowerScore, kept[n := c]), dropped + [kept[n]])
  {
    var n := |kept| - 1;
    var replaced := kept[n := c];
    LastIsWorst(kept);
    LowerScoreIsTotal();
    SortSorted(LowerScore, replaced);
    SortElements(LowerScore, replaced);
    ReplaceLast(kept, c);
    SwapOut(multiset(kept[..n]), kept[n], c, multiset(dropped), multiset(seen));
    assert multiset(dropped + [kept[n]]) == multiset(dropped) + multiset{kept[n]};
    forall k, d | k in replaced && d in dropped + [kept[n]] ensures k.score <= d.score {
      assert k == c || k in kept;
      assert d == kept[n] || d in dropped;
    }
  }

  lemma ReplaceLast(kept: seq<Candidate>, c: Candidate)
    requires kept != []
    ensures var n := |kept| - 1;
            && multiset(kept) == multiset(kept[..n]) + multiset{kept[n]}
            && multiset(kept[n := c]) == multiset(kept[..n]) + multiset{c}
            && kept[n] in kept && forall k :: k in kept[n := c] ==> k == c || k in kept
  {
    var n := |kept| - 1;
    assert kept == kept[..n] + [kept[n]] && kept[n := c] == kept[..n] + [c];
  }

  lemma SwapOut<T>(front: multiset<T>, last: T, c: T, dropped: multiset<T>, seen: multiset<T>)
    requires front + multiset{last} + dropped == seen
    ensures front + multiset{c} + (dropped + multiset{last}) == seen + multiset{c}
  {
  }

  lemma PlainRefuse(capacity: nat, seen: seq<Candidate>, kept: seq<Candidate>, dropped: seq<Candidate>, c: Candidate)
    requires PlainSelected(capacity, seen, kept, dropped) && |kept| == capacity
    requires kept != [] ==> kept[|kept| - 1].score <= c.score
    ensures PlainSelected(capacity, seen + [c], kept, dropped + [c])
  {
    PlainSizes(capacity, seen, kept, dropped);
    if kept != [] {
      LastIsWorst(kept);
    }
  }

  lemma PlainInsertion(capacity: nat, seen: seq<Candidate>, kept: seq<Candidate>, dropped: seq<Candidate>, c: Candidate)
    requires PlainSelected(capacity, seen, kept, dropped)
    ensures var (after, out) := PlainStep(capacity, kept, dropped, c);
            PlainSelected(capacity, seen + [c], after, out)
  {
    PlainSizes(capacity, seen, kept, dropped);
    if |kept| < capacity {
      PlainAppend(capacity, seen, kept, dropped, c);
    } else if kept != [] && c.score < kept[|kept| - 1].score {
      PlainEvict(capacity, seen, kept, dropped, c);
    } else {
      PlainRefuse(capacity, seen, kept, dropped, c);
    }
  }
}
