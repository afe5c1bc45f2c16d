/**
 The worker pool: one task that reconciles membership on every tick of its timer
 and drops members whose worker handle completes.
 */
module Pool {
  import opened Common
  import opened Wrappers
  import opened StableSort
  import opened HyphaResources
  import opened HyphaLeases
  import opened Sequences

  datatype Descriptor = Descriptor(peer: PeerId, resources: Resources, joinedAt: Time)

  datatype Config = Config(min: nat, target: nat, grace: Time)

  datatype AllocatorError = NoOffersReceived | Timeout | Other

  type Outcome = Result<seq<Descriptor>, AllocatorError>

  /** What has happened to the pool so far, in order. */
  datatype Entry = Ticked(now: Time, count: nat) | Joined(worker: Descriptor) | Exited(peer: PeerId)

  /** `joins` is what was sent on the channel of new workers; `log` is the history. */
  datatype State = State(
    members: seq<Descriptor>, watchers: multiset<PeerId>, joins: seq<Descriptor>,
    belowMinSince: Option<Time>, expired: bool, log: seq<Entry>)

  /** A timer tick with what the allocator would answer, or the completion of one worker handle. */
  datatype Event = Tick(now: Time, outcome: Outcome) | Exit(peer: PeerId)

  const INIT := State([], multiset{}, [], None, false, [])

  /** Oldest first, then by peer. */
  predicate Leq(a: Descriptor, b: Descriptor) {
    a.joinedAt < b.joinedAt || (a.joinedAt == b.joinedAt && a.peer <= b.peer)
  }

  function NotOf(peer: PeerId): Descriptor -> bool {
    (d: Descriptor) => d.peer != peer
  }

  function PeersOf(s: seq<Descriptor>): (peers: seq<PeerId>)
    ensures |peers| == |s| && forall i :: 0 <= i < |s| ==> peers[i] == s[i].peer
  {
    seq(|s|, i requires 0 <= i < |s| => s[i].peer)
  }

  function Peers(s: seq<Descriptor>): multiset<PeerId> {
    multiset(PeersOf(s))
  }

  function Joins(s: seq<Descriptor>): (log: seq<Entry>)
    ensures |log| == |s| && forall i :: 0 <= i < |s| ==> log[i] == Joined(s[i])
  {
    seq(|s|, i requires 0 <= i < |s| => Joined(s[i]))
  }

  // ----- One event -----

  /** The grace period: expires once a tick finds the pool below `min` for long enough. */
  function Watch(c: Config, s: State, now: Time): State {
    var ticked := s.(log := s.log + [Ticked(now, |s.members|)]);
    if |s.members| >= c.min then ticked.(belowMinSince := None)
    else match s.belowMinSince
      case None => ticked.(belowMinSince := Some(now))
      case Some(start) => ticked.(expired := start + c.grace <= now)
  }

  /** Adds an allocated batch and announces it in the order it was allocated. */
  function Admit(s: State, batch: seq<Descriptor>): State {
    State(
      if batch == [] then s.members else Sort(Leq, s.members + batch), s.watchers + Peers(batch), s.joins + batch,
      s.belowMinSince, s.expired, s.log + Joins(batch))
  }

  function Step(c: Config, s: State, e: Event): State {
    match e
    case Exit(peer) =>
      s.(members := Filter(NotOf(peer), s.members), watchers := s.watchers - multiset{peer},
         log := s.log + [Exited(peer)])
    case Tick(now, outcome) =>
      var w := Watch(c, s, now);
      if !w.expired && |s.members| < c.target && outcome.Ok? then Admit(w, outcome.value) else w
  }

  ghost predicate Enabled(s: State, e: Event) {
    && !s.expired
    && (e.Exit? ==> e.peer in s.watchers)
    && (e.Tick? ==> forall i :: 0 <= i < |s.log| && s.log[i].Ticked? ==> s.log[i].now <= e.now)
  }

  function Run(c: Config, s: State, events: seq<Event>): State
    decreases |events|
  {
    if events == [] then s else Run(c, Step(c, s, events[0]), events[1..])
  }

  ghost predicate Legal(c: Config, s: State, events: seq<Event>)
    decreases |events|
  {
    events != [] ==> Enabled(s, events[0]) && Legal(c, Step(c, s, events[0]), events[1..])
  }

  // ----- What the history says the state should be -----

  /** The workers that joined and whose peer has not exited since, in order of arrival. */
  function Alive(log: seq<Entry>): seq<Descriptor> {
    if log == [] then []
    else
      var before, last := Alive(log[..|log| - 1]), log[|log| - 1];
      match last
      case Ticked(_, _) => before
      case Joined(worker) => before + [worker]
      case Exited(peer) => Filter(NotOf(peer), before)
  }

  function Arrivals(log: seq<Entry>): seq<Descriptor> {
    if log == [] then []
    else
      var before, last := Arrivals(log[..|log| - 1]), log[|log| - 1];
      if last.Joined? then before + [last.worker] else before
  }

  /** The handles that are still running. */
  function Running(log: seq<Entry>): multiset<PeerId> {
    if log == [] then multiset{}
    else
      var before, last := Running(log[..|log| - 1]), log[|log| - 1];
      match last
      case Ticked(_, _) => before
      case Joined(worker) => before + multiset{worker.peer}
      case Exited(peer) => before - multiset{peer}
  }

  /** Every tick from entry `i` on, which is one of them, found the pool below `min`. */
  ghost predicate Below(min: nat, log: seq<Entry>, i: int) {
    && 0 <= i < |log| && log[i].Ticked?
    && forall k :: i <= k < |log| && log[k].Ticked? ==> log[k].count < min
  }

  /** Two ticks at least the grace period apart, with every tick from one to the other below `min`. */
  ghost predicate Outage(c: Config, log: seq<Entry>, i: int, j: int) {
    && 0 <= i < j < |log| && log[j].Ticked? && Below(c.min, log[..j + 1], i)
    && log[i].now + c.grace <= log[j].now
  }

  /** When the latest unbroken stretch of ticks below `min` began. */
  function Since(min: nat, log: seq<Entry>): Option<Time> {
    if log == [] then None
    else
      var before, last := Since(min, log[..|log| - 1]), log[|log| - 1];
      if !last.Ticked? then before
      else if last.count >= min then None
      else if before.Some? then before
      else Some(last.now)
  }

  // ----- The reconciliation loop -----

  class WorkerPool {
    const config: Config
    var members: seq<Descriptor>
    var watchers: multiset<PeerId>
    var joins: seq<Descriptor>
    var belowMinSince: Option<Time>
    ghost var expired: bool
    ghost var log: seq<Entry>

    ghost function Abstract(): State
      reads this
    {
      State(members, watchers, joins, belowMinSince, expired, log)
    }

    constructor (config: Config)
      ensures this.config == config && Abstract() == INIT
    {
      this.config := config;
      members, watchers, joins, belowMinSince, expired, log := [], multiset{}, [], None, false, [];
    }

    /** One tick. An error ends the loop. */
    method Tick(now: Time, outcome: Outcome) returns (result: Result<(), string>)
      requires !expired
      modifies this
      ensures Abstract() == Step(config, old(Abstract()), Event.Tick(now, outcome))
      ensures result.Err? <==> expired
    {
      var currentCount := |members|;
      log := log + [Ticked(now, currentCount)];
      if currentCount < config.min {
        match belowMinSince {
          case Some(start) =>
            if start + config.grace <= now {
              expired := true;
              return Err("grace period expired");
            }
          case None =>
            belowMinSince := Some(now);
        }
      } else if belowMinSince.Some? {
        belowMinSince := None;
      }
      assert Abstract() == Watch(config, old(Abstract()), now);
      if currentCount < config.target {
        match outcome {
          case Ok(workers) => Join(workers);
          case Err(_) =>
        }
      }
      return Ok(());
    }

    /** Joins one allocated batch: publishes the sorted membership, then announces each worker. */
    method Join(workers: seq<Descriptor>)
      modifies this
      ensures Abstract() == Admit(old(Abstract()), workers)
    {
      if workers == [] {
        assert joins + [] == joins && log + Joins([]) == log && Peers([]) == multiset{};
        return;
      }
      Supervise(workers);
      members := Sort(Leq, members + workers);
      Announce(workers);
      log := log + Joins(workers);
    }

    /** Starts one watcher for the handle of each worker. */
    method Supervise(workers: seq<Descriptor>)
      modifies this`watchers
      ensures watchers == old(watchers) + Peers(workers)
    {
      for i := 0 to |workers|
        invariant watchers == old(watchers) + Peers(workers[..i])
      {
        watchers := watchers + multiset{workers[i].peer};
        assert PeersOf(workers[..i + 1]) == PeersOf(workers[..i]) + [workers[i].peer];
      }
      assert workers[..|workers|] == workers;
    }

    method Announce(workers: seq<Descriptor>)
      modifies this`joins
      ensures joins == old(joins) + workers
    {
      for i := 0 to |workers|
        invariant joins == old(joins) + workers[..i]
      {
        joins := joins + [workers[i]];
      }
    }

    method Retain(peer: PeerId) returns (kept: seq<Descriptor>)
      ensures kept == Filter(NotOf(peer), members)
    {
      kept := [];
      for i := 0 to |members|
        invariant kept + Filter(NotOf(peer), members[i..]) == Filter(NotOf(peer), members)
      {
        if members[i].peer != peer {
          kept := kept + [members[i]];
        }
      }
    }

    /** A worker handle of this peer completed. */
    method Exit(peer: PeerId)
      requires peer in watchers
      modifies this
      ensures Abstract() == Step(config, old(Abstract()), Event.Exit(peer))
    {
      watchers := watchers - multiset{peer};
      members := Retain(peer);
      log := log + [Exited(peer)];
    }
  }

  lemma PeersConcat(s: seq<Descriptor>, t: seq<Descriptor>)
    ensures Peers(s + t) == Peers(s) + Peers(t)
  {
    assert PeersOf(s + t) == PeersOf(s) + PeersOf(t);
  }

  // ----- Members are the stable oldest-first order of the workers that are alive -----

  lemma LeqIsTotal()
    ensures TotalPreorder(Leq)
  {
  }

  /** Inserting elements that are not equals gives the same order either way. */
  lemma {:induction false} InsertCommutes<T(!new)>(leq: (T, T) -> bool, x: T, y: T, u: seq<T>)
    requires TotalPreorder(leq) && Sorted(leq, u) && !leq(x, y)
    ensures Insert(leq, x, Insert(leq, y, u)) == Insert(leq, y, Insert(leq, x, u))
  {
    if u == [] {
    } else if leq(y, u[0]) {
      assert ([y] + u)[1..] == u;
      assert leq(y, Insert(leq, x, u)[0]);
    } else {
      InsertCommutes(leq, x, y, u[1..]);
      assert ([u[0]] + Insert(leq, x, u[1..]))[1..] == Insert(leq, x, u[1..]);
      assert ([u[0]] + Insert(leq, y, u[1..]))[1..] == Insert(leq, y, u[1..]);
    }
  }

  lemma {:induction false} SortInsertAppend<T(!new)>(leq: (T, T) -> bool, x: T, s: seq<T>, t: seq<T>)
    requires TotalPreorder(leq)
    ensures Sort(leq, Insert(leq, x, s) + t) == Insert(leq, x, Sort(leq, s + t))
  {
    if s == [] || leq(x, s[0]) {
      assert (([x] + s) + t)[1..] == s + t;
    } else {
      SortInsertAppend(leq, x, s[1..], t);
      assert ([s[0]] + Insert(leq, x, s[1..]) + t)[1..] == Insert(leq, x, s[1..]) + t;
      assert (s + t)[1..] == s[1..] + t;
      SortSorted(leq, s[1..] + t);
      InsertCommutes(leq, x, s[0], Sort(leq, s[1..] + t));
    }
  }

  /** Re-sorting a sorted membership after an append is the same as sorting everything at once. */
  lemma {:induction false} SortTwice<T(!new)>(leq: (T, T) -> bool, s: seq<T>, t: seq<T>)
    requires TotalPreorder(leq)
    ensures Sort(leq, Sort(leq, s) + t) == Sort(leq, s + t)
  {
    if s == [] {
    } else {
      SortTwice(leq, s[1..], t);
      SortInsertAppend(leq, s[0], Sort(leq, s[1..]), t);
      assert (s + t)[1..] == s[1..] + t;
    }
  }

  lemma {:induction false} FilterInsert<T(!new)>(leq: (T, T) -> bool, p: T -> bool, x: T, s: seq<T>)
    requires TotalPreorder(leq) && Sorted(leq, s)
    ensures Filter(p, Insert(leq, x, s)) == if p(x) then Insert(leq, x, Filter(p, s)) else Filter(p, s)
  {
    if s == [] || leq(x, s[0]) {
      assert ([x] + s)[1..] == s;
      if Filter(p, s) != [] {
        FilterSubset(p, s);
        assert Filter(p, s)[0] in s && leq(s[0], s[0]);
        assert leq(x, Filter(p, s)[0]);
      }
    } else {
      FilterInsert(leq, p, x, s[1..]);
      assert ([s[0]] + Insert(leq, x, s[1..]))[1..] == Insert(leq, x, s[1..]);
      if p(s[0]) {
        assert ([s[0]] + Filter(p, s[1..]))[1..] == Filter(p, s[1..]);
      } else {
        assert Filter(p, s) == Filter(p, s[1..]);
        assert [] + Filter(p, Insert(leq, x, s[1..])) == Filter(p, Insert(leq, x, s[1..]));
      }
    }
  }

  lemma {:induction false} FilterSubset<T>(p: T -> bool, s: seq<T>)
    ensures forall x :: x in Filter(p, s) <==> x in s && p(x)
  {
    if s != [] {
      FilterSubset(p, s[1..]);
    }
  }

  /** Dropping members from a sorted membership is the same as dropping them before the sort. */
  lemma {:induction false} FilterSort<T(!new)>(leq: (T, T) -> bool, p: T -> bool, s: seq<T>)
    requires TotalPreorder(leq)
    ensures Filter(p, Sort(leq, s)) == Sort(leq, Filter(p, s))
  {
    if s == [] {
    } else {
      FilterSort(leq, p, s[1..]);
      SortSorted(leq, s[1..]);
      FilterInsert(leq, p, s[0], Sort(leq, s[1..]));
      assert Filter(p, s) == (if p(s[0]) then [s[0]] else []) + Filter(p, s[1..]);
      if p(s[0]) {
        assert Filter(p, s)[1..] == Filter(p, s[1..]);
      } else {
        assert Filter(p, s) == Filter(p, s[1..]);
      }
    }
  }

  // ----- One tick, as an admission -----

  /** The workers that an event adds. */
  function Batch(c: Config, s: State, e: Event): seq<Descriptor> {
    if e.Tick? && !Watch(c, s, e.now).expired && |s.members| < c.target && e.outcome.Ok? then e.outcome.value else []
  }

  lemma TickIsAdmit(c: Config, s: State, e: Event)
    requires e.Tick?
    ensures Step(c, s, e) == Admit(Watch(c, s, e.now), Batch(c, s, e))
  {
    if Batch(c, s, e) == [] {
      var w := Watch(c, s, e.now);
      assert w.joins + [] == w.joins && w.log + Joins([]) == w.log && w.watchers + Peers([]) == w.watchers;
    }
  }

  // ----- The history after one batch -----

  lemma AfterJoin(min: nat, log: seq<Entry>, d: Descriptor)
    ensures var full := log + [Joined(d)];
      && Alive(full) == Alive(log) + [d] && Arrivals(full) == Arrivals(log) + [d]
      && Running(full) == Running(log) + multiset{d.peer} && Since(min, full) == Since(min, log)
  {
    assert (log + [Joined(d)])[..|log|] == log;
  }

  lemma JoinsCons(log: seq<Entry>, batch: seq<Descriptor>)
    requires batch != []
    ensures log + Joins(batch) == log + [Joined(batch[0])] + Joins(batch[1..])
  {
    assert Joins(batch) == [Joined(batch[0])] + Joins(batch[1..]);
  }

  lemma {:induction false} AliveAfterJoins(log: seq<Entry>, batch: seq<Descriptor>)
    ensures Alive(log + Joins(batch)) == Alive(log) + batch
    decreases |batch|
  {
    if batch == [] {
      assert log + Joins(batch) == log && Alive(log) + batch == Alive(log);
    } else {
      AfterJoin(0, log, batch[0]);
      JoinsCons(log, batch);
      AliveAfterJoins(log + [Joined(batch[0])], batch[1..]);
      AppendHead(Alive(log), batch);
    }
  }

  lemma {:induction false} ArrivalsAfterJoins(log: seq<Entry>, batch: seq<Descriptor>)
    ensures Arrivals(log + Joins(batch)) == Arrivals(log) + batch
    decreases |batch|
  {
    if batch == [] {
      assert log + Joins(batch) == log && Arrivals(log) + batch == Arrivals(log);
    } else {
      AfterJoin(0, log, batch[0]);
      JoinsCons(log, batch);
      ArrivalsAfterJoins(log + [Joined(batch[0])], batch[1..]);
      AppendHead(Arrivals(log), batch);
    }
  }

  lemma {:induction false} SinceAfterJoins(min: nat, log: seq<Entry>, batch: seq<Descriptor>)
    ensures Since(min, log + Joins(batch)) == Since(min, log)
    decreases |batch|
  {
    if batch == [] {
      assert log + Joins(batch) == log;
    } else {
      AfterJoin(min, log, batch[0]);
      JoinsCons(log, batch);
      SinceAfterJoins(min, log + [Joined(batch[0])], batch[1..]);
    }
  }

  lemma {:induction false} RunningAfterJoins(log: seq<Entry>, batch: seq<Descriptor>)
    ensures Running(log + Joins(batch)) == Running(log) + Peers(batch)
    decreases |batch|
  {
    if batch == [] {
      assert log + Joins(batch) == log;
    } else {
      AfterJoin(0, log, batch[0]);
      JoinsCons(log, batch);
      RunningAfterJoins(log + [Joined(batch[0])], batch[1..]);
      assert PeersOf(batch) == [batch[0].peer] + PeersOf(batch[1..]);
    }
  }

  lemma AfterEntry(min: nat, log: seq<Entry>, e: Entry)
    ensures var full := log + [e];
      && (e.Ticked? ==> Alive(full) == Alive(log) && Arrivals(full) == Arrivals(log) && Running(full) == Running(log))
      && (e.Exited? ==> Alive(full) == Filter(NotOf(e.peer), Alive(log)) && Arrivals(full) == Arrivals(log))
      && (e.Exited? ==> Running(full) == Running(log) - multiset{e.peer} && Since(min, full) == Since(min, log))
      && (e.Ticked? && e.count >= min ==> Since(min, full) == None)
      && (e.Ticked? && e.count < min ==>
          Since(min, full) == if Since(min, log).Some? then Since(min, log) else Some(e.now))
  {
    assert (log + [e])[..|log|] == log;
  }

  // ----- Membership over whole runs -----

  ghost predicate Consistent(s: State) {
    && s.members == Sort(Leq, Alive(s.log))
    && s.watchers == Running(s.log)
    && s.joins == Arrivals(s.log)
  }

  lemma WatchKeepsConsistent(c: Config, s: State, now: Time)
    requires Consistent(s)
    ensures Consistent(Watch(c, s, now))
  {
    AfterEntry(c.min, s.log, Ticked(now, |s.members|));
  }

  lemma AdmitKeepsConsistent(s: State, batch: seq<Descriptor>)
    requires Consistent(s)
    ensures Consistent(Admit(s, batch))
  {
    AliveAfterJoins(s.log, batch);
    ArrivalsAfterJoins(s.log, batch);
    RunningAfterJoins(s.log, batch);
    LeqIsTotal();
    SortTwice(Leq, Alive(s.log), batch);
    assert Alive(s.log) + [] == Alive(s.log);
  }

  lemma StepKeepsConsistent(c: Config, s: State, e: Event)
    requires Consistent(s) && Enabled(s, e)
    ensures Consistent(Step(c, s, e))
  {
    match e {
      case Exit(peer) =>
        AfterEntry(c.min, s.log, Exited(peer));
        LeqIsTotal();
        FilterSort(Leq, NotOf(peer), Alive(s.log));
      case Tick(now, _) =>
        TickIsAdmit(c, s, e);
        WatchKeepsConsistent(c, s, now);
        AdmitKeepsConsistent(Watch(c, s, now), Batch(c, s, e));
    }
  }

  /** Members are in order of joining, and those that joined at the same time in order of their peers. */
  ghost predicate OldestFirst(members: seq<Descriptor>) {
    forall i, j :: 0 <= i < j < |members| ==>
                     && members[i].joinedAt <= members[j].joinedAt
                     && (members[i].joinedAt == members[j].joinedAt ==> members[i].peer <= members[j].peer)
  }

  lemma SortedIsOldestFirst(members: seq<Descriptor>)
    requires Sorted(Leq, members)
    ensures OldestFirst(members)
  {
    forall i, j | 0 <= i < j < |members|
      ensures members[i].joinedAt <= members[j].joinedAt
      ensures members[i].joinedAt == members[j].joinedAt ==> members[i].peer <= members[j].peer
    {
      assert Leq(members[i], members[j]);
    }
  }

  /** A tick below the target admits every worker that it is given; nothing else at a tick changes the members. */
  lemma AllocatedWorkersJoin(c: Config, s: State, now: Time, outcome: Outcome)
    ensures var t := Step(c, s, Tick(now, outcome));
      && (outcome.Ok? && |s.members| < c.target && !t.expired ==>
            && multiset(t.members) == multiset(s.members) + multiset(outcome.value)
            && t.joins == s.joins + outcome.value)
      && (outcome.Err? || |s.members| >= c.target || t.expired ==>
            t.members == s.members && t.watchers == s.watchers && t.joins == s.joins)
  {
    var w, t := Watch(c, s, now), Step(c, s, Tick(now, outcome));
    assert w.members == s.members && w.watchers == s.watchers && w.joins == s.joins;
    if outcome.Ok? && |s.members| < c.target && !w.expired {
      assert t == Admit(w, outcome.value);
      AdmitAddsAll(w, outcome.value);
    } else {
      assert t == w;
    }
  }

  lemma AdmitAddsAll(s: State, batch: seq<Descriptor>)
    ensures multiset(Admit(s, batch).members) == multiset(s.members) + multiset(batch)
  {
    if batch == [] {
      assert multiset(batch) == multiset{};
    } else {
      SortElements(Leq, s.members + batch);
    }
  }

  /**
   At every point of every run the published membership is the stable oldest-first
   order of the workers alive, whatever batches and exits led there; each watcher is
   a handle still running; and each worker was announced once, in allocation order.
   */
  lemma {:induction false} MembersAreTheAlive(c: Config, s: State, events: seq<Event>)
    requires Consistent(s) && Legal(c, s, events)
    ensures Consistent(Run(c, s, events))
    ensures Sorted(Leq, Run(c, s, events).members)
    ensures OldestFirst(Run(c, s, events).members)
    decreases |events|
  {
    if events == [] {
      LeqIsTotal();
      SortSorted(Leq, Alive(s.log));
      SortedIsOldestFirst(s.members);
    } else {
      StepKeepsConsistent(c, s, events[0]);
      MembersAreTheAlive(c, Step(c, s, events[0]), events[1..]);
    }
  }

  /** Entry `i` is a join of `d`, and no handle of its peer has completed since. */
  ghost predicate Stays(log: seq<Entry>, d: Descriptor, i: int) {
    0 <= i < |log| && log[i] == Joined(d) && Exited(d.peer) !in log[i..]
  }

  lemma StaysAfterEntry(log: seq<Entry>, e: Entry, d: Descriptor, i: int)
    requires i <= |log|
    ensures Stays(log + [e], d, i) <==>
      if i == |log| then e == Joined(d) else Stays(log, d, i) && e != Exited(d.peer)
  {
    if 0 <= i < |log| {
      assert (log + [e])[i..] == log[i..] + [e];
    } else if i == |log| {
      assert (log + [e])[i..] == [e];
    }
  }

  /** A worker is alive exactly if it joined and no handle of its peer has completed since. */
  lemma {:induction false} AliveExactly(log: seq<Entry>, d: Descriptor)
    ensures d in Alive(log) <==> exists i :: Stays(log, d, i)
  {
    if log != [] {
      var front, last := log[..|log| - 1], log[|log| - 1];
      assert log == front + [last];
      AliveExactly(front, d);
      forall i | i <= |front|
        ensures Stays(log, d, i) <==>
          if i == |front| then last == Joined(d) else Stays(front, d, i) && last != Exited(d.peer)
      {
        StaysAfterEntry(front, last, d, i);
      }
      if last.Exited? {
        FilterSubset(NotOf(last.peer), Alive(front));
      }
      if d in Alive(log) {
        if last == Joined(d) {
          assert Stays(log, d, |front|);
        } else {
          var i :| Stays(front, d, i);
          assert Stays(log, d, i);
        }
      }
    }
  }

  // ----- Watchers -----

  lemma PeersCons(d: Descriptor, rest: seq<Descriptor>)
    ensures Peers([d] + rest) == multiset{d.peer} + Peers(rest)
  {
    assert PeersOf([d] + rest) == [d.peer] + PeersOf(rest);
  }

  lemma {:induction false} PeersSort(s: seq<Descriptor>)
    ensures Peers(Sort(Leq, s)) == Peers(s)
  {
    if s != [] {
      PeersSort(s[1..]);
      PeersInsert(s[0], Sort(Leq, s[1..]));
      assert s == [s[0]] + s[1..];
      PeersCons(s[0], s[1..]);
    }
  }

  lemma {:induction false} PeersInsert(x: Descriptor, s: seq<Descriptor>)
    ensures Peers(Insert(Leq, x, s)) == multiset{x.peer} + Peers(s)
  {
    if s == [] || Leq(x, s[0]) {
      PeersCons(x, s);
    } else {
      PeersInsert(x, s[1..]);
      PeersCons(s[0], Insert(Leq, x, s[1..]));
      assert s == [s[0]] + s[1..];
      PeersCons(s[0], s[1..]);
    }
  }

  lemma DropFromSum(m: multiset<PeerId>, added: PeerId, peer: PeerId)
    ensures (multiset{added} + m)[peer := 0] == if added == peer then m[peer := 0] else multiset{added} + m[peer := 0]
  {
  }

  lemma {:induction false} PeersDrop(peer: PeerId, s: seq<Descriptor>)
    ensures Peers(Filter(NotOf(peer), s)) == Peers(s)[peer := 0]
  {
    if s == [] {
      assert Peers(s) == multiset{};
    } else {
      PeersDrop(peer, s[1..]);
      var rest := Filter(NotOf(peer), s[1..]);
      assert s == [s[0]] + s[1..];
      PeersCons(s[0], s[1..]);
      DropFromSum(Peers(s[1..]), s[0].peer, peer);
      if s[0].peer == peer {
        AppendNothing(rest);
        assert Filter(NotOf(peer), s) == rest;
      } else {
        PeersCons(s[0], rest);
        assert Filter(NotOf(peer), s) == [s[0]] + rest;
      }
    }
  }

  /** Every member has a running handle of its own. */
  lemma {:induction false} MembersAreWatched(c: Config, s: State, events: seq<Event>)
    requires Peers(s.members) <= s.watchers && Legal(c, s, events)
    ensures Peers(Run(c, s, events).members) <= Run(c, s, events).watchers
    decreases |events|
  {
    if events != [] {
      StepPeers(c, s, events[0]);
      MembersAreWatched(c, Step(c, s, events[0]), events[1..]);
    }
  }

  lemma AdmitPeers(s: State, batch: seq<Descriptor>)
    ensures Peers(Admit(s, batch).members) == Peers(s.members) + Peers(batch)
    ensures |Admit(s, batch).members| == |s.members| + |batch|
  {
    if batch == [] {
      assert Peers(batch) == multiset{};
    } else {
      PeersSort(s.members + batch);
      SortElements(Leq, s.members + batch);
      PeersConcat(s.members, batch);
    }
  }

  lemma StepPeers(c: Config, s: State, e: Event)
    ensures e.Tick? ==> Peers(Step(c, s, e).members) == Peers(s.members) + Peers(Batch(c, s, e))
    ensures e.Tick? ==> Step(c, s, e).watchers == s.watchers + Peers(Batch(c, s, e))
    ensures e.Tick? ==> |Step(c, s, e).members| == |s.members| + |Batch(c, s, e)|
    ensures e.Exit? ==> Peers(Step(c, s, e).members) == Peers(s.members)[e.peer := 0]
  {
    if e.Exit? {
      PeersDrop(e.peer, s.members);
    } else {
      TickIsAdmit(c, s, e);
      AdmitPeers(Watch(c, s, e.now), Batch(c, s, e));
    }
  }

  ghost predicate Matched(s: State) {
    Peers(s.members) == s.watchers
  }

  /** One step keeps members and handles in correspondence unless an exit takes several members with it. */
  lemma StepKeepsMatched(c: Config, s: State, e: Event)
    requires Matched(s) && Enabled(s, e)
    ensures Matched(Step(c, s, e)) <==> (e.Exit? ==> Peers(s.members)[e.peer] == 1)
  {
    StepPeers(c, s, e);
    if e.Exit? {
      assert (s.watchers - multiset{e.peer})[e.peer] == s.watchers[e.peer] - 1;
      assert Peers(s.members)[e.peer := 0][e.peer] == 0;
    }
  }

  /** No allocated batch repeats a peer, its own or a current member's. */
  ghost predicate FreshBatches(c: Config, s: State, events: seq<Event>)
    decreases |events|
  {
    events != [] ==>
      && (forall p :: p in Peers(Batch(c, s, events[0])) ==>
          p !in Peers(s.members) && Peers(Batch(c, s, events[0]))[p] == 1)
      && FreshBatches(c, Step(c, s, events[0]), events[1..])
  }

  /** Without repeated peers, members and running handles correspond one to one. */
  lemma {:induction false} HandlesMatchMembers(c: Config, s: State, events: seq<Event>)
    requires Legal(c, s, events) && FreshBatches(c, s, events)
    requires Matched(s) && forall p :: p in s.watchers ==> s.watchers[p] == 1
    ensures Matched(Run(c, s, events))
    ensures forall p :: p in Run(c, s, events).watchers ==> Run(c, s, events).watchers[p] == 1
    decreases |events|
  {
    if events != [] {
      StepKeepsMatched(c, s, events[0]);
      StepPeers(c, s, events[0]);
      HandlesMatchMembers(c, Step(c, s, events[0]), events[1..]);
    }
  }

  ghost predicate MatchedThroughout(c: Config, s: State, events: seq<Event>)
    decreases |events|
  {
    Matched(s) && (events != [] ==> MatchedThroughout(c, Step(c, s, events[0]), events[1..]))
  }

  /** Whenever a handle completes, exactly one member has its peer. */
  ghost predicate LoneExits(c: Config, s: State, events: seq<Event>)
    decreases |events|
  {
    events != [] ==>
      && (events[0].Exit? ==> Peers(s.members)[events[0].peer] == 1)
      && LoneExits(c, Step(c, s, events[0]), events[1..])
  }

  /** Members and running handles correspond throughout a run if and only if no exit takes several members with it. */
  lemma {:induction false} MatchedThroughoutExactly(c: Config, s: State, events: seq<Event>)
    requires Matched(s) && Legal(c, s, events)
    ensures MatchedThroughout(c, s, events) <==> LoneExits(c, s, events)
    decreases |events|
  {
    if events != [] {
      StepKeepsMatched(c, s, events[0]);
      if Matched(Step(c, s, events[0])) {
        MatchedThroughoutExactly(c, Step(c, s, events[0]), events[1..]);
      } else {
        assert !MatchedThroughout(c, Step(c, s, events[0]), events[1..]);
      }
    }
  }

  /** A repeated peer breaks the correspondence: its first exit removes a member whose handle still runs. */
  lemma RepeatedPeerLosesMember(c: Config, s: State, peer: PeerId)
    requires Matched(s) && Peers(s.members)[peer] >= 2
    ensures var t := Step(c, s, Exit(peer)); peer in t.watchers && peer !in Peers(t.members)
  {
    StepPeers(c, s, Exit(peer));
  }

  // ----- Size -----

  ghost predicate WithinTarget(c: Config, s: State, events: seq<Event>)
    decreases |events|
  {
    |s.members| <= c.target && (events != [] ==> WithinTarget(c, Step(c, s, events[0]), events[1..]))
  }

  /** The allocator never returns more workers than the tick asked for. */
  ghost predicate Moderate(c: Config, s: State, events: seq<Event>)
    decreases |events|
  {
    events != [] ==>
      && (Batch(c, s, events[0]) != [] ==> |Batch(c, s, events[0])| <= c.target - |s.members|)
      && Moderate(c, Step(c, s, events[0]), events[1..])
  }

  /** The pool stays within its target throughout a run exactly if no batch exceeds what was asked. */
  lemma {:induction false} WithinTargetExactly(c: Config, s: State, events: seq<Event>)
    requires |s.members| <= c.target
    ensures WithinTarget(c, s, events) <==> Moderate(c, s, events)
    decreases |events|
  {
    if events != [] {
      var t := Step(c, s, events[0]);
      StepPeers(c, s, events[0]);
      if events[0].Exit? {
        FilterShorter(NotOf(events[0].peer), s.members);
      }
      if |t.members| <= c.target {
        WithinTargetExactly(c, t, events[1..]);
      }
    }
  }

  lemma {:induction false} FilterShorter<T>(p: T -> bool, s: seq<T>)
    ensures |Filter(p, s)| <= |s|
  {
    if s != [] {
      FilterShorter(p, s[1..]);
    }
  }

  // ----- A repeated peer -----

  lemma RunCons(c: Config, s: State, e: Event, rest: seq<Event>)
    ensures Legal(c, s, [e] + rest) <==> Enabled(s, e) && Legal(c, Step(c, s, e), rest)
    ensures Moderate(c, s, [e] + rest) <==>
      && (Batch(c, s, e) != [] ==> |Batch(c, s, e)| <= c.target - |s.members|)
      && Moderate(c, Step(c, s, e), rest)
    ensures Run(c, s, [e] + rest) == Run(c, Step(c, s, e), rest)
  {
    assert ([e] + rest)[1..] == rest;
  }

  /** A tick that admits one worker. */
  lemma AdmitsOne(c: Config, s: State, d: Descriptor, now: Time)
    requires |s.members| < c.target && !Watch(c, s, now).expired
    ensures var e := Tick(now, Ok([d])); var t := Step(c, s, e);
      && Batch(c, s, e) == [d] && !t.expired && |t.members| == |s.members| + 1
      && Peers(t.members) == Peers(s.members) + multiset{d.peer} && t.watchers == s.watchers + multiset{d.peer}
      && t.log == s.log + [Ticked(now, |s.members|), Joined(d)] && t.belowMinSince == Watch(c, s, now).belowMinSince
  {
    StepPeers(c, s, Tick(now, Ok([d])));
    TickIsAdmit(c, s, Tick(now, Ok([d])));
    assert PeersOf([d]) == [d.peer];
    assert s.log + [Ticked(now, |s.members|)] + Joins([d]) == s.log + [Ticked(now, |s.members|), Joined(d)];
  }

  /** Two ticks of a new pool with room for two workers, admitting one each. */
  lemma AdmitsTwo(c: Config, a: Descriptor, b: Descriptor, now: Time)
    requires c.target >= 2 && (c.min <= 1 || c.grace > 0)
    ensures var first, second := Tick(now, Ok([a])), Tick(now, Ok([b]));
      var s1 := Step(c, INIT, first); var s2 := Step(c, s1, second);
      && Enabled(INIT, first) && Enabled(s1, second) && !s2.expired
      && Batch(c, INIT, first) == [a] && Batch(c, s1, second) == [b] && |s1.members| == 1
      && Peers(s2.members) == s2.watchers == multiset{a.peer, b.peer}
  {
    AdmitsOne(c, INIT, a, now);
    assert Peers(INIT.members) == multiset{};
    AdmitsOne(c, Step(c, INIT, Tick(now, Ok([a]))), b, now);
  }

  /**
   It happens with batches no larger than asked for: two ticks that each admit a
   worker of the same peer, then one exit, end with a running handle and no member.
   */
  lemma RepeatedPeerRun(c: Config, a: Descriptor, b: Descriptor, now: Time)
    requires c.target >= 2 && (c.min <= 1 || c.grace > 0) && a.peer == b.peer
    ensures var events := [Tick(now, Ok([a])), Tick(now, Ok([b])), Exit(a.peer)];
            && Legal(c, INIT, events) && Moderate(c, INIT, events)
            && Run(c, INIT, events).members == [] && Run(c, INIT, events).watchers == multiset{a.peer}
  {
    var first, second, exit := Tick(now, Ok([a])), Tick(now, Ok([b])), Exit(a.peer);
    AdmitsTwo(c, a, b, now);
    var s1 := Step(c, INIT, first);
    var s2 := Step(c, s1, second);
    LastExit(c, s2, a.peer);
    RunCons(c, s2, exit, []);
    RunCons(c, s1, second, [exit] + []);
    RunCons(c, INIT, first, [second] + ([exit] + []));
    AsConcatenation(first, second, exit);
  }

  lemma LastExit(c: Config, s: State, peer: PeerId)
    requires Peers(s.members) == s.watchers == multiset{peer, peer}
    ensures Step(c, s, Exit(peer)).members == [] && Step(c, s, Exit(peer)).watchers == multiset{peer}
  {
    StepPeers(c, s, Exit(peer));
    assert multiset{peer, peer}[peer := 0] == multiset{};
    NoPeersNoMembers(Step(c, s, Exit(peer)).members);
  }

  lemma NoPeersNoMembers(s: seq<Descriptor>)
    requires Peers(s) == multiset{}
    ensures s == []
  {
    assert |multiset(PeersOf(s))| == |PeersOf(s)|;
  }

  lemma AsConcatenation<T>(a: T, b: T, c: T)
    ensures [a, b, c] == [a] + ([b] + ([c] + []))
  {
  }

  // ----- The grace period -----

  ghost predicate TicksInOrder(log: seq<Entry>) {
    forall i, j :: 0 <= i < j < |log| && log[i].Ticked? && log[j].Ticked? ==> log[i].now <= log[j].now
  }

  lemma BelowAfterEntry(min: nat, log: seq<Entry>, e: Entry, i: int)
    requires i <= |log|
    ensures Below(min, log + [e], i) <==>
      && (e.Ticked? ==> e.count < min)
      && if i == |log| then e.Ticked? else Below(min, log, i)
  {
    var full := log + [e];
    assert full[|log|] == e && forall k :: 0 <= k < |log| ==> full[k] == log[k];
  }

  /** `Since` is the time of the earliest tick from which all are below `min`. */
  lemma {:induction false} SinceIsEarliest(min: nat, log: seq<Entry>)
    requires TicksInOrder(log)
    ensures Since(min, log).Some? ==> exists i :: Below(min, log, i) && log[i].now == Since(min, log).value
    ensures forall i :: Below(min, log, i) ==> Since(min, log).Some? && Since(min, log).value <= log[i].now
  {
    if log != [] {
      var front, last := log[..|log| - 1], log[|log| - 1];
      assert log == front + [last];
      SinceIsEarliest(min, front);
      forall i | Below(min, log, i) ensures Since(min, log).Some? && Since(min, log).value <= log[i].now {
        BelowAfterEntry(min, front, last, i);
      }
      if Since(min, log).Some? {
        if Since(min, front).Some? {
          var k :| Below(min, front, k) && front[k].now == Since(min, front).value;
          BelowAfterEntry(min, front, last, k);
        } else {
          BelowAfterEntry(min, front, last, |front|);
        }
      }
    }
  }

  ghost predicate GraceTracked(c: Config, s: State) {
    && s.belowMinSince == Since(c.min, s.log)
    && TicksInOrder(s.log)
    && (s.expired <==> exists i, j :: Outage(c, s.log, i, j))
  }

  /** Later entries that are not ticks make no outage. */
  lemma OutageAppend(c: Config, log: seq<Entry>, more: seq<Entry>)
    requires forall k :: 0 <= k < |more| ==> !more[k].Ticked?
    ensures TicksInOrder(log) ==> TicksInOrder(log + more)
    ensures (exists i, j :: Outage(c, log + more, i, j)) <==> (exists i, j :: Outage(c, log, i, j))
  {
    forall i, j ensures Outage(c, log + more, i, j) <==> Outage(c, log, i, j) {
      if 0 <= i < j < |log| {
        assert (log + more)[..j + 1] == log[..j + 1];
      }
    }
  }

  /** An outage that ends at the latest tick is a stretch below `min` that this tick continues. */
  lemma OutageEndsAt(c: Config, log: seq<Entry>, now: Time, count: nat, i: int)
    ensures Outage(c, log + [Ticked(now, count)], i, |log|) <==>
      Below(c.min, log, i) && log[i].now + c.grace <= now && count < c.min
  {
    var full := log + [Ticked(now, count)];
    assert full[..|log| + 1] == full && full[|log|] == Ticked(now, count);
    assert forall k :: 0 <= k < |log| ==> full[k] == log[k];
  }

  lemma OutageEndsBefore(c: Config, log: seq<Entry>, e: Entry, i: int, j: int)
    requires j < |log|
    ensures Outage(c, log + [e], i, j) <==> Outage(c, log, i, j)
  {
    if 0 <= i < j {
      assert (log + [e])[..j + 1] == log[..j + 1];
    }
  }

  lemma OutageContinuesStretch(c: Config, log: seq<Entry>, now: Time, count: nat, i: int, j: int)
    requires TicksInOrder(log) && !Outage(c, log, i, j)
    requires Outage(c, log + [Ticked(now, count)], i, j)
    ensures count < c.min && Since(c.min, log).Some? && Since(c.min, log).value + c.grace <= now
  {
    if j < |log| {
      OutageEndsBefore(c, log, Ticked(now, count), i, j);
    } else {
      OutageEndsAt(c, log, now, count, i);
      SinceIsEarliest(c.min, log);
    }
  }

  /** A tick completes an outage exactly if the stretch below `min` that it continues is old enough. */
  lemma OutageAtTick(c: Config, log: seq<Entry>, now: Time, count: nat)
    requires TicksInOrder(log) && forall i, j :: !Outage(c, log, i, j)
    ensures (exists i, j :: Outage(c, log + [Ticked(now, count)], i, j)) <==>
      count < c.min && Since(c.min, log).Some? && Since(c.min, log).value + c.grace <= now
  {
    forall i, j | Outage(c, log + [Ticked(now, count)], i, j)
      ensures count < c.min && Since(c.min, log).Some? && Since(c.min, log).value + c.grace <= now
    {
      OutageContinuesStretch(c, log, now, count, i, j);
    }
    if count < c.min && Since(c.min, log).Some? && Since(c.min, log).value + c.grace <= now {
      SinceIsEarliest(c.min, log);
      var i :| Below(c.min, log, i) && log[i].now == Since(c.min, log).value;
      OutageEndsAt(c, log, now, count, i);
    }
  }

  lemma WatchKeepsGrace(c: Config, s: State, now: Time)
    requires GraceTracked(c, s) && !s.expired
    requires forall i :: 0 <= i < |s.log| && s.log[i].Ticked? ==> s.log[i].now <= now
    ensures GraceTracked(c, Watch(c, s, now))
  {
    AfterEntry(c.min, s.log, Ticked(now, |s.members|));
    OutageAtTick(c, s.log, now, |s.members|);
  }

  lemma AdmitKeepsGrace(c: Config, s: State, batch: seq<Descriptor>)
    requires GraceTracked(c, s)
    ensures GraceTracked(c, Admit(s, batch))
  {
    SinceAfterJoins(c.min, s.log, batch);
    OutageAppend(c, s.log, Joins(batch));
  }

  lemma StepKeepsGrace(c: Config, s: State, e: Event)
    requires GraceTracked(c, s) && Enabled(s, e)
    ensures GraceTracked(c, Step(c, s, e))
  {
    match e {
      case Exit(peer) =>
        AfterEntry(c.min, s.log, Exited(peer));
        OutageAppend(c, s.log, [Exited(peer)]);
      case Tick(now, _) =>
        TickIsAdmit(c, s, e);
        WatchKeepsGrace(c, s, now);
        AdmitKeepsGrace(c, Watch(c, s, now), Batch(c, s, e));
    }
  }

  /**
   The grace period expires in a run exactly if some two of its ticks are at least
   `grace` apart and every tick from the one to the other saw fewer than `min` members.
   */
  lemma {:induction false} ExpiresExactly(c: Config, s: State, events: seq<Event>)
    requires GraceTracked(c, s) && Legal(c, s, events)
    ensures GraceTracked(c, Run(c, s, events))
    ensures Run(c, s, events).expired <==> exists i, j :: Outage(c, Run(c, s, events).log, i, j)
    decreases |events|
  {
    if events != [] {
      StepKeepsGrace(c, s, events[0]);
      ExpiresExactly(c, Step(c, s, events[0]), events[1..]);
    }
  }

  // ----- From the empty pool -----

  lemma InitIsSound(c: Config)
    ensures Consistent(INIT) && Matched(INIT) && GraceTracked(c, INIT)
  {
  }

  /**
   A new pool, after any events: members are in order and alive, each with a running
   handle; it has expired exactly if there was an outage; and it stayed within its
   target, with members and handles in correspondence, exactly under the conditions above.
   */
  lemma NewPoolIsSound(c: Config, events: seq<Event>)
    requires Legal(c, INIT, events)
    ensures var s := Run(c, INIT, events);
            && Consistent(s) && OldestFirst(s.members) && Peers(s.members) <= s.watchers
            && (s.expired <==> exists i, j :: Outage(c, s.log, i, j))
            && (WithinTarget(c, INIT, events) <==> Moderate(c, INIT, events))
            && (MatchedThroughout(c, INIT, events) <==> LoneExits(c, INIT, events))
  {
    InitIsSound(c);
    MembersAreTheAlive(c, INIT, events);
    MembersAreWatched(c, INIT, events);
    ExpiresExactly(c, INIT, events);
    WithinTargetExactly(c, INIT, events);
    MatchedThroughoutExactly(c, INIT, events);
  }
}
