/**
 A stream adapter that groups the items of an inner stream into batches, flushed
 when full, when a timer started by the first buffered item fires, or at the end.
 */
module Batching {
  import opened Wrappers
  import opened HyphaLeases
  import opened Sequences

  datatype Polled<T> = Pending | Ready(item: Option<T>)

  /** `ready` are items the inner stream can yield at once; `closed` tells that none follow. */
  datatype State<T> = State(ready: seq<T>, closed: bool, buffer: seq<T>, delay: Option<Time>)

  datatype Config = Config(limit: nat, wait: Time)

  function Flush<T>(s: State<T>): (State<T>, Polled<seq<T>>) {
    (s.(buffer := [], delay := None), Ready(Some(s.buffer)))
  }

  function Take<T>(c: Config, s: State<T>, now: Time): State<T>
    requires s.ready != []
  {
    State(s.ready[1..], s.closed, s.buffer + [s.ready[0]], if s.buffer == [] then Some(now + c.wait) else s.delay)
  }

  function Poll<T>(c: Config, s: State<T>, now: Time): (State<T>, Polled<seq<T>>)
    decreases |s.ready|
  {
    if s.ready != [] then
      var taken := Take(c, s, now);
      if |taken.buffer| >= c.limit then Flush(taken) else Poll(c, taken, now)
    else if s.closed then (if s.buffer == [] then (s, Ready(None)) else Flush(s))
    else if s.buffer != [] && s.delay.Some? && s.delay.value <= now then Flush(s)
    else (s, Pending)
  }

  // ----- The adapter -----

  class Source<T> {
    var ready: seq<T>
    var closed: bool

    method PollNext() returns (polled: Polled<T>)
      modifies this`ready
      ensures old(ready) != [] ==> polled == Ready(Some(old(ready)[0])) && ready == old(ready)[1..]
      ensures old(ready) == [] ==> polled == (if closed then Ready(None) else Pending) && ready == []
    {
      if ready != [] {
        polled, ready := Ready(Some(ready[0])), ready[1..];
      } else {
        polled := if closed then Ready(None) else Pending;
      }
    }
  }

  class Batched<T> {
    const inner: Source<T>
    const config: Config
    var delay: Option<Time>
    var buffer: seq<T>

    ghost function Abstract(): State<T>
      reads this, inner
    {
      State(inner.ready, inner.closed, buffer, delay)
    }

    constructor (inner: Source<T>, config: Config)
      ensures this.inner == inner && this.config == config
      ensures Abstract() == State(inner.ready, inner.closed, [], None)
    {
      this.inner, this.config, delay, buffer := inner, config, None, [];
    }

    method TakeBuffer() returns (batch: seq<T>)
      modifies this
      ensures (Abstract(), Ready(Some(batch))) == Flush(old(Abstract()))
    {
      delay := None;
      batch := buffer;
      buffer := [];
    }

    method PollNext(now: Time) returns (polled: Polled<seq<T>>)
      modifies this, inner
      ensures (Abstract(), polled) == Poll(config, old(Abstract()), now)
    {
      while true
        invariant Poll(config, Abstract(), now) == Poll(config, old(Abstract()), now)
        decreases |inner.ready|
      {
        var next := inner.PollNext();
        match next {
          case Ready(Some(item)) =>
            if buffer == [] {
              delay := Some(now + config.wait);
            }
            buffer := buffer + [item];
            if |buffer| >= config.limit {
              var batch := TakeBuffer();
              return Ready(Some(batch));
            }
          case Ready(None) =>
            if buffer == [] {
              return Ready(None);
            }
            var batch := TakeBuffer();
            return Ready(Some(batch));
          case Pending =>
            if buffer != [] && delay.Some? && delay.value <= now {
              var batch := TakeBuffer();
              return Ready(Some(batch));
            }
            return Pending;
        }
      }
    }
  }

  // ----- Runs: items arrive, the inner stream closes, the consumer polls -----

  datatype Event<T> = Arrive(item: T) | Close | PollAt(now: Time)

  /** `since` is when the oldest buffered item was taken. */
  datatype World<T> = World(
    stream: State<T>, arrived: seq<T>, batches: seq<seq<T>>, ended: bool, since: Option<Time>)

  function Start<T>(): World<T> {
    World(State([], false, [], None), [], [], false, None)
  }

  function Step<T>(c: Config, w: World<T>, e: Event<T>): World<T> {
    match e
    case Arrive(item) =>
      if w.stream.closed then w
      else w.(stream := w.stream.(ready := w.stream.ready + [item]), arrived := w.arrived + [item])
    case Close => w.(stream := w.stream.(closed := true))
    case PollAt(now) =>
      var (stream, polled) := Poll(c, w.stream, now);
      World(
        stream, w.arrived,
        if polled.Ready? && polled.item.Some? then w.batches + [polled.item.value] else w.batches,
        w.ended || polled == Ready(None),
        if stream.buffer == [] then None else if w.stream.buffer == [] then Some(now) else w.since)
  }

  function Run<T>(c: Config, w: World<T>, events: seq<Event<T>>): World<T>
    decreases |events|
  {
    if events == [] then w else Run(c, Step(c, w, events[0]), events[1..])
  }

  function Concat<T>(batches: seq<seq<T>>): seq<T> {
    if batches == [] then [] else batches[0] + Concat(batches[1..])
  }

  function Size(c: Config): nat {
    if c.limit < 1 then 1 else c.limit
  }

  /** The stream between polls: never a full buffer, and a timer exactly when something waits for it. */
  ghost predicate Valid<T>(c: Config, s: State<T>) {
    |s.buffer| < Size(c) && (s.delay.Some? <==> s.buffer != [])
  }

  ghost predicate Lossless<T>(c: Config, w: World<T>) {
    && Concat(w.batches) + w.stream.buffer + w.stream.ready == w.arrived
    && (forall i :: 0 <= i < |w.batches| ==> 1 <= |w.batches[i]| <= Size(c))
    && (w.ended ==> w.stream.closed && w.stream.buffer == [] && w.stream.ready == [])
    && (w.stream.delay.Some? <==> w.since.Some?)
    && (w.since.Some? ==> w.stream.delay.value == w.since.value + c.wait)
  }

  lemma {:induction false} ConcatSnoc<T>(batches: seq<seq<T>>, batch: seq<T>)
    ensures Concat(batches + [batch]) == Concat(batches) + batch
  {
    if batches == [] {
      assert Concat([batch]) == batch + Concat([]);
    } else {
      ConcatSnoc(batches[1..], batch);
      assert (batches + [batch])[1..] == batches[1..] + [batch];
    }
  }

  /** What one poll does to the items it sees, and when it stops short of a full batch. */
  lemma {:induction false} PollMoves<T>(c: Config, s: State<T>, now: Time)
    requires Valid(c, s)
    ensures var (t, polled) := Poll(c, s, now);
      && Valid(c, t) && t.closed == s.closed
      && (polled.Ready? && polled.item.Some? ==>
          && t.buffer == [] && polled.item.value + t.ready == s.buffer + s.ready
          && 1 <= |polled.item.value| <= Size(c)
          && (|polled.item.value| < Size(c) ==>
              t.ready == [] && (s.closed || (if s.buffer == [] then c.wait == 0 else s.delay.value <= now))))
      && (polled == Ready(None) ==> t == s && s.closed && s.buffer == [] && s.ready == [])
      && (polled == Pending ==>
          && t.ready == [] && !s.closed && t.buffer == s.buffer + s.ready
          && (t.buffer != [] ==> now < t.delay.value)
          && (t.buffer != [] ==> t.delay == if s.buffer == [] then Some(now + c.wait) else s.delay))
    decreases |s.ready|
  {
    if s.ready != [] {
      var taken := Take(c, s, now);
      assert taken.buffer + taken.ready == s.buffer + s.ready;
      if |taken.buffer| < c.limit {
        PollMoves(c, taken, now);
      }
    } else {
      assert s.buffer + [] == s.buffer;
    }
  }

  lemma PollKeepsLossless<T>(c: Config, w: World<T>, now: Time)
    requires Valid(c, w.stream) && Lossless(c, w)
    ensures Lossless(c, Step(c, w, PollAt(now)))
  {
    PollMoves(c, w.stream, now);
    var (t, polled) := Poll(c, w.stream, now);
    var concat := Concat(w.batches);
    AppendAssociates(concat, w.stream.buffer, w.stream.ready);
    if polled.Ready? && polled.item.Some? {
      var batch := polled.item.value;
      ConcatSnoc(w.batches, batch);
      AppendAssociates(concat, batch, t.ready);
      assert concat + batch + [] == concat + batch;
    } else if polled == Pending {
      AppendNothing(concat + t.buffer);
    }
  }

  lemma StepKeepsLossless<T>(c: Config, w: World<T>, e: Event<T>)
    requires Valid(c, w.stream) && Lossless(c, w)
    ensures Valid(c, Step(c, w, e).stream) && Lossless(c, Step(c, w, e))
  {
    match e {
      case Arrive(item) =>
        var buffered := Concat(w.batches) + w.stream.buffer;
        assert buffered + (w.stream.ready + [item]) == buffered + w.stream.ready + [item];
      case Close =>
      case PollAt(now) =>
        PollMoves(c, w.stream, now);
        PollKeepsLossless(c, w, now);
    }
  }

  /**
   Over any run nothing is lost, duplicated or reordered: the batches followed by the
   buffer and the items not yet taken are the items that arrived, every batch has
   between one item and the limit, the timer is armed exactly while something is
   buffered, and once the end is reported the batches are the whole input.
   */
  lemma {:induction false} NothingLost<T>(c: Config, w: World<T>, events: seq<Event<T>>)
    requires Valid(c, w.stream) && Lossless(c, w)
    ensures var end := Run(c, w, events);
      && Valid(c, end.stream) && Lossless(c, end)
      && (end.ended ==> Concat(end.batches) == end.arrived)
    decreases |events|
  {
    if events == [] {
      assert Concat(w.batches) + [] + [] == Concat(w.batches);
    } else {
      StepKeepsLossless(c, w, events[0]);
      NothingLost(c, Step(c, w, events[0]), events[1..]);
    }
  }

  /** A new adapter over a new stream, after any events. */
  lemma NothingLostFromStart<T>(c: Config, events: seq<Event<T>>)
    ensures var end := Run(c, Start<T>(), events);
      && Valid(c, end.stream) && Lossless(c, end)
      && (end.ended ==> Concat(end.batches) == end.arrived)
  {
    NothingLost(c, Start<T>(), events);
  }

  /** After a poll, whatever is still buffered has waited for less than the configured time. */
  lemma NothingOverdue<T>(c: Config, w: World<T>, now: Time)
    requires Valid(c, w.stream) && Lossless(c, w)
    ensures var next := Step(c, w, PollAt(now));
      next.stream.buffer != [] ==> next.since.Some? && now < next.since.value + c.wait
  {
    PollMoves(c, w.stream, now);
    PollKeepsLossless(c, w, now);
    var (t, polled) := Poll(c, w.stream, now);
    assert t.buffer != [] ==> polled == Pending;
  }

  /** `s` cut into blocks of `k`, the last one possibly shorter. */
  function Chunks<T>(k: nat, s: seq<T>): seq<seq<T>>
    requires k > 0
  {
    if s == [] then [] else if |s| <= k then [s] else [s[..k]] + Chunks(k, s[k..])
  }

  lemma ChunksHead<T>(k: nat, head: seq<T>, rest: seq<T>)
    requires 1 <= |head| <= k && (|head| < k ==> rest == [])
    ensures Chunks(k, head + rest) == [head] + Chunks(k, rest)
  {
    if rest == [] {
      assert head + rest == head;
    } else {
      assert (head + rest)[..k] == head && (head + rest)[k..] == rest;
    }
  }

  function Polls<T>(nows: seq<Time>): seq<Event<T>> {
    if nows == [] then [] else [PollAt(nows[0])] + Polls(nows[1..])
  }

  /** A closed stream drains in the fewest batches, one a poll, and then ends. */
  lemma {:induction false} DrainsInChunks<T>(c: Config, w: World<T>, nows: seq<Time>)
    requires Valid(c, w.stream) && w.stream.closed && !w.ended
    ensures var end := Run(c, w, Polls(nows));
      var chunks := Chunks(Size(c), w.stream.buffer + w.stream.ready);
      && (end.ended <==> |nows| > |chunks|)
      && end.batches == w.batches + if |nows| < |chunks| then chunks[..|nows|] else chunks
    decreases |nows|
  {
    var s := w.stream.buffer + w.stream.ready;
    var chunks := Chunks(Size(c), s);
    if nows == [] {
      assert w.batches + chunks[..0] == w.batches;
    } else {
      PollMoves(c, w.stream, nows[0]);
      var next := Step(c, w, PollAt(nows[0]));
      var tail := nows[1..];
      assert Polls<T>(nows)[1..] == Polls(tail);
      if s == [] {
        EndedStays(c, next, tail);
        AppendNothing(w.batches);
      } else {
        var (t, polled) := Poll(c, w.stream, nows[0]);
        AppendNothing(t.ready);
        ChunksHead(Size(c), polled.item.value, t.ready);
        DrainsInChunks(c, next, tail);
        var rest := Chunks(Size(c), t.ready);
        AppendAssociates(w.batches, [polled.item.value], rest);
        if |nows| < |chunks| {
          assert chunks[..|nows|] == [polled.item.value] + rest[..|tail|];
          AppendAssociates(w.batches, [polled.item.value], rest[..|tail|]);
        }
      }
    }
  }

  lemma {:induction false} EndedStays<T>(c: Config, w: World<T>, nows: seq<Time>)
    requires w.ended && w.stream.closed && w.stream.buffer == [] && w.stream.ready == []
    ensures var end := Run(c, w, Polls(nows));
      end.ended && end.batches == w.batches
    decreases |nows|
  {
    if nows != [] {
      var tail := nows[1..];
      assert Polls<T>(nows)[1..] == Polls(tail);
      EndedStays(c, Step(c, w, PollAt(nows[0])), tail);
    }
  }
}
