/**
 Length-prefixed streams between peers: an 8-byte little-endian length, then
 exactly that many bytes, enforced by a counting reader and a counting writer over
 a connection that may move any part of what it is offered.
 */
module Framing {
  import opened Wrappers
  import opened Arithmetic
  import opened Sequences

  type Byte = b: int | 0 <= b < 256

  type Bytes = seq<Byte>

  const HEADER_SIZE := 8
  const MAX_REQUEST_HEADER_SIZE := 1024 * 1024

  function Pow256(k: nat): (p: nat)
    ensures p > 0
  {
    if k == 0 then 1 else 256 * Pow256(k - 1)
  }

  type U64 = n: nat | n < Pow256(HEADER_SIZE) witness 0

  /** The `k` low bytes of `n`, lowest first. */
  function Encode(n: nat, k: nat): (bytes: Bytes)
    ensures |bytes| == k
  {
    if k == 0 then [] else [n % 256] + Encode(n / 256, k - 1)
  }

  function Decode(bytes: Bytes): nat {
    if bytes == [] then 0 else bytes[0] + 256 * Decode(bytes[1..])
  }

  lemma {:induction false} DecodeEncode(n: nat, k: nat)
    requires n < Pow256(k)
    ensures Decode(Encode(n, k)) == n
  {
    if k > 0 {
      DecodeEncode(n / 256, k - 1);
      assert Encode(n, k)[1..] == Encode(n / 256, k - 1);
    }
  }

  lemma {:induction false} EncodeDecode(bytes: Bytes)
    ensures Decode(bytes) < Pow256(|bytes|) && Encode(Decode(bytes), |bytes|) == bytes
  {
    if bytes != [] {
      EncodeDecode(bytes[1..]);
      assert Decode(bytes) / 256 == Decode(bytes[1..]) && Decode(bytes) % 256 == bytes[0];
    }
  }

  /** Low bytes come first: what follows counts for more by the power of its position. */
  lemma {:induction false} LowBytesFirst(low: Bytes, high: Bytes)
    ensures Decode(low + high) == Decode(low) + Pow256(|low|) * Decode(high)
    ensures forall b: Byte :: Decode([b]) == b
  {
    if low == [] {
      assert low + high == high;
    } else {
      LowBytesFirst(low[1..], high);
      assert (low + high)[1..] == low[1..] + high;
      assert 256 * (Pow256(|low| - 1) * Decode(high)) == Pow256(|low|) * Decode(high);
    }
  }

  function Header(n: U64): (bytes: Bytes)
    ensures |bytes| == HEADER_SIZE
  {
    Encode(n, HEADER_SIZE)
  }

  function Length(header: Bytes): (n: U64)
    requires |header| == HEADER_SIZE
    ensures Header(n) == header
  {
    EncodeDecode(header);
    Decode(header)
  }

  // ----- The connection and the counting reader and writer -----

  datatype IoError = UnexpectedEof | InvalidData | Inner

  datatype IoPoll<T> = Pending | Ready(result: Result<T, IoError>)

  /** What the connection does with one poll: nothing yet, up to `n` bytes moved, or an error. */
  datatype Transfer = Blocked | Moved(n: nat) | Broken

  datatype Reader = Reader(incoming: Bytes, remaining: nat)

  datatype Writer = Writer(outgoing: Bytes, remaining: nat)

  function Read(r: Reader, capacity: nat, transfer: Transfer): (Reader, IoPoll<Bytes>)
    requires transfer.Moved? ==> transfer.n <= |r.incoming|
  {
    if r.remaining == 0 then (r, Ready(Ok([])))
    else match transfer
      case Blocked => (r, Pending)
      case Broken => (r, Ready(Err(Inner)))
      case Moved(n) =>
        var read := Min(n, Min(r.remaining, capacity));
        if read == 0 then (r, Ready(Err(UnexpectedEof)))
        else (Reader(r.incoming[read..], r.remaining - read), Ready(Ok(r.incoming[..read])))
  }

  function Write(w: Writer, buf: Bytes, transfer: Transfer): (Writer, IoPoll<nat>) {
    if buf == [] then (w, Ready(Ok(0)))
    else if |buf| > w.remaining then (w, Ready(Err(InvalidData)))
    else match transfer
      case Blocked => (w, Pending)
      case Broken => (w, Ready(Err(Inner)))
      case Moved(n) =>
        var sent := w.outgoing + buf[..Min(n, |buf|)];
        if n > w.remaining then (w.(outgoing := sent), Ready(Err(InvalidData)))
        else (Writer(sent, w.remaining - n), Ready(Ok(n)))
  }

  /** Refused until every declared byte has been written; otherwise up to the connection. */
  function Shutdown(w: Writer, inner: IoPoll<()>): IoPoll<()> {
    if w.remaining > 0 then Ready(Err(UnexpectedEof)) else inner
  }

  class Connection {
    var incoming: Bytes
    var outgoing: Bytes

    /** A poll into a buffer of the given capacity, which takes no more than fits. */
    method PollRead(capacity: nat, transfer: Transfer) returns (polled: IoPoll<Bytes>)
      requires transfer.Moved? ==> transfer.n <= |incoming|
      modifies this`incoming
      ensures transfer.Blocked? ==> polled == Pending && incoming == old(incoming)
      ensures transfer.Broken? ==> polled == Ready(Err(Inner)) && incoming == old(incoming)
      ensures transfer.Moved? ==>
        var read := Min(transfer.n, capacity);
        polled == Ready(Ok(old(incoming)[..read])) && incoming == old(incoming)[read..]
    {
      match transfer {
        case Blocked => polled := Pending;
        case Broken => polled := Ready(Err(Inner));
        case Moved(n) =>
          var read := Min(n, capacity);
          polled, incoming := Ready(Ok(incoming[..read])), incoming[read..];
      }
    }

    method PollWrite(buf: Bytes, transfer: Transfer) returns (polled: IoPoll<nat>)
      modifies this`outgoing
      ensures transfer.Blocked? ==> polled == Pending && outgoing == old(outgoing)
      ensures transfer.Broken? ==> polled == Ready(Err(Inner)) && outgoing == old(outgoing)
      ensures transfer.Moved? ==>
        polled == Ready(Ok(transfer.n)) && outgoing == old(outgoing) + buf[..Min(transfer.n, |buf|)]
    {
      match transfer {
        case Blocked => polled := Pending;
        case Broken => polled := Ready(Err(Inner));
        case Moved(n) => polled, outgoing := Ready(Ok(n)), outgoing + buf[..Min(n, |buf|)];
      }
    }

    /** Fills a buffer of `n` bytes, or fails with what there was. */
    method ReadExact(n: nat) returns (bytes: Option<Bytes>)
      modifies this`incoming
      ensures (bytes, incoming) == TakeExact(old(incoming), n)
    {
      if |incoming| < n {
        bytes, incoming := None, [];
      } else {
        bytes, incoming := Some(incoming[..n]), incoming[n..];
      }
    }

    /** Writes everything, unless the connection breaks after `fault` bytes. */
    method WriteAll(bytes: Bytes, fault: Option<nat>) returns (result: Result<(), IoError>)
      modifies this`outgoing
      ensures fault.None? ==> result == Ok(()) && outgoing == old(outgoing) + bytes
      ensures fault.Some? ==> result == Err(Inner) && outgoing == old(outgoing) + bytes[..Min(fault.value, |bytes|)]
    {
      if fault.Some? {
        outgoing := outgoing + bytes[..Min(fault.value, |bytes|)];
        return Err(Inner);
      }
      outgoing := outgoing + bytes;
      return Ok(());
    }
  }

  function TakeExact(stream: Bytes, n: nat): (Option<Bytes>, Bytes) {
    if |stream| < n then (None, []) else (Some(stream[..n]), stream[n..])
  }

  class FixedAsyncRead {
    const inner: Connection
    var remaining: nat

    ghost function Abstract(): Reader
      reads this, inner
    {
      Reader(inner.incoming, remaining)
    }

    constructor (inner: Connection, expectedLen: U64)
      ensures this.inner == inner && Abstract() == Reader(inner.incoming, expectedLen)
    {
      this.inner, remaining := inner, expectedLen;
    }

    method PollRead(capacity: nat, transfer: Transfer) returns (polled: IoPoll<Bytes>)
      requires transfer.Moved? ==> transfer.n <= |inner.incoming|
      modifies this, inner`incoming
      ensures (Abstract(), polled) == Read(old(Abstract()), capacity, transfer)
    {
      if remaining == 0 {
        return Ready(Ok([]));
      }
      var available := Min(remaining, capacity);
      polled := inner.PollRead(available, transfer);
      if polled.Ready? && polled.result.Ok? {
        var read := |polled.result.value|;
        if read == 0 {
          assert inner.incoming == old(inner.incoming);
          return Ready(Err(UnexpectedEof));
        }
        if read > remaining {
          return Ready(Err(InvalidData));
        }
        remaining := remaining - read;
      }
    }
  }

  class FixedAsyncWrite {
    const inner: Connection
    var remaining: nat

    ghost function Abstract(): Writer
      reads this, inner
    {
      Writer(inner.outgoing, remaining)
    }

    constructor (inner: Connection, expectedLen: U64)
      ensures this.inner == inner && Abstract() == Writer(inner.outgoing, expectedLen)
    {
      this.inner, remaining := inner, expectedLen;
    }

    method PollWrite(buf: Bytes, transfer: Transfer) returns (polled: IoPoll<nat>)
      modifies this, inner`outgoing
      ensures (Abstract(), polled) == Write(old(Abstract()), buf, transfer)
    {
      if buf == [] {
        return Ready(Ok(0));
      }
      if |buf| > remaining {
        return Ready(Err(InvalidData));
      }
      polled := inner.PollWrite(buf, transfer);
      if polled.Ready? && polled.result.Ok? {
        var written := polled.result.value;
        if written == 0 {
          assert inner.outgoing == old(inner.outgoing);
          return Ready(Ok(0));
        }
        if written > remaining {
          return Ready(Err(InvalidData));
        }
        remaining := remaining - written;
      }
    }

    method PollShutdown(inner: IoPoll<()>) returns (polled: IoPoll<()>)
      ensures polled == Shutdown(Abstract(), inner)
    {
      if remaining > 0 {
        return Ready(Err(UnexpectedEof));
      }
      return inner;
    }
  }

  // ----- Opening and accepting streams -----

  /**
   Opens a push or answers a pull: announces the length on the wire, then hands out
   the counting writer. If the connection breaks, the wire holds part of the header.
   */
  method OpenFrame(connection: Connection, payloadLen: U64, fault: Option<nat>, flushed: Result<(), IoError>)
    returns (writer: Result<FixedAsyncWrite, IoError>)
    modifies connection`outgoing
    ensures writer.Ok? <==> fault.None? && flushed.Ok?
    ensures writer.Ok? ==>
      && fresh(writer.value) && writer.value.inner == connection
      && writer.value.Abstract() == Writer(old(connection.outgoing) + Header(payloadLen), payloadLen)
    ensures old(connection.outgoing) <= connection.outgoing <= old(connection.outgoing) + Header(payloadLen)
  {
    var written := connection.WriteAll(Header(payloadLen), fault);
    if written.Err? {
      return Err(written.error);
    }
    if flushed.Err? {
      return Err(flushed.error);
    }
    var counting := new FixedAsyncWrite(connection, payloadLen);
    return Ok(counting);
  }

  /** What a receiver makes of a stream that starts with a length header. */
  function AcceptFrame(stream: Bytes): Option<Reader> {
    match TakeExact(stream, HEADER_SIZE)
    case (None, _) => None
    case (Some(header), rest) => Some(Reader(rest, Length(header)))
  }

  /** Accepts a push or the answer to a pull: without a whole header there is no stream. */
  method ReceiveFrame(connection: Connection) returns (reader: Option<FixedAsyncRead>)
    modifies connection`incoming
    ensures reader.Some? <==> AcceptFrame(old(connection.incoming)).Some?
    ensures reader.Some? ==>
      && reader.value.inner == connection
      && AcceptFrame(old(connection.incoming)) == Some(reader.value.Abstract())
  {
    var header := connection.ReadExact(HEADER_SIZE);
    match header {
      case None => reader := None;
      case Some(bytes) =>
        var counting := new FixedAsyncRead(connection, Length(bytes));
        reader := Some(counting);
    }
  }

  /** A request with its length in front, as a pull sends it. */
  function Request(body: Bytes): Bytes
    requires |body| < Pow256(HEADER_SIZE)
  {
    Header(|body|) + body
  }

  /** The body of a pull request and what follows it, unless it is cut short or announces too much. */
  function AcceptRequest(stream: Bytes): (Option<Bytes>, Bytes) {
    match TakeExact(stream, HEADER_SIZE)
    case (None, rest) => (None, rest)
    case (Some(header), rest) =>
      if Length(header) >= MAX_REQUEST_HEADER_SIZE then (None, rest) else TakeExact(rest, Length(header))
  }

  /** Sends a pull request. If the connection breaks, the wire holds part of it. */
  method SendRequest(connection: Connection, body: Bytes, faults: (Option<nat>, Option<nat>),
                     flushed: Result<(), IoError>)
    returns (sent: Result<(), IoError>)
    requires |body| < Pow256(HEADER_SIZE)
    modifies connection`outgoing
    ensures sent.Ok? <==> faults.0.None? && faults.1.None? && flushed.Ok?
    ensures sent.Ok? ==> connection.outgoing == old(connection.outgoing) + Request(body)
    ensures old(connection.outgoing) <= connection.outgoing <= old(connection.outgoing) + Request(body)
  {
    ghost var before := connection.outgoing;
    sent := connection.WriteAll(Header(|body|), faults.0);
    AppendAssociates(before, Header(|body|), body);
    if sent.Err? {
      return;
    }
    sent := connection.WriteAll(body, faults.1);
    if sent.Err? {
      return;
    }
    sent := flushed;
  }

  /** The request is `decode`d once its body has arrived; any failure drops the stream. */
  method AcceptPull<T>(connection: Connection, decode: Bytes -> Option<T>) returns (request: Option<T>)
    modifies connection`incoming
    ensures var (body, rest) := AcceptRequest(old(connection.incoming));
      connection.incoming == rest && request == if body.Some? then decode(body.value) else None
  {
    var resourceLen := connection.ReadExact(HEADER_SIZE);
    if resourceLen.None? {
      return None;
    }
    var requestLen := Length(resourceLen.value);
    if requestLen >= MAX_REQUEST_HEADER_SIZE {
      return None;
    }
    var requestBytes := connection.ReadExact(requestLen);
    if requestBytes.None? {
      return None;
    }
    request := decode(requestBytes.value);
  }

  // ----- Runs of polls -----

  datatype WriteCall = WriteCall(buf: Bytes, transfer: Transfer)

  datatype ReadCall = ReadCall(capacity: nat, transfer: Transfer)

  /** The writer after some polls, and the bytes it reported as written. */
  function Writes(w: Writer, calls: seq<WriteCall>): (Writer, Bytes)
    decreases |calls|
  {
    if calls == [] then (w, [])
    else
      var (next, polled) := Write(w, calls[0].buf, calls[0].transfer);
      var (end, written) := Writes(next, calls[1..]);
      (end, Accepted(calls[0], polled) + written)
  }

  function Accepted(call: WriteCall, polled: IoPoll<nat>): Bytes {
    if polled.Ready? && polled.result.Ok? && polled.result.value <= |call.buf|
    then call.buf[..polled.result.value]
    else []
  }

  /** A connection never reports more bytes than it was offered. */
  predicate HonestWrites(calls: seq<WriteCall>) {
    forall i :: 0 <= i < |calls| && calls[i].transfer.Moved? ==> calls[i].transfer.n <= |calls[i].buf|
  }

  /** A connection moves bytes that are there, and moves none only at the end of the stream. */
  predicate Honest(incoming: Bytes, transfer: Transfer) {
    transfer.Moved? ==> transfer.n <= |incoming| && (transfer.n == 0 ==> incoming == [])
  }

  predicate HonestReads(r: Reader, calls: seq<ReadCall>)
    decreases |calls|
  {
    calls != [] ==>
      && Honest(r.incoming, calls[0].transfer)
      && HonestReads(Read(r, calls[0].capacity, calls[0].transfer).0, calls[1..])
  }

  /** The reader after some polls, and the bytes it delivered. */
  function Reads(r: Reader, calls: seq<ReadCall>): (Reader, Bytes)
    requires HonestReads(r, calls)
    decreases |calls|
  {
    if calls == [] then (r, [])
    else
      var (next, polled) := Read(r, calls[0].capacity, calls[0].transfer);
      var (end, delivered) := Reads(next, calls[1..]);
      (end, (if polled.Ready? && polled.result.Ok? then polled.result.value else []) + delivered)
  }

  /** What a write that fits answers, for everything that the connection may do with it. */
  lemma WriteAnswers(w: Writer, buf: Bytes, n: nat)
    requires buf != [] && |buf| <= w.remaining
    ensures n <= |buf| ==> Write(w, buf, Moved(n)) == (Writer(w.outgoing + buf[..n], w.remaining - n), Ready(Ok(n)))
    ensures n > w.remaining ==> Write(w, buf, Moved(n)).1 == Ready(Err(InvalidData))
    ensures Write(w, buf, Blocked) == (w, Pending) && Write(w, buf, Broken) == (w, Ready(Err(Inner)))
    ensures Write(w, [], Moved(n)) == (w, Ready(Ok(0)))
  {
  }

  /** What a read answers while bytes are due, for everything that the connection may do with it. */
  lemma ReadAnswers(r: Reader, capacity: nat, n: nat)
    requires r.remaining > 0 && n <= |r.incoming|
    ensures Read(r, capacity, Blocked) == (r, Pending) && Read(r, capacity, Broken) == (r, Ready(Err(Inner)))
    ensures n > 0 && capacity > 0 ==>
      exists k :: 0 < k <= n && k <= capacity && k <= r.remaining && (k == n || k == capacity || k == r.remaining)
                  && Read(r, capacity, Moved(n))
                     == (Reader(r.incoming[k..], r.remaining - k), Ready(Ok(r.incoming[..k])))
  {
    var k := Min(n, Min(r.remaining, capacity));
    assert n > 0 && capacity > 0 ==>
      Read(r, capacity, Moved(n)) == (Reader(r.incoming[k..], r.remaining - k), Ready(Ok(r.incoming[..k])));
  }

  /** The bytes that the connection moves over some polls. */
  function MovedBytes(calls: seq<WriteCall>): Bytes
    requires HonestWrites(calls)
  {
    if calls == [] then []
    else (if calls[0].transfer.Moved? then calls[0].buf[..calls[0].transfer.n] else []) + MovedBytes(calls[1..])
  }

  /** No poll offers more than is left at its turn. */
  predicate Fitting(remaining: nat, calls: seq<WriteCall>)
    requires HonestWrites(calls)
    decreases |calls|
  {
    calls != [] ==>
      && |calls[0].buf| <= remaining
      && Fitting(remaining - if calls[0].transfer.Moved? then calls[0].transfer.n else 0, calls[1..])
  }

  /** Writes that fit lose nothing: what the connection moves is on the wire, reported as written, and counted. */
  lemma {:induction false} WritesMoveEverything(w: Writer, calls: seq<WriteCall>)
    requires HonestWrites(calls) && Fitting(w.remaining, calls)
    ensures |MovedBytes(calls)| <= w.remaining
    ensures Writes(w, calls) ==
      (Writer(w.outgoing + MovedBytes(calls), w.remaining - |MovedBytes(calls)|), MovedBytes(calls))
    decreases |calls|
  {
    if calls == [] {
      AppendNothing(w.outgoing);
    } else {
      var call := calls[0];
      if call.buf != [] {
        WriteAnswers(w, call.buf, if call.transfer.Moved? then call.transfer.n else 0);
      } else {
        AppendNothing(w.outgoing);
      }
      var head := if call.transfer.Moved? then call.buf[..call.transfer.n] else [];
      var (next, polled) := Write(w, call.buf, call.transfer);
      assert next == Writer(w.outgoing + head, w.remaining - |head|) && Accepted(call, polled) == head by {
        AppendNothing(w.outgoing);
      }
      WritesMoveEverything(next, calls[1..]);
      AppendAssociates(w.outgoing, head, MovedBytes(calls[1..]));
    }
  }

  function Buffers(calls: seq<WriteCall>): Bytes {
    if calls == [] then [] else calls[0].buf + Buffers(calls[1..])
  }

  /** Every poll moves the whole of its buffer. */
  predicate WholeMoves(calls: seq<WriteCall>) {
    forall i :: 0 <= i < |calls| ==> calls[i].transfer == Moved(|calls[i].buf|)
  }

  /** Writing ends: whole buffers that make up the payload leave nothing to write, and the writer may shut down. */
  lemma WritesFinish(w: Writer, calls: seq<WriteCall>)
    requires WholeMoves(calls) && |Buffers(calls)| == w.remaining
    ensures Writes(w, calls) == (Writer(w.outgoing + Buffers(calls), 0), Buffers(calls))
  {
    WholeMovesFit(w.remaining, calls);
    WritesMoveEverything(w, calls);
  }

  lemma {:induction false} WholeMovesFit(remaining: nat, calls: seq<WriteCall>)
    requires WholeMoves(calls) && |Buffers(calls)| <= remaining
    ensures HonestWrites(calls) && Fitting(remaining, calls) && MovedBytes(calls) == Buffers(calls)
    decreases |calls|
  {
    if calls != [] {
      WholeMovesFit(remaining - |calls[0].buf|, calls[1..]);
      assert calls[0].buf[..|calls[0].buf|] == calls[0].buf;
    }
  }

  /** Exactly which writes are refused: those that offer more than is left. */
  lemma WriteRefusedExactly(w: Writer, call: WriteCall)
    requires HonestWrites([call])
    ensures Write(w, call.buf, call.transfer).1 == Ready(Err(InvalidData)) <==> |call.buf| > w.remaining
  {
    assert [call][0] == call;
  }

  /** Exactly when a read that completes reports a premature end: bytes are due, but none come or none fit. */
  lemma PrematureEndExactly(r: Reader, capacity: nat, transfer: Transfer)
    requires Honest(r.incoming, transfer) && transfer.Moved?
    ensures Read(r, capacity, transfer).1 == Ready(Err(UnexpectedEof)) <==>
      r.remaining > 0 && (r.incoming == [] || capacity == 0)
    ensures Read(r, capacity, transfer).1 == Ready(Ok([])) <==> r.remaining == 0
  {
    if r.remaining > 0 && r.incoming != [] && capacity > 0 {
      var read := Min(transfer.n, Min(r.remaining, capacity));
      assert |r.incoming[..read]| == read > 0;
    }
  }

  /** However the writes are cut up, the wire holds what was reported as written, and the count is kept. */
  lemma {:induction false} WritesKeepFrame(w: Writer, calls: seq<WriteCall>)
    requires HonestWrites(calls)
    ensures var (end, written) := Writes(w, calls);
      end.outgoing == w.outgoing + written && |written| + end.remaining == w.remaining
    decreases |calls|
  {
    if calls != [] {
      var call := calls[0];
      var (next, polled) := Write(w, call.buf, call.transfer);
      var head := Accepted(call, polled);
      assert next.outgoing == w.outgoing + head && |head| + next.remaining == w.remaining;
      WritesKeepFrame(next, calls[1..]);
      AppendAssociates(w.outgoing, head, Writes(next, calls[1..]).1);
    }
  }

  /**
   The writer may shut down exactly if the bytes reported as written fill the frame,
   which is when the wire holds a whole frame that a receiver reads as those bytes.
   */
  lemma ShutdownPassesExactly(n: U64, calls: seq<WriteCall>)
    requires HonestWrites(calls)
    ensures var (end, written) := Writes(Writer(Header(n), n), calls);
      && (Shutdown(end, Ready(Ok(()))) == Ready(Ok(())) <==> |written| == n)
      && (Shutdown(end, Ready(Ok(()))) == Ready(Ok(())) <==>
          AcceptFrame(end.outgoing) == Some(Reader(written, |written|)))
  {
    WritesKeepFrame(Writer(Header(n), n), calls);
    HeaderTaken(n, Writes(Writer(Header(n), n), calls).1);
  }

  /** However the reads are cut up, what was delivered is exactly what was consumed, and the count is kept. */
  lemma {:induction false} ReadsAreExact(r: Reader, calls: seq<ReadCall>)
    requires HonestReads(r, calls)
    ensures var (end, delivered) := Reads(r, calls);
      r.incoming == delivered + end.incoming && |delivered| + end.remaining == r.remaining
    decreases |calls|
  {
    if calls != [] {
      var (next, polled) := Read(r, calls[0].capacity, calls[0].transfer);
      var head := if polled.Ready? && polled.result.Ok? then polled.result.value else [];
      if head == [] {
        assert head + next.incoming == r.incoming;
      }
      assert r.incoming == head + next.incoming && |head| + next.remaining == r.remaining;
      ReadsAreExact(next, calls[1..]);
      var (end, delivered) := Reads(next, calls[1..]);
      AppendAssociates(head, delivered, end.incoming);
    }
  }

  /** The polls that can make progress. */
  function Productive(calls: seq<ReadCall>): nat {
    if calls == [] then 0
    else (if calls[0].capacity > 0 && calls[0].transfer.Moved? then 1 else 0) + Productive(calls[1..])
  }

  /** Reading ends: each completed poll into a non-empty buffer takes at least one byte while some are there. */
  lemma {:induction false} ReadsFinish(r: Reader, calls: seq<ReadCall>)
    requires HonestReads(r, calls) && |r.incoming| >= r.remaining
    requires Productive(calls) >= r.remaining
    ensures Reads(r, calls).0.remaining == 0
    decreases |calls|
  {
    if calls != [] {
      ReadsAreExact(r, calls[..1]);
      assert calls[..1][0] == calls[0];
      var (next, polled) := Read(r, calls[0].capacity, calls[0].transfer);
      assert |next.incoming| >= next.remaining;
      ReadsFinish(next, calls[1..]);
    }
  }

  predicate NonEmptyBuffers(calls: seq<ReadCall>) {
    forall i :: 0 <= i < |calls| ==> calls[i].capacity > 0
  }

  /** No poll reports that the stream ended too early. */
  predicate NoPrematureEnd(r: Reader, calls: seq<ReadCall>)
    requires HonestReads(r, calls)
    decreases |calls|
  {
    calls != [] ==>
      var (next, polled) := Read(r, calls[0].capacity, calls[0].transfer);
      polled != Ready(Err(UnexpectedEof)) && NoPrematureEnd(next, calls[1..])
  }

  lemma {:induction false} WholeStreamHasNoPrematureEnd(r: Reader, calls: seq<ReadCall>)
    requires HonestReads(r, calls) && |r.incoming| >= r.remaining && NonEmptyBuffers(calls)
    ensures NoPrematureEnd(r, calls)
    decreases |calls|
  {
    if calls != [] {
      if calls[0].transfer.Moved? {
        PrematureEndExactly(r, calls[0].capacity, calls[0].transfer);
      }
      var (next, polled) := Read(r, calls[0].capacity, calls[0].transfer);
      assert |next.incoming| >= next.remaining;
      WholeStreamHasNoPrematureEnd(next, calls[1..]);
    }
  }

  lemma HeaderTaken(n: U64, rest: Bytes)
    ensures AcceptFrame(Header(n) + rest) == Some(Reader(rest, n))
    ensures TakeExact(Header(n) + rest, HEADER_SIZE) == (Some(Header(n)), rest) && Length(Header(n)) == n
  {
    DecodeEncode(n, HEADER_SIZE);
    assert (Header(n) + rest)[..HEADER_SIZE] == Header(n) && (Header(n) + rest)[HEADER_SIZE..] == rest;
  }

  /**
   The framing round trip. If the writer may shut down after some writes, then the
   receiver decodes the length, delivers a prefix of the bytes written and nothing
   else, has delivered all of them exactly when it reports the end, and has then
   consumed nothing that follows them; reading into non-empty buffers, it never meets
   a premature end.
   */
  lemma FramingRoundTrip(n: U64, writes: seq<WriteCall>, rest: Bytes, fetches: seq<ReadCall>)
    requires HonestWrites(writes) && Writes(Writer(Header(n), n), writes).0.remaining == 0
    requires var (w, _) := Writes(Writer(Header(n), n), writes);
      var frame := AcceptFrame(w.outgoing + rest);
      frame.Some? ==> HonestReads(frame.value, fetches)
    ensures var (w, written) := Writes(Writer(Header(n), n), writes);
      var frame := AcceptFrame(w.outgoing + rest);
      && frame == Some(Reader(written + rest, |written|))
      && var (r, delivered) := Reads(frame.value, fetches);
        && r.remaining <= |written| && delivered == written[..|written| - r.remaining]
        && r.incoming == written[|written| - r.remaining..] + rest
        && (r.remaining == 0 ==> delivered == written && r.incoming == rest)
        && (r.remaining > 0 ==> r.incoming != [])
        && (Productive(fetches) >= |written| ==> r.remaining == 0)
        && (NonEmptyBuffers(fetches) ==> NoPrematureEnd(frame.value, fetches))
  {
    WritesKeepFrame(Writer(Header(n), n), writes);
    var (w, written) := Writes(Writer(Header(n), n), writes);
    assert w.outgoing + rest == Header(n) + (written + rest);
    HeaderTaken(n, written + rest);
    var frame := Reader(written + rest, n);
    ReadsAreExact(frame, fetches);
    var (r, delivered) := Reads(frame, fetches);
    assert delivered == (written + rest)[..|delivered|];
    assert r.incoming == (written + rest)[|delivered|..];
    if Productive(fetches) >= |written| {
      ReadsFinish(frame, fetches);
    }
    if NonEmptyBuffers(fetches) {
      WholeStreamHasNoPrematureEnd(frame, fetches);
    }
  }

  /**
   A stream cut short is always noticed: the receiver never reports the end, and once
   it has delivered what there was, its next completed read is an error.
   */
  lemma TruncationIsReported(r: Reader, calls: seq<ReadCall>, capacity: nat)
    requires |r.incoming| < r.remaining && HonestReads(r, calls)
    ensures var (end, delivered) := Reads(r, calls);
      && end.remaining > 0 && delivered <= r.incoming
      && (end.incoming == [] ==> Read(end, capacity, Moved(0)).1 == Ready(Err(UnexpectedEof)))
  {
    ReadsAreExact(r, calls);
  }

  /**
   A frame cut anywhere before its end is dropped with its header, or read as far as
   it goes and then reported as ended too early: it never passes for a whole one.
   */
  lemma CutFrameIsNoticed(n: U64, payload: Bytes, cut: nat, calls: seq<ReadCall>, capacity: nat)
    requires |payload| == n && cut < HEADER_SIZE + n
    requires var frame := AcceptFrame((Header(n) + payload)[..cut]);
      frame.Some? ==> HonestReads(frame.value, calls)
    ensures var frame := AcceptFrame((Header(n) + payload)[..cut]);
      && (frame.None? <==> cut < HEADER_SIZE)
      && (frame.Some? ==>
          var (end, delivered) := Reads(frame.value, calls);
          && end.remaining > 0 && delivered <= payload[..cut - HEADER_SIZE]
          && (end.incoming == [] ==> Read(end, capacity, Moved(0)).1 == Ready(Err(UnexpectedEof))))
  {
    var stream := (Header(n) + payload)[..cut];
    if cut >= HEADER_SIZE {
      assert stream == Header(n) + payload[..cut - HEADER_SIZE];
      HeaderTaken(n, payload[..cut - HEADER_SIZE]);
      TruncationIsReported(Reader(payload[..cut - HEADER_SIZE], n), calls, capacity);
    }
  }

  /**
   A pull request arrives intact, leaving what follows it, exactly if it is below
   the size limit; the sender does not check the limit, so larger ones are dropped.
   */
  lemma RequestArrivesExactly(body: Bytes, rest: Bytes)
    requires |body| < Pow256(HEADER_SIZE)
    ensures AcceptRequest(Request(body) + rest) == (Some(body), rest) <==> |body| < 1_048_576
    ensures |body| >= MAX_REQUEST_HEADER_SIZE ==> AcceptRequest(Request(body) + rest).0 == None
  {
    HeaderTaken(|body|, body + rest);
    assert Request(body) + rest == Header(|body|) + (body + rest);
    assert (body + rest)[..|body|] == body && (body + rest)[|body|..] == rest;
  }

  /** Whatever a receiver accepts as a request is one that a sender could have sent. */
  lemma AcceptedRequestWasSent(stream: Bytes)
    ensures var (body, rest) := AcceptRequest(stream);
      body.Some? ==> |body.value| < Pow256(HEADER_SIZE) && stream == Request(body.value) + rest
  {
    if |stream| >= HEADER_SIZE {
      var header := stream[..HEADER_SIZE];
      assert stream == header + stream[HEADER_SIZE..];
      var (body, rest) := AcceptRequest(stream);
      if body.Some? {
        assert stream[HEADER_SIZE..] == body.value + rest;
        assert header + (body.value + rest) == header + body.value + rest;
      }
    }
  }
}
