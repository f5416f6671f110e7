/** The stats client of src/client.rs: bytes come in by reads of any size, events go out one document at a
    time. `Event` and `decode` stand for the typed event and `parse_stats_event_value`. */
module StatsClient {
  import opened Wrappers
  import opened JsonScanner
  import opened Sequences

  /** At least one byte: a read of none is how a socket reports its end. */
  type Piece = b: Bytes | b != [] witness "{"

  /** One call of the socket's read: some bytes, or an I/O error. A socket with nothing left to yield
      has reached its end. */
  datatype Read = Chunk(bytes: Piece) | Failed

  /** What a call of `next_event` returns: an event, no event because the stream has ended, or one of
      the three errors. */
  datatype Outcome<+Event> = Got(event: Event) | Closed | SyntaxError | BadEnvelope | IoError

  type Decoder<!Event> = Bytes -> Option<Event>

  /** Rust's `is_ascii_whitespace`: JSON's white space and form feed. */
  predicate IsAsciiSpace(c: char) { IsSpace(c) || c == 0x0C as char }

  function Trim(b: Bytes): (t: Bytes)
    ensures t != [] ==> !IsAsciiSpace(t[0])
    ensures |t| <= |b|
  {
    if b != [] && IsAsciiSpace(b[0]) then Trim(b[1..]) else b
  }

  /** What the event of a complete document is. */
  function Decoded<Event>(decode: Decoder<Event>, document: Bytes): Outcome<Event> {
    match decode(document)
    case Some(event) => Got(event)
    case None => BadEnvelope
  }

  /** The outcome a buffer yields without any further read, if it yields one, and what stays in it. */
  function TryParse<Event>(decode: Decoder<Event>, buffer: Bytes): (r: (Option<Outcome<Event>>, Bytes)) {
    var b := Trim(buffer);
    if b == [] then (None, b)
    else
      match ScanDocument(b)
      case Complete(n) => (Some(Decoded(decode, b[..n])), b[n..])
      case Incomplete => (None, b)
      case Bad => (Some(SyntaxError), b)
  }

  /** A call of `next_event` on a buffer and the reads to come: outcome, buffer and reads to come afterwards. */
  function Next<Event>(decode: Decoder<Event>, buffer: Bytes, incoming: seq<Read>): (Outcome<Event>, Bytes, seq<Read>)
    decreases |incoming|
  {
    var (outcome, b) := TryParse(decode, buffer);
    if outcome.Some? then (outcome.value, b, incoming)
    else if incoming == [] then (Closed, b, incoming)
    else if incoming[0].Failed? then (IoError, b, incoming[1..])
    else Next(decode, b + incoming[0].bytes, incoming[1..])
  }

  class RocketLeagueStatsClient<!Event(0)> {
    var readBuffer: Bytes
    /** What the socket is going to yield. */
    var incoming: seq<Read>
    const decode: Decoder<Event>
    /** All bytes received since the last connect or reconnect, and those among them taken from the buffer. */
    ghost var received: Bytes
    ghost var drained: Bytes

    ghost predicate Valid()
      reads this
    {
      received == drained + readBuffer
    }

    constructor Connect(decode: Decoder<Event>, incoming: seq<Read>)
      ensures Valid() && this.decode == decode && this.incoming == incoming
      ensures readBuffer == [] && received == []
    {
      this.decode := decode;
      this.incoming := incoming;
      readBuffer := [];
      received, drained := [], [];
    }

    /** A connection that cannot be made leaves the client as it was. */
    method Reconnect(socket: Option<seq<Read>>) returns (ok: bool)
      requires Valid()
      modifies this
      ensures Valid() && ok == socket.Some?
      ensures if ok then incoming == socket.value && readBuffer == [] && received == []
              else incoming == old(incoming) && readBuffer == old(readBuffer) && received == old(received)
    {
      if socket.None? { return false; }
      incoming := socket.value;
      readBuffer := [];
      received, drained := [], [];
      ok := true;
    }

    method DiscardLeadingWhitespace()
      requires Valid()
      modifies `readBuffer, `drained
      ensures Valid() && readBuffer == Trim(old(readBuffer)) && old(drained) <= drained
    {
      var toDrop := 0;
      while toDrop < |readBuffer| && IsAsciiSpace(readBuffer[toDrop])
        invariant toDrop <= |readBuffer|
        invariant Trim(readBuffer[toDrop..]) == Trim(readBuffer)
      {
        assert readBuffer[toDrop..][1..] == readBuffer[toDrop + 1..];
        toDrop := toDrop + 1;
      }
      if toDrop > 0 {
        drained := drained + readBuffer[..toDrop];
        readBuffer := readBuffer[toDrop..];
      }
    }

    method TryParseEventFromBuffer() returns (outcome: Option<Outcome<Event>>)
      requires Valid()
      modifies `readBuffer, `drained
      ensures Valid() && (outcome, readBuffer) == TryParse(decode, old(readBuffer)) && old(drained) <= drained
    {
      DiscardLeadingWhitespace();
      if readBuffer == [] { return None; }
      match ScanDocument(readBuffer)
      case Complete(consumed) =>
        var document := readBuffer[..consumed];
        drained := drained + document;
        readBuffer := readBuffer[consumed..];
        outcome := Some(Decoded(decode, document));
      case Incomplete => outcome := None;
      case Bad => outcome := Some(SyntaxError);
    }

    /** Appends the bytes of the next read, if it yields any. */
    method ReadMore() returns (ok: bool)
      requires Valid() && incoming != []
      modifies `readBuffer, `incoming, `received
      ensures Valid() && ok == old(incoming[0]).Chunk? && incoming == old(incoming)[1..]
      ensures readBuffer == if ok then old(readBuffer) + old(incoming[0]).bytes else old(readBuffer)
      ensures received + Flatten(incoming) == old(received) + Flatten(old(incoming))
    {
      var read := incoming[0];
      incoming := incoming[1..];
      ok := read.Chunk?;
      if ok {
        AppendAssociates(received, read.bytes, Flatten(incoming));
        AppendAssociates(drained, readBuffer, read.bytes);
        assert old(Flatten(incoming)) == read.bytes + Flatten(incoming);
        received := received + read.bytes;
        readBuffer := readBuffer + read.bytes;
      }
    }

    method NextEvent() returns (outcome: Outcome<Event>)
      requires Valid()
      modifies this
      ensures Valid() && (outcome, readBuffer, incoming) == Next(decode, old(readBuffer), old(incoming))
      ensures old(drained) <= drained
      ensures received + Flatten(incoming) == old(received) + Flatten(old(incoming))
    {
      while true
        invariant Valid() && old(drained) <= drained
        invariant Next(decode, readBuffer, incoming) == Next(decode, old(readBuffer), old(incoming))
        invariant received + Flatten(incoming) == old(received) + Flatten(old(incoming))
        decreases |incoming|
      {
        ghost var before := readBuffer;
        var found := TryParseEventFromBuffer();
        if found.Some? { return found.value; }
        if incoming == [] {
          TryParseTwice(decode, before);
          found := TryParseEventFromBuffer();
          assert found.None?;
          return Closed;
        }
        var ok := ReadMore();
        if !ok { return IoError; }
      }
    }
  }

  /** Without new bytes a buffer that yielded nothing yields nothing, and stays as it is. */
  lemma TryParseTwice<Event>(decode: Decoder<Event>, buffer: Bytes)
    requires TryParse(decode, buffer).0.None?
    ensures TryParse(decode, TryParse(decode, buffer).1) == TryParse(decode, buffer)
  {
    TrimIdempotent(buffer);
  }

  // ---- The bytes of all reads ----

  function Flatten(incoming: seq<Read>): Bytes {
    if incoming == [] then [] else (if incoming[0].Chunk? then incoming[0].bytes else []) + Flatten(incoming[1..])
  }

  ghost predicate AllChunks(incoming: seq<Read>) { forall r | r in incoming :: r.Chunk? }

  // ---- Trimming ----

  lemma {:induction false} TrimAppend(a: Bytes, b: Bytes)
    ensures Trim(a + b) == if Trim(a) != [] then Trim(a) + b else Trim(b)
  {
    if a == [] {
      assert a + b == b;
    } else if IsAsciiSpace(a[0]) {
      TrimAppend(a[1..], b);
      assert (a + b)[1..] == a[1..] + b;
    }
  }

  /** What trimming takes away is all white space. */
  lemma {:induction false} TrimSplits(a: Bytes) returns (gap: Bytes)
    ensures a == gap + Trim(a) && Trim(gap) == []
  {
    if a != [] && IsAsciiSpace(a[0]) {
      var more := TrimSplits(a[1..]);
      gap := [a[0]] + more;
      assert gap[1..] == more;
    } else {
      gap := [];
    }
  }

  /** A byte before a document is dropped exactly if it is a space, a tab, a line feed, a form feed or a carriage
      return. */
  lemma SpacesAreDropped(c: char, s: Bytes)
    requires s != [] && Trim(s) == s
    ensures Trim([c] + s) == s <==> c in {' ', '\t', '\n', 12 as char, '\r'}
  {
    assert ([c] + s)[1..] == s;
    assert |[c] + s| != |s|;
  }

  lemma TrimIdempotent(a: Bytes)
    ensures Trim(Trim(a)) == Trim(a)
  {
  }

  // ---- The same stream as one buffer ----

  /** What a call yields when all bytes of the stream are in the buffer: the outcome and the bytes left. */
  function Pull<Event>(decode: Decoder<Event>, stream: Bytes): (Outcome<Event>, Bytes) {
    var (outcome, rest) := TryParse(decode, stream);
    (if outcome.Some? then outcome.value else Closed, rest)
  }

  // ---- Runs of calls ----

  /** The outcomes of the first `n` calls. */
  function Calls<Event>(decode: Decoder<Event>, buffer: Bytes, incoming: seq<Read>, n: nat): (r: seq<Outcome<Event>>)
    ensures |r| == n
    decreases n
  {
    if n == 0 then []
    else
      var (outcome, b, rest) := Next(decode, buffer, incoming);
      [outcome] + Calls(decode, b, rest, n - 1)
  }

  /** The outcomes of the first `n` calls on a stream that is in the buffer as a whole. */
  function Pulls<Event>(decode: Decoder<Event>, stream: Bytes, n: nat): (r: seq<Outcome<Event>>)
    ensures |r| == n
    decreases n
  {
    if n == 0 then []
    else
      var (outcome, rest) := Pull(decode, stream);
      [outcome] + Pulls(decode, rest, n - 1)
  }

  /** A syntax error stays: every later call gives it again and reads nothing, until `Reconnect`. */
  lemma {:induction false} SyntaxErrorStays<Event>(decode: Decoder<Event>, buffer: Bytes, incoming: seq<Read>, n: nat)
    requires Next(decode, buffer, incoming).0.SyntaxError?
    ensures var (_, b, rest) := Next(decode, buffer, incoming);
            Next(decode, b, rest) == (SyntaxError, b, rest) && Calls(decode, b, rest, n) == seq(n, _ => SyntaxError)
    decreases |incoming|, n
  {
    var (outcome, b) := TryParse(decode, buffer);
    if outcome.None? {
      SyntaxErrorStays(decode, b + incoming[0].bytes, incoming[1..], n);
    } else {
      TrimIdempotent(buffer);
      if n > 0 { SyntaxErrorStays(decode, buffer, incoming, n - 1); }
    }
  }
}
