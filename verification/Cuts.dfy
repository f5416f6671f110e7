/** Whether the way a stream is cut into reads can be seen from outside: exactly which streams the client of
    src/client.rs takes apart in the same way however their bytes arrive, and that streams of objects do. */
module Cuts {
  import opened JsonGrammar
  import opened JsonScanner
  import opened JsonTails
  import opened Sequences
  import opened StatsClient
  import opened Wrappers

  // ---- Which cuts can matter ----

  /** The first `k` bytes would be taken for a whole document, and the scanner says otherwise of all bytes. */
  ghost predicate Misleads(t: Bytes, k: nat) {
    0 < k < |t| && ScanDocument(t[..k]).Complete? && ScanDocument(t) != ScanDocument(t[..k])
  }

  /** A syntax error that shows with the first bytes that are not white space, wherever the reads end. */
  ghost predicate Hopeless(stream: Bytes) {
    var t := Trim(stream);
    t != [] && ScanDocument(t).Bad? && forall k | 0 < k < |t| :: !ScanDocument(t[..k]).Complete?
  }

  /** Taking the first `k` bytes for the document goes unnoticed: the outcome is the same, and whichever end
      is taken, there is nothing but a syntax error behind it. */
  ghost predicate Masked<Event>(decode: Decoder<Event>, t: Bytes, k: nat)
    requires 0 < k < |t| && ScanDocument(t[..k]).Complete?
  {
    var n := ScanDocument(t[..k]).end;
    ScanDocument(t).Complete? && Decoded(decode, t[..n]) == Decoded(decode, t[..ScanDocument(t).end]) &&
    Hopeless(t[n..]) && Hopeless(t[ScanDocument(t).end..])
  }

  ghost predicate FirmFor<Event>(decode: Decoder<Event>, t: Bytes) {
    forall k | Misleads(t, k) :: Masked(decode, t, k)
  }

  /** At each document of the stream no read can mislead, or it goes unnoticed. */
  ghost predicate CutSafeFor<Event>(decode: Decoder<Event>, stream: Bytes)
    decreases |stream|
  {
    var t := Trim(stream);
    t == [] || (FirmFor(decode, t) && (ScanDocument(t).Complete? ==> CutSafeFor(decode, t[ScanDocument(t).end..])))
  }

  /** The length of the shortest bare value that `t` begins with, or 0. */
  function FirstBare(t: Bytes): (n: nat)
    ensures n <= |t|
  {
    if t == [] then 0
    else if IsDigit(t[0]) then 1
    else if t[0] == '-' then if |t| > 1 && IsDigit(t[1]) then 2 else 0
    else if "true" <= t || "null" <= t then 4
    else if "false" <= t then 5
    else 0
  }

  /** If a bare value stands here, it is a word or a single digit, signed or not, and it is over. */
  predicate Undivided(t: Bytes) {
    var n := FirstBare(t);
    n == 0 || n == |t| || EndsBare(t[n])
  }

  /** All documents of the stream are undivided. */
  predicate CutSafe(stream: Bytes)
    decreases |stream|
  {
    var t := Trim(stream);
    t == [] || (Undivided(t) && (ScanDocument(t).Complete? ==> CutSafe(t[ScanDocument(t).end..])))
  }

  // ---- Hopeless streams ----

  lemma {:induction false} HopelessNext<Event>(decode: Decoder<Event>, buffer: Bytes, incoming: seq<Read>)
    requires AllChunks(incoming) && Hopeless(buffer + Flatten(incoming))
    ensures var (outcome, b, rest) := Next(decode, buffer, incoming);
            outcome.SyntaxError? && AllChunks(rest) && Hopeless(b + Flatten(rest))
    decreases |incoming|
  {
    var t, more := Trim(buffer), Flatten(incoming);
    TrimAppend(buffer, more);
    TrimmedPull(decode, buffer, more);
    if t != [] {
      assert (t + more)[..|t|] == t;
      if more == [] { assert t + more == t; }
    }
    if TryParse(decode, buffer).0.None? {
      var bytes, later := incoming[0].bytes, incoming[1..];
      assert incoming[0] in incoming;
      AppendAssociates(t, bytes, Flatten(later));
      HopelessNext(decode, t + bytes, later);
    }
  }

  lemma {:induction false} HopelessCalls<Event>(decode: Decoder<Event>, buffer: Bytes, incoming: seq<Read>, n: nat)
    requires AllChunks(incoming) && Hopeless(buffer + Flatten(incoming))
    ensures Calls(decode, buffer, incoming, n) == seq(n, _ => SyntaxError)
    decreases n
  {
    if n > 0 {
      HopelessNext(decode, buffer, incoming);
      var (_, b, rest) := Next(decode, buffer, incoming);
      HopelessCalls(decode, b, rest, n - 1);
    }
  }

  lemma {:induction false} HopelessPulls<Event>(decode: Decoder<Event>, stream: Bytes, n: nat)
    requires Hopeless(stream)
    ensures Pulls(decode, stream, n) == seq(n, _ => SyntaxError)
    decreases n
  {
    if n > 0 {
      TrimIdempotent(stream);
      HopelessPulls(decode, Trim(stream), n - 1);
    }
  }

  // ---- Safe streams ----

  /** A document found in the buffer is the stream's, or passes for it. */
  lemma FoundPull<Event>(decode: Decoder<Event>, buffer: Bytes, more: Bytes)
    requires TryParse(decode, buffer).0.Some? && FirmFor(decode, Trim(buffer + more))
    ensures var (outcome, b) := TryParse(decode, buffer);
            var (pulled, rest) := Pull(decode, buffer + more);
            outcome.value == pulled && (b + more == rest || (Hopeless(b + more) && Hopeless(rest)))
  {
    var t := Trim(buffer);
    TrimAppend(buffer, more);
    var u := t + more;
    assert u[..|t|] == t;
    if ScanDocument(t).Bad? {
      VerdictGrows(t, u);
    } else {
      var n := ScanDocument(t).end;
      assert u[..n] == t[..n] && u[n..] == t[n..] + more;
      if more == [] { assert u == t; } else if ScanDocument(u) != ScanDocument(t) { assert Misleads(u, |t|); }
    }
  }

  lemma TrimmedPull<Event>(decode: Decoder<Event>, buffer: Bytes, more: Bytes)
    ensures Trim(Trim(buffer) + more) == Trim(buffer + more)
    ensures Pull(decode, Trim(buffer) + more) == Pull(decode, buffer + more)
  {
    TrimAppend(buffer, more);
    TrimAppend(Trim(buffer), more);
    TrimIdempotent(buffer);
  }

  /** However its bytes are cut into reads, a call yields what it would yield from the whole stream, and
      leaves the same bytes to be parsed, or nothing but a syntax error either way. */
  lemma {:induction false} NextIsPull<Event>(decode: Decoder<Event>, buffer: Bytes, incoming: seq<Read>)
    requires AllChunks(incoming) && FirmFor(decode, Trim(buffer + Flatten(incoming)))
    ensures var (outcome, b, rest) := Next(decode, buffer, incoming);
            var (pulled, left) := Pull(decode, buffer + Flatten(incoming));
            AllChunks(rest) && outcome == pulled &&
            (b + Flatten(rest) == left || (Hopeless(b + Flatten(rest)) && Hopeless(left)))
    decreases |incoming|
  {
    var t, more := Trim(buffer), Flatten(incoming);
    TrimAppend(buffer, more);
    if TryParse(decode, buffer).0.Some? {
      FoundPull(decode, buffer, more);
    } else if incoming == [] {
      assert buffer + more == buffer;
      assert t + more == t;
    } else {
      TrimmedPull(decode, buffer, more);
      var bytes, later := incoming[0].bytes, incoming[1..];
      assert incoming[0] in incoming;
      AppendAssociates(t, bytes, Flatten(later));
      NextIsPull(decode, t + bytes, later);
    }
  }

  lemma CutSafeAfter<Event>(decode: Decoder<Event>, stream: Bytes)
    requires CutSafeFor(decode, stream)
    ensures FirmFor(decode, Trim(stream)) && CutSafeFor(decode, Pull(decode, stream).1)
  {
    TrimIdempotent(stream);
    assert forall k :: !Misleads([], k);
  }

  lemma {:induction false} CallsArePulls<Event>(decode: Decoder<Event>, buffer: Bytes, incoming: seq<Read>, n: nat)
    requires AllChunks(incoming) && CutSafeFor(decode, buffer + Flatten(incoming))
    ensures Calls(decode, buffer, incoming, n) == Pulls(decode, buffer + Flatten(incoming), n)
    decreases n
  {
    if n > 0 {
      var stream := buffer + Flatten(incoming);
      CutSafeAfter(decode, stream);
      NextIsPull(decode, buffer, incoming);
      var (_, b, rest) := Next(decode, buffer, incoming);
      if b + Flatten(rest) == Pull(decode, stream).1 {
        CallsArePulls(decode, b, rest, n - 1);
      } else {
        HopelessCalls(decode, b, rest, n - 1);
        HopelessPulls(decode, Pull(decode, stream).1, n - 1);
      }
    }
  }

  // ---- Unsafe streams ----

  /** The bytes as reads: one, or none at all. */
  function Whole(b: Bytes): (cut: seq<Read>)
    ensures AllChunks(cut) && Flatten(cut) == b
  {
    if b == [] then []
    else
      var cut := [Chunk(b)];
      assert cut[1..] == [];
      cut
  }

  /** A read with `first` in it, and then the others. */
  lemma Behind(first: Bytes, rest: seq<Read>)
    requires first != [] && AllChunks(rest)
    ensures AllChunks([Chunk(first)] + rest) && Flatten([Chunk(first)] + rest) == first + Flatten(rest)
  {
    assert ([Chunk(first)] + rest)[1..] == rest;
  }

  /** What the first read makes of a document that its bytes complete. */
  lemma FirstRead<Event>(decode: Decoder<Event>, gap: Bytes, t: Bytes, k: nat, rest: seq<Read>, n: nat)
    requires Trim(gap) == [] && Trim(t) == t && 0 < k <= |t| && ScanDocument(t[..k]).Complete? && AllChunks(rest)
    ensures var e := ScanDocument(t[..k]).end;
            Calls(decode, [], [Chunk(gap + t[..k])] + rest, n + 1) ==
            [Decoded(decode, t[..e])] + Calls(decode, t[e..k], rest, n)
  {
    var b, e := gap + t[..k], ScanDocument(t[..k]).end;
    var cut := [Chunk(b)] + rest;
    TrimOfPrefix(t, k);
    TrimAppend(gap, t[..k]);
    assert cut[1..] == rest && [] + b == b;
    assert t[..k][..e] == t[..e] && t[..k][e..] == t[e..k];
    assert Next(decode, b, rest) == (Decoded(decode, t[..e]), t[e..k], rest);
    assert Next(decode, [], cut) == Next(decode, b, rest);
  }

  lemma TrimOfPrefix(t: Bytes, k: nat)
    requires Trim(t) == t && 0 < k <= |t|
    ensures Trim(t[..k]) == t[..k]
  {
  }

  /** With nothing in the buffer the first read might as well have been in it. */
  lemma FirstReadBuffered<Event>(decode: Decoder<Event>, cut: seq<Read>, n: nat)
    requires cut != [] && AllChunks(cut)
    ensures Calls(decode, [], cut, n) == Calls(decode, cut[0].bytes, cut[1..], n)
  {
    assert cut[0] in cut;
    assert [] + cut[0].bytes == cut[0].bytes;
    if n > 0 { assert Next(decode, [], cut) == Next(decode, cut[0].bytes, cut[1..]); }
  }

  /** The stream cut where its first document's first `k` bytes end, and then like the rest. */
  lemma ReadUpTo<Event>(decode: Decoder<Event>, stream: Bytes, k: nat, rest: seq<Read>, n: nat) returns (cut: seq<Read>)
    requires var t := Trim(stream);
             0 < k <= |t| && ScanDocument(t[..k]).Complete? && AllChunks(rest) && Flatten(rest) == t[k..]
    ensures AllChunks(cut) && Flatten(cut) == stream
    ensures var t := Trim(stream); var e := ScanDocument(t[..k]).end;
            Calls(decode, [], cut, n + 1) == [Decoded(decode, t[..e])] + Calls(decode, t[e..k], rest, n)
  {
    var t := Trim(stream);
    var gap := TrimSplits(stream);
    TrimIdempotent(stream);
    cut := [Chunk(gap + t[..k])] + rest;
    FirstRead(decode, gap, t, k, rest, n);
    Together(gap, t, k, rest);
  }

  lemma Together(gap: Bytes, t: Bytes, k: nat, rest: seq<Read>)
    requires 0 < k <= |t| && AllChunks(rest) && Flatten(rest) == t[k..]
    ensures var cut := [Chunk(gap + t[..k])] + rest; AllChunks(cut) && Flatten(cut) == gap + t
  {
    Behind(gap + t[..k], rest);
    AppendAssociates(gap, t[..k], t[k..]);
    assert t[..k] + t[k..] == t;
  }

  /** A cut of what follows the first document, as a cut of the whole stream. */
  lemma AfterFirst<Event>(decode: Decoder<Event>, stream: Bytes, cut: seq<Read>, n: nat) returns (longer: seq<Read>)
    requires Trim(stream) != [] && ScanDocument(Trim(stream)).Complete?
    requires AllChunks(cut) && Flatten(cut) == Trim(stream)[ScanDocument(Trim(stream)).end..]
    ensures AllChunks(longer) && Flatten(longer) == stream
    ensures Calls(decode, [], longer, n + 1) == [Pull(decode, stream).0] + Calls(decode, [], cut, n)
  {
    var t, m := Trim(stream), ScanDocument(Trim(stream)).end;
    if cut == [] {
      DocumentIsThere(t, m);
      longer := ReadUpTo(decode, stream, m, [], n);
      assert t[m..m] == [];
    } else {
      assert cut[0] in cut;
      var first := cut[0].bytes;
      var k := m + |first|;
      NextPiece(t, m, first, Flatten(cut[1..]));
      DocumentIsThere(t, k);
      longer := ReadUpTo(decode, stream, k, cut[1..], n);
      FirstReadBuffered(decode, cut, n);
    }
  }

  lemma NextPiece(t: Bytes, m: nat, first: Bytes, more: Bytes)
    requires m <= |t| && t[m..] == first + more
    ensures var k := m + |first|; k <= |t| && t[m..k] == first && t[k..] == more
  {
    var k := m + |first|;
    assert t[m..k] == t[m..][..|first|] && t[k..] == t[m..][|first|..];
  }

  lemma WholeIsPulls<Event>(decode: Decoder<Event>, stream: Bytes, n: nat)
    ensures Calls(decode, [], Whole(stream), n) == Pulls(decode, stream, n)
    decreases n
  {
    if stream == [] {
      assert forall k :: !Misleads([], k);
      assert [] + Flatten([]) == [];
      CallsArePulls(decode, [], [], n);
    } else {
      FirstReadBuffered(decode, Whole(stream), n);
      assert Whole(stream)[1..] == [];
      NoReads(decode, stream, n);
    }
  }

  lemma {:induction false} NoReads<Event>(decode: Decoder<Event>, buffer: Bytes, n: nat)
    ensures Calls(decode, buffer, [], n) == Pulls(decode, buffer, n)
    decreases n
  {
    if n > 0 { NoReads(decode, Pull(decode, buffer).1, n - 1); }
  }

  /** Unless a stream is hopeless, some cut of it yields something other than a syntax error first. */
  lemma NotHopeless<Event>(decode: Decoder<Event>, stream: Bytes) returns (cut: seq<Read>)
    requires !Hopeless(stream)
    ensures AllChunks(cut) && Flatten(cut) == stream && !Calls(decode, [], cut, 1)[0].SyntaxError?
  {
    var t := Trim(stream);
    cut := Whole(stream);
    WholeIsPulls(decode, stream, 1);
    if t != [] && ScanDocument(t).Bad? {
      var k :| 0 < k < |t| && ScanDocument(t[..k]).Complete?;
      cut := ReadUpTo(decode, stream, k, Whole(t[k..]), 0);
    }
  }

  lemma PullsFirst<Event>(decode: Decoder<Event>, stream: Bytes, n: nat)
    ensures Pulls(decode, stream, n + 1) == [Pull(decode, stream).0] + Pulls(decode, Pull(decode, stream).1, n)
    ensures var first := Pull(decode, stream).0;
            first.Got? || first.BadEnvelope? ==> |Pull(decode, stream).1| < |stream|
  {
  }

  lemma DropFirst<T>(x: T, a: seq<T>, b: seq<T>)
    requires a != b
    ensures [x] + a != [x] + b
  {
    assert ([x] + a)[1..] == a && ([x] + b)[1..] == b;
  }

  /** A document more or less shows, since every stream comes to an end. */
  lemma {:induction false} OneMoreShows<Event>(decode: Decoder<Event>, first: Outcome<Event>, stream: Bytes, n: nat)
    requires (first.Got? || first.BadEnvelope?) && n > |stream|
    ensures [first] + Pulls(decode, stream, n) != Pulls(decode, stream, n + 1)
    decreases |stream|
  {
    var (pulled, rest) := Pull(decode, stream);
    PullsFirst(decode, stream, n);
    PullsFirst(decode, stream, n - 1);
    if pulled == first {
      OneMoreShows(decode, first, rest, n - 1);
      DropFirst(first, [first] + Pulls(decode, rest, n - 1), Pulls(decode, rest, n));
    } else {
      assert ([first] + Pulls(decode, stream, n))[0] != ([pulled] + Pulls(decode, rest, n))[0];
    }
  }

  // ---- Exactly the safe streams ----

  /** Some cut of the stream yields other outcomes than the stream as a whole. */
  ghost predicate Shows<Event>(decode: Decoder<Event>, stream: Bytes, cut: seq<Read>, n: nat) {
    AllChunks(cut) && Flatten(cut) == stream && Calls(decode, [], cut, n) != Pulls(decode, stream, n)
  }

  /** What follows the document shows in a cut of it; then so it does in a cut of the whole stream. */
  lemma ShowsLater<Event>(decode: Decoder<Event>, stream: Bytes, cut: seq<Read>, n: nat) returns (longer: seq<Read>)
    requires Trim(stream) != [] && ScanDocument(Trim(stream)).Complete?
    requires Shows(decode, Trim(stream)[ScanDocument(Trim(stream)).end..], cut, n)
    ensures Shows(decode, stream, longer, n + 1)
  {
    longer := AfterFirst(decode, stream, cut, n);
    PullsFirst(decode, stream, n);
    DropFirst(Pull(decode, stream).0, Calls(decode, [], cut, n), Pulls(decode, Pull(decode, stream).1, n));
  }

  /** So it does when what is left behind a misleading read does. */
  lemma ShowsBehind<Event>(decode: Decoder<Event>, stream: Bytes, k: nat, rest: seq<Read>, n: nat) returns (cut: seq<Read>)
    requires Misleads(Trim(stream), k) && AllChunks(rest) && Flatten(rest) == Trim(stream)[k..]
    requires Decoded(decode, Trim(stream)[..k]) != Pull(decode, stream).0 ||
             Calls(decode, [], rest, n) != Pulls(decode, Pull(decode, stream).1, n)
    ensures Shows(decode, stream, cut, n + 1)
  {
    var t := Trim(stream);
    TakenForWhole(t, k);
    cut := ReadUpTo(decode, stream, k, rest, n);
    assert t[k..k] == [];
    PullsFirst(decode, stream, n);
    if Decoded(decode, t[..k]) == Pull(decode, stream).0 {
      DropFirst(Pull(decode, stream).0, Calls(decode, [], rest, n), Pulls(decode, Pull(decode, stream).1, n));
    } else {
      assert Calls(decode, [], cut, n + 1)[0] != Pulls(decode, stream, n + 1)[0];
    }
  }

  /** A misleading read that is not masked shows. */
  lemma MisleadingShows<Event>(decode: Decoder<Event>, stream: Bytes, k: nat) returns (cut: seq<Read>, n: nat)
    requires Misleads(Trim(stream), k) && !Masked(decode, Trim(stream), k)
    ensures Shows(decode, stream, cut, n)
  {
    var t := Trim(stream);
    TakenForWhole(t, k);
    var left, after := t[k..], Pull(decode, stream).1;
    if !ScanDocument(t).Complete? || Decoded(decode, t[..k]) != Pull(decode, stream).0 {
      n := 1;
      cut := ShowsBehind(decode, stream, k, Whole(left), 0);
    } else {
      TailOfDocument(t, k);
      TrimsToItself(left);
      if ScanDocument(left).Complete? {
        n := |after| + 3;
        LongerByOne(decode, t, k, after);
        WholeIsPulls(decode, left, n - 1);
        cut := ShowsBehind(decode, stream, k, Whole(left), n - 1);
      } else {
        n := 2;
        cut := ErrorShows(decode, stream, k);
      }
    }
  }

  lemma TrimsToItself(t: Bytes)
    requires t != [] && !IsAsciiSpace(t[0])
    ensures Trim(t) == t
  {
  }

  /** What is left behind the misleading read is a document and then what follows the whole one. */
  lemma LongerByOne<Event>(decode: Decoder<Event>, t: Bytes, k: nat, after: Bytes)
    requires k < |t| && ScanDocument(t).Complete? && k < ScanDocument(t).end && after == t[ScanDocument(t).end..]
    requires Trim(t[k..]) == t[k..] && ScanDocument(t[k..]) == Complete(ScanDocument(t).end - k)
    ensures Pulls(decode, t[k..], |after| + 2) != Pulls(decode, after, |after| + 2)
  {
    var left, e := t[k..], ScanDocument(t).end - k;
    assert left[e..] == after;
    PullDocument(decode, left, e);
    ExtraDocumentShows(decode, left, after);
  }

  lemma PullDocument<Event>(decode: Decoder<Event>, t: Bytes, e: nat)
    requires t != [] && Trim(t) == t && ScanDocument(t) == Complete(e)
    ensures Pull(decode, t) == (Decoded(decode, t[..e]), t[e..])
  {
  }

  lemma ExtraDocumentShows<Event>(decode: Decoder<Event>, left: Bytes, after: Bytes)
    requires Pull(decode, left).1 == after && (Pull(decode, left).0.Got? || Pull(decode, left).0.BadEnvelope?)
    ensures Pulls(decode, left, |after| + 2) != Pulls(decode, after, |after| + 2)
  {
    var n := |after| + 1;
    PullsFirst(decode, left, n);
    OneMoreShows(decode, Pull(decode, left).0, after, n);
  }

  /** What is left behind the misleading read is a syntax error, but it or what follows the whole document is
      not one wherever the reads end. */
  lemma ErrorShows<Event>(decode: Decoder<Event>, stream: Bytes, k: nat) returns (cut: seq<Read>)
    requires Misleads(Trim(stream), k) && !Masked(decode, Trim(stream), k)
    requires ScanDocument(Trim(stream)).Complete? && Decoded(decode, Trim(stream)[..k]) == Pull(decode, stream).0
    requires Trim(Trim(stream)[k..]) == Trim(stream)[k..] && ScanDocument(Trim(stream)[k..]).Bad?
    ensures Shows(decode, stream, cut, 2)
  {
    var t := Trim(stream);
    TakenForWhole(t, k);
    var left, after := t[k..], Pull(decode, stream).1;
    if !Pulls(decode, after, 1)[0].SyntaxError? {
      WholeIsPulls(decode, left, 1);
      assert Pulls(decode, left, 1)[0].SyntaxError?;
      cut := ShowsBehind(decode, stream, k, Whole(left), 1);
    } else if !Hopeless(left) {
      var rest := NotHopeless(decode, left);
      cut := ShowsBehind(decode, stream, k, rest, 1);
    } else {
      var rest := NotHopeless(decode, after);
      cut := ShowsLater(decode, stream, rest, 1);
    }
  }

  lemma {:induction false} UnsafeShows<Event>(decode: Decoder<Event>, stream: Bytes) returns (cut: seq<Read>, n: nat)
    requires !CutSafeFor(decode, stream)
    ensures Shows(decode, stream, cut, n)
    decreases |stream|
  {
    var t := Trim(stream);
    if FirmFor(decode, t) {
      cut, n := UnsafeShows(decode, t[ScanDocument(t).end..]);
      cut := ShowsLater(decode, stream, cut, n);
      n := n + 1;
    } else {
      var k :| Misleads(t, k) && !Masked(decode, t, k);
      cut, n := MisleadingShows(decode, stream, k);
    }
  }

  /** Every cut of the stream yields the outcomes of the stream as a whole, call by call. */
  ghost predicate SameForAllCuts<Event>(decode: Decoder<Event>, stream: Bytes) {
    forall cut: seq<Read>, n: nat | AllChunks(cut) && Flatten(cut) == stream ::
      Calls(decode, [], cut, n) == Pulls(decode, stream, n)
  }

  /** The framing law. Outcomes do not depend on how the bytes are cut into reads, syntax errors, bad
      envelopes and the end of the stream included, exactly if the stream is safe for the decoder. */
  lemma CutsDoNotMatter<Event>(decode: Decoder<Event>, stream: Bytes)
    ensures SameForAllCuts(decode, stream) <==> CutSafeFor(decode, stream)
  {
    if CutSafeFor(decode, stream) {
      forall cut: seq<Read>, n: nat | AllChunks(cut) && Flatten(cut) == stream
        ensures Calls(decode, [], cut, n) == Pulls(decode, stream, n)
      {
        assert [] + stream == stream;
        CallsArePulls(decode, [], cut, n);
      }
    } else {
      var cut, n := UnsafeShows(decode, stream);
      assert Calls(decode, [], cut, n) != Pulls(decode, stream, n);
    }
  }

  // ---- Whatever the decoder ----

  /** The decoder that tells all documents apart. */
  function KeepText(document: Bytes): Option<Bytes> { Some(document) }

  lemma BareScans(t: Bytes)
    requires FirstBare(t) > 0
    ensures Bare(t[0]) && ScanDocument(t[..FirstBare(t)]) == Complete(FirstBare(t))
    ensures Undivided(t) ==> ScanDocument(t) == Complete(FirstBare(t))
  {
    var n := FirstBare(t);
    if IsDigit(t[0]) {
      DigitScans(t, 0);
    } else if t[0] == '-' {
      DigitScans(t, 1);
    } else {
      WordScans(t, n);
    }
  }

  lemma DigitScans(t: Bytes, i: nat)
    requires i < |t| && IsDigit(t[i])
    ensures ScanNumber(t[..i + 1], i) == Complete(i + 1)
    ensures i + 1 == |t| || EndsBare(t[i + 1]) ==> ScanNumber(t, i) == Complete(i + 1)
  {
  }

  lemma WordScans(t: Bytes, n: nat)
    requires (n == 4 && ("true" <= t || "null" <= t)) || (n == 5 && "false" <= t)
    ensures ScanValue(t, 0) == ScanValue(t[..n], 0) == Complete(n)
  {
    var word := t[..n];
    assert t[..n][0..n] == word && t[0..n] == word;
    AtIsEqual(t, 0, word);
    AtIsEqual(t[..n], 0, word);
    BareWordComplete(t, 0, word);
    BareWordComplete(t[..n], 0, word);
  }

  /** No beginning shorter than the shortest bare value is one, and without one none is. */
  lemma NothingShorter(t: Bytes, k: nat)
    requires 0 < k <= |t| && Bare(t[0]) && ScanDocument(t[..k]).Complete?
    ensures 0 < FirstBare(t) <= k
  {
    if t[0] == 't' || t[0] == 'f' || t[0] == 'n' {
      var v := ValueSound(t[..k], 0);
      AtIsEqual(t[..k], 0, Spell(v));
      AtIsEqual(t, 0, Spell(v));
    }
  }

  /** Undivided documents are those at which no read misleads. */
  lemma NoReadMisleads(t: Bytes)
    requires t != []
    ensures Undivided(t) <==> forall k :: !Misleads(t, k)
  {
    var n := FirstBare(t);
    if n > 0 { BareScans(t); }
    if Undivided(t) {
      forall k: nat ensures !Misleads(t, k) {
        if Misleads(t, k) {
          TakenForWhole(t, k);
          NothingShorter(t, k);
        }
      }
    } else {
      assert Misleads(t, n);
    }
  }

  lemma {:induction false} SafeForAll<Event>(decode: Decoder<Event>, stream: Bytes)
    requires CutSafe(stream)
    ensures CutSafeFor(decode, stream)
    decreases |stream|
  {
    var t := Trim(stream);
    if t != [] {
      NoReadMisleads(t);
      if ScanDocument(t).Complete? { SafeForAll(decode, t[ScanDocument(t).end..]); }
    }
  }

  lemma {:induction false} SafeForText(stream: Bytes)
    requires CutSafeFor(KeepText, stream)
    ensures CutSafe(stream)
    decreases |stream|
  {
    var t := Trim(stream);
    if t != [] {
      forall k: nat ensures !Misleads(t, k) {
        if Misleads(t, k) {
          assert Masked(KeepText, t, k);
          TakenForWhole(t, k);
        }
      }
      NoReadMisleads(t);
      if ScanDocument(t).Complete? { SafeForText(t[ScanDocument(t).end..]); }
    }
  }

  /** The documents themselves, that is, what any decoder might see, do not depend on the cut exactly if all
      of them are undivided. */
  lemma DocumentsDoNotDepend(stream: Bytes)
    ensures CutSafe(stream) <==> SameForAllCuts(KeepText, stream)
  {
    CutsDoNotMatter(KeepText, stream);
    if CutSafe(stream) { SafeForAll(KeepText, stream); }
    if CutSafeFor(KeepText, stream) { SafeForText(stream); }
  }

  // ---- Streams of objects ----

  /** Documents, each with the white space before it. */
  type Stream = seq<(Bytes, Bytes)>

  ghost predicate Padding(w: Bytes) { Trim(w) == [] }

  ghost predicate ObjectStream(stream: Stream) {
    forall d | d in stream :: Padding(d.0) && IsObjectText(d.1)
  }

  ghost function Text(stream: Stream, end: Bytes): Bytes {
    if stream == [] then end else stream[0].0 + (stream[0].1 + Text(stream[1..], end))
  }

  ghost function Events<Event>(decode: Decoder<Event>, stream: Stream): seq<Outcome<Event>> {
    if stream == [] then [] else [Decoded(decode, stream[0].1)] + Events(decode, stream[1..])
  }

  lemma ObjectStart(document: Bytes, more: Bytes)
    requires IsObjectText(document)
    ensures document != [] && document[0] == '{' && ScanDocument(document + more) == Complete(|document|)
  {
    var v: Value :| v.Object? && Good(v) && Spell(v) == document;
    SpellStart(v);
    assert (document + more)[..|document|] == document;
    ObjectDocuments(document + more, |document|);
  }

  lemma FirstDocument<Event>(decode: Decoder<Event>, gap: Bytes, document: Bytes, more: Bytes)
    requires Padding(gap) && IsObjectText(document)
    ensures Pull(decode, gap + (document + more)) == (Decoded(decode, document), more)
    ensures CutSafe(more) ==> CutSafe(gap + (document + more))
  {
    var t := document + more;
    ObjectStart(document, more);
    TrimAppend(gap, t);
    TrimsToItself(t);
    assert t[..|document|] == document && t[|document|..] == more;
    assert t[0] == '{' && FirstBare(t) == 0;
  }

  lemma {:induction false} PadPulls<Event>(decode: Decoder<Event>, end: Bytes, n: nat)
    requires Padding(end)
    ensures Pulls(decode, end, n) == seq(n, _ => Closed)
    decreases n
  {
    if n > 0 { PadPulls(decode, [], n - 1); }
  }

  lemma {:induction false} StreamPulls<Event>(decode: Decoder<Event>, stream: Stream, end: Bytes, n: nat)
    requires ObjectStream(stream) && Padding(end)
    ensures CutSafe(Text(stream, end))
    ensures Pulls(decode, Text(stream, end), |stream| + n) == Events(decode, stream) + seq(n, _ => Closed)
    decreases |stream|
  {
    if stream == [] {
      PadPulls(decode, end, n);
    } else {
      var more := Text(stream[1..], end);
      assert stream[0] in stream;
      FirstDocument(decode, stream[0].0, stream[0].1, more);
      StreamPulls(decode, stream[1..], end, n);
      AppendAssociates([Decoded(decode, stream[0].1)], Events(decode, stream[1..]), seq(n, _ => Closed));
      assert Pulls(decode, Text(stream, end), |stream| + n) ==
             [Decoded(decode, stream[0].1)] + Pulls(decode, more, |stream[1..]| + n);
    }
  }

  /** A stream of JSON objects, with any ASCII white space around them and however it is cut into reads,
      is taken apart into exactly these objects, in order; after them every call reports the end. */
  lemma ObjectsAreDelivered<Event>(decode: Decoder<Event>, stream: Stream, end: Bytes, cut: seq<Read>, n: nat)
    requires ObjectStream(stream) && Padding(end) && AllChunks(cut) && Flatten(cut) == Text(stream, end)
    ensures Calls(decode, [], cut, |stream| + n) == Events(decode, stream) + seq(n, _ => Closed)
  {
    StreamPulls(decode, stream, end, n);
    SafeForAll(decode, Text(stream, end));
    CutsDoNotMatter(decode, Text(stream, end));
  }

  // ---- Streams with numbers ----

  lemma DigitsScan()
    ensures ScanDocument("12") == Complete(2) && ScanDocument("1") == Complete(1) && ScanDocument("2") == Complete(1)
    ensures Trim("12") == "12" && Trim("2") == "2" && Trim("") == ""
    ensures "12"[..1] == "1" && "12"[1..] == "2" && "12"[..2] == "12" && "12"[2..] == "" && "2"[..1] == "2" && "2"[1..] == ""
  {
    assert SkipDigits("12", 1) == 2;
  }

  /** A number of two digits is not safe for any decoder: cut between them it is two documents. */
  lemma CutsMatterForNumbers<Event>(decode: Decoder<Event>)
    ensures Calls(decode, [], [Chunk("1"), Chunk("2")], 2) != Calls(decode, [], [Chunk("12")], 2)
    ensures Flatten([Chunk("1"), Chunk("2")]) == Flatten([Chunk("12")]) == "12"
    ensures !CutSafe("12") && !CutSafeFor(decode, "12")
  {
    DigitsScan();
    var second := [Chunk("2")];
    assert Whole("2") == second && Whole("12") == [Chunk("12")];
    WholeIsPulls(decode, "2", 1);
    WholeIsPulls(decode, "12", 2);
    assert "" + "1" == "1";
    FirstRead(decode, "", "12", 1, second, 1);
    assert [Chunk("1")] + second == [Chunk("1"), Chunk("2")];
    Behind("1", second);
    PullsFirst(decode, "12", 1);
    assert Pulls(decode, "12", 2)[1] == Pulls(decode, "", 1)[0] == Closed;
    assert Calls(decode, [], [Chunk("1"), Chunk("2")], 2)[1] == Pulls(decode, "2", 1)[0] == Decoded(decode, "2");
    assert Misleads("12", 1) && !Hopeless("2");
  }

  /** A longer number is safe for a decoder that makes the same of its beginning, if what is left of it and
      what follows it are syntax errors; another decoder would tell. */
  lemma MaskedNumber<Event>(decode: Decoder<Event>)
    requires decode("1") == decode("1.5")
    ensures CutSafeFor(decode, "1.5 x") && !CutSafe("1.5 x")
  {
    var t := "1.5 x";
    PointScans();
    forall k | Misleads(t, k) ensures Masked(decode, t, k) {
      assert k == 1;
    }
    assert forall k :: !Misleads("x", k);
  }

  lemma PointScans()
    ensures var t := "1.5 x";
            ScanDocument(t) == Complete(3) && ScanDocument(t[..1]) == Complete(1) && t[..1] == "1" && t[..3] == "1.5" &&
            (forall k | 0 < k < |t| && k != 1 :: !Misleads(t, k)) && Hopeless(t[1..]) && Hopeless(t[3..]) &&
            Trim(t) == t && Trim(t[3..]) == "x" && ScanDocument("x").Bad?
  {
    var t := "1.5 x";
    assert SkipDigits(t, 1) == 1 && SkipDigits(t, 2) == 3;
    assert ScanNumber(t, 0) == Complete(3);
    assert t[..1] == "1" && t[..2] == "1." && t[..3] == "1.5";
    assert t[3..][1..] == "x";
    assert forall k | 0 < k <= |t[1..]| :: t[1..][..k][0] == '.';
    forall k | 0 < k < |t| && k != 1 ensures !Misleads(t, k) {
      if k == 2 { assert ScanDocument("1.").Incomplete?; } else { DocumentIsThere(t, k); }
    }
  }
}
