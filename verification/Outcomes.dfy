/** Which outcome a call of `next_event` has, judged by the bytes alone: when it reports a syntax error, when it
    waits for more, and what an I/O error does. */
module Outcomes {
  import opened Cuts
  import opened JsonGrammar
  import opened JsonPrefixes
  import opened JsonScanner
  import opened Sequences
  import opened StatsClient
  import opened Wrappers

  /** A call that the first reads settle takes nothing of the later ones; one that they do not settle goes on
      with those. */
  lemma {:induction false} NextGoesOn<Event>(decode: Decoder<Event>, buffer: Bytes, first: seq<Read>, later: seq<Read>)
    ensures var (outcome, b, rest) := Next(decode, buffer, first);
            (outcome.Closed? ==> rest == [] && TryParse(decode, b) == (None, b)) &&
            Next(decode, buffer, first + later) == if outcome.Closed? then Next(decode, b, later) else (outcome, b, rest + later)
    decreases |first|
  {
    var (outcome, b) := TryParse(decode, buffer);
    if outcome.None? {
      TryParseTwice(decode, buffer);
      if first == [] {
        assert first + later == later;
      } else {
        assert (first + later)[0] == first[0] && (first + later)[1..] == first[1..] + later;
        if first[0].Chunk? { NextGoesOn(decode, b + first[0].bytes, first[1..], later); }
      }
    }
  }

  /** A failed read is reported by the call that cannot do without it, and loses nothing: the bytes stay in the
      buffer, and the reads behind it are still to come. */
  lemma FailedRead<Event>(decode: Decoder<Event>, buffer: Bytes, first: seq<Read>, later: seq<Read>)
    requires AllChunks(first)
    ensures var (outcome, b, rest) := Next(decode, buffer, first);
            Next(decode, buffer, first + ([Failed] + later)) ==
            if outcome.Closed? then (IoError, b, later) else (outcome, b, rest + ([Failed] + later))
  {
    var failing := [Failed] + later;
    NextGoesOn(decode, buffer, first, failing);
    assert failing[0] == Failed && failing[1..] == later;
  }

  /** A call on bytes that start with `{` yields the object they start with, or an error if they are no
      envelope; it yields a syntax error exactly if no continuation can make an object of them and they are
      not stuck; and it goes without an event exactly if one can or they are. */
  lemma NextIsRight<Event>(decode: Decoder<Event>, buffer: Bytes, incoming: seq<Read>)
    requires AllChunks(incoming)
    requires var t := Trim(buffer + Flatten(incoming)); t != [] && t[0] == '{'
    ensures var t, outcome := Trim(buffer + Flatten(incoming)), Next(decode, buffer, incoming).0;
            (forall n | 0 <= n <= |t| && IsObjectText(t[..n]) :: outcome == Decoded(decode, t[..n])) &&
            (outcome.SyntaxError? <==> !HasObject(t) && !Begins(t) && !StuckValue(t, 0)) &&
            (outcome.Closed? <==> !HasObject(t) && (Begins(t) || StuckValue(t, 0)))
  {
    var t := Trim(buffer + Flatten(incoming));
    assert Undivided(t);
    NoReadMisleads(t);
    NextIsPull(decode, buffer, incoming);
    VerdictIsRight(t);
    forall n | 0 <= n <= |t| && IsObjectText(t[..n]) ensures ScanDocument(t) == Complete(n) {
      ObjectDocuments(t, n);
    }
  }

  /** And a syntax error is reported as soon as it shows, whatever reads are still to come. */
  lemma ErrorAtOnce<Event>(decode: Decoder<Event>, buffer: Bytes, first: seq<Read>, later: seq<Read>)
    requires AllChunks(first)
    requires var t := Trim(buffer + Flatten(first));
             t != [] && t[0] == '{' && !HasObject(t) && !Begins(t) && !StuckValue(t, 0)
    ensures var (outcome, _, rest) := Next(decode, buffer, first + later);
            outcome.SyntaxError? && |rest| >= |later| && rest[|rest| - |later|..] == later
  {
    NextIsRight(decode, buffer, first);
    NextGoesOn(decode, buffer, first, later);
  }
}
