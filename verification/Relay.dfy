/** The relay of src/bin/sos_relay.rs: it translates each event and sends the translations over a websocket,
    replacing the websocket whenever a send fails. All that the network does is in `outcomes`: whether each
    attempt to send, to connect or to reconnect succeeds, in the order of the attempts. A run is cut off
    where they end, so every finite piece of every run is covered. */
module Relay {
  import opened Wrappers

  /** What the event loop wakes up for. An event whose translation fails carries none. */
  datatype Arrival<T> = Event(envelopes: Option<seq<T>>) | Closed | Failed | Signal

  /** A send that succeeded: the attempt it was, and the websocket, counted from 0. */
  datatype Ack<T> = Ack(payload: T, attempt: nat, socket: nat)

  /** What is attempted: to send a payload, to connect a websocket, with the payload that waits for it if there
      is one, or to reconnect to the game. */
  datatype Kind<T> = Send(payload: T) | Dial(waiting: Option<T>) | Reconnect

  datatype Attempt<T> = Attempt(kind: Kind<T>, socket: nat, ok: bool)

  /** `socket` is the number of the websocket in use, or being connected. `acks` and `trace`, all attempts so far,
      are history. */
  datatype State<T> = State(acks: seq<Ack<T>>, relayed: nat, socket: nat, trace: seq<Attempt<T>>) {
    function Made(kind: Kind<T>, ok: bool): State<T> { this.(trace := trace + [Attempt(kind, socket, ok)]) }
  }

  function START<T>(): State<T> { State([], 0, 0, []) }

  datatype End = Signalled | LimitReached | TranslationFailed | ReconnectFailed | Waiting | CutOff

  /** How far the relay has come, and how it ended if it has. */
  datatype Progress<T> = Progress(end: Option<End>, state: State<T>)

  const RECONNECT_ATTEMPTS: nat := 10

  function Payloads<T>(acks: seq<Ack<T>>): (r: seq<T>)
    ensures |r| == |acks|
  {
    if acks == [] then [] else Payloads(acks[..|acks| - 1]) + [acks[|acks| - 1].payload]
  }

  function EnvelopesOf<T>(arrival: Arrival<T>): seq<T> {
    if arrival.Event? && arrival.envelopes.Some? then arrival.envelopes.value else []
  }

  /** The translations of all events, one after the other. */
  function Translated<T>(arrivals: seq<Arrival<T>>): seq<T> {
    if arrivals == [] then [] else EnvelopesOf(arrivals[0]) + Translated(arrivals[1..])
  }

  /** Whether the limit of `--max-events` is reached. */
  predicate Full(limit: Option<nat>, relayed: nat) { limit.Some? && relayed >= limit.value }

  // ---- What the steps do ----

  /** The websocket is dialled until that succeeds. */
  function Dialled<T>(outcomes: seq<bool>, waiting: Option<T>, s: State<T>): (r: Progress<T>)
    ensures |r.state.trace| >= |s.trace|
    decreases |outcomes| - |s.trace|
  {
    if |s.trace| >= |outcomes| then Progress(Some(CutOff), s)
    else if outcomes[|s.trace|] then Progress(None, s.Made(Dial(waiting), true))
    else Dialled(outcomes, waiting, s.Made(Dial(waiting), false))
  }

  /** A send that succeeds is acknowledged. */
  function Acked<T>(payload: T, s: State<T>): State<T> {
    s.Made(Send(payload), true).(acks := s.acks + [Ack(payload, |s.trace|, s.socket)])
  }

  /** After one that fails there is a new websocket to connect. */
  function Dropped<T>(payload: T, s: State<T>): State<T> {
    s.Made(Send(payload), false).(socket := s.socket + 1)
  }

  function Sent<T>(outcomes: seq<bool>, payload: T, s: State<T>): Progress<T>
    decreases |outcomes| - |s.trace|
  {
    if |s.trace| >= |outcomes| then Progress(Some(CutOff), s)
    else if outcomes[|s.trace|] then Progress(None, Acked(payload, s))
    else
      var dialled := Dialled(outcomes, Some(payload), Dropped(payload, s));
      if dialled.end.Some? then dialled else Sent(outcomes, payload, dialled.state)
  }

  function SentAll<T>(outcomes: seq<bool>, limit: Option<nat>, envelopes: seq<T>, s: State<T>): Progress<T> {
    if envelopes == [] then Progress(None, s)
    else
      var sent := Sent(outcomes, envelopes[0], s);
      if sent.end.Some? then sent
      else
        var counted := sent.state.(relayed := sent.state.relayed + 1);
        if Full(limit, counted.relayed) then Progress(Some(LimitReached), counted)
        else SentAll(outcomes, limit, envelopes[1..], counted)
  }

  function Reconnected<T>(outcomes: seq<bool>, s: State<T>, attemptsLeft: nat): Progress<T>
    decreases attemptsLeft
  {
    if attemptsLeft == 0 then Progress(Some(ReconnectFailed), s)
    else if |s.trace| >= |outcomes| then Progress(Some(CutOff), s)
    else if outcomes[|s.trace|] then Progress(None, s.Made(Reconnect, true))
    else Reconnected(outcomes, s.Made(Reconnect, false), attemptsLeft - 1)
  }

  function Reacted<T>(outcomes: seq<bool>, limit: Option<nat>, arrival: Arrival<T>, s: State<T>): Progress<T> {
    match arrival
    case Signal => Progress(Some(Signalled), s)
    case Event(None) => Progress(Some(TranslationFailed), s)
    case Event(Some(envelopes)) => SentAll(outcomes, limit, envelopes, s)
    case Closed => Reconnected(outcomes, s, RECONNECT_ATTEMPTS)
    case Failed => Reconnected(outcomes, s, RECONNECT_ATTEMPTS)
  }

  function RunFrom<T>(outcomes: seq<bool>, limit: Option<nat>, arrivals: seq<Arrival<T>>, s: State<T>): Progress<T> {
    if arrivals == [] then Progress(Some(Waiting), s)
    else
      var reacted := Reacted(outcomes, limit, arrivals[0], s);
      if reacted.end.Some? then reacted else RunFrom(outcomes, limit, arrivals[1..], reacted.state)
  }

  /** A whole run: the websocket is connected first. */
  function Run<T>(outcomes: seq<bool>, limit: Option<nat>, arrivals: seq<Arrival<T>>): Progress<T> {
    var dialled := Dialled(outcomes, None, START());
    if dialled.end.Some? then dialled else RunFrom(outcomes, limit, arrivals, dialled.state)
  }

  // ---- The relay itself ----

  /** connect_ws_with_retry */
  method ConnectWsWithRetry<T>(outcomes: seq<bool>, waiting: Option<T>, before: State<T>) returns (r: Progress<T>)
    ensures r == Dialled(outcomes, waiting, before)
    ensures forall k | |before.trace| <= k < |outcomes| && (r.end.Some? || k < |r.state.trace| - 1) :: !outcomes[k]
    ensures r.end.None? ==> |before.trace| < |r.state.trace| <= |outcomes| && outcomes[|r.state.trace| - 1]
  {
    var s := before;
    while |s.trace| < |outcomes|
      invariant |before.trace| <= |s.trace|
      invariant forall k | |before.trace| <= k < |s.trace| && k < |outcomes| :: !outcomes[k]
      invariant Dialled(outcomes, waiting, before) == Dialled(outcomes, waiting, s)
      decreases |outcomes| - |s.trace|
    {
      var ok := outcomes[|s.trace|];
      s := s.Made(Dial(waiting), ok);
      if ok { return Progress(None, s); }
    }
    return Progress(Some(CutOff), s);
  }

  /** send_envelope_with_retry */
  method SendEnvelopeWithRetry<T>(outcomes: seq<bool>, payload: T, before: State<T>) returns (r: Progress<T>)
    ensures r == Sent(outcomes, payload, before)
  {
    var s := before;
    while |s.trace| < |outcomes|
      invariant Sent(outcomes, payload, before) == Sent(outcomes, payload, s)
      decreases |outcomes| - |s.trace|
    {
      if outcomes[|s.trace|] {
        return Progress(None, State(s.acks + [Ack(payload, |s.trace|, s.socket)], s.relayed, s.socket,
                                    s.trace + [Attempt(Send(payload), s.socket, true)]));
      }
      s := State(s.acks, s.relayed, s.socket + 1, s.trace + [Attempt(Send(payload), s.socket, false)]);
      var connected := ConnectWsWithRetry(outcomes, Some(payload), s);
      if connected.end.Some? { return connected; }
      s := connected.state;
    }
    return Progress(Some(CutOff), s);
  }

  /** reconnect_rl_with_backoff */
  method ReconnectRlWithBackoff<T>(outcomes: seq<bool>, before: State<T>) returns (r: Progress<T>)
    ensures r == Reconnected(outcomes, before, RECONNECT_ATTEMPTS)
  {
    var s := before;
    for attempt := 0 to RECONNECT_ATTEMPTS
      invariant Reconnected(outcomes, before, RECONNECT_ATTEMPTS) == Reconnected(outcomes, s, RECONNECT_ATTEMPTS - attempt)
    {
      if |s.trace| >= |outcomes| { return Progress(Some(CutOff), s); }
      var ok := outcomes[|s.trace|];
      s := s.Made(Reconnect, ok);
      if ok { return Progress(None, s); }
    }
    return Progress(Some(ReconnectFailed), s);
  }

  /** The inner loop of run. */
  method SendEnvelopes<T>(outcomes: seq<bool>, limit: Option<nat>, envelopes: seq<T>, before: State<T>) returns (r: Progress<T>)
    ensures r == SentAll(outcomes, limit, envelopes, before)
  {
    var s := before;
    for i := 0 to |envelopes|
      invariant SentAll(outcomes, limit, envelopes, before) == SentAll(outcomes, limit, envelopes[i..], s)
    {
      assert envelopes[i..][1..] == envelopes[i + 1..];
      var sent := SendEnvelopeWithRetry(outcomes, envelopes[i], s);
      if sent.end.Some? { return sent; }
      s := sent.state.(relayed := sent.state.relayed + 1);
      if limit.Some? && s.relayed >= limit.value { return Progress(Some(LimitReached), s); }
    }
    return Progress(None, s);
  }

  /** run, from its first connection on. */
  method RunRelay<T>(outcomes: seq<bool>, limit: Option<nat>, arrivals: seq<Arrival<T>>) returns (r: Progress<T>)
    ensures r == Run(outcomes, limit, arrivals)
  {
    var connected := ConnectWsWithRetry(outcomes, None, START());
    if connected.end.Some? { return connected; }
    var s := connected.state;
    for i := 0 to |arrivals|
      invariant Run(outcomes, limit, arrivals) == RunFrom(outcomes, limit, arrivals[i..], s)
    {
      assert arrivals[i..][1..] == arrivals[i + 1..];
      var reacted := Progress(None, s);
      match arrivals[i] {
        case Signal => return Progress(Some(Signalled), s);
        case Event(None) => return Progress(Some(TranslationFailed), s);
        case Event(Some(envelopes)) => reacted := SendEnvelopes(outcomes, limit, envelopes, s);
        case Closed => reacted := ReconnectRlWithBackoff(outcomes, s);
        case Failed => reacted := ReconnectRlWithBackoff(outcomes, s);
      }
      if reacted.end.Some? { return reacted; }
      s := reacted.state;
    }
    return Progress(Some(Waiting), s);
  }

  // ---- The order of attempts ----

  /** What may be attempted after `a`. A send that fails is followed by dialling a new websocket for its payload;
      dialling by more dialling until it succeeds, and then by sending that payload on the new websocket; and
      a reconnect that fails by another one. Otherwise the websocket stays, and is not dialled. */
  predicate Follows<T(==)>(a: Attempt<T>, b: Attempt<T>) {
    match a.kind
    case Send(payload) =>
      if a.ok then b.socket == a.socket && !b.kind.Dial? else b.socket == a.socket + 1 && b.kind == Dial(Some(payload))
    case Dial(waiting) =>
      b.socket == a.socket &&
      if !a.ok then b.kind == a.kind else if waiting.Some? then b.kind == Send(waiting.value) else !b.kind.Dial?
    case Reconnect => b.socket == a.socket && !b.kind.Dial? && (!a.ok ==> b.kind.Reconnect?)
  }

  /** A trace starts with dialling the first websocket, and goes on as it may. */
  predicate Orderly<T(==)>(trace: seq<Attempt<T>>) {
    (trace != [] ==> trace[0].kind == Dial(None) && trace[0].socket == 0) &&
    forall k | 0 < k < |trace| :: Follows(trace[k - 1], trace[k])
  }

  /** The acknowledgements of a trace: its successful sends. */
  function AcksOf<T>(trace: seq<Attempt<T>>): seq<Ack<T>> {
    if trace == [] then []
    else
      var k := |trace| - 1;
      AcksOf(trace[..k]) + if trace[k].kind.Send? && trace[k].ok then [Ack(trace[k].kind.payload, k, trace[k].socket)] else []
  }

  /** The trace is what the network made of an orderly course of attempts, and the acknowledgements are its. */
  ghost predicate Recorded<T>(outcomes: seq<bool>, s: State<T>) {
    Orderly(s.trace) && s.acks == AcksOf(s.trace) && |s.trace| <= |outcomes| &&
    (forall k | 0 <= k < |s.trace| :: s.trace[k].ok == outcomes[k]) &&
    (s.trace != [] ==> s.trace[|s.trace| - 1].socket <= s.socket)
  }

  /** This may be attempted next, on the present websocket. */
  predicate MayFollow<T(==)>(s: State<T>, kind: Kind<T>) {
    if s.trace == [] then kind == Dial(None) && s.socket == 0
    else
      Follows(s.trace[|s.trace| - 1], Attempt(kind, s.socket, true)) &&
      Follows(s.trace[|s.trace| - 1], Attempt(kind, s.socket, false))
  }

  lemma MadeRecorded<T>(outcomes: seq<bool>, s: State<T>, kind: Kind<T>)
    requires Recorded(outcomes, s) && |s.trace| < |outcomes| && MayFollow(s, kind)
    ensures var ok := outcomes[|s.trace|];
            Recorded(outcomes, if kind.Send? && ok then Acked(kind.payload, s) else s.Made(kind, ok))
  {
    var a := Attempt(kind, s.socket, outcomes[|s.trace|]);
    MayFollowEither(s, kind, a.ok);
    AcksPush(s.trace, a);
    if kind.Send? && a.ok {
      RecordedPush(outcomes, s, a, Acked(kind.payload, s));
    } else {
      assert s.acks + [] == s.acks;
      RecordedPush(outcomes, s, a, s.Made(kind, a.ok));
    }
  }

  lemma RecordedPush<T>(outcomes: seq<bool>, s: State<T>, a: Attempt<T>, after: State<T>)
    requires Recorded(outcomes, s) && |s.trace| < |outcomes| && a.ok == outcomes[|s.trace|] && a.socket == s.socket == after.socket
    requires if s.trace == [] then a.kind == Dial(None) && a.socket == 0 else Follows(s.trace[|s.trace| - 1], a)
    requires after.trace == s.trace + [a] && after.acks == AcksOf(s.trace + [a])
    ensures Recorded(outcomes, after)
  {
    OrderlyPush(s.trace, a);
    OutcomesPush(outcomes, s.trace, a);
  }

  lemma MayFollowEither<T>(s: State<T>, kind: Kind<T>, ok: bool)
    requires MayFollow(s, kind)
    ensures if s.trace == [] then kind == Dial(None) && s.socket == 0
            else Follows(s.trace[|s.trace| - 1], Attempt(kind, s.socket, ok))
  {
  }

  lemma OutcomesPush<T>(outcomes: seq<bool>, trace: seq<Attempt<T>>, a: Attempt<T>)
    requires |trace| < |outcomes| && a.ok == outcomes[|trace|] && forall k | 0 <= k < |trace| :: trace[k].ok == outcomes[k]
    ensures forall k | 0 <= k < |trace + [a]| :: (trace + [a])[k].ok == outcomes[k]
  {
  }

  lemma OrderlyPush<T>(trace: seq<Attempt<T>>, a: Attempt<T>)
    requires Orderly(trace)
    requires if trace == [] then a.kind == Dial(None) && a.socket == 0 else Follows(trace[|trace| - 1], a)
    ensures Orderly(trace + [a])
  {
    var more := trace + [a];
    forall k | 0 < k < |more| ensures Follows(more[k - 1], more[k]) {
      if k < |trace| { assert Follows(trace[k - 1], trace[k]); }
    }
  }

  lemma AcksPush<T>(trace: seq<Attempt<T>>, a: Attempt<T>)
    ensures AcksOf(trace + [a]) ==
            AcksOf(trace) + if a.kind.Send? && a.ok then [Ack(a.kind.payload, |trace|, a.socket)] else []
  {
    assert (trace + [a])[..|trace|] == trace;
  }

  lemma {:induction false} DialledRecorded<T>(outcomes: seq<bool>, waiting: Option<T>, s: State<T>)
    requires Recorded(outcomes, s) && MayFollow(s, Dial(waiting))
    ensures var r := Dialled(outcomes, waiting, s);
            Recorded(outcomes, r.state) && r.state.socket == s.socket &&
            (r.end.None? ==> r.state.trace != [] && r.state.trace[|r.state.trace| - 1] == Attempt(Dial(waiting), s.socket, true))
    decreases |outcomes| - |s.trace|
  {
    if |s.trace| < |outcomes| {
      MadeRecorded(outcomes, s, Dial(waiting));
      var made := s.Made(Dial(waiting), outcomes[|s.trace|]);
      assert made.trace[|made.trace| - 1] == Attempt(Dial(waiting), s.socket, outcomes[|s.trace|]);
      if !outcomes[|s.trace|] { DialledRecorded(outcomes, waiting, made); }
    }
  }

  /** Nothing is under way: any payload may be sent, and the game may be reconnected to. */
  predicate Idle<T>(s: State<T>) {
    s.trace != [] &&
    var last := s.trace[|s.trace| - 1];
    last.ok && last.socket == s.socket && (last.kind.Dial? ==> last.kind.waiting.None?)
  }

  lemma {:induction false} SentRecorded<T>(outcomes: seq<bool>, payload: T, s: State<T>)
    requires Recorded(outcomes, s) && MayFollow(s, Send(payload))
    ensures var r := Sent(outcomes, payload, s); Recorded(outcomes, r.state) && (r.end.None? ==> Idle(r.state))
    decreases |outcomes| - |s.trace|
  {
    if |s.trace| < |outcomes| {
      MadeRecorded(outcomes, s, Send(payload));
      if !outcomes[|s.trace|] {
        var dropped := Dropped(payload, s);
        assert Recorded(outcomes, dropped);
        DialledRecorded(outcomes, Some(payload), dropped);
        var dialled := Dialled(outcomes, Some(payload), dropped);
        if dialled.end.None? { SentRecorded(outcomes, payload, dialled.state); }
      }
    }
  }

  lemma {:induction false} SentAllRecorded<T>(outcomes: seq<bool>, limit: Option<nat>, envelopes: seq<T>, s: State<T>)
    requires Recorded(outcomes, s) && Idle(s)
    ensures var r := SentAll(outcomes, limit, envelopes, s); Recorded(outcomes, r.state) && (r.end.None? ==> Idle(r.state))
    decreases |envelopes|
  {
    if envelopes != [] {
      IdleMay(s, envelopes[0]);
      SentRecorded(outcomes, envelopes[0], s);
      var sent := Sent(outcomes, envelopes[0], s);
      if sent.end.None? {
        var counted := sent.state.(relayed := sent.state.relayed + 1);
        CountedRecorded(outcomes, sent.state, counted.relayed);
        SentAllRecorded(outcomes, limit, envelopes[1..], counted);
      }
    }
  }

  lemma IdleMay<T>(s: State<T>, payload: T)
    requires Idle(s)
    ensures MayFollow(s, Send(payload)) && MayFollow(s, Reconnect)
  {
  }

  lemma CountedRecorded<T>(outcomes: seq<bool>, s: State<T>, relayed: nat)
    requires Recorded(outcomes, s)
    ensures Recorded(outcomes, s.(relayed := relayed)) && Idle(s.(relayed := relayed)) == Idle(s)
  {
  }

  /** Reconnecting makes as many attempts as it may, or fewer of which the last one succeeds. */
  lemma {:induction false} ReconnectTries<T>(outcomes: seq<bool>, s: State<T>, attemptsLeft: nat) returns (added: seq<Attempt<T>>)
    ensures var r := Reconnected(outcomes, s, attemptsLeft);
            r.state == s.(trace := s.trace + added) && |added| <= attemptsLeft &&
            (forall k | 0 <= k < |added| :: added[k] == Attempt(Reconnect, s.socket, r.end.None? && k == |added| - 1)) &&
            match r.end
            case None => added != []
            case Some(end) => (end.ReconnectFailed? && |added| == attemptsLeft) || end.CutOff?
    decreases attemptsLeft
  {
    added := [];
    if attemptsLeft > 0 && |s.trace| < |outcomes| {
      var tried := Attempt(Reconnect, s.socket, outcomes[|s.trace|]);
      if !outcomes[|s.trace|] { added := ReconnectTries(outcomes, s.Made(Reconnect, false), attemptsLeft - 1); }
      assert s.trace + ([tried] + added) == s.trace + [tried] + added;
      added := [tried] + added;
    } else {
      assert s.trace + [] == s.trace;
    }
  }

  /** The last ten attempts were to reconnect to the game, and all failed. */
  predicate TenFailures<T>(trace: seq<Attempt<T>>) {
    |trace| >= 10 && forall k | |trace| - 10 <= k < |trace| :: trace[k].kind.Reconnect? && !trace[k].ok
  }

  /** A run gives up on the game only after ten attempts to reconnect in a row have failed. */
  lemma {:induction false} GivesUpAfterTen<T>(outcomes: seq<bool>, limit: Option<nat>, arrivals: seq<Arrival<T>>, s: State<T>)
    requires RunFrom(outcomes, limit, arrivals, s).end == Some(ReconnectFailed)
    ensures TenFailures(RunFrom(outcomes, limit, arrivals, s).state.trace)
    decreases |arrivals|
  {
    var a := arrivals[0];
    var reacted := Reacted(outcomes, limit, a, s);
    if a.Closed? || a.Failed? {
      var added := ReconnectTries(outcomes, s, RECONNECT_ATTEMPTS);
      assert reacted.end == Some(ReconnectFailed) ==> TenFailures(s.trace + added);
    } else if a.Event? && a.envelopes.Some? {
      var n := SentAllInOrder(outcomes, limit, a.envelopes.value, s);
    }
    if reacted.end.None? { GivesUpAfterTen(outcomes, limit, arrivals[1..], reacted.state); }
  }

  lemma {:induction false} ReconnectedRecorded<T>(outcomes: seq<bool>, s: State<T>, attemptsLeft: nat)
    requires Recorded(outcomes, s) && MayFollow(s, Reconnect)
    ensures var r := Reconnected(outcomes, s, attemptsLeft); Recorded(outcomes, r.state) && (r.end.None? ==> Idle(r.state))
    decreases attemptsLeft
  {
    if attemptsLeft > 0 && |s.trace| < |outcomes| {
      MadeRecorded(outcomes, s, Reconnect);
      if !outcomes[|s.trace|] { ReconnectedRecorded(outcomes, s.Made(Reconnect, false), attemptsLeft - 1); }
    }
  }

  lemma {:induction false} RunFromRecorded<T>(outcomes: seq<bool>, limit: Option<nat>, arrivals: seq<Arrival<T>>, s: State<T>)
    requires Recorded(outcomes, s) && Idle(s)
    ensures Recorded(outcomes, RunFrom(outcomes, limit, arrivals, s).state)
    decreases |arrivals|
  {
    if arrivals != [] {
      var a := arrivals[0];
      if a.Closed? || a.Failed? {
        assert MayFollow(s, Reconnect);
        ReconnectedRecorded(outcomes, s, RECONNECT_ATTEMPTS);
      } else if a.Event? && a.envelopes.Some? {
        SentAllRecorded(outcomes, limit, a.envelopes.value, s);
      }
      var reacted := Reacted(outcomes, limit, a, s);
      if reacted.end.None? { RunFromRecorded(outcomes, limit, arrivals[1..], reacted.state); }
    }
  }

  /** Over every run the attempts are made in an orderly way: after a send that failed nothing is sent before a
      new websocket is connected, and then that same payload is, on it. */
  lemma AttemptsAreOrderly<T>(outcomes: seq<bool>, limit: Option<nat>, arrivals: seq<Arrival<T>>)
    ensures Recorded(outcomes, Run(outcomes, limit, arrivals).state)
  {
    DialledRecorded(outcomes, None, START<T>());
    var dialled := Dialled<T>(outcomes, None, START());
    if dialled.end.None? { RunFromRecorded(outcomes, limit, arrivals, dialled.state); }
  }

  /** An acknowledged payload's attempt is the first one on its websocket since another attempt succeeded, or the
      one right before it has connected that websocket for it, in place of one on which it failed. */
  lemma AckedAfterDial<T>(outcomes: seq<bool>, s: State<T>, k: nat)
    requires Recorded(outcomes, s) && 0 < k < |s.trace| && s.trace[k].kind.Send?
    ensures s.trace[k - 1].ok && s.trace[k - 1].socket == s.trace[k].socket
    ensures s.trace[k - 1].kind.Dial? && s.trace[k].socket > 0 ==> s.trace[k - 1].kind == Dial(Some(s.trace[k].kind.payload))
  {
    assert Follows(s.trace[k - 1], s.trace[k]);
    if s.trace[k - 1].kind == Dial(None) { FirstDials(s.trace, k - 1); }
  }

  /** Dialling for no payload is how a run begins, and never comes back. */
  lemma {:induction false} FirstDials<T>(trace: seq<Attempt<T>>, k: nat)
    requires Orderly(trace) && k < |trace| && trace[k].kind == Dial(None)
    ensures trace[k].socket == 0
  {
    if k > 0 {
      assert Follows(trace[k - 1], trace[k]);
      FirstDials(trace, k - 1);
    }
  }

  // ---- Genuine acknowledgements ----

  /** The acknowledgements name successful attempts, each a later one than the one before, on websockets
      that are never gone back to. */
  ghost predicate Genuine<T>(outcomes: seq<bool>, s: State<T>) {
    (forall k | 0 <= k < |s.acks| ::
       var ack := s.acks[k];
       ack.attempt < |s.trace| && ack.attempt < |outcomes| && outcomes[ack.attempt] && ack.socket <= s.socket &&
       s.trace[ack.attempt] == Attempt(Send(ack.payload), ack.socket, true)) &&
    (forall k, l | 0 <= k < l < |s.acks| :: s.acks[k].attempt < s.acks[l].attempt && s.acks[k].socket <= s.acks[l].socket)
  }

  lemma {:induction false} SocketsRise<T>(trace: seq<Attempt<T>>, i: nat, j: nat)
    requires Orderly(trace) && i <= j < |trace|
    ensures trace[i].socket <= trace[j].socket
    decreases j
  {
    if i < j {
      assert Follows(trace[j - 1], trace[j]);
      SocketsRise(trace, i, j - 1);
    }
  }

  lemma {:induction false} AcksAreSends<T>(trace: seq<Attempt<T>>, k: nat)
    requires k < |AcksOf(trace)|
    ensures var ack := AcksOf(trace)[k]; ack.attempt < |trace| && trace[ack.attempt] == Attempt(Send(ack.payload), ack.socket, true)
    ensures forall l | 0 <= l < k :: AcksOf(trace)[l].attempt < AcksOf(trace)[k].attempt
    decreases |trace|
  {
    var front := trace[..|trace| - 1];
    if k < |AcksOf(front)| {
      AcksAreSends(front, k);
    } else {
      forall l | 0 <= l < k ensures AcksOf(trace)[l].attempt < AcksOf(trace)[k].attempt { AcksAreSends(front, l); }
    }
  }

  lemma RecordedIsGenuine<T>(outcomes: seq<bool>, s: State<T>)
    requires Recorded(outcomes, s)
    ensures Genuine(outcomes, s)
  {
    forall k | 0 <= k < |s.acks|
      ensures var ack := s.acks[k];
              ack.attempt < |s.trace| && outcomes[ack.attempt] && ack.socket <= s.socket &&
              s.trace[ack.attempt] == Attempt(Send(ack.payload), ack.socket, true)
    {
      AcksAreSends(s.trace, k);
      SocketsRise(s.trace, s.acks[k].attempt, |s.trace| - 1);
    }
    forall k, l | 0 <= k < l < |s.acks| ensures s.acks[k].attempt < s.acks[l].attempt && s.acks[k].socket <= s.acks[l].socket {
      AcksAreSends(s.trace, k);
      AcksAreSends(s.trace, l);
      SocketsRise(s.trace, s.acks[k].attempt, s.acks[l].attempt);
    }
  }

  // ---- What is acknowledged ----

  lemma {:induction false} DialledSendsNothing<T>(outcomes: seq<bool>, waiting: Option<T>, s: State<T>)
    ensures var r := Dialled(outcomes, waiting, s);
            r.state.acks == s.acks && r.state.relayed == s.relayed && (r.end.Some? ==> r.end.value.CutOff?) &&
            Reconnections(r.state.trace) == Reconnections(s.trace)
    decreases |outcomes| - |s.trace|
  {
    if |s.trace| < |outcomes| {
      ReconnectionsPush(s.trace, Attempt(Dial(waiting), s.socket, outcomes[|s.trace|]));
      if !outcomes[|s.trace|] { DialledSendsNothing(outcomes, waiting, s.Made(Dial(waiting), false)); }
    }
  }

  /** Sending a payload acknowledges it once, or the run is cut off and it is not acknowledged. */
  lemma {:induction false} SentOnce<T>(outcomes: seq<bool>, payload: T, s: State<T>) returns (ack: Ack<T>)
    ensures ack.payload == payload && Sent(outcomes, payload, s).state.relayed == s.relayed
    ensures match Sent(outcomes, payload, s).end
            case None => Sent(outcomes, payload, s).state.acks == s.acks + [ack]
            case Some(end) => end.CutOff? && Sent(outcomes, payload, s).state.acks == s.acks
    ensures Reconnections(Sent(outcomes, payload, s).state.trace) == Reconnections(s.trace)
    decreases |outcomes| - |s.trace|
  {
    ack := Ack(payload, |s.trace|, s.socket);
    if |s.trace| < |outcomes| {
      ReconnectionsPush(s.trace, Attempt(Send(payload), s.socket, outcomes[|s.trace|]));
      if !outcomes[|s.trace|] {
        DialledSendsNothing(outcomes, Some(payload), Dropped(payload, s));
        var dialled := Dialled(outcomes, Some(payload), Dropped(payload, s));
        if dialled.end.None? { ack := SentOnce(outcomes, payload, dialled.state); }
      }
    }
  }

  /** How often a trace has reconnected to the game. */
  function Reconnections<T>(trace: seq<Attempt<T>>): nat {
    if trace == [] then 0
    else
      var last := trace[|trace| - 1];
      Reconnections(trace[..|trace| - 1]) + if last.kind.Reconnect? && last.ok then 1 else 0
  }

  lemma ReconnectionsPush<T>(trace: seq<Attempt<T>>, a: Attempt<T>)
    ensures Reconnections(trace + [a]) == Reconnections(trace) + if a.kind.Reconnect? && a.ok then 1 else 0
  {
    assert (trace + [a])[..|trace|] == trace;
  }

  /** How often the connection to the game was lost. */
  function Breaks<T>(arrivals: seq<Arrival<T>>): nat {
    if arrivals == [] then 0 else (if arrivals[0].Closed? || arrivals[0].Failed? then 1 else 0) + Breaks(arrivals[1..])
  }

  lemma PayloadsPush<T>(acks: seq<Ack<T>>, ack: Ack<T>)
    ensures Payloads(acks + [ack]) == Payloads(acks) + [ack.payload]
  {
    assert (acks + [ack])[..|acks|] == acks;
  }

  /** What holds between the steps of a run. */
  predicate Counts<T>(limit: Option<nat>, s: State<T>) {
    s.relayed == |s.acks| && (s.relayed == 0 || !Full(limit, s.relayed))
  }

  /** What holds when it has ended, too. */
  predicate CountsAtEnd<T>(limit: Option<nat>, r: Progress<T>) {
    if r.end == Some(LimitReached)
    then r.state.relayed == |r.state.acks| && limit.Some? && r.state.relayed == if limit.value > 1 then limit.value else 1
    else Counts(limit, r.state)
  }

  lemma {:induction false} SentAllCounts<T>(outcomes: seq<bool>, limit: Option<nat>, envelopes: seq<T>, s: State<T>)
    requires Counts(limit, s)
    ensures CountsAtEnd(limit, SentAll(outcomes, limit, envelopes, s))
    decreases |envelopes|
  {
    if envelopes != [] {
      var sent := Sent(outcomes, envelopes[0], s);
      var ack := SentOnce(outcomes, envelopes[0], s);
      var counted := sent.state.(relayed := sent.state.relayed + 1);
      if sent.end.None? && !Full(limit, counted.relayed) {
        SentAllCounts(outcomes, limit, envelopes[1..], counted);
      }
    }
  }

  lemma {:induction false} SentAllInOrder<T>(outcomes: seq<bool>, limit: Option<nat>, envelopes: seq<T>, s: State<T>) returns (n: nat)
    ensures n <= |envelopes| && Payloads(SentAll(outcomes, limit, envelopes, s).state.acks) == Payloads(s.acks) + envelopes[..n]
    ensures match SentAll(outcomes, limit, envelopes, s).end
            case None => n == |envelopes|
            case Some(end) => end.LimitReached? || end.CutOff?
    decreases |envelopes|
  {
    n := 0;
    if envelopes != [] {
      var sent := Sent(outcomes, envelopes[0], s);
      var ack := SentOnce(outcomes, envelopes[0], s);
      if sent.end.None? {
        PayloadsPush(s.acks, ack);
        var counted := sent.state.(relayed := sent.state.relayed + 1);
        if !Full(limit, counted.relayed) {
          n := SentAllInOrder(outcomes, limit, envelopes[1..], counted);
          assert SentAll(outcomes, limit, envelopes, s) == SentAll(outcomes, limit, envelopes[1..], counted);
        } else {
          assert SentAll(outcomes, limit, envelopes, s) == Progress(Some(LimitReached), counted);
        }
        FirstAndRest(Payloads(s.acks), envelopes, n);
        n := n + 1;
      }
    }
  }

  lemma FirstAndRest<T>(before: seq<T>, s: seq<T>, n: nat)
    requires n < |s|
    ensures before + [s[0]] + s[1..][..n] == before + s[..n + 1]
  {
    assert s[..n + 1] == [s[0]] + s[1..][..n];
  }

  lemma {:induction false} SentAllReconnects<T>(outcomes: seq<bool>, limit: Option<nat>, envelopes: seq<T>, s: State<T>)
    ensures Reconnections(SentAll(outcomes, limit, envelopes, s).state.trace) == Reconnections(s.trace)
    decreases |envelopes|
  {
    if envelopes != [] {
      var ack := SentOnce(outcomes, envelopes[0], s);
      var sent := Sent(outcomes, envelopes[0], s);
      SentAllReconnects(outcomes, limit, envelopes[1..], sent.state.(relayed := sent.state.relayed + 1));
    }
  }

  lemma {:induction false} ReconnectedSendsNothing<T>(outcomes: seq<bool>, s: State<T>, attemptsLeft: nat)
    ensures var r := Reconnected(outcomes, s, attemptsLeft);
            r.state.acks == s.acks && r.state.relayed == s.relayed &&
            (r.end.Some? ==> r.end.value.ReconnectFailed? || r.end.value.CutOff?) &&
            Reconnections(r.state.trace) == Reconnections(s.trace) + if r.end.None? then 1 else 0
    decreases attemptsLeft
  {
    if attemptsLeft > 0 && |s.trace| < |outcomes| {
      ReconnectionsPush(s.trace, Attempt(Reconnect, s.socket, outcomes[|s.trace|]));
      if !outcomes[|s.trace|] { ReconnectedSendsNothing(outcomes, s.Made(Reconnect, false), attemptsLeft - 1); }
    }
  }

  /** How the arrival `a` can end the run. */
  predicate EndsAt<T>(end: End, a: Arrival<T>) {
    match end
    case Signalled => a.Signal?
    case TranslationFailed => a == Event(None)
    case ReconnectFailed => a.Closed? || a.Failed?
    case LimitReached => a.Event?
    case CutOff => true
    case Waiting => false
  }

  /** What the run gets past. */
  predicate Passes<T>(a: Arrival<T>) { !a.Signal? && a != Event(None) }

  lemma ReactedInOrder<T>(outcomes: seq<bool>, limit: Option<nat>, a: Arrival<T>, s: State<T>) returns (n: nat)
    requires Counts(limit, s)
    ensures n <= |EnvelopesOf(a)|
    ensures Payloads(Reacted(outcomes, limit, a, s).state.acks) == Payloads(s.acks) + EnvelopesOf(a)[..n]
    ensures CountsAtEnd(limit, Reacted(outcomes, limit, a, s))
    ensures match Reacted(outcomes, limit, a, s).end
            case None => n == |EnvelopesOf(a)| && Passes(a)
            case Some(end) => EndsAt(end, a)
  {
    n := 0;
    if a.Closed? || a.Failed? {
      ReconnectedSendsNothing(outcomes, s, RECONNECT_ATTEMPTS);
    } else if a.Event? && a.envelopes.Some? {
      SentAllCounts(outcomes, limit, a.envelopes.value, s);
      n := SentAllInOrder(outcomes, limit, a.envelopes.value, s);
    }
  }

  /** How a run over `arrivals` that ends as `r` got there: it passed the first `i` arrivals, and of the next one it
      sent `n` envelopes. */
  predicate EndedAt<T>(limit: Option<nat>, arrivals: seq<Arrival<T>>, r: Progress<T>, i: nat, n: nat) {
    i <= |arrivals| && (forall k | 0 <= k < i :: Passes(arrivals[k])) &&
    n <= (if i < |arrivals| then |EnvelopesOf(arrivals[i])| else 0) &&
    r.end.Some? && CountsAtEnd(limit, r) &&
    (r.end.value.CutOff? || if i < |arrivals| then EndsAt(r.end.value, arrivals[i]) else r.end.value.Waiting?)
  }

  /** The translations of the first `i` arrivals and the first `n` of the next one's. */
  function UpTo<T>(arrivals: seq<Arrival<T>>, i: nat, n: nat): seq<T>
    requires i <= |arrivals| && n <= (if i < |arrivals| then |EnvelopesOf(arrivals[i])| else 0)
  {
    Translated(arrivals[..i]) + (if i < |arrivals| then EnvelopesOf(arrivals[i])[..n] else [])
  }

  lemma UpToLater<T>(before: seq<T>, arrivals: seq<Arrival<T>>, i: nat, n: nat)
    requires i < |arrivals| && n <= (if i + 1 < |arrivals| then |EnvelopesOf(arrivals[i + 1])| else 0)
    ensures before + UpTo(arrivals, i + 1, n) == before + EnvelopesOf(arrivals[0]) + UpTo(arrivals[1..], i, n)
  {
    assert arrivals[..i + 1][0] == arrivals[0] && arrivals[..i + 1][1..] == arrivals[1..][..i];
    assert UpTo(arrivals, i + 1, n) == EnvelopesOf(arrivals[0]) + UpTo(arrivals[1..], i, n);
  }

  lemma EndedHere<T>(limit: Option<nat>, arrivals: seq<Arrival<T>>, r: Progress<T>, n: nat)
    requires arrivals != [] && r.end.Some? && EndsAt(r.end.value, arrivals[0]) && CountsAtEnd(limit, r)
    requires n <= |EnvelopesOf(arrivals[0])|
    ensures EndedAt(limit, arrivals, r, 0, n) && UpTo(arrivals, 0, n) == EnvelopesOf(arrivals[0])[..n]
  {
  }

  lemma EndedLater<T>(limit: Option<nat>, arrivals: seq<Arrival<T>>, r: Progress<T>, i: nat, n: nat)
    requires arrivals != [] && Passes(arrivals[0]) && EndedAt(limit, arrivals[1..], r, i, n)
    ensures EndedAt(limit, arrivals, r, i + 1, n)
  {
  }

  /** Where a run over the same arrivals ends is settled by how it ends, if the network did not end it. */
  lemma SameEnd<T>(limit: Option<nat>, arrivals: seq<Arrival<T>>, a: Progress<T>, i: nat, m: nat, b: Progress<T>, j: nat, n: nat)
    requires EndedAt(limit, arrivals, a, i, m) && EndedAt(limit, arrivals, b, j, n) && a.end == b.end
    requires a.end.value.Signalled? || a.end.value.TranslationFailed? || a.end.value.Waiting?
    ensures i == j && UpTo(arrivals, i, m) == UpTo(arrivals, j, n)
  {
  }

  lemma EndedOn<T>(limit: Option<nat>, arrivals: seq<Arrival<T>>, before: seq<T>, r: Progress<T>, i: nat, n: nat)
    requires arrivals != [] && Passes(arrivals[0]) && EndedAt(limit, arrivals[1..], r, i, n)
    requires Payloads(r.state.acks) == before + EnvelopesOf(arrivals[0]) + UpTo(arrivals[1..], i, n)
    ensures EndedAt(limit, arrivals, r, i + 1, n) && Payloads(r.state.acks) == before + UpTo(arrivals, i + 1, n)
  {
    EndedLater(limit, arrivals, r, i, n);
    UpToLater(before, arrivals, i, n);
  }

  lemma RunStep<T>(outcomes: seq<bool>, limit: Option<nat>, arrivals: seq<Arrival<T>>, s: State<T>)
    requires arrivals != []
    ensures var reacted := Reacted(outcomes, limit, arrivals[0], s);
            RunFrom(outcomes, limit, arrivals, s) ==
            if reacted.end.Some? then reacted else RunFrom(outcomes, limit, arrivals[1..], reacted.state)
  {
  }

  /** A run acknowledges the translations of the arrivals before the one it ends at, all of them in order, and
      then a beginning of that one's. */
  lemma {:induction false} RunFromInOrder<T>(outcomes: seq<bool>, limit: Option<nat>, arrivals: seq<Arrival<T>>, s: State<T>)
    returns (i: nat, n: nat)
    requires Counts(limit, s)
    ensures EndedAt(limit, arrivals, RunFrom(outcomes, limit, arrivals, s), i, n)
    ensures Payloads(RunFrom(outcomes, limit, arrivals, s).state.acks) == Payloads(s.acks) + UpTo(arrivals, i, n)
    decreases |arrivals|
  {
    if arrivals == [] {
      i, n := 0, 0;
    } else {
      RunStep(outcomes, limit, arrivals, s);
      n := ReactedInOrder(outcomes, limit, arrivals[0], s);
      var reacted := Reacted(outcomes, limit, arrivals[0], s);
      if reacted.end.Some? {
        i := 0;
        EndedHere(limit, arrivals, reacted, n);
      } else {
        i, n := RunFromInOrder(outcomes, limit, arrivals[1..], reacted.state);
        EndedOn(limit, arrivals, Payloads(s.acks), RunFrom(outcomes, limit, arrivals[1..], reacted.state), i, n);
        i := i + 1;
      }
    }
  }

  lemma RunInOrder<T>(outcomes: seq<bool>, limit: Option<nat>, arrivals: seq<Arrival<T>>) returns (i: nat, n: nat)
    ensures EndedAt(limit, arrivals, Run(outcomes, limit, arrivals), i, n)
    ensures Payloads(Run(outcomes, limit, arrivals).state.acks) == UpTo(arrivals, i, n)
  {
    DialledSendsNothing(outcomes, None, START<T>());
    var dialled := Dialled<T>(outcomes, None, START());
    assert Payloads<T>([]) == [];
    if dialled.end.Some? {
      i, n := 0, 0;
    } else {
      i, n := RunFromInOrder(outcomes, limit, arrivals, dialled.state);
    }
  }

  lemma {:induction false} RunFromReconnects<T>(outcomes: seq<bool>, limit: Option<nat>, arrivals: seq<Arrival<T>>, s: State<T>)
    returns (i: nat)
    ensures i <= |arrivals| && (RunFrom(outcomes, limit, arrivals, s).end == Some(Waiting) ==> i == |arrivals|)
    ensures RunFrom(outcomes, limit, arrivals, s).end == Some(Signalled) ==> i < |arrivals| && arrivals[i].Signal?
    ensures Reconnections(RunFrom(outcomes, limit, arrivals, s).state.trace) == Reconnections(s.trace) + Breaks(arrivals[..i])
    decreases |arrivals|
  {
    i := 0;
    if arrivals != [] {
      var a := arrivals[0];
      var reacted := Reacted(outcomes, limit, a, s);
      if a.Closed? || a.Failed? {
        ReconnectedSendsNothing(outcomes, s, RECONNECT_ATTEMPTS);
      } else if a.Event? && a.envelopes.Some? {
        SentAllReconnects(outcomes, limit, a.envelopes.value, s);
        var n := SentAllInOrder(outcomes, limit, a.envelopes.value, s);
      }
      if reacted.end.None? {
        i := RunFromReconnects(outcomes, limit, arrivals[1..], reacted.state);
        assert arrivals[..i + 1][0] == a && arrivals[..i + 1][1..] == arrivals[1..][..i];
        i := i + 1;
      }
    }
  }

  /** The game is reconnected to exactly once for each time that connection is lost, before anything else is
      relayed; the run gets no further otherwise. */
  lemma ReconnectsForEachBreak<T>(outcomes: seq<bool>, limit: Option<nat>, arrivals: seq<Arrival<T>>) returns (i: nat)
    ensures i <= |arrivals| && Reconnections(Run(outcomes, limit, arrivals).state.trace) == Breaks(arrivals[..i])
    ensures Run(outcomes, limit, arrivals).end == Some(Waiting) ==> i == |arrivals|
    ensures Run(outcomes, limit, arrivals).end == Some(Signalled) ==> i < |arrivals| && arrivals[i].Signal?
  {
    DialledSendsNothing(outcomes, None, START<T>());
    var dialled := Dialled<T>(outcomes, None, START());
    i := 0;
    if dialled.end.None? { i := RunFromReconnects(outcomes, limit, arrivals, dialled.state); }
  }

  lemma {:induction false} TranslatedSplit<T>(arrivals: seq<Arrival<T>>, i: nat)
    requires i < |arrivals|
    ensures Translated(arrivals) == Translated(arrivals[..i]) + EnvelopesOf(arrivals[i]) + Translated(arrivals[i + 1..])
    decreases i
  {
    if i > 0 {
      TranslatedSplit(arrivals[1..], i - 1);
      assert arrivals[..i][0] == arrivals[0] && arrivals[..i][1..] == arrivals[1..][..i - 1];
      assert arrivals[1..][i..] == arrivals[i + 1..];
    }
  }

  lemma RunIsPrefix<T>(outcomes: seq<bool>, limit: Option<nat>, arrivals: seq<Arrival<T>>)
    ensures var s := Run(outcomes, limit, arrivals).state;
            Payloads(s.acks) <= Translated(arrivals) && s.relayed == |s.acks| &&
            (limit.Some? ==> s.relayed <= if limit.value > 1 then limit.value else 1)
  {
    var i, n := RunInOrder(outcomes, limit, arrivals);
    UpToIsPrefix(arrivals, i, n);
  }

  lemma UpToIsPrefix<T>(arrivals: seq<Arrival<T>>, i: nat, n: nat)
    requires i <= |arrivals| && n <= (if i < |arrivals| then |EnvelopesOf(arrivals[i])| else 0)
    ensures UpTo(arrivals, i, n) <= Translated(arrivals)
  {
    if i < |arrivals| { TranslatedSplit(arrivals, i); } else { assert arrivals[..i] == arrivals; }
  }

  /** Whatever sends fail and however often the websocket is replaced: the acknowledged payloads are a
      beginning of the translations in the order of the events, each acknowledged by an attempt of its
      own; `relayed` counts them and never exceeds the larger of 1 and the limit. */
  lemma AckedIsPrefix<T>(outcomes: seq<bool>, limit: Option<nat>, arrivals: seq<Arrival<T>>)
    ensures var s := Run(outcomes, limit, arrivals).state;
            Payloads(s.acks) <= Translated(arrivals) && Genuine(outcomes, s) && Recorded(outcomes, s) && s.relayed == |s.acks| &&
            (limit.Some? ==> s.relayed <= if limit.value > 1 then limit.value else 1)
  {
    AttemptsAreOrderly(outcomes, limit, arrivals);
    RecordedIsGenuine(outcomes, Run(outcomes, limit, arrivals).state);
    RunIsPrefix(outcomes, limit, arrivals);
  }

  /** Nothing is left behind: a run that a signal ends has acknowledged every translation of the events
      before the signal, and one that waits for the next event has acknowledged them all. */
  lemma NothingLeftBehind<T>(outcomes: seq<bool>, limit: Option<nat>, arrivals: seq<Arrival<T>>) returns (i: nat)
    ensures var r := Run(outcomes, limit, arrivals);
            (r.end == Some(Signalled) ==> i < |arrivals| && arrivals[i].Signal? && Payloads(r.state.acks) == Translated(arrivals[..i])) &&
            (r.end == Some(Waiting) ==> Payloads(r.state.acks) == Translated(arrivals))
  {
    var n;
    i, n := RunInOrder(outcomes, limit, arrivals);
    if i == |arrivals| { assert arrivals[..i] == arrivals; }
  }

  /** The network has no say in what is relayed: two runs over the same arrivals that end in the same
      way, other than by being cut off or by a failed reconnect, have acknowledged the same payloads. */
  lemma NetworkDoesNotMatter<T>(a: seq<bool>, b: seq<bool>, limit: Option<nat>, arrivals: seq<Arrival<T>>)
    requires Run(a, limit, arrivals).end == Run(b, limit, arrivals).end
    requires Run(a, limit, arrivals).end != Some(CutOff) && Run(a, limit, arrivals).end != Some(ReconnectFailed)
    ensures Payloads(Run(a, limit, arrivals).state.acks) == Payloads(Run(b, limit, arrivals).state.acks)
  {
    var i, m := RunInOrder(a, limit, arrivals);
    var j, n := RunInOrder(b, limit, arrivals);
    if Run(a, limit, arrivals).end == Some(LimitReached) {
      AckedIsPrefix(a, limit, arrivals);
      AckedIsPrefix(b, limit, arrivals);
    } else {
      SameEnd(limit, arrivals, Run(a, limit, arrivals), i, m, Run(b, limit, arrivals), j, n);
    }
  }
}
