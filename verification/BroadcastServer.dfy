/** The broadcast server of src/bin/sos_broadcast.rs as a system of interleaved steps: the relay loop, the
    accept loop and one handler per client, over a bounded broadcast channel, a shutdown flag and an
    atomic client counter. */
module BroadcastServer {
  import opened Wrappers

  /** How many payloads the channel keeps. */
  const CAPACITY: nat := 1024

  /** The broadcast channel: the last payloads sent, and the position of the first of them. */
  datatype Channel<T> = Channel(base: nat, kept: seq<T>) {
    function Tail(): nat { base + |kept| }

    function Push(payload: T): Channel<T> {
      if |kept| < CAPACITY then Channel(base, kept + [payload]) else Channel(base + 1, kept[1..] + [payload])
    }
  }

  /** Where a handler stands. `Sending` holds the payload it has received and not yet passed on. */
  datatype Phase<T> = Handshaking | Serving | Sending(payload: T) | Closing | Gone

  /** A client's handler: its receiver reads the channel at `cursor`. History: the position at which it
      subscribed, the count of payloads offered by then, the payloads the client has been sent with their
      positions, and the jumps its cursor has made. */
  datatype Handler<T> = Handler(
    phase: Phase<T>, cursor: nat, subscribed: nat, offeredBefore: nat, got: seq<T>, at: seq<nat>, jumps: seq<Jump>)

  /** The positions from `from` on and before `to` have been skipped. */
  datatype Jump = Jump(from: nat, to: nat)

  datatype MainPhase<T> = Relaying(pending: seq<T>) | Joining | Finished

  /** History: all payloads the relay loop has sent, whether anyone was subscribed or not. */
  datatype Server<T> = Server(
    main: MainPhase<T>, relayed: nat, offered: seq<T>, channel: Channel<T>, log: seq<T>,
    shutdown: bool, accepting: bool, handlers: seq<Handler<T>>, clientCount: int)

  /** What a handler can do. */
  datatype Move =
    | HandshakeDone
    | HandshakeFailed
    | Receive
    | Lag
    | SendDone
    | SendFailed
    | Inbound     // a ping answered, or any other message
    | Hangup      // a close, a receive error, the end, or a pong that cannot be sent
    | Stop        // the handler sees the shutdown flag, or a closed channel
    | Leave       // the writer is closed and the counter decremented

  datatype Step<T> =
    | MainEvent(envelopes: seq<T>)   // next_event yields an event, translated into these
    | MainSend                       // one of them is sent
    | MainSignal                     // a shutdown signal arrives
    | MainFail                       // a translation or a reconnect fails: run returns the error
    | MainJoin                       // the accept loop has been waited for
    | Accept
    | AcceptError
    | AcceptStop
    | Client(i: nat, move: Move)     // the handler of client `i` moves

  predicate Live(p: Phase) { !p.Gone? }

  /** Past its handshake and not yet finished. */
  predicate Counted(p: Phase) { p.Serving? || p.Sending? || p.Closing? }

  predicate Subscribed<T>(handlers: seq<Handler<T>>) { exists i | 0 <= i < |handlers| :: Live(handlers[i].phase) }

  function START<T>(): Server<T> {
    Server(Relaying([]), 0, [], Channel(0, []), [], false, true, [], 0)
  }

  // ---- Steps ----

  predicate CanMove<T>(h: Handler<T>, channel: Channel<T>, shutdown: bool, move: Move) {
    match move
    case HandshakeDone => h.phase.Handshaking?
    case HandshakeFailed => h.phase.Handshaking?
    case Receive => h.phase.Serving? && channel.base <= h.cursor < channel.Tail()
    case Lag => h.phase.Serving? && h.cursor < channel.base
    case SendDone => h.phase.Sending?
    case SendFailed => h.phase.Sending?
    case Inbound => h.phase.Serving?
    case Hangup => h.phase.Serving?
    case Stop => h.phase.Serving? && shutdown
    case Leave => h.phase.Closing?
  }

  predicate Enabled<T>(s: Server<T>, step: Step<T>) {
    match step
    case MainEvent(_) => s.main == Relaying([])
    case MainSend => s.main.Relaying? && s.main.pending != []
    case MainSignal => s.main == Relaying([])
    case MainFail => s.main == Relaying([])
    case MainJoin => s.main.Joining? && !s.accepting
    case Accept => s.accepting
    case AcceptError => s.accepting
    case AcceptStop => s.accepting && s.shutdown
    case Client(i, move) => i < |s.handlers| && CanMove(s.handlers[i], s.channel, s.shutdown, move)
  }

  /** The position just received. */
  function PreviousOf(cursor: nat): nat { if cursor == 0 then 0 else cursor - 1 }

  /** The handler once its payload is sent. */
  function Sent<T>(h: Handler<T>): Handler<T>
    requires h.phase.Sending?
  {
    h.(phase := Serving, got := h.got + [h.phase.payload], at := h.at + [PreviousOf(h.cursor)])
  }

  function Moved<T>(h: Handler<T>, channel: Channel<T>, shutdown: bool, move: Move): Handler<T>
    requires CanMove(h, channel, shutdown, move)
  {
    match move
    case HandshakeDone => h.(phase := Serving)
    case HandshakeFailed => h.(phase := Gone)
    case Receive => h.(phase := Sending(channel.kept[h.cursor - channel.base]), cursor := h.cursor + 1)
    case Lag => h.(cursor := channel.base, jumps := h.jumps + [Jump(h.cursor, channel.base)])
    case SendDone => Sent(h)
    case SendFailed => h.(phase := Closing)
    case Inbound => h
    case Hangup => h.(phase := Closing)
    case Stop => h.(phase := Closing)
    case Leave => h.(phase := Gone)
  }

  /** `--max-events`: the loop stops once this many payloads have been relayed. */
  type Limit = Option<nat>

  /** A payload is sent: the channel takes it only if somebody is subscribed; it counts as relayed anyway. */
  function Relay<T>(limit: Limit, s: Server<T>): Server<T>
    requires s.main.Relaying? && s.main.pending != []
  {
    var payload := s.main.pending[0];
    var taken := Subscribed(s.handlers);
    var sent := s.(relayed := s.relayed + 1, offered := s.offered + [payload],
                   channel := if taken then s.channel.Push(payload) else s.channel,
                   log := if taken then s.log + [payload] else s.log);
    if limit.Some? && sent.relayed >= limit.value then sent.(main := Joining, shutdown := true)
    else sent.(main := Relaying(s.main.pending[1..]))
  }

  function Next<T>(limit: Limit, s: Server<T>, step: Step<T>): Server<T>
    requires Enabled(s, step)
  {
    match step
    case MainEvent(envelopes) => s.(main := Relaying(envelopes))
    case MainSend => Relay(limit, s)
    case MainSignal => s.(main := Joining, shutdown := true)
    case MainFail => s.(main := Finished, shutdown := true)
    case MainJoin => s.(main := Finished)
    case Accept =>
      s.(handlers := s.handlers + [Handler(Handshaking, s.channel.Tail(), s.channel.Tail(), |s.offered|, [], [], [])])
    case AcceptError => s
    case AcceptStop => s.(accepting := false)
    case Client(i, move) =>
      s.(handlers := s.handlers[i := Moved(s.handlers[i], s.channel, s.shutdown, move)],
         clientCount := s.clientCount + (if move.HandshakeDone? then 1 else if move.Leave? then -1 else 0))
  }

  // ---- Runs ----

  /** `after` is where some run of enabled steps leads. */
  ghost predicate Leads<T>(limit: Limit, before: Server<T>, steps: seq<Step<T>>, after: Server<T>)
    decreases |steps|
  {
    if steps == [] then after == before
    else Enabled(before, steps[0]) && Leads(limit, Next(limit, before, steps[0]), steps[1..], after)
  }

  // ---- What every step keeps ----

  /** The channel keeps the end of the log, and all of it that fits. */
  ghost predicate ChannelKeeps<T>(channel: Channel<T>, log: seq<T>) {
    channel.Tail() == |log| && |channel.kept| <= CAPACITY && log[channel.base..] == channel.kept &&
    (channel.base > 0 ==> |channel.kept| == CAPACITY)
  }

  /** What a client has been sent are payloads of the log, in order, from after it subscribed; so is what
      its handler has received and is about to send. */
  ghost predicate InOrder<T>(h: Handler<T>, log: seq<T>) {
    h.subscribed <= h.cursor <= |log| && |h.got| == |h.at| &&
    (forall k | 0 <= k < |h.at| :: h.subscribed <= h.at[k] < h.cursor && h.got[k] == log[h.at[k]]) &&
    (forall k, l | 0 <= k < l < |h.at| :: h.at[k] < h.at[l]) &&
    (h.phase.Sending? ==> h.subscribed < h.cursor && h.phase.payload == log[h.cursor - 1] &&
                          forall k | 0 <= k < |h.at| :: h.at[k] < h.cursor - 1)
  }

  /** The positions from `from` on and before `to`. */
  function Range(from: nat, to: nat): (r: seq<nat>)
    ensures |r| == if from <= to then to - from else 0
  {
    seq(if from <= to then to - from else 0, k requires k >= 0 => from + k)
  }

  /** The positions a cursor comes by on its way, with these jumps. */
  function Course(subscribed: nat, jumps: seq<Jump>, cursor: nat): seq<nat> {
    if jumps == [] then Range(subscribed, cursor)
    else
      var last := jumps[|jumps| - 1];
      Course(subscribed, jumps[..|jumps| - 1], last.from) + Range(last.to, cursor)
  }

  /** All jumps go forward, one after the other. */
  predicate Forward(subscribed: nat, jumps: seq<Jump>, cursor: nat) {
    if jumps == [] then subscribed <= cursor
    else
      var last := jumps[|jumps| - 1];
      last.from < last.to <= cursor && Forward(subscribed, jumps[..|jumps| - 1], last.from)
  }

  /** Every payload the cursor has come by has been sent, or is being sent; the last one may have failed. */
  ghost predicate Accounted<T>(h: Handler<T>) {
    var course := Course(h.subscribed, h.jumps, h.cursor);
    Forward(h.subscribed, h.jumps, h.cursor) &&
    (h.phase.Serving? || h.phase.Handshaking? ==> h.at == course) &&
    (h.phase.Sending? ==> h.at + [PreviousOf(h.cursor)] == course) &&
    h.at <= course && |course| <= |h.at| + 1
  }

  /** Everything offered since it subscribed is in the log, up to where it has read, and all of it as long
      as the handler lives. */
  ghost predicate Covered<T>(h: Handler<T>, log: seq<T>, offered: seq<T>) {
    h.subscribed <= h.cursor <= |log| && h.offeredBefore + (h.cursor - h.subscribed) <= |offered| &&
    log[h.subscribed..h.cursor] == offered[h.offeredBefore..h.offeredBefore + (h.cursor - h.subscribed)] &&
    (Live(h.phase) ==> log[h.subscribed..] == offered[h.offeredBefore..])
  }

  ghost predicate Delivers<T>(h: Handler<T>, log: seq<T>, offered: seq<T>) {
    InOrder(h, log) && Accounted(h) && Covered(h, log, offered)
  }

  function CountedOf<T>(handlers: seq<Handler<T>>): nat {
    if handlers == [] then 0 else (if Counted(handlers[0].phase) then 1 else 0) + CountedOf(handlers[1..])
  }

  ghost predicate Inv<T>(limit: Limit, s: Server<T>) {
    ChannelKeeps(s.channel, s.log) &&
    (forall i | 0 <= i < |s.handlers| :: Delivers(s.handlers[i], s.log, s.offered)) &&
    s.clientCount == CountedOf(s.handlers) &&
    s.relayed == |s.offered| &&
    (limit.Some? && s.main.Relaying? ==> s.relayed < limit.value || s.relayed == 0) &&
    (limit.Some? ==> s.relayed <= limit.value || s.relayed <= 1) &&
    (!s.main.Relaying? ==> s.shutdown)
  }

  lemma PushKeeps<T>(channel: Channel<T>, log: seq<T>, payload: T)
    requires ChannelKeeps(channel, log)
    ensures ChannelKeeps(channel.Push(payload), log + [payload])
  {
    var base := channel.Push(payload).base;
    assert (log + [payload])[base..] == log[base..] + [payload];
    if |channel.kept| == CAPACITY { assert log[base..] == channel.kept[1..]; }
  }

  /** Payloads added later change nothing of what a client has been sent; while its handler lives, they
      are all added to both. */
  lemma DeliversGrows<T>(h: Handler<T>, log: seq<T>, offered: seq<T>, payload: T, taken: bool)
    requires Delivers(h, log, offered) && (Live(h.phase) ==> taken)
    ensures Delivers(h, if taken then log + [payload] else log, offered + [payload])
  {
    var log' := if taken then log + [payload] else log;
    var n := h.offeredBefore + (h.cursor - h.subscribed);
    assert log'[h.subscribed..h.cursor] == log[h.subscribed..h.cursor];
    assert (offered + [payload])[h.offeredBefore..n] == offered[h.offeredBefore..n];
    if Live(h.phase) {
      assert log'[h.subscribed..] == log[h.subscribed..] + [payload];
      assert (offered + [payload])[h.offeredBefore..] == offered[h.offeredBefore..] + [payload];
    }
  }

  /** A live handler that has read further into the log. */
  lemma DeliversAdvances<T>(h: Handler<T>, log: seq<T>, offered: seq<T>, cursor: nat)
    requires Covered(h, log, offered) && Live(h.phase) && h.cursor <= cursor <= |log|
    ensures Covered(h.(cursor := cursor), log, offered)
  {
    var a, b := log[h.subscribed..], offered[h.offeredBefore..];
    assert |a| == |b|;
    assert log[h.subscribed..cursor] == a[..cursor - h.subscribed];
    assert offered[h.offeredBefore..h.offeredBefore + (cursor - h.subscribed)] == b[..cursor - h.subscribed];
  }

  lemma {:induction false} CountedUpdate<T>(handlers: seq<Handler<T>>, i: nat, h: Handler<T>)
    requires i < |handlers|
    ensures CountedOf(handlers[i := h]) ==
            CountedOf(handlers) + (if Counted(h.phase) then 1 else 0) - (if Counted(handlers[i].phase) then 1 else 0)
    decreases |handlers|
  {
    if i > 0 {
      assert handlers[i := h][1..] == handlers[1..][i - 1 := h];
      CountedUpdate(handlers[1..], i - 1, h);
    } else {
      assert handlers[i := h][1..] == handlers[1..];
    }
  }

  lemma {:induction false} CountedPush<T>(handlers: seq<Handler<T>>, h: Handler<T>)
    ensures CountedOf(handlers + [h]) == CountedOf(handlers) + (if Counted(h.phase) then 1 else 0)
  {
    if handlers == [] {
      assert handlers + [h] == [h];
    } else {
      assert (handlers + [h])[1..] == handlers[1..] + [h];
      CountedPush(handlers[1..], h);
    }
  }

  lemma RelayDelivers<T>(limit: Limit, s: Server<T>, i: nat)
    requires Inv(limit, s) && Enabled(s, MainSend) && i < |s.handlers|
    ensures Delivers(s.handlers[i], Relay(limit, s).log, Relay(limit, s).offered)
  {
    var h := s.handlers[i];
    assert Delivers(h, s.log, s.offered);
    assert Live(h.phase) ==> Subscribed(s.handlers);
    DeliversGrows(h, s.log, s.offered, s.main.pending[0], Subscribed(s.handlers));
  }

  lemma RelayKeeps<T>(limit: Limit, s: Server<T>)
    requires Inv(limit, s) && Enabled(s, MainSend)
    ensures Inv(limit, Relay(limit, s))
  {
    var after := Relay(limit, s);
    PushKeeps(s.channel, s.log, s.main.pending[0]);
    assert ChannelKeeps(after.channel, after.log);
    forall i | 0 <= i < |after.handlers| ensures Delivers(after.handlers[i], after.log, after.offered) {
      RelayDelivers(limit, s, i);
    }
  }

  /** The payload at a position the channel keeps is the log's. */
  lemma KeptIsLogged<T>(channel: Channel<T>, log: seq<T>, position: nat)
    requires ChannelKeeps(channel, log) && channel.base <= position < channel.Tail()
    ensures channel.kept[position - channel.base] == log[position]
  {
    assert channel.kept[position - channel.base] == log[channel.base..][position - channel.base];
  }

  lemma ReceiveInOrder<T>(h: Handler<T>, log: seq<T>)
    requires InOrder(h, log) && h.phase.Serving? && h.cursor < |log|
    ensures InOrder(h.(phase := Sending(log[h.cursor]), cursor := h.cursor + 1), log)
  {
  }

  lemma CourseGrows(subscribed: nat, jumps: seq<Jump>, cursor: nat)
    requires Forward(subscribed, jumps, cursor)
    ensures Forward(subscribed, jumps, cursor + 1)
    ensures Course(subscribed, jumps, cursor + 1) == Course(subscribed, jumps, cursor) + [cursor]
  {
    var start := if jumps == [] then subscribed else jumps[|jumps| - 1].to;
    assert Range(start, cursor + 1) == Range(start, cursor) + [cursor];
  }

  lemma CourseJumps(subscribed: nat, jumps: seq<Jump>, cursor: nat, to: nat)
    requires Forward(subscribed, jumps, cursor) && cursor < to
    ensures Forward(subscribed, jumps + [Jump(cursor, to)], to)
    ensures Course(subscribed, jumps + [Jump(cursor, to)], to) == Course(subscribed, jumps, cursor)
  {
    var more := jumps + [Jump(cursor, to)];
    assert more[..|more| - 1] == jumps;
    assert Range(to, to) == [];
  }

  lemma ReceiveAccounted<T>(h: Handler<T>, payload: T)
    requires Accounted(h) && h.phase.Serving?
    ensures Accounted(h.(phase := Sending(payload), cursor := h.cursor + 1))
  {
    CourseGrows(h.subscribed, h.jumps, h.cursor);
  }

  lemma ReceiveDelivers<T>(h: Handler<T>, log: seq<T>, offered: seq<T>)
    requires Delivers(h, log, offered) && h.phase.Serving? && h.cursor < |log|
    ensures Delivers(h.(phase := Sending(log[h.cursor]), cursor := h.cursor + 1), log, offered)
  {
    ReceiveInOrder(h, log);
    ReceiveAccounted(h, log[h.cursor]);
    DeliversAdvances(h, log, offered, h.cursor + 1);
  }

  lemma LagDelivers<T>(h: Handler<T>, log: seq<T>, offered: seq<T>, base: nat)
    requires Delivers(h, log, offered) && h.phase.Serving? && h.cursor < base <= |log|
    ensures Delivers(h.(cursor := base, jumps := h.jumps + [Jump(h.cursor, base)]), log, offered)
  {
    CourseJumps(h.subscribed, h.jumps, h.cursor, base);
    DeliversAdvances(h, log, offered, base);
  }

  lemma SendInOrder<T>(h: Handler<T>, log: seq<T>)
    requires InOrder(h, log) && h.phase.Sending?
    ensures InOrder(Sent(h), log)
  {
    forall k | 0 <= k < |Sent(h).at|
      ensures h.subscribed <= Sent(h).at[k] < h.cursor && Sent(h).got[k] == log[Sent(h).at[k]]
    {
      if k < |h.at| { assert h.subscribed <= h.at[k] < h.cursor && h.got[k] == log[h.at[k]]; }
    }
  }

  lemma SendAccounted<T>(h: Handler<T>)
    requires Accounted(h) && h.phase.Sending?
    ensures Accounted(Sent(h))
  {
  }

  lemma SendDelivers<T>(h: Handler<T>, log: seq<T>, offered: seq<T>)
    requires Delivers(h, log, offered) && h.phase.Sending?
    ensures Delivers(Sent(h), log, offered)
  {
    SendInOrder(h, log);
    SendAccounted(h);
  }

  /** A live handler that goes from one phase to another without a payload. */
  lemma PhaseDelivers<T>(h: Handler<T>, log: seq<T>, offered: seq<T>, phase: Phase<T>)
    requires Delivers(h, log, offered) && Live(h.phase) && !phase.Sending?
    requires phase.Serving? || phase.Handshaking? ==> h.phase.Serving? || h.phase.Handshaking?
    ensures Delivers(h.(phase := phase), log, offered)
  {
  }

  lemma MoveDelivers<T>(h: Handler<T>, channel: Channel<T>, shutdown: bool, move: Move, log: seq<T>, offered: seq<T>)
    requires ChannelKeeps(channel, log) && Delivers(h, log, offered) && CanMove(h, channel, shutdown, move)
    ensures Delivers(Moved(h, channel, shutdown, move), log, offered)
  {
    var moved := Moved(h, channel, shutdown, move);
    if move.Receive? {
      KeptIsLogged(channel, log, h.cursor);
      ReceiveDelivers(h, log, offered);
      assert moved == h.(phase := Sending(log[h.cursor]), cursor := h.cursor + 1);
    } else if move.Lag? {
      LagDelivers(h, log, offered, channel.base);
      assert moved == h.(cursor := channel.base, jumps := h.jumps + [Jump(h.cursor, channel.base)]);
    } else if move.SendDone? {
      SendDelivers(h, log, offered);
      assert moved == Sent(h);
    } else if !move.Inbound? {
      QuietMove(h, channel, shutdown, move);
      PhaseDelivers(h, log, offered, Moved(h, channel, shutdown, move).phase);
    }
  }

  lemma QuietMove<T>(h: Handler<T>, channel: Channel<T>, shutdown: bool, move: Move)
    requires CanMove(h, channel, shutdown, move) && !move.Receive? && !move.Lag? && !move.SendDone?
    ensures var phase := Moved(h, channel, shutdown, move).phase;
            Moved(h, channel, shutdown, move) == h.(phase := phase) && Live(h.phase) &&
            (move.Inbound? || !phase.Sending?) && (phase.Serving? || phase.Handshaking? ==> h.phase.Serving? || h.phase.Handshaking?)
  {
  }

  lemma ReplacedKeeps<T>(limit: Limit, s: Server<T>, i: nat, h: Handler<T>, count: int)
    requires Inv(limit, s) && i < |s.handlers| && Delivers(h, s.log, s.offered)
    requires count == s.clientCount + (if Counted(h.phase) then 1 else 0) - (if Counted(s.handlers[i].phase) then 1 else 0)
    ensures Inv(limit, s.(handlers := s.handlers[i := h], clientCount := count))
  {
    CountedUpdate(s.handlers, i, h);
    var handlers := s.handlers[i := h];
    forall k | 0 <= k < |handlers| ensures Delivers(handlers[k], s.log, s.offered) {
      if k != i { assert Delivers(s.handlers[k], s.log, s.offered); }
    }
  }

  lemma ClientKeeps<T>(limit: Limit, s: Server<T>, i: nat, move: Move)
    requires Inv(limit, s) && Enabled(s, Client(i, move))
    ensures Inv(limit, Next(limit, s, Client(i, move)))
  {
    var h := s.handlers[i];
    assert Delivers(h, s.log, s.offered);
    MoveDelivers(h, s.channel, s.shutdown, move, s.log, s.offered);
    var after := Next(limit, s, Client(i, move));
    ReplacedKeeps(limit, s, i, Moved(h, s.channel, s.shutdown, move), after.clientCount);
  }

  lemma AcceptKeeps<T>(limit: Limit, s: Server<T>)
    requires Inv(limit, s) && Enabled(s, Accept)
    ensures Inv(limit, Next(limit, s, Accept))
  {
    var after := Next(limit, s, Accept);
    CountedPush(s.handlers, after.handlers[|s.handlers|]);
    assert s.log[|s.log|..] == [] && s.offered[|s.offered|..] == [];
  }

  lemma StepKeeps<T>(limit: Limit, s: Server<T>, step: Step<T>)
    requires Inv(limit, s) && Enabled(s, step)
    ensures Inv(limit, Next(limit, s, step))
  {
    if step.Client? {
      ClientKeeps(limit, s, step.i, step.move);
    } else if step.MainSend? {
      RelayKeeps(limit, s);
    } else if step.Accept? {
      AcceptKeeps(limit, s);
    }
  }

  lemma {:induction false} RunKeeps<T>(limit: Limit, before: Server<T>, steps: seq<Step<T>>, after: Server<T>)
    requires Inv(limit, before) && Leads(limit, before, steps, after)
    ensures Inv(limit, after)
    decreases |steps|
  {
    if steps != [] {
      StepKeeps(limit, before, steps[0]);
      RunKeeps(limit, Next(limit, before, steps[0]), steps[1..], after);
    }
  }

  lemma StartHolds<T>(limit: Limit)
    ensures Inv<T>(limit, START())
  {
  }

  // ---- Over every run ----

  /** `after` can be reached. */
  ghost predicate Reached<T>(limit: Limit, steps: seq<Step<T>>, after: Server<T>) { Leads(limit, START(), steps, after) }

  /** In every interleaving the counter is the number of handlers past their handshake and not finished;
      so it is at least 1 before each decrement, and 0 again once all handlers have left. */
  lemma ClientCountIsExact<T>(limit: Limit, steps: seq<Step<T>>, s: Server<T>, i: nat)
    requires Reached(limit, steps, s)
    ensures s.clientCount == CountedOf(s.handlers)
    ensures Enabled(s, Client(i, Leave)) ==> s.clientCount >= 1
    ensures !Subscribed(s.handlers) ==> s.clientCount == 0
  {
    StartHolds<T>(limit);
    RunKeeps(limit, START(), steps, s);
    if Enabled(s, Client(i, Leave)) { CountedUpdate(s.handlers, i, s.handlers[i].(phase := Gone)); }
    if !Subscribed(s.handlers) { NoneCounted(s.handlers); }
  }

  lemma {:induction false} NoneCounted<T>(handlers: seq<Handler<T>>)
    requires forall i | 0 <= i < |handlers| :: !Live(handlers[i].phase)
    ensures CountedOf(handlers) == 0
  {
    if handlers != [] { NoneCounted(handlers[1..]); }
  }

  /** The relay loop sends at most as many payloads as it may, but at least one if there is one; once it has
      stopped, the shutdown flag is up. */
  lemma RelayedIsBounded<T>(limit: Limit, steps: seq<Step<T>>, s: Server<T>)
    requires Reached(limit, steps, s)
    ensures s.relayed == |s.offered|
    ensures limit.Some? ==> s.relayed <= if limit.value > 1 then limit.value else 1
    ensures !s.main.Relaying? ==> s.shutdown
  {
    StartHolds<T>(limit);
    RunKeeps(limit, START(), steps, s);
  }

  lemma GotIsOffered<T>(h: Handler<T>, log: seq<T>, offered: seq<T>)
    requires InOrder(h, log) && Covered(h, log, offered)
    ensures forall k | 0 <= k < |h.at| ::
              h.offeredBefore + (h.at[k] - h.subscribed) < |offered| &&
              h.got[k] == offered[h.offeredBefore + (h.at[k] - h.subscribed)]
  {
    var n := h.cursor - h.subscribed;
    forall k | 0 <= k < |h.at|
      ensures h.offeredBefore + (h.at[k] - h.subscribed) < |offered|
      ensures h.got[k] == offered[h.offeredBefore + (h.at[k] - h.subscribed)]
    {
      var d := h.at[k] - h.subscribed;
      assert log[h.subscribed..h.cursor][d] == offered[h.offeredBefore..h.offeredBefore + n][d];
    }
  }

  lemma GotIsRun<T>(h: Handler<T>, log: seq<T>, offered: seq<T>)
    requires InOrder(h, log) && Covered(h, log, offered) && Accounted(h) && h.jumps == []
    ensures h.offeredBefore + |h.got| <= |offered| && h.got == offered[h.offeredBefore..][..|h.got|]
  {
    GotIsOffered(h, log, offered);
    if h.got != [] {
      assert forall k | 0 <= k < |h.at| :: h.at[k] == Range(h.subscribed, h.cursor)[k];
      assert h.at[|h.at| - 1] == h.subscribed + (|h.at| - 1);
    }
  }

  /** What the client of handler `i` has been sent: payloads offered after it subscribed, in order, each at
      most once, `at` being their positions in the log. As long as its cursor has not jumped they are
      the first ones offered since then, without a gap. */
  lemma ClientGetsInOrder<T>(limit: Limit, steps: seq<Step<T>>, s: Server<T>, i: nat)
    requires Reached(limit, steps, s) && i < |s.handlers|
    ensures var h := s.handlers[i];
            |h.got| == |h.at| &&
            (forall k | 0 <= k < |h.at| ::
               h.subscribed <= h.at[k] && h.offeredBefore + (h.at[k] - h.subscribed) < |s.offered| &&
               h.got[k] == s.offered[h.offeredBefore + (h.at[k] - h.subscribed)]) &&
            (forall k, l | 0 <= k < l < |h.at| :: h.at[k] < h.at[l])
    ensures var h := s.handlers[i];
            h.jumps == [] ==> h.offeredBefore + |h.got| <= |s.offered| && h.got == s.offered[h.offeredBefore..][..|h.got|]
  {
    StartHolds<T>(limit);
    RunKeeps(limit, START(), steps, s);
    assert Delivers(s.handlers[i], s.log, s.offered);
    GotIsOffered(s.handlers[i], s.log, s.offered);
    if s.handlers[i].jumps == [] { GotIsRun(s.handlers[i], s.log, s.offered); }
  }

  /** All translations that arrive in the course of a run, one after the other. */
  function Translated<T>(steps: seq<Step<T>>): seq<T> {
    if steps == [] then []
    else (if steps[0].MainEvent? then steps[0].envelopes else []) + Translated(steps[1..])
  }

  /** What the relay loop still has to send. */
  function Due<T>(s: Server<T>): seq<T> { if s.main.Relaying? then s.main.pending else [] }

  lemma StepConserves<T>(limit: Limit, s: Server<T>, step: Step<T>)
    requires Enabled(s, step)
    ensures var next := Next(limit, s, step);
            var arrived := if step.MainEvent? then step.envelopes else [];
            s.offered <= next.offered &&
            next.offered + Due(next) <= s.offered + Due(s) + arrived &&
            (next.main.Relaying? ==> next.offered + Due(next) == s.offered + Due(s) + arrived) &&
            (!s.main.Relaying? ==> !next.main.Relaying? && next.offered == s.offered && arrived == [])
  {
    if step.MainSend? {
      assert s.main.pending == [s.main.pending[0]] + s.main.pending[1..];
    }
  }

  lemma {:induction false} RunConserves<T>(limit: Limit, before: Server<T>, steps: seq<Step<T>>, after: Server<T>)
    requires Leads(limit, before, steps, after)
    ensures after.offered + Due(after) <= before.offered + Due(before) + Translated(steps)
    ensures after.main.Relaying? ==> after.offered + Due(after) == before.offered + Due(before) + Translated(steps)
    ensures !before.main.Relaying? ==> !after.main.Relaying? && after.offered == before.offered && Translated(steps) == []
    decreases |steps|
  {
    if steps != [] {
      var next := Next(limit, before, steps[0]);
      var arrived := if steps[0].MainEvent? then steps[0].envelopes else [];
      StepConserves(limit, before, steps[0]);
      RunConserves(limit, next, steps[1..], after);
      Chained(before.offered + Due(before), arrived, Translated(steps[1..]), next.offered + Due(next), after.offered + Due(after));
    }
  }

  /** Prefixes in two steps, of which the first is an equation or the second adds nothing. */
  lemma Chained<T>(before: seq<T>, arrived: seq<T>, later: seq<T>, next: seq<T>, after: seq<T>)
    requires next <= before + arrived && after <= next + later && (next == before + arrived || later == [])
    ensures after <= before + (arrived + later)
    ensures next == before + arrived && after == next + later ==> after == before + (arrived + later)
  {
    assert before + (arrived + later) == (before + arrived) + later;
    if later == [] { assert next + later == next && (before + arrived) + later == before + arrived; }
  }

  /** Nothing is invented, dropped or reordered on the way to the channel: what has been offered is the
      beginning of the translations that arrived, and together with what is due it is all of them as long
      as the loop runs. */
  lemma OfferedIsTranslated<T>(limit: Limit, steps: seq<Step<T>>, s: Server<T>)
    requires Reached(limit, steps, s)
    ensures s.offered <= Translated(steps)
    ensures s.main.Relaying? ==> s.offered + s.main.pending == Translated(steps)
  {
    RunConserves(limit, START(), steps, s);
    assert START<T>().offered + Due(START<T>()) + Translated(steps) == Translated(steps);
  }

  /** How far a handler has fallen behind. */
  function Backlog<T>(s: Server<T>, i: nat): int
    requires i < |s.handlers|
  {
    |s.log| - s.handlers[i].cursor
  }

  lemma JumpMove<T>(h: Handler<T>, channel: Channel<T>, shutdown: bool, move: Move)
    requires CanMove(h, channel, shutdown, move)
    ensures Moved(h, channel, shutdown, move).jumps == if move.Lag? then h.jumps + [Jump(h.cursor, channel.base)] else h.jumps
  {
  }

  lemma JumpStep<T>(limit: Limit, s: Server<T>, step: Step<T>, i: nat)
    requires Enabled(s, step) && i < |Next(limit, s, step).handlers|
    ensures |s.handlers| <= |Next(limit, s, step).handlers|
    ensures Next(limit, s, step).handlers[i].jumps ==
            if i >= |s.handlers| then []
            else if step == Client(i, Lag) then s.handlers[i].jumps + [Jump(s.handlers[i].cursor, s.channel.base)]
            else s.handlers[i].jumps
  {
    if i < |s.handlers| && step.Client? {
      JumpMove(s.handlers[step.i], s.channel, s.shutdown, step.move);
    }
  }

  lemma {:induction false} JumpsStay<T>(limit: Limit, before: Server<T>, steps: seq<Step<T>>, after: Server<T>, i: nat)
    requires Leads(limit, before, steps, after) && i < |before.handlers|
    ensures i < |after.handlers| && before.handlers[i].jumps <= after.handlers[i].jumps
    decreases |steps|
  {
    if steps != [] {
      var next := Next(limit, before, steps[0]);
      HandlersStay(limit, before, steps[0]);
      JumpStep(limit, before, steps[0], i);
      JumpsStay(limit, next, steps[1..], after, i);
    }
  }

  lemma HandlersStay<T>(limit: Limit, s: Server<T>, step: Step<T>)
    requires Enabled(s, step)
    ensures |s.handlers| <= |Next(limit, s, step).handlers|
  {
  }

  lemma LeadsLater<T>(limit: Limit, before: Server<T>, steps: seq<Step<T>>, k: nat, s: Server<T>)
    requires k < |steps| && Enabled(before, steps[0]) && Leads(limit, Next(limit, before, steps[0]), steps[1..][..k], s)
    ensures Leads(limit, before, steps[..k + 1], s)
  {
    var first := steps[..k + 1];
    assert first[0] == steps[0] && first[1..] == steps[1..][..k];
  }

  /** `steps[k]` is the step, taken in state `m`, at which the handler lags and its cursor makes the jump. */
  ghost predicate LagsAt<T>(limit: Limit, before: Server<T>, steps: seq<Step<T>>, i: nat, k: nat, m: Server<T>, jump: Jump) {
    k < |steps| && steps[k] == Client(i, Lag) && Leads(limit, before, steps[..k], m) &&
    i < |m.handlers| && jump == Jump(m.handlers[i].cursor, m.channel.base) && Backlog(m, i) > CAPACITY
  }

  /** Somewhere in the run from the start the handler lags and makes the jump. */
  ghost predicate Lagged<T(!new)>(limit: Limit, steps: seq<Step<T>>, i: nat, jump: Jump) {
    exists k: nat, m: Server<T> :: LagsAt(limit, START(), steps, i, k, m, jump)
  }

  /** Every jump is made by one lag step, at which the client is more than `CAPACITY` payloads behind; the
      `j`-th jump by the one before which there were `j`. */
  lemma {:induction false} LagNeedsBacklog<T>(limit: Limit, before: Server<T>, steps: seq<Step<T>>, after: Server<T>, i: nat, j: nat)
    returns (k: nat, m: Server<T>)
    requires Inv(limit, before) && Leads(limit, before, steps, after)
    requires i < |after.handlers| && j < |after.handlers[i].jumps|
    requires i < |before.handlers| ==> |before.handlers[i].jumps| <= j
    ensures LagsAt(limit, before, steps, i, k, m, after.handlers[i].jumps[j]) && |m.handlers[i].jumps| == j
    decreases |steps|
  {
    var next := Next(limit, before, steps[0]);
    StepKeeps(limit, before, steps[0]);
    if i < |next.handlers| && j < |next.handlers[i].jumps| {
      JumpsStay(limit, next, steps[1..], after, i);
      LagsFirst(limit, before, steps, i, j);
      k, m := 0, before;
    } else {
      k, m := LagNeedsBacklog(limit, next, steps[1..], after, i, j);
      LagsLater(limit, before, steps, i, k, m, after.handlers[i].jumps[j]);
      k := k + 1;
    }
  }

  lemma LagsFirst<T>(limit: Limit, before: Server<T>, steps: seq<Step<T>>, i: nat, j: nat)
    requires Inv(limit, before) && steps != [] && Enabled(before, steps[0])
    requires var next := Next(limit, before, steps[0]); i < |next.handlers| && j < |next.handlers[i].jumps|
    requires i < |before.handlers| ==> |before.handlers[i].jumps| <= j
    ensures LagsAt(limit, before, steps, i, 0, before, Next(limit, before, steps[0]).handlers[i].jumps[j])
    ensures |before.handlers[i].jumps| == j
  {
    JumpStep(limit, before, steps[0], i);
    assert steps[..0] == [];
  }

  lemma LagsLater<T>(limit: Limit, before: Server<T>, steps: seq<Step<T>>, i: nat, k: nat, m: Server<T>, jump: Jump)
    requires steps != [] && Enabled(before, steps[0]) && LagsAt(limit, Next(limit, before, steps[0]), steps[1..], i, k, m, jump)
    ensures LagsAt(limit, before, steps, i, k + 1, m, jump)
  {
    LeadsLater(limit, before, steps, k, m);
  }

  /** Gaps are lags and nothing else: the positions of what a client has been sent are those its cursor has
      come by, which are consecutive but for the jumps, and at most the last of them is missing, when the
      client has left. */
  lemma GapsAreLags<T(!new)>(limit: Limit, steps: seq<Step<T>>, s: Server<T>, i: nat)
    requires Reached(limit, steps, s) && i < |s.handlers|
    ensures var h := s.handlers[i]; var course := Course(h.subscribed, h.jumps, h.cursor);
            Forward(h.subscribed, h.jumps, h.cursor) && h.at <= course && |course| <= |h.at| + 1 &&
            (h.phase.Serving? ==> h.at == course)
    ensures forall jump | jump in s.handlers[i].jumps :: Lagged(limit, steps, i, jump)
  {
    StartHolds<T>(limit);
    RunKeeps(limit, START(), steps, s);
    assert Delivers(s.handlers[i], s.log, s.offered);
    forall jump | jump in s.handlers[i].jumps ensures Lagged(limit, steps, i, jump) {
      var j :| 0 <= j < |s.handlers[i].jumps| && s.handlers[i].jumps[j] == jump;
      var k, m := LagNeedsBacklog(limit, START(), steps, s, i, j);
    }
  }

  /** So a client is sent an unbroken run of payloads, unless at some step of the run it lagged, being more
      than 1024 payloads behind. */
  lemma GapsNeedBacklog<T(!new)>(limit: Limit, steps: seq<Step<T>>, s: Server<T>, i: nat)
    requires Reached(limit, steps, s) && i < |s.handlers|
    ensures var h := s.handlers[i];
            (h.offeredBefore + |h.got| <= |s.offered| && h.got == s.offered[h.offeredBefore..][..|h.got|]) ||
            exists jump :: Lagged(limit, steps, i, jump)
  {
    ClientGetsInOrder(limit, steps, s, i);
    StartHolds<T>(limit);
    if s.handlers[i].jumps != [] {
      var k, m := LagNeedsBacklog(limit, START(), steps, s, i, 0);
      assert Lagged(limit, steps, i, s.handlers[i].jumps[0]);
    }
  }

  // ---- Why things stop ----

  /** The loop has relayed exactly what it may. */
  predicate AtLimit(limit: Limit, relayed: nat) {
    limit.Some? && relayed == if limit.value > 1 then limit.value else 1
  }

  lemma StopStep<T>(limit: Limit, s: Server<T>, step: Step<T>)
    requires Inv(limit, s) && Enabled(s, step) && !step.MainSignal? && !step.MainFail?
    requires s.main.Relaying? || AtLimit(limit, s.relayed)
    ensures var next := Next(limit, s, step); next.main.Relaying? || AtLimit(limit, next.relayed)
  {
  }

  lemma {:induction false} StopRun<T>(limit: Limit, before: Server<T>, steps: seq<Step<T>>, after: Server<T>)
    requires Inv(limit, before) && Leads(limit, before, steps, after)
    requires forall step | step in steps :: !step.MainSignal? && !step.MainFail?
    requires before.main.Relaying? || AtLimit(limit, before.relayed)
    ensures after.main.Relaying? || AtLimit(limit, after.relayed)
    decreases |steps|
  {
    if steps != [] {
      assert steps[0] in steps;
      StopStep(limit, before, steps[0]);
      StepKeeps(limit, before, steps[0]);
      StopRun(limit, Next(limit, before, steps[0]), steps[1..], after);
    }
  }

  /** The relay loop goes on until it has relayed exactly the limit, or a signal arrives, or a translation or a
      reconnect fails; without a limit only those end it. While it goes on it is below the limit. */
  lemma StopsAtLimit<T>(limit: Limit, steps: seq<Step<T>>, s: Server<T>)
    requires Reached(limit, steps, s)
    ensures !s.main.Relaying? && (forall step | step in steps :: !step.MainSignal? && !step.MainFail?) ==> AtLimit(limit, s.relayed)
    ensures s.main.Relaying? && limit.Some? ==> s.relayed == 0 || s.relayed < limit.value
  {
    StartHolds<T>(limit);
    RunKeeps(limit, START(), steps, s);
    if forall step | step in steps :: !step.MainSignal? && !step.MainFail? {
      StopRun(limit, START(), steps, s);
    }
  }

  lemma {:induction false} StaysStopped<T>(limit: Limit, before: Server<T>, steps: seq<Step<T>>, after: Server<T>)
    requires Leads(limit, before, steps, after) && !before.main.Relaying? && before.shutdown
    ensures !after.main.Relaying? && after.shutdown && after.offered == before.offered && after.relayed == before.relayed
    decreases |steps|
  {
    if steps != [] { StaysStopped(limit, Next(limit, before, steps[0]), steps[1..], after); }
  }

  /** A signal or a failure does end it: shutdown begins, and nothing more is relayed. */
  lemma NothingAfterSignal<T>(limit: Limit, before: Server<T>, step: Step<T>, steps: seq<Step<T>>, after: Server<T>)
    requires Enabled(before, step) && (step.MainSignal? || step.MainFail?) && Leads(limit, Next(limit, before, step), steps, after)
    ensures !after.main.Relaying? && after.shutdown && after.offered == before.offered
  {
    StaysStopped(limit, Next(limit, before, step), steps, after);
  }

  /** A step that ends a client for a reason of its own. */
  predicate EndsClient<T>(step: Step<T>, i: nat) {
    step.Client? && step.i == i && (step.move.HandshakeFailed? || step.move.SendFailed? || step.move.Hangup?)
  }

  lemma EndStep<T>(limit: Limit, s: Server<T>, step: Step<T>, i: nat)
    requires Enabled(s, step) && i < |Next(limit, s, step).handlers| && !EndsClient(step, i)
    ensures var next := Next(limit, s, step);
            (s.shutdown ==> next.shutdown) && (!next.accepting ==> s.shutdown || !s.accepting) &&
            (next.handlers[i].phase.Closing? || next.handlers[i].phase.Gone? ==>
               s.shutdown || (i < |s.handlers| && (s.handlers[i].phase.Closing? || s.handlers[i].phase.Gone?)))
  {
  }

  lemma {:induction false} EndRun<T>(limit: Limit, before: Server<T>, steps: seq<Step<T>>, after: Server<T>, i: nat)
    requires Leads(limit, before, steps, after) && i < |after.handlers|
    requires forall step | step in steps :: !EndsClient(step, i)
    requires i < |before.handlers| && (before.handlers[i].phase.Closing? || before.handlers[i].phase.Gone?) ==> before.shutdown
    ensures after.handlers[i].phase.Closing? || after.handlers[i].phase.Gone? ==> after.shutdown
    decreases |steps|
  {
    if steps != [] {
      assert steps[0] in steps;
      var next := Next(limit, before, steps[0]);
      if i < |next.handlers| { EndStep(limit, before, steps[0], i); }
      EndRun(limit, next, steps[1..], after, i);
    }
  }

  /** A client is let go only after its own handshake or connection has failed or been closed, or after shutdown
      has begun. */
  lemma ClientsAreKept<T>(limit: Limit, steps: seq<Step<T>>, s: Server<T>, i: nat)
    requires Reached(limit, steps, s) && i < |s.handlers|
    requires forall step | step in steps :: !EndsClient(step, i)
    ensures s.handlers[i].phase.Closing? || s.handlers[i].phase.Gone? ==> s.shutdown
  {
    EndRun(limit, START(), steps, s, i);
  }

  /** A step after which the handler of client `i` is done with it. */
  predicate LetsGo<T>(step: Step<T>, i: nat) { EndsClient(step, i) || (step.Client? && step.i == i && step.move.Stop?) }

  predicate Over(p: Phase) { p.Closing? || p.Gone? }

  lemma OverStep<T>(limit: Limit, s: Server<T>, step: Step<T>, i: nat)
    requires Enabled(s, step) && i < |s.handlers|
    ensures var next := Next(limit, s, step);
            i < |next.handlers| &&
            (LetsGo(step, i) ==> Over(next.handlers[i].phase)) &&
            (Over(s.handlers[i].phase) ==> Over(next.handlers[i].phase) && next.handlers[i].got == s.handlers[i].got)
  {
    if step.Client? && step.i == i { OverMove(s.handlers[i], s.channel, s.shutdown, step.move); }
  }

  lemma OverMove<T>(h: Handler<T>, channel: Channel<T>, shutdown: bool, move: Move)
    requires CanMove(h, channel, shutdown, move)
    ensures var moved := Moved(h, channel, shutdown, move);
            (move.HandshakeFailed? || move.SendFailed? || move.Hangup? || move.Stop? ==> Over(moved.phase)) &&
            (Over(h.phase) ==> Over(moved.phase) && moved.got == h.got)
  {
  }

  lemma {:induction false} OverRun<T>(limit: Limit, before: Server<T>, steps: seq<Step<T>>, after: Server<T>, i: nat)
    requires Leads(limit, before, steps, after) && i < |before.handlers| && Over(before.handlers[i].phase)
    ensures i < |after.handlers| && Over(after.handlers[i].phase) && after.handlers[i].got == before.handlers[i].got
    decreases |steps|
  {
    if steps != [] {
      OverStep(limit, before, steps[0], i);
      OverRun(limit, Next(limit, before, steps[0]), steps[1..], after, i);
    }
  }

  /** And once its connection has failed or been closed, or its handler has seen the shutdown, it is sent nothing
      more. */
  lemma NothingAfterTheEnd<T>(limit: Limit, before: Server<T>, step: Step<T>, steps: seq<Step<T>>, after: Server<T>, i: nat)
    requires Enabled(before, step) && LetsGo(step, i) && Leads(limit, Next(limit, before, step), steps, after)
    ensures i < |after.handlers| && Over(after.handlers[i].phase)
    ensures after.handlers[i].got == Next(limit, before, step).handlers[i].got == before.handlers[i].got
  {
    OverStep(limit, before, step, i);
    LastMove(before.handlers[i], before.channel, before.shutdown, step.move);
    OverRun(limit, Next(limit, before, step), steps, after, i);
  }

  lemma LastMove<T>(h: Handler<T>, channel: Channel<T>, shutdown: bool, move: Move)
    requires CanMove(h, channel, shutdown, move) && !move.SendDone?
    ensures Moved(h, channel, shutdown, move).got == h.got
  {
  }

  /** What every step keeps of the order of shutdown. */
  ghost predicate InTurn<T>(s: Server<T>, failed: bool) {
    (!s.accepting ==> s.shutdown) && (s.main.Finished? && !failed ==> !s.accepting)
  }

  lemma {:induction false} TurnRun<T>(limit: Limit, before: Server<T>, steps: seq<Step<T>>, after: Server<T>, failed: bool)
    requires Leads(limit, before, steps, after) && InTurn(before, failed) && (MainFail in steps ==> failed)
    ensures InTurn(after, failed)
    decreases |steps|
  {
    if steps != [] {
      assert steps[0] in steps;
      TurnRun(limit, Next(limit, before, steps[0]), steps[1..], after, failed);
    }
  }

  /** The accept loop goes on until shutdown has begun, and the relay loop waits for it, unless a failure has
      cut it short. */
  lemma AcceptsUntilShutdown<T>(limit: Limit, steps: seq<Step<T>>, s: Server<T>)
    requires Reached(limit, steps, s)
    ensures !s.accepting ==> s.shutdown
    ensures s.main.Finished? && MainFail !in steps ==> !s.accepting
  {
    TurnRun(limit, START(), steps, s, MainFail in steps);
  }

  // ---- Shutdown ----

  lemma {:induction false} LeadsOn<T>(limit: Limit, a: Server<T>, first: seq<Step<T>>, b: Server<T>, more: seq<Step<T>>, c: Server<T>)
    requires Leads(limit, a, first, b) && Leads(limit, b, more, c)
    ensures Leads(limit, a, first + more, c)
    decreases |first|
  {
    if first == [] {
      assert first + more == more;
    } else {
      assert (first + more)[1..] == first[1..] + more;
      LeadsOn(limit, Next(limit, a, first[0]), first[1..], b, more, c);
    }
  }

  /** A handler can always finish on its own once the flag is up. */
  lemma HandlerCanLeave<T>(limit: Limit, s: Server<T>, i: nat) returns (steps: seq<Step<T>>, after: Server<T>)
    requires s.shutdown && i < |s.handlers|
    ensures Leads(limit, s, steps, after) && after.shutdown && after.accepting == s.accepting && after.main == s.main
    ensures |after.handlers| == |s.handlers| && after.handlers[i].phase.Gone?
    ensures forall k | 0 <= k < |s.handlers| && k != i :: after.handlers[k] == s.handlers[k]
  {
    match s.handlers[i].phase
    case Gone => steps, after := [], s;
    case Handshaking =>
      after := Next(limit, s, Client(i, HandshakeFailed));
      steps := [Client(i, HandshakeFailed)];
    case Closing =>
      after := Next(limit, s, Client(i, Leave));
      steps := [Client(i, Leave)];
    case Serving =>
      var s1 := Next(limit, s, Client(i, Stop));
      after := Next(limit, s1, Client(i, Leave));
      steps := [Client(i, Stop), Client(i, Leave)];
      assert steps[1..] == [Client(i, Leave)] && steps[1..][1..] == [];
    case Sending(_) =>
      var s1 := Next(limit, s, Client(i, SendFailed));
      after := Next(limit, s1, Client(i, Leave));
      steps := [Client(i, SendFailed), Client(i, Leave)];
      assert steps[1..] == [Client(i, Leave)] && steps[1..][1..] == [];
  }

  lemma {:induction false} HandlersCanLeave<T>(limit: Limit, s: Server<T>, n: nat) returns (steps: seq<Step<T>>, after: Server<T>)
    requires s.shutdown && n <= |s.handlers|
    ensures Leads(limit, s, steps, after) && after.shutdown && after.accepting == s.accepting && after.main == s.main
    ensures |after.handlers| == |s.handlers| && forall k | 0 <= k < n :: after.handlers[k].phase.Gone?
    decreases n
  {
    if n == 0 {
      steps, after := [], s;
    } else {
      var first, mid := HandlersCanLeave(limit, s, n - 1);
      var last;
      last, after := HandlerCanLeave(limit, mid, n - 1);
      LeadsOn(limit, s, first, mid, last, after);
      steps := first + last;
    }
  }

  /** Shutdown is never stuck: from every reachable state with the flag up the server can come to an end,
      with all handlers gone, the accept loop over, the relay loop finished and the counter at 0. */
  lemma ShutdownCanFinish<T>(limit: Limit, steps: seq<Step<T>>, s: Server<T>) returns (more: seq<Step<T>>, end: Server<T>)
    requires Reached(limit, steps, s) && s.shutdown && !s.main.Relaying?
    ensures Leads(limit, s, more, end)
    ensures end.main.Finished? && !end.accepting && !Subscribed(end.handlers) && end.clientCount == 0
  {
    var s1, first := s, [];
    if s.accepting {
      s1 := Next(limit, s, AcceptStop);
      first := [AcceptStop];
    }
    var s2, second := s1, [];
    if s1.main.Joining? {
      s2 := Next(limit, s1, MainJoin);
      second := [MainJoin];
    }
    assert Leads(limit, s1, second, s2);
    assert Leads(limit, s, first, s1);
    var third;
    third, end := HandlersCanLeave(limit, s2, |s2.handlers|);
    LeadsOn(limit, s, first, s1, second, s2);
    LeadsOn(limit, s, first + second, s2, third, end);
    more := first + second + third;
    LeadsOn(limit, START(), steps, s, more, end);
    ClientCountIsExact(limit, steps + more, end, 0);
  }
}
