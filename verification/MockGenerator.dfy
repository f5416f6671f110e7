/** The generator object of src/bin/mock_broadcast.rs, proved to do what `MockMatch` says of a tick. */
module MockGenerator {
  import opened Xorshift
  import opened MockMatch

  /** The parts of an update that no other part depends on. */
  datatype Scenery = Scenery(isReplay: bool, ball: Location, ballSpeed: nat, ballTeam: nat)

  predicate PlausibleScenery(s: Scenery) { InArena(s.ball, 94.0) && 200 <= s.ballSpeed <= 2400 && s.ballTeam <= 1 }

  datatype Payload = Payload(matchGuid: string, update: Update, scenery: Scenery)

  const CLOCK_MAX := 300

  class UpdateStateRandomizer {
    var rngState: bv64
    var tick: nat
    var remainingSeconds: int
    var blueScore: nat
    var orangeScore: nat
    const matchGuid: string
    const players: seq<MockPlayer>
    const playerIdentityById: map<string, MockPlayer>
    var seenPlayerIds: set<string>
    var lastPlayerPayloadById: Players

    ghost predicate Valid() {
      players == PLAYERS && playerIdentityById.Keys == IDS &&
      forall i | 0 <= i < |PLAYERS| :: playerIdentityById[PLAYERS[i].id] == PLAYERS[i]
    }

    ghost function Model(): Match
      reads this
    {
      Match(remainingSeconds, blueScore, orangeScore, seenPlayerIds, lastPlayerPayloadById)
    }

    constructor (seed: bv64, matchGuid: string)
      ensures Valid() && Model() == START && rngState == seed && tick == 0 && this.matchGuid == matchGuid
    {
      rngState := seed;
      tick := 0;
      remainingSeconds := CLOCK_MAX;
      blueScore, orangeScore := 0, 0;
      this.matchGuid := matchGuid;
      players := PLAYERS;
      playerIdentityById := Identities();
      seenPlayerIds := {};
      lastPlayerPayloadById := map[];
      new;
      IdentitiesById();
    }

    method NextU64() returns (r: nat)
      modifies `rngState
      ensures rngState == Step(old(rngState)) && r == Output(rngState)
    {
      rngState := Step(rngState);
      r := Output(rngState);
    }

    /** The span `max - min + 1` is computed in 64 bits, so it must not be all of them. */
    method RangeU64(min: nat, max: nat) returns (r: nat)
      requires min <= max <= U64_MAX && max - min < U64_MAX
      modifies `rngState
      ensures min <= r <= max
      ensures min < max ==> r == min + Output(rngState) % (max - min + 1)
      ensures rngState == if min == max then old(rngState) else Step(old(rngState))
    {
      if min == max { return min; }
      var x := NextU64();
      r := min + x % (max - min + 1);
    }

    method RangeI64(min: int, max: int) returns (r: int)
      requires -0x8000_0000_0000_0000 <= min <= max < 0x8000_0000_0000_0000 && max - min < 0x7FFF_FFFF_FFFF_FFFF
      modifies `rngState
      ensures min <= r <= max
      ensures min < max ==> r == min + Output(rngState) % (max - min + 1)
      ensures rngState == if min == max then old(rngState) else Step(old(rngState))
    {
      if min == max { return min; }
      var x := NextU64();
      r := min + x % (max - min + 1);
    }

    method Chance(numerator: nat, denominator: nat) returns (r: bool)
      modifies `rngState
      ensures denominator == 0 ==> !r && rngState == old(rngState)
      ensures denominator > 0 ==>
                rngState == Step(old(rngState)) && (r <==> Output(rngState) % denominator < numerator)
      ensures 0 < denominator <= numerator ==> r
      ensures numerator == 0 ==> !r
    {
      if denominator == 0 { return false; }
      var x := NextU64();
      r := x % denominator < numerator;
    }

    method ActiveIds(start: nat, count: nat) returns (active: seq<string>)
      requires Valid()
      ensures active == Window(start, count)
    {
      active := [];
      for offset := 0 to count
        invariant active == Window(start, offset)
      {
        var idx := (start + offset) % |players|;
        active := active + [players[idx].id];
      }
    }

    /** A place of `count` other than `index`: the one drawn, or the next one around. */
    method DrawOther(count: nat, index: nat) returns (idx: nat)
      requires index < count <= |PLAYERS| && count > 1
      modifies `rngState
      ensures idx < count && idx != index
    {
      idx := RangeU64(0, count - 1);
      if idx == index { idx := (idx + 1) % count; }
    }

    method ChooseAttacker(active: seq<string>, index: nat, ghost start: nat) returns (attacker: string)
      requires Valid() && |active| <= |PLAYERS| && index < |active| && active == Window(start, |active|)
      modifies `rngState
      ensures AttackedBy(attacker, active[index], Members(active))
    {
      attacker := "";
      if |active| > 1 {
        var attacked := Chance(1, 4);
        if attacked {
          var idx := DrawOther(|active|, index);
          OtherIsActive(start, |active|, index, idx);
          attacker := playerIdentityById[active[idx]].name;
        }
      }
    }

    method RandomLocation(lowest: int) returns (l: Location)
      requires 0 <= lowest <= 2044
      modifies `rngState
      ensures InArena(l, lowest as real)
    {
      var x := RangeI64(-4096, 4096);
      var y := RangeI64(-5120, 5120);
      var z := RangeI64(lowest, 2044);
      var pitch := RangeI64(-314, 314);
      var roll := RangeI64(-314, 314);
      var yaw := RangeI64(-314, 314);
      l := Location(x as real, y as real, z as real, pitch as real / 100.0, roll as real / 100.0, yaw as real / 100.0);
    }

    method RandomPayload(identity: MockPlayer, attacker: string) returns (p: PlayerPayload)
      modifies `rngState
      ensures ShowsPlayer(p, identity) && InRange(p) && p.attacker == attacker
    {
      var score := RangeU64(0, 900);
      var goals := RangeU64(0, 5);
      var shots := RangeU64(0, 8);
      var assists := RangeU64(0, 4);
      var saves := RangeU64(0, 6);
      var touches := RangeU64(0, 60);
      var carTouches := RangeU64(0, 45);
      var demos := RangeU64(0, 4);
      var boost := RangeU64(0, 100);
      var speed := RangeU64(600, 2300);
      var isSonic := Chance(1, 5);
      var isPowersliding := Chance(1, 4);
      var isDead := Chance(1, 20);
      var onGround := Chance(3, 4);
      var onWall := Chance(1, 3);
      var location := RandomLocation(17);
      p := PlayerPayload(identity.name, identity.id, identity.primaryId, identity.team, score, goals, shots, assists, saves,
                         touches, carTouches, demos, boost, speed, isSonic, isPowersliding, isDead,
                         attacker, identity.shortcut, onGround, onWall, location);
    }

    method PlayOne(active: seq<string>, index: nat, ghost start: nat) returns (payload: PlayerPayload)
      requires Valid() && |active| <= |PLAYERS| && index < |active| && active == Window(start, |active|)
      modifies `rngState
      ensures GoodPayload(active[index], payload, Members(active))
    {
      var attacker := ChooseAttacker(active, index, start);
      assert PLAYERS[(start + index) % |PLAYERS|].id == active[index];
      payload := RandomPayload(playerIdentityById[active[index]], attacker);
    }

    /** Draws the payloads of the active players and records them. */
    method PlayActive(active: seq<string>, ghost start: nat) returns (payloads: Players)
      requires Valid() && |active| <= |PLAYERS| && active == Window(start, |active|)
      modifies `rngState, `seenPlayerIds, `lastPlayerPayloadById
      ensures payloads.Keys == Members(active)
      ensures GoodPayloads(payloads, Members(active))
      ensures seenPlayerIds == old(seenPlayerIds) + payloads.Keys
      ensures lastPlayerPayloadById == old(lastPlayerPayloadById) + payloads
    {
      payloads := map[];
      var index := 0;
      while index < |active|
        invariant index <= |active|
        invariant payloads.Keys == Members(active[..index])
        invariant GoodPayloads(payloads, Members(active))
        invariant seenPlayerIds == old(seenPlayerIds) + payloads.Keys
        invariant lastPlayerPayloadById == old(lastPlayerPayloadById) + payloads
      {
        var playerId := active[index];
        var payload := PlayOne(active, index, start);
        GoodPayloadsPush(payloads, Members(active), playerId, payload);
        Record(old(lastPlayerPayloadById), payloads, playerId, payload);
        WindowPrefix(active, index);
        seenPlayerIds := seenPlayerIds + {playerId};
        lastPlayerPayloadById := lastPlayerPayloadById[playerId := payload];
        payloads := payloads[playerId := payload];
        index := index + 1;
      }
      assert active[..index] == active;
    }

    /** The players of the update, in the order of the pool: of each one seen the active payload, or else
        the last one. */
    method PlayerMap(active: Players) returns (playerMap: Players)
      requires Valid()
      ensures playerMap == Shown(seenPlayerIds, active, lastPlayerPayloadById)
    {
      playerMap := map[];
      var i := 0;
      while i < |players|
        invariant i <= |players|
        invariant forall id | id in playerMap :: id in IDS && id in seenPlayerIds && (id in active || id in lastPlayerPayloadById)
        invariant forall id | id in playerMap :: playerMap[id] == if id in active then active[id] else lastPlayerPayloadById[id]
        invariant forall k | 0 <= k < i && players[k].id in seenPlayerIds :: 
                    players[k].id in active || players[k].id in lastPlayerPayloadById ==> players[k].id in playerMap
      {
        var playerId := players[i].id;
        if playerId in seenPlayerIds {
          if playerId in active {
            playerMap := playerMap[playerId := active[playerId]];
          } else if playerId in lastPlayerPayloadById {
            playerMap := playerMap[playerId := lastPlayerPayloadById[playerId]];
          }
        }
        i := i + 1;
      }
    }

    /** Runs the clock down, with a new match below 0, and lets the teams score. */
    method AdvanceClock() returns (drain: int, blueScores: bool, orangeScores: bool)
      modifies `rngState, `remainingSeconds, `blueScore, `orangeScore
      ensures 1 <= drain <= 3
      ensures var reset := old(remainingSeconds) - drain < 0;
              remainingSeconds == (if reset then CLOCK_MAX else old(remainingSeconds) - drain) &&
              blueScore == Kept(if reset then 0 else old(blueScore), blueScores) &&
              orangeScore == Kept(if reset then 0 else old(orangeScore), orangeScores)
    {
      drain := RangeI64(1, 3);
      remainingSeconds := remainingSeconds - drain;
      if remainingSeconds < 0 {
        remainingSeconds := CLOCK_MAX;
        blueScore := 0;
        orangeScore := 0;
      }
      blueScores := Chance(1, 14);
      if blueScores { blueScore := SaturatingAdd(blueScore, 1); }
      orangeScores := Chance(1, 14);
      if orangeScores { orangeScore := SaturatingAdd(orangeScore, 1); }
    }

    method RandomScenery() returns (s: Scenery)
      modifies `rngState
      ensures PlausibleScenery(s)
    {
      var isReplay := Chance(1, 10);
      var ball := RandomLocation(94);
      var ballSpeed := RangeU64(200, 2400);
      var ballTeam := RangeU64(0, 1);
      s := Scenery(isReplay, ball, ballSpeed, ballTeam);
    }

    /** How many players are active, and from which one on. */
    method DrawWindow() returns (start: nat, count: nat)
      requires Valid()
      modifies `rngState
      ensures 2 <= count <= |PLAYERS| && start < |PLAYERS|
    {
      assert |players| == 6;
      count := RangeU64(2, 6);
      start := RangeU64(0, |players| - 1);
    }

    /** One update is one tick of the match for some draws. */
    method NextUpdateStatePayload() returns (payload: Payload, ghost d: Draws)
      requires Valid()
      modifies this
      ensures GoodDraws(d) && (Model(), payload.update) == Tick(old(Model()), d)
      ensures PlausibleScenery(payload.scenery)
      ensures payload.matchGuid == matchGuid && tick == SaturatingAdd(old(tick), 1)
    {
      tick := SaturatingAdd(tick, 1);
      var drain, blueScores, orangeScores := AdvanceClock();
      var start, count := DrawWindow();
      var active := ActiveIds(start, count);
      var payloads := PlayActive(active, start);
      d := Draws(drain, blueScores, orangeScores, start, count, payloads);
      var playerMap := PlayerMap(payloads);

      var hasWinner := remainingSeconds == 0 && blueScore != orangeScore;
      var winner := if hasWinner then if blueScore > orangeScore then "Blue" else "Orange" else "";
      var isOvertime := remainingSeconds == 0 && blueScore == orangeScore;
      var update := Update(remainingSeconds, isOvertime, hasWinner, winner, blueScore, orangeScore, playerMap);
      var scenery := RandomScenery();
      payload := Payload(matchGuid, update, scenery);
    }
  }

  lemma Record(last: Players, payloads: Players, id: string, p: PlayerPayload)
    ensures (last + payloads)[id := p] == last + payloads[id := p]
    ensures payloads[id := p].Keys == payloads.Keys + {id}
  {
  }

  lemma WindowPrefix(active: seq<string>, index: nat)
    requires index < |active|
    ensures Members(active[..index + 1]) == Members(active[..index]) + {active[index]}
  {
    MembersPush(active[..index], active[index]);
    assert active[..index] + [active[index]] == active[..index + 1];
  }

  function Kept(score: nat, scores: bool): nat { if scores then SaturatingAdd(score, 1) else score }

  /** Another place in the window is another player. */
  lemma OtherIsActive(start: nat, count: nat, index: nat, idx: nat)
    requires index < count <= |PLAYERS| && idx < count && idx != index
    ensures var w, k := Window(start, count), (start + idx) % |PLAYERS|;
            PLAYERS[k].id == w[idx] && w[idx] in IDS && AttackedBy(PLAYERS[k].name, w[index], Members(w))
  {
    WindowIsDistinct(start, count, if idx < index then idx else index, if idx < index then index else idx);
    var w := Window(start, count);
    assert w[idx] in Members(w);
  }

  function Identities(): map<string, MockPlayer> {
    var p := PLAYERS;
    map[p[0].id := p[0], p[1].id := p[1], p[2].id := p[2], p[3].id := p[3], p[4].id := p[4], p[5].id := p[5]]
  }

  lemma IdentitiesById()
    ensures Identities().Keys == IDS
    ensures forall i | 0 <= i < |PLAYERS| :: Identities()[PLAYERS[i].id] == PLAYERS[i]
  {
    var p := PLAYERS;
    assert IDS == {p[0].id, p[1].id, p[2].id, p[3].id, p[4].id, p[5].id};
    forall i, j | 0 <= i < j < |PLAYERS| ensures p[i].id != p[j].id { PlayersDiffer(i, j); }
  }

  /** A run of the generator: from any seed, `n` updates one after the other are the updates of some run
      of ticks, so that everything shown of runs holds of them. */
  method Generate(seed: bv64, matchGuid: string, n: nat) returns (updates: seq<Update>, ghost run: Run)
    ensures |updates| == |run| == n && GoodRun(run)
    ensures forall i | 0 <= i < n :: updates[i] == Sent(run, i)
  {
    var g := new UpdateStateRandomizer(seed, matchGuid);
    updates, run := [], [];
    while |updates| < n
      invariant g.Valid() && fresh(g)
      invariant |updates| == |run| <= n && GoodRun(run)
      invariant g.Model() == After(run, |run|)
      invariant forall i | 0 <= i < |run| :: updates[i] == Sent(run, i)
    {
      ghost var before := run;
      var payload, d := g.NextUpdateStatePayload();
      run := run + [d];
      updates := updates + [payload.update];
      forall k | 0 <= k <= |before| ensures After(run, k) == After(before, k) { PrefixAfter(before, d, k); }
    }
  }

  lemma {:induction false} PrefixAfter(run: Run, d: Draws, k: nat)
    requires k <= |run|
    ensures After(run + [d], k) == After(run, k)
  {
    if k > 0 { PrefixAfter(run, d, k - 1); }
  }
}
