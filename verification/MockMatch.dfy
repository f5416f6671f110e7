/** What the mock match of src/bin/mock_broadcast.rs does in a tick, and in a run of ticks, for any
    numbers it may draw. */
module MockMatch {
  // ---- Players ----

  datatype MockPlayer = MockPlayer(name: string, id: string, primaryId: string, shortcut: string, team: nat)

  const PLAYERS: seq<MockPlayer> := [
    MockPlayer("BlueStriker", "BlueStriker_1", "Steam|111|0", "BS", 0),
    MockPlayer("BlueMid", "BlueMid_3", "Steam|333|0", "BM", 0),
    MockPlayer("BlueKeeper", "BlueKeeper_6", "Steam|666|0", "BK", 0),
    MockPlayer("OrangeStriker", "OrangeStriker_2", "Epic|222|0", "OS", 1),
    MockPlayer("OrangeMid", "OrangeMid_4", "Epic|444|0", "OM", 1),
    MockPlayer("OrangeKeeper", "OrangeKeeper_5", "Epic|555|0", "OK", 1)
  ]

  const IDS: set<string> := set i | 0 <= i < |PLAYERS| :: PLAYERS[i].id

  /** Ids and names are told apart by their lengths. */
  lemma PlayersDiffer(i: nat, j: nat)
    requires i < |PLAYERS| && j < |PLAYERS| && i != j
    ensures PLAYERS[i].id != PLAYERS[j].id && PLAYERS[i].name != PLAYERS[j].name
  {
    assert |PLAYERS[0].id| == 13 && |PLAYERS[1].id| == 9 && |PLAYERS[2].id| == 12;
    assert |PLAYERS[3].id| == 15 && |PLAYERS[4].id| == 11 && |PLAYERS[5].id| == 14;
    assert forall k | 0 <= k < |PLAYERS| :: |PLAYERS[k].name| == |PLAYERS[k].id| - 2;
  }

  // ---- The active window ----

  /** `count` players from `start` on, around the end of the pool. */
  function Window(start: nat, count: nat): (w: seq<string>)
    ensures |w| == count
  {
    seq(count, k requires k >= 0 => PLAYERS[(start + k) % |PLAYERS|].id)
  }

  /** The players of a window are distinct, wherever it starts, as long as it is no longer than the pool. */
  lemma WindowIsDistinct(start: nat, count: nat, i: nat, j: nat)
    requires i < j < count <= |PLAYERS|
    ensures Window(start, count)[i] != Window(start, count)[j]
    ensures Window(start, count)[i] in IDS
  {
    assert |PLAYERS| == 6;
    PlayersDiffer((start + i) % |PLAYERS|, (start + j) % |PLAYERS|);
  }

  /** Hence a window of `count` players holds exactly `count` different ones. */
  lemma {:induction false} WindowSize(start: nat, count: nat)
    requires count <= |PLAYERS|
    ensures |Members(Window(start, count))| == count && Members(Window(start, count)) <= IDS
  {
    if count == 0 {
      assert Members(Window(start, 0)) == {};
    } else {
      var shorter, w := Window(start, count - 1), Window(start, count);
      var last := w[count - 1];
      WindowSize(start, count - 1);
      if last in shorter {
        var i :| 0 <= i < |shorter| && shorter[i] == last;
        assert w[i] == shorter[i];
        WindowIsDistinct(start, count, i, count - 1);
      }
      assert w == shorter + [last];
      MembersPush(shorter, last);
    }
  }

  function Members(w: seq<string>): set<string> { set id | id in w }

  lemma MembersPush(w: seq<string>, id: string)
    ensures Members(w + [id]) == Members(w) + {id}
  {
  }

  // ---- Payloads ----

  datatype Location = Location(x: real, y: real, z: real, pitch: real, roll: real, yaw: real)

  datatype PlayerPayload = PlayerPayload(
    name: string, id: string, primaryId: string, team: nat, score: nat, goals: nat, shots: nat, assists: nat, saves: nat,
    touches: nat, carTouches: nat, demos: nat, boost: nat, speed: nat, isSonic: bool, isPowersliding: bool, isDead: bool,
    attacker: string, shortcut: string, onGround: bool, onWall: bool, location: Location)

  /** The payload shows the player's own identity, which does not change from tick to tick. */
  predicate ShowsPlayer(p: PlayerPayload, player: MockPlayer) {
    p.name == player.name && p.id == player.id && p.primaryId == player.primaryId && p.team == player.team &&
    p.shortcut == player.shortcut
  }

  /** Inside the arena and no lower than `lowest`; angles are in radians, in hundredths. */
  predicate InArena(l: Location, lowest: real) {
    -4096.0 <= l.x <= 4096.0 && -5120.0 <= l.y <= 5120.0 && lowest <= l.z <= 2044.0 &&
    -3.14 <= l.pitch <= 3.14 && -3.14 <= l.roll <= 3.14 && -3.14 <= l.yaw <= 3.14
  }

  predicate InRange(p: PlayerPayload) {
    InArena(p.location, 17.0) && p.score <= 900 && p.goals <= 5 && p.shots <= 8 && p.assists <= 4 && p.saves <= 6 && p.touches <= 60 &&
    p.carTouches <= 45 && p.demos <= 4 && p.boost <= 100 && 600 <= p.speed <= 2300
  }

  /** Nobody, or another active player. */
  predicate AttackedBy(attacker: string, id: string, active: set<string>) {
    attacker == "" ||
    exists i | 0 <= i < |PLAYERS| :: PLAYERS[i].id in active && PLAYERS[i].id != id && PLAYERS[i].name == attacker
  }

  predicate GoodPayload(id: string, p: PlayerPayload, active: set<string>) {
    InRange(p) && AttackedBy(p.attacker, id, active) &&
    exists i | 0 <= i < |PLAYERS| :: PLAYERS[i].id == id && ShowsPlayer(p, PLAYERS[i])
  }

  type Players = map<string, PlayerPayload>

  predicate GoodPayloads(payloads: Players, active: set<string>) {
    forall id | id in payloads :: GoodPayload(id, payloads[id], active)
  }

  lemma GoodPayloadsPush(payloads: Players, active: set<string>, id: string, p: PlayerPayload)
    requires GoodPayloads(payloads, active) && GoodPayload(id, p, active)
    ensures GoodPayloads(payloads[id := p], active)
  {
  }

  // ---- One tick ----

  /** What a tick draws. `payloads` holds the new payloads of the active players. */
  datatype Draws = Draws(drain: int, blueScores: bool, orangeScores: bool, start: nat, count: nat, payloads: Players)

  predicate GoodDraws(d: Draws) {
    1 <= d.drain <= 3 && d.start < |PLAYERS| && 2 <= d.count <= |PLAYERS| &&
    d.payloads.Keys == Members(Window(d.start, d.count)) &&
    GoodPayloads(d.payloads, d.payloads.Keys)
  }

  datatype Match = Match(clock: int, blue: nat, orange: nat, seen: set<string>, last: Players)

  datatype Update = Update(time: int, isOvertime: bool, hasWinner: bool, winner: string, blue: nat, orange: nat, players: Players)

  const START := Match(300, 0, 0, {}, map[])

  const U64_MAX: nat := 0xFFFF_FFFF_FFFF_FFFF

  function SaturatingAdd(a: nat, b: nat): nat { if a + b <= U64_MAX then a + b else U64_MAX }

  predicate Resets(m: Match, d: Draws) { m.clock - d.drain < 0 }

  function Scored(m: Match, d: Draws, score: nat, scores: bool): nat {
    var kept := if Resets(m, d) then 0 else score;
    if scores then SaturatingAdd(kept, 1) else kept
  }

  /** The payloads sent: of every player seen so far the one of this tick, or else the last one. */
  function Shown(seen: set<string>, active: Players, last: Players): Players {
    map id | id in IDS && id in seen && (id in active || id in last) :: if id in active then active[id] else last[id]
  }

  function Winner(clock: int, blue: nat, orange: nat): string {
    if clock == 0 && blue != orange then if blue > orange then "Blue" else "Orange" else ""
  }

  function Tick(m: Match, d: Draws): (Match, Update) {
    var clock := if Resets(m, d) then 300 else m.clock - d.drain;
    var blue := Scored(m, d, m.blue, d.blueScores);
    var orange := Scored(m, d, m.orange, d.orangeScores);
    var seen := m.seen + d.payloads.Keys;
    var last := m.last + d.payloads;
    (Match(clock, blue, orange, seen, last),
     Update(clock, clock == 0 && blue == orange, clock == 0 && blue != orange, Winner(clock, blue, orange), blue, orange,
            Shown(seen, d.payloads, last)))
  }

  // ---- Runs ----

  type Run = seq<Draws>

  predicate GoodRun(run: Run) { forall d | d in run :: GoodDraws(d) }

  /** The match after the first `n` ticks. */
  function After(run: Run, n: nat): Match
    requires n <= |run|
  {
    if n == 0 then START else Tick(After(run, n - 1), run[n - 1]).0
  }

  /** The update sent in tick `i`, counting from 0. */
  function Sent(run: Run, i: nat): Update
    requires i < |run|
  {
    Tick(After(run, i), run[i]).1
  }

  // ---- The players of every update ----

  /** Of the first `n` ticks, each player's payload of the latest one it was active in. */
  function Latest(run: Run, n: nat): Players
    requires n <= |run|
  {
    if n == 0 then map[] else Latest(run, n - 1) + run[n - 1].payloads
  }

  lemma ActiveAreInPool(d: Draws)
    requires GoodDraws(d)
    ensures d.payloads.Keys <= IDS
  {
    WindowSize(d.start, d.count);
  }

  /** The cache of last payloads is `Latest`, and it holds exactly the players seen. */
  lemma {:induction false} CacheIsLatest(run: Run, n: nat)
    requires GoodRun(run) && n <= |run|
    ensures After(run, n).last == Latest(run, n) && After(run, n).seen == Latest(run, n).Keys <= IDS
  {
    if n > 0 {
      CacheIsLatest(run, n - 1);
      ActiveAreInPool(run[n - 1]);
    }
  }

  /** A player is in `Latest` if it was active in some tick, with the payload of the last such tick. */
  lemma {:induction false} LatestIsLatest(run: Run, n: nat, id: string)
    requires n <= |run|
    ensures id in Latest(run, n) <==> exists i | 0 <= i < n :: id in run[i].payloads
    ensures forall i | 0 <= i < n && id in run[i].payloads && (forall j | i < j < n :: id !in run[j].payloads) ::
              Latest(run, n)[id] == run[i].payloads[id]
  {
    if n > 0 { LatestIsLatest(run, n - 1, id); }
  }

  /** The update of a tick shows exactly the players active in it or an earlier one, each with its payload
      of the latest such tick; the fallback to the cache never fails and is all there is to it. */
  lemma SentPlayers(run: Run, i: nat)
    requires GoodRun(run) && i < |run|
    ensures Sent(run, i).players == Latest(run, i + 1)
    ensures |Sent(run, i).players| <= |PLAYERS|
  {
    CacheIsLatest(run, i);
    ActiveAreInPool(run[i]);
    TickShowsCache(After(run, i), run[i]);
    CacheIsLatest(run, i + 1);
    PoolSize(Latest(run, i + 1).Keys);
  }

  /** With a cache that holds exactly the players seen, a tick shows the updated cache. */
  lemma TickShowsCache(m: Match, d: Draws)
    requires m.last.Keys == m.seen <= IDS && d.payloads.Keys <= IDS
    ensures Tick(m, d).1.players == Tick(m, d).0.last
  {
    var seen, last := m.seen + d.payloads.Keys, m.last + d.payloads;
    assert last.Keys == seen;
    assert Shown(seen, d.payloads, last) == last;
  }

  lemma PoolSize(ids: set<string>)
    requires ids <= IDS
    ensures |ids| <= |PLAYERS|
  {
    var p := PLAYERS;
    assert IDS == {p[0].id} + {p[1].id} + {p[2].id} + {p[3].id} + {p[4].id} + {p[5].id};
    SubsetSize(ids, IDS);
  }

  lemma {:induction false} SubsetSize<T>(a: set<T>, b: set<T>)
    requires a <= b
    ensures |a| <= |b|
  {
    if a != {} {
      var x :| x in a;
      SubsetSize(a - {x}, b - {x});
    }
  }

  /** Once shown, a player stays shown. */
  lemma PlayersStay(run: Run, i: nat, j: nat)
    requires GoodRun(run) && i <= j < |run|
    ensures Sent(run, i).players.Keys <= Sent(run, j).players.Keys
  {
    LatestGrows(run, i + 1, j + 1);
    SentPlayers(run, i);
    SentPlayers(run, j);
    assert Sent(run, i).players.Keys == Latest(run, i + 1).Keys;
  }

  lemma {:induction false} LatestGrows(run: Run, i: nat, j: nat)
    requires i <= j <= |run|
    ensures Latest(run, i).Keys <= Latest(run, j).Keys
    decreases j
  {
    if i < j { LatestGrows(run, i, j - 1); }
  }

  /** Whenever a player is shown, it is under its one name, team and ids. */
  lemma ShownAsThemselves(run: Run, i: nat, k: nat)
    requires GoodRun(run) && i < |run| && k < |PLAYERS| && PLAYERS[k].id in Sent(run, i).players
    ensures ShowsPlayer(Sent(run, i).players[PLAYERS[k].id], PLAYERS[k])
  {
    SentPlayers(run, i);
    LatestShows(run, i + 1, k);
  }

  lemma {:induction false} LatestShows(run: Run, n: nat, k: nat)
    requires GoodRun(run) && n <= |run| && k < |PLAYERS| && PLAYERS[k].id in Latest(run, n)
    ensures ShowsPlayer(Latest(run, n)[PLAYERS[k].id], PLAYERS[k])
  {
    var id, d := PLAYERS[k].id, run[n - 1];
    if id in d.payloads {
      assert GoodDraws(d) && GoodPayload(id, d.payloads[id], d.payloads.Keys);
      var k' :| 0 <= k' < |PLAYERS| && PLAYERS[k'].id == id && ShowsPlayer(d.payloads[id], PLAYERS[k']);
      if k' != k { PlayersDiffer(k, k'); }
    } else {
      LatestShows(run, n - 1, k);
    }
  }

  // ---- The clock and the scores ----

  /** A new match starts in tick `i`. */
  predicate ResetsAt(run: Run, i: nat)
    requires i < |run|
  {
    Resets(After(run, i), run[i])
  }

  /** After `n` ticks, how many of them belong to the current match, the one it started in included; the
      first match starts before any tick. */
  function Age(run: Run, n: nat): (age: nat)
    requires n <= |run|
    ensures 1 <= age <= n + 1
  {
    if n == 0 || ResetsAt(run, n - 1) then 1 else Age(run, n - 1) + 1
  }

  /** The clock stays within 0..300 and runs down by one to three a tick; scores are bounded by the age of
      the match, so they never come near saturation. */
  lemma {:induction false} ClockAndScores(run: Run, n: nat)
    requires GoodRun(run) && n <= |run|
    ensures var m, age := After(run, n), Age(run, n);
            0 <= m.clock && 300 - 3 * (age - 1) <= m.clock <= 300 - (age - 1) && m.blue <= age <= 301 && m.orange <= age
  {
    if n > 0 {
      assert GoodDraws(run[n - 1]);
      ClockAndScores(run, n - 1);
    }
  }

  /** A score stays or rises by one, from what it was or, with a new match, from 0. */
  lemma ScoresRise(run: Run, i: nat)
    requires GoodRun(run) && i < |run|
    ensures var m, u := After(run, i), Sent(run, i);
            u.blue == (if ResetsAt(run, i) then 0 else m.blue) + (if run[i].blueScores then 1 else 0) &&
            u.orange == (if ResetsAt(run, i) then 0 else m.orange) + (if run[i].orangeScores then 1 else 0)
    ensures var u := Sent(run, i); u.blue <= 301 && u.orange <= 301 && 0 <= u.time <= 300
  {
    ClockAndScores(run, i);
    ClockAndScores(run, i + 1);
  }

  /** The clock runs down by what is drawn, and starts over at 300 when it would pass 0. */
  lemma ClockRunsDown(run: Run, i: nat)
    requires GoodRun(run) && i < |run|
    ensures var before, drain := After(run, i).clock, run[i].drain;
            Sent(run, i).time == (if before < drain then 300 else before - drain) && After(run, i + 1).clock == Sent(run, i).time &&
            1 <= drain <= 3 && After(run, 0).clock == 300 && (ResetsAt(run, i) <==> before < drain)
  {
    assert run[i] in run;
  }

  /** A winner is announced only when the clock stands at 0, it is the team ahead, and then there is no
      overtime. */
  lemma WinnerExcludesOvertime(run: Run, i: nat)
    requires i < |run|
    ensures var u := Sent(run, i);
            !(u.hasWinner && u.isOvertime) && (u.hasWinner || u.isOvertime <==> u.time == 0) &&
            (u.hasWinner <==> u.winner != "") &&
            (u.winner == "Blue" <==> u.time == 0 && u.blue > u.orange) && (u.winner == "Orange" <==> u.time == 0 && u.blue < u.orange)
  {
  }

  lemma {:induction false} AgeSince(run: Run, i: nat, j: nat)
    requires i < j <= |run| && ResetsAt(run, i) && forall k | i < k < j :: !ResetsAt(run, k)
    ensures Age(run, j) == j - i
    decreases j
  {
    if j - 1 > i { AgeSince(run, i, j - 1); }
  }

  /** Between two starts of a match there are at least 101 and at most 301 ticks. */
  lemma ResetGap(run: Run, i: nat, j: nat)
    requires GoodRun(run) && i < j < |run| && ResetsAt(run, i) && ResetsAt(run, j)
    requires forall k | i < k < j :: !ResetsAt(run, k)
    ensures 101 <= j - i <= 301
  {
    AgeSince(run, i, j);
    ClockAndScores(run, j);
    assert GoodDraws(run[j]);
  }

  lemma {:induction false} AgeFrom(run: Run, i: nat, n: nat)
    requires i + n <= |run| && forall k | i <= k < i + n :: !ResetsAt(run, k)
    ensures Age(run, i + n) == Age(run, i) + n
    decreases n
  {
    if n > 0 { AgeFrom(run, i, n - 1); }
  }

  /** So are there before the first of them. */
  lemma FirstReset(run: Run, j: nat)
    requires GoodRun(run) && j < |run| && ResetsAt(run, j) && forall k | 0 <= k < j :: !ResetsAt(run, k)
    ensures 101 <= j + 1 <= 301
  {
    AgeFrom(run, 0, j);
    ClockAndScores(run, j);
    assert GoodDraws(run[j]);
  }

  /** No run goes 301 ticks without a new match. */
  lemma ResetsComeBack(run: Run, i: nat)
    requires GoodRun(run) && i + 301 <= |run|
    ensures exists k | i <= k < i + 301 :: ResetsAt(run, k)
  {
    if forall k | i <= k < i + 301 :: !ResetsAt(run, k) {
      AgeFrom(run, i, 301);
      ClockAndScores(run, i + 301);
    }
  }
}
