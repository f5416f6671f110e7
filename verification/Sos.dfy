/** The translation of players and teams to the SOS format, src/sos.rs. */
module Sos {
  import opened Wrappers
  import opened Json
  import Decimal
  import Text

  // ---- Player ids ----

  predicate Blank(name: string) { Text.Trim(name) == "" }

  /** format_player_id */
  function FormatPlayerId(name: string, shortcut: int): string {
    if Blank(name) then "" else name + "_" + Decimal.PrintInt(shortcut)
  }

  /** A name is blank if it is empty or all white space; the id is empty then, and otherwise says name and shortcut. */
  lemma BlankIds(name: string, shortcut: int)
    ensures FormatPlayerId(name, shortcut) == if (forall c | c in name :: Text.IsWhitespace(c)) then "" else name + "_" + Decimal.PrintInt(shortcut)
  {
    Text.AllSpaceTrims(name);
  }

  lemma PrintIntHasNoUnderscore(i: int)
    ensures '_' !in Decimal.PrintInt(i)
  {
    assert Decimal.AllDigits(Decimal.Print(if i < 0 then -i else i));
    assert !Decimal.IsDigit('_');
  }

  lemma UnderscoreInLonger(a: string, p: string, b: string, q: string)
    requires a + "_" + p == b + "_" + q && |p| < |q|
    ensures '_' in q
  {
    var s := a + "_" + p;
    assert s[|a|] == '_' && (b + "_" + q)[|a|] == q[|a| - |b| - 1];
  }

  /** Text up to the last underscore determines both sides of it. */
  lemma LastUnderscore(a: string, p: string, b: string, q: string)
    requires '_' !in p && '_' !in q && a + "_" + p == b + "_" + q
    ensures a == b && p == q
  {
    if |p| < |q| { UnderscoreInLonger(a, p, b, q); }
    if |q| < |p| { UnderscoreInLonger(b, q, a, p); }
    var s, t := a + "_" + p, b + "_" + q;
    assert a == s[..|a|] && b == t[..|b|];
    assert p == s[|a| + 1..] && q == t[|b| + 1..];
  }

  /** Two players have the same id exactly when both names are blank, or name and shortcut are the same;
      underscores in names make no difference. */
  lemma SameId(a: string, i: int, b: string, j: int)
    ensures FormatPlayerId(a, i) == FormatPlayerId(b, j) <==> (Blank(a) && Blank(b)) || (!Blank(a) && a == b && i == j)
  {
    if !Blank(a) && !Blank(b) && FormatPlayerId(a, i) == FormatPlayerId(b, j) {
      PrintIntHasNoUnderscore(i);
      PrintIntHasNoUnderscore(j);
      LastUnderscore(a, Decimal.PrintInt(i), b, Decimal.PrintInt(j));
      Decimal.PrintIntInjective(i, j);
    }
  }

  // ---- Shortcuts ----

  /** Value::as_i64, or else the number that a string spells. */
  function AsI64(j: Json): Option<int> {
    match j
    case Int(i) => if IsI64(i) then Some(i) else None
    case Str(s) => Decimal.ParseI64(s)
    case _ => None
  }

  /** first_i64: the first of the keys that has a readable number. */
  function FirstI64(extra: map<string, Json>, keys: seq<string>): Option<int> {
    if keys == [] then None
    else if keys[0] in extra && AsI64(extra[keys[0]]).Some? then AsI64(extra[keys[0]])
    else FirstI64(extra, keys[1..])
  }

  const SHORTCUT_KEYS: seq<string> := ["Shortcut", "shortcut"]

  /** A player of an UpdateState event. `stats` are the members that are copied over as they are. */
  datatype Player<T> = Player(name: Option<string>, shortcut: Option<int>, extra: map<string, Json>, stats: T)

  /** A player as other events refer to one. */
  datatype PlayerRef = PlayerRef(name: string, shortcut: int, extra: map<string, Json>)

  function Or<T>(a: Option<T>, b: T): T { if a.Some? then a.value else b }

  function NameOf<T>(p: Player<T>): string { Or(p.name, "") }

  /** A player's own field comes first. */
  function ShortcutOf<T>(p: Player<T>): int {
    if p.shortcut.Some? then p.shortcut.value else Or(FirstI64(p.extra, SHORTCUT_KEYS), 0)
  }

  /** player_ref_shortcut: for a reference the collected members come first. */
  function RefShortcut(r: PlayerRef): Option<int> {
    if FirstI64(r.extra, SHORTCUT_KEYS).Some? then FirstI64(r.extra, SHORTCUT_KEYS)
    else if r.shortcut != 0 then Some(r.shortcut)
    else None
  }

  function IdOf<T>(p: Player<T>): string { FormatPlayerId(NameOf(p), ShortcutOf(p)) }

  /** player_ref_id */
  function RefId(r: PlayerRef): string { FormatPlayerId(r.name, Or(RefShortcut(r), 0)) }

  /** A collected shortcut: under the capital key if there is a readable number there, or else under the other. */
  lemma CollectedShortcut(extra: map<string, Json>)
    ensures FirstI64(extra, SHORTCUT_KEYS) ==
            if "Shortcut" in extra && AsI64(extra["Shortcut"]).Some? then AsI64(extra["Shortcut"])
            else if "shortcut" in extra then AsI64(extra["shortcut"])
            else None
  {
    var others := ["shortcut"];
    assert SHORTCUT_KEYS[1..] == others && others[1..] == [];
    assert FirstI64(extra, []) == None;
    assert FirstI64(extra, others) == if "shortcut" in extra then AsI64(extra["shortcut"]) else None;
  }

  /** A number is read as itself, and so is the text that prints it. */
  lemma NumbersAreRead(i: int)
    requires IsI64(i)
    ensures AsI64(Int(i)) == Some(i) && AsI64(Str(Decimal.PrintInt(i))) == Some(i)
  {
    Decimal.ParsePrintedInt(i);
  }

  /** A player without the field has the collected shortcut, or 0; one with it has that. A reference has the
      collected one, or the field, or 0. */
  lemma ShortcutsAre<T>(p: Player<T>, r: PlayerRef)
    ensures p.shortcut.Some? ==> ShortcutOf(p) == p.shortcut.value
    ensures p.shortcut.None? && FirstI64(p.extra, SHORTCUT_KEYS).Some? ==> ShortcutOf(p) == FirstI64(p.extra, SHORTCUT_KEYS).value
    ensures p.shortcut.None? && FirstI64(p.extra, SHORTCUT_KEYS).None? ==> ShortcutOf(p) == 0
    ensures FirstI64(r.extra, SHORTCUT_KEYS).Some? ==> RefShortcut(r) == FirstI64(r.extra, SHORTCUT_KEYS)
    ensures FirstI64(r.extra, SHORTCUT_KEYS).None? ==> Or(RefShortcut(r), 0) == r.shortcut
  {
  }

  /** The same name, shortcut and other members lead to the same id for a player and for a reference exactly
      when the name is blank or the other members do not hold a different shortcut. */
  lemma RefAgrees<T>(name: string, shortcut: int, extra: map<string, Json>, stats: T)
    ensures IdOf(Player(Some(name), Some(shortcut), extra, stats)) == RefId(PlayerRef(name, shortcut, extra)) <==>
            Blank(name) || FirstI64(extra, SHORTCUT_KEYS) in {None, Some(shortcut)}
  {
    SameId(name, shortcut, name, Or(RefShortcut(PlayerRef(name, shortcut, extra)), 0));
  }

  /** A member `shortcut` beside the field `Shortcut` is collected, and then the ids can differ. */
  lemma RefDisagrees<T>(stats: T)
    ensures var extra := map["shortcut" := Int(2)];
            RefId(PlayerRef("A", 1, extra)) != IdOf(Player(Some("A"), Some(1), extra, stats))
  {
    var extra := map["shortcut" := Int(2)];
    assert SHORTCUT_KEYS[1..] == ["shortcut"] && SHORTCUT_KEYS[0] !in extra;
    assert FirstI64(extra, SHORTCUT_KEYS) == FirstI64(extra, ["shortcut"]) == Some(2);
    assert Text.TrimStart("A") == "A" && !Blank("A");
    RefAgrees("A", 1, extra, stats);
  }

  /** A reference finds a player's entry exactly when it has the player's name and shortcut, or neither has a name. */
  lemma RefFinds<T>(r: PlayerRef, p: Player<T>)
    ensures RefId(r) == IdOf(p) <==>
            (Blank(r.name) && Blank(NameOf(p))) ||
            (!Blank(r.name) && r.name == NameOf(p) && Or(RefShortcut(r), 0) == ShortcutOf(p))
  {
    SameId(r.name, Or(RefShortcut(r), 0), NameOf(p), ShortcutOf(p));
  }

  // ---- Players ----

  /** What a player turns into. The shortcut shown is the player's own field. */
  datatype Entry<T> = Entry(name: string, id: string, shortcut: int, stats: T)

  function EntryOf<T>(p: Player<T>): Entry<T> { Entry(NameOf(p), IdOf(p), Or(p.shortcut, 0), p.stats) }

  /** No later player has the id of the `i`-th. */
  predicate IsLast<T>(players: seq<Player<T>>, i: nat)
    requires i < |players|
  {
    forall k | i < k < |players| :: IdOf(players[k]) != IdOf(players[i])
  }

  function Ids<T>(players: seq<Player<T>>): set<string> { set i | 0 <= i < |players| :: IdOf(players[i]) }

  /** The names and shortcuts of the players with a name. */
  function Named<T>(players: seq<Player<T>>): set<(string, int)> {
    set i | 0 <= i < |players| && !Blank(NameOf(players[i])) :: (NameOf(players[i]), ShortcutOf(players[i]))
  }

  predicate AnyBlank<T>(players: seq<Player<T>>) { exists i | 0 <= i < |players| :: Blank(NameOf(players[i])) }

  /** The ids of a set of pairs with names. */
  function IdsOf(pairs: set<(string, int)>): set<string> { set p <- pairs :: FormatPlayerId(p.0, p.1) }

  lemma {:induction false} DistinctIds(pairs: set<(string, int)>)
    requires forall p <- pairs :: !Blank(p.0)
    ensures |IdsOf(pairs)| == |pairs| && "" !in IdsOf(pairs)
    decreases |pairs|
  {
    if pairs != {} {
      var p :| p in pairs;
      var others := pairs - {p};
      var id := FormatPlayerId(p.0, p.1);
      DistinctIds(others);
      forall q <- others ensures FormatPlayerId(q.0, q.1) != id {
        SameId(q.0, q.1, p.0, p.1);
      }
      assert IdsOf(pairs) == IdsOf(others) + {id};
    } else {
      assert IdsOf(pairs) == {};
    }
  }

  /** There are as many ids as distinct pairs of a name and a shortcut, and one more if any name is blank. */
  lemma IdCount<T>(players: seq<Player<T>>)
    ensures |Ids(players)| == |Named(players)| + (if AnyBlank(players) then 1 else 0)
  {
    DistinctIds(Named(players));
    IdsSplit(players);
  }

  lemma IdsSplit<T>(players: seq<Player<T>>)
    ensures Ids(players) == IdsOf(Named(players)) + (if AnyBlank(players) then {""} else {})
  {
    forall i | 0 <= i < |players|
      ensures IdOf(players[i]) in IdsOf(Named(players)) + (if AnyBlank(players) then {""} else {})
    {
      if !Blank(NameOf(players[i])) {
        assert (NameOf(players[i]), ShortcutOf(players[i])) in Named(players);
      }
    }
    forall p <- Named(players) ensures FormatPlayerId(p.0, p.1) in Ids(players) {
      var i :| 0 <= i < |players| && !Blank(NameOf(players[i])) && p == (NameOf(players[i]), ShortcutOf(players[i]));
      assert IdOf(players[i]) in Ids(players);
    }
    if AnyBlank(players) {
      var i :| 0 <= i < |players| && Blank(NameOf(players[i]));
      assert IdOf(players[i]) in Ids(players);
    }
  }

  /** The entries of the players in turn, later ones replacing earlier ones with the same id. */
  function Entries<T>(players: seq<Player<T>>): map<string, Entry<T>> {
    if players == [] then map[]
    else
      var last := players[|players| - 1];
      Entries(players[..|players| - 1])[IdOf(last) := EntryOf(last)]
  }

  lemma {:induction false} EntryIsThere<T>(players: seq<Player<T>>, i: nat)
    requires i < |players|
    ensures IdOf(players[i]) in Entries(players)
    decreases |players|
  {
    if i < |players| - 1 { EntryIsThere(players[..|players| - 1], i); }
  }

  lemma {:induction false} EntryIsLast<T>(players: seq<Player<T>>, i: nat)
    requires i < |players| && IsLast(players, i)
    ensures IdOf(players[i]) in Entries(players) && Entries(players)[IdOf(players[i])] == EntryOf(players[i])
    decreases |players|
  {
    if i < |players| - 1 { EntryIsLast(players[..|players| - 1], i); }
  }

  lemma {:induction false} EntryIsSomebodys<T>(players: seq<Player<T>>, id: string) returns (i: nat)
    requires id in Entries(players)
    ensures i < |players| && IdOf(players[i]) == id && Entries(players)[id] == EntryOf(players[i])
    decreases |players|
  {
    i := |players| - 1;
    if IdOf(players[i]) != id { i := EntryIsSomebodys(players[..i], id); }
  }

  /** The entries' keys are the players' ids. */
  lemma EntryKeys<T>(players: seq<Player<T>>)
    ensures Entries(players).Keys == Ids(players)
  {
    forall id <- Entries(players) ensures id in Ids(players) {
      var i := EntryIsSomebodys(players, id);
    }
    forall i | 0 <= i < |players| ensures IdOf(players[i]) in Entries(players) {
      EntryIsThere(players, i);
    }
  }

  /** One entry for each distinct pair of a name and a shortcut, and one for all the blank names; each is
      that of the last such player, and its id is its key. */
  lemma EntriesAre<T>(players: seq<Player<T>>)
    ensures |Entries(players)| == |Named(players)| + (if AnyBlank(players) then 1 else 0)
    ensures forall i | 0 <= i < |players| && IsLast(players, i) ::
              IdOf(players[i]) in Entries(players) && Entries(players)[IdOf(players[i])] == EntryOf(players[i])
    ensures forall id <- Entries(players) :: Entries(players)[id].id == id
  {
    EntryKeys(players);
    IdCount(players);
    assert |Entries(players)| == |Entries(players).Keys|;
    forall i | 0 <= i < |players| && IsLast(players, i)
      ensures IdOf(players[i]) in Entries(players) && Entries(players)[IdOf(players[i])] == EntryOf(players[i])
    {
      EntryIsLast(players, i);
    }
    forall id <- Entries(players) ensures Entries(players)[id].id == id {
      var i := EntryIsSomebodys(players, id);
    }
  }

  /** What an entry shows: the player's name, empty if it has none; its own shortcut, 0 if it has none, whatever
      shortcut the id has; and its other values. */
  lemma EntryShows<T>(players: seq<Player<T>>, i: nat)
    requires i < |players| && IsLast(players, i)
    ensures IdOf(players[i]) in Entries(players)
    ensures var p, e := players[i], Entries(players)[IdOf(players[i])];
            (p.name.Some? ==> e.name == p.name.value) && (p.name.None? ==> e.name == "") &&
            (p.shortcut.Some? ==> e.shortcut == p.shortcut.value) && (p.shortcut.None? ==> e.shortcut == 0) && e.stats == p.stats
  {
    EntryIsLast(players, i);
  }

  /** translate_players */
  method TranslatePlayers<T>(players: seq<Player<T>>) returns (entries: map<string, Entry<T>>)
    ensures entries == Entries(players)
  {
    entries := map[];
    for n := 0 to |players|
      invariant entries == Entries(players[..n])
    {
      var player := players[n];
      var name := Or(player.name, "");
      var id := FormatPlayerId(name, ShortcutOf(player));
      entries := entries[id := Entry(name, id, Or(player.shortcut, 0), player.stats)];
      assert players[..n + 1][..n] == players[..n];
    }
    assert players[..|players|] == players;
  }

  // ---- Teams ----

  datatype Team = Team(name: Option<string>, teamNum: Option<int>, score: Option<int>, primary: Option<string>, secondary: Option<string>)

  datatype TeamEntry = TeamEntry(name: string, score: int, primary: string, secondary: string)

  function DefaultTeam(k: nat): TeamEntry {
    if k == 0 then TeamEntry("Blue", 0, "1873FF", "E5E5E5") else TeamEntry("Orange", 0, "C26418", "E5E5E5")
  }

  /** A team's own values where it has them. */
  function Filled(team: Team, d: TeamEntry): TeamEntry {
    TeamEntry(Or(team.name, d.name), Or(team.score, 0), Or(team.primary, d.primary), Or(team.secondary, d.secondary))
  }

  /** The last team with the number `k`, if there is one. */
  function LastTeam(teams: seq<Team>, k: int): Option<Team> {
    if teams == [] then None
    else if teams[|teams| - 1].teamNum == Some(k) then Some(teams[|teams| - 1])
    else LastTeam(teams[..|teams| - 1], k)
  }

  function TeamEntryOf(teams: seq<Team>, k: nat): TeamEntry {
    match LastTeam(teams, k)
    case Some(team) => Filled(team, DefaultTeam(k))
    case None => DefaultTeam(k)
  }

  lemma {:induction false} LastTeamIs(teams: seq<Team>, k: int)
    ensures LastTeam(teams, k).None? <==> forall i | 0 <= i < |teams| :: teams[i].teamNum != Some(k)
    ensures LastTeam(teams, k).Some? ==>
              exists i | 0 <= i < |teams| :: teams[i] == LastTeam(teams, k).value && teams[i].teamNum == Some(k) &&
                forall m | i < m < |teams| :: teams[m].teamNum != Some(k)
  {
    if teams != [] {
      var last := |teams| - 1;
      if teams[last].teamNum != Some(k) {
        var front := teams[..last];
        LastTeamIs(front, k);
        assert forall i | 0 <= i < last :: front[i] == teams[i];
        if LastTeam(front, k).Some? {
          var i :| 0 <= i < |front| && front[i] == LastTeam(front, k).value && front[i].teamNum == Some(k) &&
            forall m | i < m < |front| :: front[m].teamNum != Some(k);
          assert teams[i] == LastTeam(teams, k).value;
        }
      } else {
        assert teams[last] == LastTeam(teams, k).value;
      }
    }
  }

  /** Each of the two entries shows what the last team with its number has, and the defaults of its side for
      what that team lacks, or for all of it if there is no such team. */
  lemma TeamsShow(teams: seq<Team>, i: nat, k: nat)
    requires k < 2
    requires i < |teams| && teams[i].teamNum == Some(k) && forall m | i < m < |teams| :: teams[m].teamNum != Some(k)
    ensures var t, e := teams[i], TeamEntryOf(teams, k);
            e.name == (if t.name.Some? then t.name.value else if k == 0 then "Blue" else "Orange") &&
            e.score == (if t.score.Some? then t.score.value else 0) &&
            e.primary == (if t.primary.Some? then t.primary.value else if k == 0 then "1873FF" else "C26418") &&
            e.secondary == (if t.secondary.Some? then t.secondary.value else "E5E5E5")
  {
    LastTeamIs(teams, k);
  }

  lemma NoTeamShows(teams: seq<Team>, k: nat)
    requires k < 2 && forall m | 0 <= m < |teams| :: teams[m].teamNum != Some(k)
    ensures TeamEntryOf(teams, k) ==
            if k == 0 then TeamEntry("Blue", 0, "1873FF", "E5E5E5") else TeamEntry("Orange", 0, "C26418", "E5E5E5")
  {
    LastTeamIs(teams, k);
  }

  /** translate_teams: always two entries, in the order of the team numbers. */
  method TranslateTeams(teams: seq<Team>) returns (output: seq<TeamEntry>)
    ensures output == [TeamEntryOf(teams, 0), TeamEntryOf(teams, 1)]
  {
    var indexed := new Option<Team>[2](_ => None);
    for n := 0 to |teams|
      invariant forall k | 0 <= k < 2 :: indexed[k] == LastTeam(teams[..n], k)
    {
      assert teams[..n + 1][..n] == teams[..n];
      if teams[n].teamNum == Some(0) {
        indexed[0] := Some(teams[n]);
      } else if teams[n].teamNum == Some(1) {
        indexed[1] := Some(teams[n]);
      }
    }
    assert teams[..|teams|] == teams;
    output := [];
    for k := 0 to 2
      invariant output == if k == 0 then [] else if k == 1 then [TeamEntryOf(teams, 0)]
                          else [TeamEntryOf(teams, 0), TeamEntryOf(teams, 1)]
      invariant forall k | 0 <= k < 2 :: indexed[k] == LastTeam(teams, k)
    {
      var entry := DefaultTeam(k);
      if indexed[k].Some? {
        var team := indexed[k].value;
        entry := TeamEntry(Or(team.name, entry.name), Or(team.score, 0), Or(team.primary, entry.primary), Or(team.secondary, entry.secondary));
      }
      output := output + [entry];
    }
  }
}
