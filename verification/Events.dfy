/** Event envelopes of src/events.rs: which record each event carries, how an envelope is parsed, and how an
    event is printed. */
module Events {
  import opened Wrappers
  import opened Json
  import opened Codec

  // ---- Records ----

  /** A field that takes its default when it is missing. */
  function D(ty: Ty): Field { Field(ty, Defaulted) }

  /** An optional field. */
  function O(ty: Ty): Field { Field(ty, Optional) }

  const VECTOR3: Ty := TRec(map["X" := D(TFloat), "Y" := D(TFloat), "Z" := D(TFloat)], false)

  const PLAYER_REF: Ty := TRec(map["Name" := D(TStr), "Shortcut" := D(TInt), "TeamNum" := D(TInt)], true)

  const LAST_TOUCH: Ty := TRec(map["Player" := D(PLAYER_REF), "Speed" := D(TFloat)], true)

  const BALL_HIT_BALL: Ty :=
    TRec(map["PreHitSpeed" := D(TFloat), "PostHitSpeed" := D(TFloat), "Location" := Field(VECTOR3, Needed)], true)

  const TEAM_STATE: Ty :=
    TRec(map["Name" := O(TStr), "TeamNum" := O(TInt), "Score" := O(TInt), "ColorPrimary" := O(TStr),
             "ColorSecondary" := O(TStr)], true)

  const BALL_STATE: Ty := TRec(map["Speed" := O(TFloat), "TeamNum" := O(TInt)], true)

  const UPDATE_STATE_GAME: Ty :=
    TRec(map["Teams" := D(TVec(TEAM_STATE)), "PlaylistId" := O(TInt), "TimeSeconds" := O(TInt), "bOvertime" := O(TBool),
             "Frame" := O(TInt), "Elapsed" := O(TFloat), "Ball" := O(BALL_STATE), "bReplay" := O(TBool),
             "bHasWinner" := O(TBool), "Winner" := O(TStr), "Arena" := O(TStr), "bHasTarget" := O(TBool),
             "Target" := O(PLAYER_REF)], true)

  const UPDATE_STATE_PLAYER: Ty :=
    TRec(map["Name" := O(TStr), "PrimaryId" := O(TStr), "Shortcut" := O(TInt), "TeamNum" := O(TInt), "Score" := O(TInt),
             "Goals" := O(TInt), "Shots" := O(TInt), "Assists" := O(TInt), "Saves" := O(TInt), "Touches" := O(TInt),
             "CarTouches" := O(TInt), "Demos" := O(TInt), "Loadout" := O(TVec(TStr)), "bHasCar" := O(TBool),
             "Speed" := O(TFloat), "Boost" := O(TInt), "bBoosting" := O(TBool), "bOnGround" := O(TBool),
             "bOnWall" := O(TBool), "bPowersliding" := O(TBool), "bDemolished" := O(TBool), "bSupersonic" := O(TBool),
             "PickupClass" := O(TStr), "Attacker" := O(PLAYER_REF)], true)

  /** What every event's record has besides its own fields. */
  function Payload(fields: map<string, Field>): Ty { TRec(map["MatchGuid" := O(TStr)] + fields, true) }

  const MATCH_ONLY: Ty := Payload(map[])

  const UPDATE_STATE: Ty := Payload(map["Players" := D(TVec(UPDATE_STATE_PLAYER)), "Game" := D(UPDATE_STATE_GAME)])

  const BALL_HIT: Ty := Payload(map["Players" := D(TVec(PLAYER_REF)), "Ball" := D(BALL_HIT_BALL)])

  const BOOST_PICKUP: Ty :=
    Payload(map["Player" := D(PLAYER_REF), "Location" := D(VECTOR3), "BoostAmount" := D(TFloat), "BoostType" := D(TStr),
                "bReplay" := D(TBool)])

  const CLOCK_UPDATED: Ty := Payload(map["TimeSeconds" := D(TInt), "bOvertime" := D(TBool)])

  const CROSSBAR_HIT: Ty :=
    Payload(map["BallLocation" := Field(VECTOR3, Needed), "BallSpeed" := D(TFloat), "ImpactForce" := D(TFloat),
                "BallLastTouch" := D(LAST_TOUCH)])

  const GOAL_SCORED: Ty :=
    Payload(map["GoalSpeed" := D(TFloat), "GoalTime" := D(TFloat), "ImpactLocation" := Field(VECTOR3, Needed),
                "Scorer" := D(PLAYER_REF), "Assister" := O(PLAYER_REF), "BallLastTouch" := D(LAST_TOUCH)])

  const MATCH_ENDED: Ty := Payload(map["WinnerTeamNum" := D(TInt)])

  const PLAYER_PRESENCE: Ty := Payload(map["PlayerName" := D(TStr), "PrimaryId" := D(TStr)])

  const REPLAY_CREATED: Ty := Payload(map["FileName" := D(TStr), "Date" := D(TStr)])

  const STATFEED: Ty :=
    Payload(map["EventName" := D(TStr), "Type" := D(TStr), "MainTarget" := D(PLAYER_REF),
                "SecondaryTarget" := O(PLAYER_REF)])

  // ---- Events ----

  /** Events whose record the source knows, and all others with their data as they are. */
  datatype StatsEvent = Typed(name: string, data: Val) | Unknown(name: string, raw: Json)

  /** Replay events go by two names. */
  function Canonical(name: string): string {
    if name == "ReplayEnd" then "GoalReplayEnd"
    else if name == "ReplayStart" then "GoalReplayStart"
    else if name == "ReplayWillEnd" then "GoalReplayWillEnd"
    else name
  }

  const MATCH_ONLY_EVENTS: set<string> :=
    {"CountdownBegin", "GoalReplayEnd", "GoalReplayStart", "GoalReplayWillEnd", "MatchCreated", "MatchInitialized",
     "MatchDestroyed", "MatchPaused", "MatchUnpaused", "PodiumStart", "RoundStarted"}

  /** The record of an event, by its canonical name. */
  function RecordOf(name: string): Option<Ty> {
    if name in MATCH_ONLY_EVENTS then Some(MATCH_ONLY)
    else if name == "UpdateState" then Some(UPDATE_STATE)
    else if name == "BallHit" then Some(BALL_HIT)
    else if name == "BoostPickup" then Some(BOOST_PICKUP)
    else if name == "ClockUpdatedSeconds" then Some(CLOCK_UPDATED)
    else if name == "CrossbarHit" then Some(CROSSBAR_HIT)
    else if name == "GoalScored" then Some(GOAL_SCORED)
    else if name == "MatchEnded" then Some(MATCH_ENDED)
    else if name == "PlayerJoined" || name == "PlayerLeft" then Some(PLAYER_PRESENCE)
    else if name == "ReplayCreated" then Some(REPLAY_CREATED)
    else if name == "StatfeedEvent" then Some(STATFEED)
    else None
  }

  // ---- Parsing ----

  datatype Envelope = Envelope(event: string, data: Json)

  /** A member that goes by two names, of which exactly one must be there. */
  function Either(j: Json, name: string, alternative: string): Option<Json> {
    if Member(j, name).Some? && Member(j, alternative).Some? then None
    else if Member(j, name).Some? then Member(j, name)
    else Member(j, alternative)
  }

  function ParseEnvelope(j: Json): Option<Envelope> {
    var event := Either(j, "Event", "event");
    var data := Either(j, "Data", "data");
    if event.Some? && event.value.Str? && data.Some? then Some(Envelope(event.value.s, data.value)) else None
  }

  /** Parsing of JSON text is a parameter. */
  type FromText = string -> Option<Json>

  /** A JSON text is longer than the string it denotes, by the quotes at least. */
  ghost predicate QuotesStrings(fromText: FromText) {
    forall text :: match fromText(text)
                   case Some(Str(s)) => |s| + 2 <= |text|
                   case _ => true
  }

  /** Data that is a string is JSON text. */
  function NormalizeData(fromText: FromText, data: Json): Option<Json> {
    if data.Str? then fromText(data.s) else Some(data)
  }

  function FromEnvelope(fromText: FromText, envelope: Envelope): Option<StatsEvent> {
    match NormalizeData(fromText, envelope.data)
    case None => None
    case Some(data) => FromData(envelope.event, data)
  }

  function FromData(event: string, data: Json): Option<StatsEvent> {
    match RecordOf(Canonical(event))
    case None => Some(Unknown(event, data))
    case Some(ty) =>
      match Parse(ty, data)
      case None => None
      case Some(v) => Some(Typed(Canonical(event), v))
  }

  function ParseEvent(fromText: FromText, j: Json): Option<StatsEvent> {
    match ParseEnvelope(j)
    case None => None
    case Some(envelope) => FromEnvelope(fromText, envelope)
  }

  // ---- Printing ----

  /** What the source's event type can hold. */
  predicate IsEvent(e: StatsEvent) {
    match e
    case Typed(name, data) => RecordOf(name).Some? && HasTy(RecordOf(name).value, data)
    case Unknown(_, _) => true
  }

  function PrintData(e: StatsEvent): Json
    requires IsEvent(e)
  {
    match e
    case Typed(name, data) => Print(RecordOf(name).value, data)
    case Unknown(_, raw) => raw
  }

  function PrintEvent(e: StatsEvent): Json
    requires IsEvent(e)
  {
    Obj(map["event" := Str(e.name), "data" := PrintData(e)])
  }

  // ---- Laws ----

  lemma PrintedEnvelope(name: string, data: Json)
    ensures ParseEnvelope(Obj(map["event" := Str(name), "data" := data])) == Some(Envelope(name, data))
  {
    assert "event" != "Event" && "event" != "Data" && "event" != "data" && "data" != "Data" && "data" != "Event";
  }

  /** The data of a record is never printed as a string, so it is not unwrapped again. */
  lemma RecordsPrintObjects(name: string)
    requires RecordOf(name).Some?
    ensures RecordOf(name).value.TRec?
  {
  }

  lemma CanonicalIsStable(name: string)
    ensures Canonical(Canonical(name)) == Canonical(name)
  {
  }

  /** What parsing accepts is an event, and its name is the canonical form of the one given. */
  lemma ParsedIsEvent(fromText: FromText, j: Json)
    requires ParseEvent(fromText, j).Some?
    ensures IsEvent(ParseEvent(fromText, j).value)
    ensures ParseEnvelope(j).Some? && ParseEvent(fromText, j).value.name == Canonical(ParseEnvelope(j).value.event)
  {
    var Envelope(event, given) := ParseEnvelope(j).value;
    DataIsEvent(event, NormalizeData(fromText, given).value);
  }

  lemma DataIsEvent(event: string, data: Json)
    requires FromData(event, data).Some?
    ensures IsEvent(FromData(event, data).value) && FromData(event, data).value.name == Canonical(event)
  {
    if RecordOf(Canonical(event)).Some? { ParsedIsFaithful(RecordOf(Canonical(event)).value, data); }
  }

  lemma Reparsed(fromText: FromText, e: StatsEvent)
    requires IsEvent(e)
    ensures ParseEvent(fromText, PrintEvent(e)) == FromEnvelope(fromText, Envelope(e.name, PrintData(e)))
  {
    PrintedEnvelope(e.name, PrintData(e));
  }

  /** A known event comes back from its printed form exactly when its data are faithful. */
  lemma TypedComesBack(fromText: FromText, name: string, ty: Ty, v: Val)
    requires RecordOf(name) == Some(ty) && Canonical(name) == name && HasTy(ty, v)
    ensures ParseEvent(fromText, PrintEvent(Typed(name, v))) == Some(Typed(name, v)) <==> Faithful(ty, v)
  {
    RecordsPrintObjects(name);
    RoundTrip(ty, v);
    Reparsed(fromText, Typed(name, v));
  }

  /** An unknown one does exactly when its data are not a string. */
  lemma UnknownComesBack(fromText: FromText, name: string, raw: Json)
    requires QuotesStrings(fromText) && RecordOf(Canonical(name)).None?
    ensures ParseEvent(fromText, PrintEvent(Unknown(name, raw))) == Some(Unknown(name, raw)) <==> !raw.Str?
  {
    Reparsed(fromText, Unknown(name, raw));
    if raw.Str? { NotItsOwnText(fromText, raw.s); }
    UnknownData(fromText, name, raw);
  }

  lemma NotItsOwnText(fromText: FromText, text: string)
    requires QuotesStrings(fromText)
    ensures fromText(text) != Some(Str(text))
  {
    var parsed := fromText(text);
    assert match parsed case Some(Str(s)) => |s| + 2 <= |text| case _ => true;
  }

  lemma UnknownData(fromText: FromText, name: string, raw: Json)
    requires raw.Str? ==> fromText(raw.s) != Some(raw)
    requires forall data :: FromData(name, data) == Some(Unknown(name, data))
    ensures FromEnvelope(fromText, Envelope(name, raw)) == Some(Unknown(name, raw)) <==> !raw.Str?
  {
  }

  /** Parsing is stable under printing: every event that was parsed comes back from its printed form, unless
      it is an unknown one whose data are a string even after one unwrapping; that one does not. */
  lemma EventIsStable(fromText: FromText, j: Json)
    requires QuotesStrings(fromText) && ParseEvent(fromText, j).Some?
    ensures var e := ParseEvent(fromText, j).value;
            IsEvent(e) && (ParseEvent(fromText, PrintEvent(e)) == Some(e) <==> !(e.Unknown? && e.raw.Str?))
  {
    ParsedIsEvent(fromText, j);
    var e := ParseEvent(fromText, j).value;
    CanonicalIsStable(ParseEnvelope(j).value.event);
    if e.Typed? {
      ParsedIsFaithful(RecordOf(e.name).value, NormalizeData(fromText, ParseEnvelope(j).value.data).value);
      TypedComesBack(fromText, e.name, RecordOf(e.name).value, e.data);
    } else {
      UnknownComesBack(fromText, e.name, e.raw);
    }
  }

  /** Such an event can be received: its data are the text of a JSON string whose content is no JSON text. It
      is accepted, and what it prints as is not. */
  lemma StringDataIsRefused(fromText: FromText)
    requires fromText("\"x\"") == Some(Str("x")) && fromText("x").None?
    ensures var received := Obj(map["event" := Str("Other"), "data" := Str("\"x\"")]); var e := Unknown("Other", Str("x"));
            ParseEvent(fromText, received) == Some(e) && ParseEvent(fromText, PrintEvent(e)).None?
  {
    PrintedEnvelope("Other", Str("\"x\""));
    Reparsed(fromText, Unknown("Other", Str("x")));
    assert RecordOf(Canonical("Other")).None?;
  }

  /** An event with an alias for a name parses like the one with the canonical name. */
  lemma AliasesAgree(fromText: FromText, alias: string, data: Json)
    requires RecordOf(Canonical(alias)).Some?
    ensures ParseEvent(fromText, Obj(map["event" := Str(alias), "data" := data])) ==
            ParseEvent(fromText, Obj(map["event" := Str(Canonical(alias)), "data" := data]))
  {
    PrintedEnvelope(alias, data);
    PrintedEnvelope(Canonical(alias), data);
    CanonicalIsStable(alias);
  }

  /** Printing what was parsed completes the data: all members the record has no field for come back unchanged,
      and an unknown event's data do altogether. */
  lemma DataIsKept(fromText: FromText, j: Json)
    requires ParseEvent(fromText, j).Some?
    ensures ParseEnvelope(j).Some? && NormalizeData(fromText, ParseEnvelope(j).value.data).Some?
    ensures IsEvent(ParseEvent(fromText, j).value)
    ensures var given := NormalizeData(fromText, ParseEnvelope(j).value.data).value;
            var e := ParseEvent(fromText, j).value;
            var out := Member(PrintEvent(e), "data");
            out.Some? && if e.Typed? then Completes(RecordOf(e.name).value, given, out.value) else out.value == given
  {
    ParsedIsEvent(fromText, j);
    var e := ParseEvent(fromText, j).value;
    if e.Typed? {
      PrintCompletes(RecordOf(e.name).value, NormalizeData(fromText, ParseEnvelope(j).value.data).value);
    }
  }

  // ---- Which messages are accepted ----

  /** One and only one of two members is there. */
  predicate OneOf(j: Json, name: string, alternative: string) {
    j.Obj? && ((name in j.members) != (alternative in j.members))
  }

  lemma EitherIsOne(j: Json, name: string, alternative: string)
    ensures Either(j, name, alternative).Some? <==> OneOf(j, name, alternative)
    ensures OneOf(j, name, alternative) ==>
              Either(j, name, alternative).value == j.members[if name in j.members then name else alternative]
  {
  }

  /** An envelope may spell each of its two keys with a capital or without, and have any other members: all of
      these are the same envelope. */
  lemma SpellingsAgree(others: map<string, Json>, eventKey: string, dataKey: string, name: string, data: Json)
    requires eventKey == "Event" || eventKey == "event"
    requires dataKey == "Data" || dataKey == "data"
    requires "Event" !in others && "event" !in others && "Data" !in others && "data" !in others
    ensures ParseEnvelope(Obj(others[eventKey := Str(name)][dataKey := data])) == Some(Envelope(name, data))
  {
    assert "event" != "Event" && "data" != "Data";
    assert |"event"| == 5 && |"Event"| == 5 && |"data"| == 4 && |"Data"| == 4;
  }

  /** The game's own spelling. */
  lemma GameSpelling(fromText: FromText, name: string, data: Json)
    ensures ParseEvent(fromText, Obj(map["Event" := Str(name), "Data" := data])) ==
            ParseEvent(fromText, Obj(map["event" := Str(name), "data" := data]))
  {
    SpellingsAgree(map[], "Event", "Data", name, data);
    SpellingsAgree(map[], "event", "data", name, data);
    assert map[]["Event" := Str(name)]["Data" := data] == map["Event" := Str(name), "Data" := data];
    assert map[]["event" := Str(name)]["data" := data] == map["event" := Str(name), "data" := data];
  }

  /** What a message has to be: an object with one spelling of each key, a string for a name, and data that, if a
      string, are JSON text, and that conform to the event's record if it has one. */
  ghost predicate IsMessage(fromText: FromText, j: Json) {
    OneOf(j, "Event", "event") && OneOf(j, "Data", "data") &&
    var name := j.members[if "Event" in j.members then "Event" else "event"];
    var given := j.members[if "Data" in j.members then "Data" else "data"];
    name.Str? && (given.Str? ==> fromText(given.s).Some?) &&
    var data := if given.Str? then fromText(given.s).value else given;
    RecordOf(Canonical(name.s)).Some? ==> Conforms(RecordOf(Canonical(name.s)).value, data)
  }

  /** Exactly messages are accepted. */
  lemma MessagesAreAccepted(fromText: FromText, j: Json)
    ensures ParseEvent(fromText, j).Some? <==> IsMessage(fromText, j)
  {
    EitherIsOne(j, "Event", "event");
    EitherIsOne(j, "Data", "data");
    if ParseEnvelope(j).Some? {
      var Envelope(name, given) := ParseEnvelope(j).value;
      if NormalizeData(fromText, given).Some? { DataAccepted(name, NormalizeData(fromText, given).value); }
    }
  }

  lemma DataAccepted(name: string, data: Json)
    ensures FromData(name, data).Some? <==>
            (RecordOf(Canonical(name)).Some? ==> Conforms(RecordOf(Canonical(name)).value, data))
    ensures FromData(name, data).Some? && RecordOf(Canonical(name)).Some? ==>
              FromData(name, data).value.Typed? &&
              Reads(RecordOf(Canonical(name)).value, data, FromData(name, data).value.data)
  {
    if RecordOf(Canonical(name)).Some? {
      ParseAccepts(RecordOf(Canonical(name)).value, data);
      if Parse(RecordOf(Canonical(name)).value, data).Some? { ParsedReads(RecordOf(Canonical(name)).value, data); }
    }
  }

  lemma AliasNames(alias: string)
    requires alias == "ReplayEnd" || alias == "ReplayStart" || alias == "ReplayWillEnd"
    ensures Canonical(alias) == Canonical("Goal" + alias) == "Goal" + alias && RecordOf("Goal" + alias) == Some(MATCH_ONLY)
  {
    assert "Goal" + "ReplayEnd" == "GoalReplayEnd" && "Goal" + "ReplayStart" == "GoalReplayStart";
    assert "Goal" + "ReplayWillEnd" == "GoalReplayWillEnd";
  }

  /** The three replay events are accepted under their short names just as under their long ones, which they are
      then known by. */
  lemma AliasesLand(alias: string, data: Json)
    requires alias == "ReplayEnd" || alias == "ReplayStart" || alias == "ReplayWillEnd"
    ensures FromData(alias, data) == FromData("Goal" + alias, data)
    ensures FromData(alias, data).Some? <==> Conforms(MATCH_ONLY, data)
    ensures FromData(alias, data).Some? ==> FromData(alias, data).value.name == "Goal" + alias
  {
    AliasNames(alias);
    ParseAccepts(MATCH_ONLY, data);
    FromRecord(alias, "Goal" + alias, MATCH_ONLY, data);
    FromRecord("Goal" + alias, "Goal" + alias, MATCH_ONLY, data);
  }

  lemma FromRecord(event: string, name: string, ty: Ty, data: Json)
    requires Canonical(event) == name && RecordOf(name) == Some(ty)
    ensures FromData(event, data) == match Parse(ty, data) case None => None case Some(v) => Some(Typed(name, v))
  {
  }

  lemma FieldsConform(fields: map<string, Field>, keepsExtra: bool, j: Json, name: string)
    requires name in fields && Conforms(TRec(fields, keepsExtra), j)
    ensures j.Obj? && (fields[name].kind.Needed? ==> name in j.members)
    ensures name in j.members ==> ConformsField(fields[name], j.members[name])
  {
  }

  /** A goal must come with its location, */
  lemma GoalNeedsLocation(j: Json)
    requires Conforms(GOAL_SCORED, j)
    ensures j.Obj? && "ImpactLocation" in j.members && Conforms(VECTOR3, j.members["ImpactLocation"])
  {
    assert "ImpactLocation" in GOAL_SCORED.fields && GOAL_SCORED.fields["ImpactLocation"] == Field(VECTOR3, Needed);
    FieldsConform(GOAL_SCORED.fields, true, j, "ImpactLocation");
  }

  /** a crossbar hit with the ball's, */
  lemma CrossbarNeedsLocation(j: Json)
    requires Conforms(CROSSBAR_HIT, j)
    ensures j.Obj? && "BallLocation" in j.members && Conforms(VECTOR3, j.members["BallLocation"])
  {
    assert "BallLocation" in CROSSBAR_HIT.fields && CROSSBAR_HIT.fields["BallLocation"] == Field(VECTOR3, Needed);
    FieldsConform(CROSSBAR_HIT.fields, true, j, "BallLocation");
  }

  /** and so must the ball of a hit, if it is there. */
  lemma BallNeedsLocation(j: Json)
    requires Conforms(BALL_HIT, j)
    ensures j.Obj? && ("Ball" in j.members ==> j.members["Ball"].Obj? && "Location" in j.members["Ball"].members)
  {
    assert "Ball" in BALL_HIT.fields && BALL_HIT.fields["Ball"] == D(BALL_HIT_BALL);
    FieldsConform(BALL_HIT.fields, true, j, "Ball");
    if "Ball" in j.members {
      assert "Location" in BALL_HIT_BALL.fields && BALL_HIT_BALL.fields["Location"] == Field(VECTOR3, Needed);
      FieldsConform(BALL_HIT_BALL.fields, true, j.members["Ball"], "Location");
    }
  }

  /** These are the records of the three events. */
  lemma GoalRecord()
    ensures RecordOf("GoalScored") == Some(GOAL_SCORED)
  {
  }

  lemma CrossbarRecord()
    ensures RecordOf("CrossbarHit") == Some(CROSSBAR_HIT)
  {
  }

  lemma BallRecord()
    ensures RecordOf("BallHit") == Some(BALL_HIT)
  {
  }
}
