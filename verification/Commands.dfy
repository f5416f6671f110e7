/** The commands of src/commands.rs: their validation, and their conversion to and from JSON. */
module Commands {
  import opened Wrappers
  import opened Json
  import Decimal

  type u32 = n: nat | n < 0x1_0000_0000
  type u64 = n: nat | n < 0x1_0000_0000_0000_0000

  datatype Perspective = Fly | SoftAttach | HardAttach | PlayerView | AutoCam | CameraDirector

  datatype PovFocus = Ball | Player(shortcut: u32)

  datatype StatsCommand =
    | ChangePov(focus: Option<PovFocus>, perspective: Option<Perspective>)
    | LoadReplay(fileName: Option<string>, path: Option<string>)
    | SeekReplay(frame: Option<u64>, timeSeconds: Option<F64>)
    | SetGameSpeed(speed: F64)
    | SetHudVisibility(visible: bool)
    | SetMatchPaused(paused: bool)

  datatype Reason =
    | NeedsFocusOrPerspective
    | NeedsFileOrPath
    | NeedsFrameOrTime
    | BadTime
    | BadSpeed
    | MissingCommand
    | BadMember(key: string)
    | Unsupported

  datatype Error = InvalidCommand(command: string, reason: Reason)

  // ---- Names ----

  function PerspectiveName(p: Perspective): string {
    match p
    case Fly => "Fly"
    case SoftAttach => "SoftAttach"
    case HardAttach => "HardAttach"
    case PlayerView => "PlayerView"
    case AutoCam => "AutoCam"
    case CameraDirector => "Camera_Director"
  }

  const PERSPECTIVES: seq<Perspective> := [Fly, SoftAttach, HardAttach, PlayerView, AutoCam, CameraDirector]

  /** The first of the perspectives that has the name. */
  function FindPerspective(all: seq<Perspective>, name: string): Option<Perspective> {
    if all == [] then None
    else if PerspectiveName(all[0]) == name then Some(all[0])
    else FindPerspective(all[1..], name)
  }

  function PerspectiveFromName(name: string): Option<Perspective> { FindPerspective(PERSPECTIVES, name) }

  function FocusToWire(focus: PovFocus): string {
    match focus
    case Ball => "Ball"
    case Player(shortcut) => Decimal.Print(shortcut)
  }

  function FocusFromWire(raw: string): Option<PovFocus> {
    if raw == "Ball" then Some(Ball)
    else if raw == "" || !Decimal.AllDigits(raw) then None
    else
      match Decimal.ParseUnsigned(raw, 0x1_0000_0000)
      case None => None
      case Some(shortcut) => Some(Player(shortcut))
  }

  function Name(c: StatsCommand): string {
    match c
    case ChangePov(_, _) => "ChangePOV"
    case LoadReplay(_, _) => "LoadReplay"
    case SeekReplay(_, _) => "SeekReplay"
    case SetGameSpeed(_) => "SetGameSpeed"
    case SetHudVisibility(_) => "SetHUDVisibility"
    case SetMatchPaused(_) => "SetMatchPaused"
  }

  // ---- Validation ----

  predicate IsBlank(s: Option<string>) { s.None? || s.value == "" }

  predicate IsAmount(f: F64) { f.Finite? && f.value >= 0.0 }

  function Objection(c: StatsCommand): Option<Reason> {
    match c
    case ChangePov(None, None) => Some(NeedsFocusOrPerspective)
    case LoadReplay(fileName, path) => if IsBlank(fileName) && IsBlank(path) then Some(NeedsFileOrPath) else None
    case SeekReplay(None, None) => Some(NeedsFrameOrTime)
    case SeekReplay(_, Some(time)) => if !IsAmount(time) then Some(BadTime) else None
    case SetGameSpeed(speed) => if !IsAmount(speed) then Some(BadSpeed) else None
    case _ => None
  }

  function Validate(c: StatsCommand): Option<Error> {
    match Objection(c)
    case None => None
    case Some(reason) => Some(InvalidCommand(Name(c), reason))
  }

  // ---- To JSON ----

  /** One member if there is a value for it. */
  function Given(key: string, value: Option<Json>): map<string, Json> {
    if value.Some? then map[key := value.value] else map[]
  }

  function TextMember(key: string, s: Option<string>): map<string, Json> {
    Given(key, if IsBlank(s) then None else Some(Str(s.value)))
  }

  function Members(c: StatsCommand): map<string, Json> {
    match c
    case ChangePov(focus, perspective) =>
      Given("Focus", if focus.Some? then Some(Str(FocusToWire(focus.value))) else None) +
      Given("Perspective", if perspective.Some? then Some(Str(PerspectiveName(perspective.value))) else None)
    case LoadReplay(fileName, path) => TextMember("FileName", fileName) + TextMember("Path", path)
    case SeekReplay(frame, time) =>
      Given("Frame", if frame.Some? then Some(Int(frame.value)) else None) +
      Given("TimeSeconds", if time.Some? then Some(FromF64(time.value)) else None)
    case SetGameSpeed(speed) => map["Speed" := FromF64(speed)]
    case SetHudVisibility(visible) => map["bVisible" := Bool(visible)]
    case SetMatchPaused(paused) => map["bPaused" := Bool(paused)]
  }

  /** The JSON of a command, valid or not. */
  function Wire(c: StatsCommand): Json { Obj(map["Command" := Str(Name(c)), "Data" := Obj(Members(c))]) }

  function ToWire(c: StatsCommand): Result<Json, Error> {
    match Validate(c)
    case Some(error) => Err(error)
    case None => Ok(Wire(c))
  }

  /** StatsCommand::to_value, which fills the data member by member. */
  method ToValue(c: StatsCommand) returns (r: Result<Json, Error>)
    ensures r == ToWire(c)
  {
    var objection := Validate(c);
    if objection.Some? { return Err(objection.value); }
    var data: map<string, Json> := map[];
    match c {
      case ChangePov(focus, perspective) =>
        if focus.Some? { data := data["Focus" := Str(FocusToWire(focus.value))]; }
        if perspective.Some? { data := data["Perspective" := Str(PerspectiveName(perspective.value))]; }
      case LoadReplay(fileName, path) =>
        if fileName.Some? && fileName.value != "" { data := data["FileName" := Str(fileName.value)]; }
        if path.Some? && path.value != "" { data := data["Path" := Str(path.value)]; }
      case SeekReplay(frame, time) =>
        if frame.Some? { data := data["Frame" := Int(frame.value)]; }
        if time.Some? { data := data["TimeSeconds" := FromF64(time.value)]; }
      case SetGameSpeed(speed) => data := data["Speed" := FromF64(speed)];
      case SetHudVisibility(visible) => data := data["bVisible" := Bool(visible)];
      case SetMatchPaused(paused) => data := data["bPaused" := Bool(paused)];
    }
    assert data == Members(c);
    return Ok(Obj(map["Command" := Str(Name(c)), "Data" := Obj(data)]));
  }

  // ---- From JSON ----

  /** A member that need not be there but must convert if it is. */
  function Converted<T>(data: Json, key: string, convert: Json -> Option<T>): Result<Option<T>, Reason> {
    match Member(data, key)
    case None => Ok(None)
    case Some(raw) => if convert(raw).Some? then Ok(Some(convert(raw).value)) else Err(BadMember(key))
  }

  function AsText(j: Json): Option<string> { if j.Str? then Some(j.s) else None }

  function AsFocus(j: Json): Option<PovFocus> { if j.Str? then FocusFromWire(j.s) else None }

  function AsPerspective(j: Json): Option<Perspective> { if j.Str? then PerspectiveFromName(j.s) else None }

  function AsU64(j: Json): Option<u64> { if j.Int? && IsU64(j.i) then Some(j.i) else None }

  function AsBool(j: Json): Option<bool> { if j.Bool? then Some(j.b) else None }

  /** Two members, the first of which is complained of first. */
  function Both<A, B>(a: Result<A, Reason>, b: Result<B, Reason>, make: (A, B) -> StatsCommand): Result<StatsCommand, Reason> {
    if a.Err? then Err(a.error) else if b.Err? then Err(b.error) else Ok(make(a.value, b.value))
  }

  /** A member that must be there. */
  function Required<T>(a: Result<Option<T>, Reason>, key: string, make: T -> StatsCommand): Result<StatsCommand, Reason> {
    if a.Err? then Err(a.error) else if a.value.None? then Err(BadMember(key)) else Ok(make(a.value.value))
  }

  function FromMembers(name: string, data: Json): Result<StatsCommand, Reason> {
    if name == "ChangePOV" then
      Both(Converted(data, "Focus", AsFocus), Converted(data, "Perspective", AsPerspective), (a, b) => ChangePov(a, b))
    else if name == "LoadReplay" then
      Both(Converted(data, "FileName", AsText), Converted(data, "Path", AsText), (a, b) => LoadReplay(a, b))
    else if name == "SeekReplay" then
      Both(Converted(data, "Frame", AsU64), Converted(data, "TimeSeconds", AsF64), (a, b) => SeekReplay(a, b))
    else if name == "SetGameSpeed" then
      Required(Converted(data, "Speed", AsF64), "Speed", a => SetGameSpeed(a))
    else if name == "SetHUDVisibility" then
      Required(Converted(data, "bVisible", AsBool), "bVisible", a => SetHudVisibility(a))
    else if name == "SetMatchPaused" then
      Required(Converted(data, "bPaused", AsBool), "bPaused", a => SetMatchPaused(a))
    else Err(Unsupported)
  }

  /** Data that are missing or no object count as empty. */
  function DataOf(j: Json): Json {
    match Member(j, "Data")
    case Some(data) => data
    case None => Null
  }

  function FromValue(j: Json): Result<StatsCommand, Error> {
    match Member(j, "Command")
    case Some(Str(name)) =>
      (match FromMembers(name, DataOf(j))
       case Err(reason) => Err(InvalidCommand(name, reason))
       case Ok(c) =>
         match Validate(c)
         case Some(error) => Err(error)
         case None => Ok(c))
    case _ => Err(InvalidCommand("", MissingCommand))
  }

  // ---- Shortcuts ----

  lemma {:induction false} PrintOfValue(s: string)
    requires s != "" && Decimal.AllDigits(s) && (|s| == 1 || s[0] != '0')
    ensures Decimal.Print(Decimal.Value(s)) == s
    ensures |s| > 1 || s[0] != '0' ==> Decimal.Value(s) > 0
    decreases |s|
  {
    var d := Decimal.DigitValue(s[|s| - 1]);
    assert Decimal.DigitChar(d) == s[|s| - 1];
    if |s| == 1 {
      assert s[..0] == "" && s == [s[0]];
    } else {
      var front := s[..|s| - 1];
      PrintOfValue(front);
      assert s == front + [s[|s| - 1]];
    }
  }

  lemma {:induction false} PrintHasNoZeroFirst(n: nat)
    ensures n > 0 ==> Decimal.Print(n)[0] != '0'
    ensures |Decimal.Print(n)| > 1 ==> n >= 10
  {
    if n >= 10 { PrintHasNoZeroFirst(n / 10); }
  }

  /** The text of a shortcut: any non-empty run of digits below 2^32, leading zeros included. */
  lemma FocusAccepts(raw: string)
    ensures FocusFromWire(raw).Some? <==>
            raw == "Ball" || (raw != "" && Decimal.AllDigits(raw) && Decimal.Value(raw) < 0x1_0000_0000)
    ensures FocusFromWire(raw).Some? && raw != "Ball" ==> FocusFromWire(raw).value == Player(Decimal.Value(raw))
  {
    if raw != "" && Decimal.AllDigits(raw) { assert Decimal.IsDigit(raw[0]); }
  }

  lemma FocusComesBack(focus: PovFocus)
    ensures FocusFromWire(FocusToWire(focus)) == Some(focus)
  {
    if focus.Player? {
      Decimal.PrintValue(focus.shortcut);
      FocusAccepts(FocusToWire(focus));
      assert Decimal.IsDigit(FocusToWire(focus)[0]);
      assert !Decimal.IsDigit("Ball"[0]);
    }
  }

  /** The text comes back exactly when it has no needless zeros in front. */
  lemma FocusTextComesBack(raw: string)
    requires FocusFromWire(raw).Some?
    ensures FocusToWire(FocusFromWire(raw).value) == raw <==> |raw| == 1 || raw[0] != '0'
  {
    FocusAccepts(raw);
    if raw != "Ball" {
      var n := Decimal.Value(raw);
      if |raw| == 1 || raw[0] != '0' {
        PrintOfValue(raw);
      } else {
        PrintHasNoZeroFirst(n);
      }
    }
  }

  lemma {:induction false} FindFinds(all: seq<Perspective>, p: Perspective)
    requires p in all
    ensures FindPerspective(all, PerspectiveName(p)).Some?
    ensures PerspectiveName(FindPerspective(all, PerspectiveName(p)).value) == PerspectiveName(p)
  {
    if PerspectiveName(all[0]) != PerspectiveName(p) { FindFinds(all[1..], p); }
  }

  lemma NamesDiffer(p: Perspective, q: Perspective)
    requires PerspectiveName(p) == PerspectiveName(q)
    ensures p == q
  {
  }

  lemma PerspectiveComesBack(p: Perspective)
    ensures PerspectiveFromName(PerspectiveName(p)) == Some(p)
  {
    assert p in PERSPECTIVES by {
      match p
      case Fly => assert PERSPECTIVES[0] == p;
      case SoftAttach => assert PERSPECTIVES[1] == p;
      case HardAttach => assert PERSPECTIVES[2] == p;
      case PlayerView => assert PERSPECTIVES[3] == p;
      case AutoCam => assert PERSPECTIVES[4] == p;
      case CameraDirector => assert PERSPECTIVES[5] == p;
    }
    FindFinds(PERSPECTIVES, p);
    NamesDiffer(FindPerspective(PERSPECTIVES, PerspectiveName(p)).value, p);
  }

  // ---- Round trips ----

  /** Empty replay strings count as absent. */
  function Unblank(s: Option<string>): Option<string> { if IsBlank(s) then None else s }

  function Normalize(c: StatsCommand): StatsCommand {
    match c
    case LoadReplay(fileName, path) => LoadReplay(Unblank(fileName), Unblank(path))
    case _ => c
  }

  lemma NormalizeKeeps(c: StatsCommand)
    ensures Wire(Normalize(c)) == Wire(c) && Validate(Normalize(c)) == Validate(c)
    ensures Normalize(Normalize(c)) == Normalize(c)
  {
  }

  lemma WireMembers(c: StatsCommand)
    ensures Member(Wire(c), "Command") == Some(Str(Name(c))) && DataOf(Wire(c)) == Obj(Members(c))
  {
  }

  /** The members of a command give the command again, if its numbers are finite. */
  lemma MembersComeBack(c: StatsCommand)
    requires c.SeekReplay? && c.timeSeconds.Some? ==> c.timeSeconds.value.Finite?
    requires c.SetGameSpeed? ==> c.speed.Finite?
    ensures FromMembers(Name(c), Obj(Members(c))) == Ok(Normalize(c))
  {
    var data := Obj(Members(c));
    match c
    case ChangePov(focus, perspective) =>
      if focus.Some? { FocusComesBack(focus.value); }
      if perspective.Some? { PerspectiveComesBack(perspective.value); }
      assert Converted(data, "Focus", AsFocus) == Ok(focus);
      assert Converted(data, "Perspective", AsPerspective) == Ok(perspective);
    case LoadReplay(fileName, path) =>
      assert Converted(data, "FileName", AsText) == Ok(Unblank(fileName));
      assert Converted(data, "Path", AsText) == Ok(Unblank(path));
    case SeekReplay(frame, time) =>
      assert Converted(data, "Frame", AsU64) == Ok(frame);
      assert Converted(data, "TimeSeconds", AsF64) == Ok(time);
    case SetGameSpeed(_) => case SetHudVisibility(_) => case SetMatchPaused(_) =>
  }

  /** A valid command comes back, with empty replay strings turned into absent ones. */
  lemma CommandComesBack(c: StatsCommand)
    requires Validate(c).None?
    ensures ToWire(c).Ok? && FromValue(ToWire(c).value) == Ok(Normalize(c))
  {
    WireMembers(c);
    MembersComeBack(c);
    NormalizeKeeps(c);
  }

  /** It comes back as it was exactly when it has no empty replay string. */
  lemma ComesBackExactly(c: StatsCommand)
    requires Validate(c).None?
    ensures FromValue(ToWire(c).value) == Ok(c) <==>
            !(c.LoadReplay? && (c.fileName == Some("") || c.path == Some("")))
  {
    CommandComesBack(c);
  }

  /** Both directions reject exactly the invalid commands: printing gives the validation error, and reading
      what an invalid command would have been printed as fails. */
  lemma InvalidIsRejected(c: StatsCommand)
    ensures ToWire(c).Ok? <==> Validate(c).None?
    ensures FromValue(Wire(c)).Ok? <==> Validate(c).None?
  {
    WireMembers(c);
    if Validate(c).None? {
      CommandComesBack(c);
    } else if c.SeekReplay? && c.timeSeconds.Some? && !c.timeSeconds.value.Finite? {
      assert Converted(Obj(Members(c)), "TimeSeconds", AsF64).Err?;
    } else if c.SetGameSpeed? && !c.speed.Finite? {
      assert Converted(Obj(Members(c)), "Speed", AsF64).Err?;
    } else {
      MembersComeBack(c);
      NormalizeKeeps(c);
    }
  }

  /** Whatever is read is valid, and printing it and reading it again settles at once. */
  lemma ReadIsStable(j: Json)
    requires FromValue(j).Ok?
    ensures var c := FromValue(j).value;
            Validate(c).None? && FromValue(ToWire(c).value) == Ok(Normalize(c)) &&
            ToWire(Normalize(c)) == ToWire(c) && FromValue(ToWire(Normalize(c)).value) == Ok(Normalize(c))
  {
    var c := FromValue(j).value;
    CommandComesBack(c);
    NormalizeKeeps(c);
  }

  // ---- What is accepted, and as what ----

  /** A command that makes sense: it says what to look at, to load or to seek, and its amounts are finite and
      not negative. */
  predicate Sensible(c: StatsCommand) {
    match c
    case ChangePov(focus, perspective) => focus.Some? || perspective.Some?
    case LoadReplay(fileName, path) => (fileName.Some? && fileName.value != "") || (path.Some? && path.value != "")
    case SeekReplay(frame, time) =>
      (frame.Some? || time.Some?) && (time.Some? ==> time.value.Finite? && !(time.value.value < 0.0))
    case SetGameSpeed(speed) => speed.Finite? && !(speed.value < 0.0)
    case SetHudVisibility(_) => true
    case SetMatchPaused(_) => true
  }

  /** Exactly sensible commands are valid, and so are printed. */
  lemma ValidIsSensible(c: StatsCommand)
    ensures Validate(c).None? <==> Sensible(c)
    ensures ToWire(c).Ok? <==> Sensible(c)
  {
  }

  /** A member is there as a string just if there is one. */
  predicate SaysText(data: Json, key: string, s: Option<string>) {
    if s.None? then !HasMember(data, key) else HasMember(data, key) && data.members[key] == Str(s.value)
  }

  predicate HasMember(data: Json, key: string) { data.Obj? && key in data.members }

  /** A member is there as a number just if there is one. */
  predicate SaysNumber(data: Json, key: string, f: Option<F64>) {
    if f.None? then !HasMember(data, key)
    else
      HasMember(data, key) && f.value.Finite? &&
      (data.members[key] == Float(f.value.value) || (data.members[key].Int? && data.members[key].i as real == f.value.value))
  }

  predicate SaysFocus(data: Json, focus: Option<PovFocus>) {
    if focus.None? then !HasMember(data, "Focus")
    else
      HasMember(data, "Focus") && data.members["Focus"].Str? &&
      var raw := data.members["Focus"].s;
      if focus.value.Ball? then raw == "Ball"
      else raw != "" && Decimal.AllDigits(raw) && Decimal.Value(raw) == focus.value.shortcut
  }

  /** The JSON says this command: its name, and under `Data` the command's members, with others ignored. */
  predicate Says(j: Json, c: StatsCommand) {
    HasMember(j, "Command") &&
    var data := if HasMember(j, "Data") then j.members["Data"] else Null;
    match c
    case ChangePov(focus, perspective) =>
      j.members["Command"] == Str("ChangePOV") && SaysFocus(data, focus) &&
      SaysText(data, "Perspective", if perspective.None? then None else Some(PerspectiveName(perspective.value)))
    case LoadReplay(fileName, path) =>
      j.members["Command"] == Str("LoadReplay") && SaysText(data, "FileName", fileName) && SaysText(data, "Path", path)
    case SeekReplay(frame, time) =>
      j.members["Command"] == Str("SeekReplay") && SaysNumber(data, "TimeSeconds", time) &&
      if frame.None? then !HasMember(data, "Frame") else HasMember(data, "Frame") && data.members["Frame"] == Int(frame.value)
    case SetGameSpeed(speed) => j.members["Command"] == Str("SetGameSpeed") && SaysNumber(data, "Speed", Some(speed))
    case SetHudVisibility(visible) =>
      j.members["Command"] == Str("SetHUDVisibility") && HasMember(data, "bVisible") && data.members["bVisible"] == Bool(visible)
    case SetMatchPaused(paused) =>
      j.members["Command"] == Str("SetMatchPaused") && HasMember(data, "bPaused") && data.members["bPaused"] == Bool(paused)
  }

  lemma TextConverted(data: Json, key: string, s: Option<string>)
    ensures Converted(data, key, AsText) == Ok(s) <==> SaysText(data, key, s)
  {
  }

  lemma NumberConverted(data: Json, key: string, f: Option<F64>)
    ensures Converted(data, key, AsF64) == Ok(f) <==> SaysNumber(data, key, f)
  {
  }

  lemma FocusConverted(data: Json, focus: Option<PovFocus>)
    ensures Converted(data, "Focus", AsFocus) == Ok(focus) <==> SaysFocus(data, focus)
  {
    if HasMember(data, "Focus") && data.members["Focus"].Str? {
      FocusAccepts(data.members["Focus"].s);
      assert !Decimal.IsDigit("Ball"[0]);
    }
  }

  lemma PerspectiveConverted(data: Json, p: Option<Perspective>)
    ensures Converted(data, "Perspective", AsPerspective) == Ok(p) <==>
            SaysText(data, "Perspective", if p.None? then None else Some(PerspectiveName(p.value)))
  {
    if p.Some? { PerspectiveComesBack(p.value); }
    if HasMember(data, "Perspective") && data.members["Perspective"].Str? {
      FoundHasName(PERSPECTIVES, data.members["Perspective"].s);
    }
  }

  lemma {:induction false} FoundHasName(all: seq<Perspective>, name: string)
    ensures FindPerspective(all, name).Some? ==> PerspectiveName(FindPerspective(all, name).value) == name
  {
    if all != [] && PerspectiveName(all[0]) != name { FoundHasName(all[1..], name); }
  }

  /** The members read as a command exactly if they say it. */
  lemma MembersSay(j: Json, c: StatsCommand)
    ensures HasMember(j, "Command") && j.members["Command"].Str? && FromMembers(j.members["Command"].s, DataOf(j)) == Ok(c) <==>
            Says(j, c)
  {
    var data := DataOf(j);
    match c
    case ChangePov(focus, perspective) =>
      FocusConverted(data, focus);
      PerspectiveConverted(data, perspective);
    case LoadReplay(fileName, path) =>
      TextConverted(data, "FileName", fileName);
      TextConverted(data, "Path", path);
    case SeekReplay(_, time) => NumberConverted(data, "TimeSeconds", time);
    case SetGameSpeed(speed) => NumberConverted(data, "Speed", Some(speed));
    case SetHudVisibility(_) => case SetMatchPaused(_) =>
  }

  /** A command is read from JSON exactly if the JSON says it and it makes sense. */
  lemma ReadsWhatItSays(j: Json, c: StatsCommand)
    ensures FromValue(j) == Ok(c) <==> Says(j, c) && Sensible(c)
  {
    ValidIsSensible(c);
    MembersSay(j, c);
  }

  /** And a command that makes sense is printed as JSON that says it, empty replay strings aside. */
  lemma PrintsWhatItSays(c: StatsCommand)
    requires Sensible(c)
    ensures ToWire(c).Ok? && Says(ToWire(c).value, Normalize(c)) && Sensible(Normalize(c))
  {
    ValidIsSensible(c);
    CommandComesBack(c);
    ReadsWhatItSays(ToWire(c).value, Normalize(c));
  }
}
