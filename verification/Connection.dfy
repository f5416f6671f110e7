/** The connection policy of src/config.rs, with the contents of the INI file as its state. */
module Connection {
  import opened Wrappers
  import opened Text
  import opened Decimal
  import opened Rate
  import opened Ini
  import opened IniLaws

  type u16 = n: nat | n < 0x1_0000

  const DEFAULT_PORT: u16 := 49123
  const DEFAULT_WEB_PORT: u16 := 49124
  const PORT := "Port"
  const WEB_PORT := "WebPort"
  const PACKET_SEND_RATE := "PacketSendRate"

  datatype Options = Options(host: string, portOverride: Option<u16>, autoEnable: bool, rate: Rate, onlyWhenZero: bool)

  datatype Config = Config(host: string, port: u16, webPort: u16, rate: Rate, mutated: bool)

  /** The error of two equal ports. */
  datatype PortConflict = PortConflict(port: u16)

  type Prepared = Result<Config, PortConflict>

  // ---- Reading ----

  function ToPort(text: Option<string>): Option<u16> {
    if text.None? then None
    else
      match ParseUnsigned(text.value, 0x1_0000)
      case Some(n) => var port: u16 := n; Some(port)
      case None => None
  }

  function ToRate(text: Option<string>): Option<Rate> { if text.None? then None else Parse(text.value) }

  function FindPort(ini: string, key: string): Option<u16> { ToPort(Find(ini, key)) }

  function FindRate(ini: string): Option<Rate> { ToRate(Find(ini, PACKET_SEND_RATE)) }

  /** The rate the file asks for, which is 0 unless it has one. */
  function ExistingRate(ini: string): Rate { if FindRate(ini).Some? then FindRate(ini).value else Finite(0.0) }

  function FindWebPort(ini: string): u16 {
    match FindPort(ini, WEB_PORT)
    case Some(p) => p
    case None => DEFAULT_WEB_PORT
  }

  // ---- What a run does to the file, and what it returns ----

  /** A port that the file may set: not 0. */
  function UsablePort(ini: string): Option<u16> {
    match FindPort(ini, PORT)
    case Some(p) => if p > 0 then Some(p) else None
    case None => None
  }

  predicate WritesPort(o: Options, ini: string) { o.portOverride.None? && UsablePort(ini).None? }

  predicate WritesRate(o: Options, ini: string) {
    o.autoEnable && (o.onlyWhenZero ==> NonPositive(ExistingRate(ini)))
  }

  function AfterPort(o: Options, ini: string): string {
    if WritesPort(o, ini) then Upsert(ini, PORT, Print(DEFAULT_PORT)) else ini
  }

  function AfterRate(o: Options, ini: string): string {
    if WritesRate(o, ini) then Upsert(ini, PACKET_SEND_RATE, Format(Clamp(o.rate))) else ini
  }

  function AfterRun(o: Options, ini: string): string { AfterRate(o, AfterPort(o, ini)) }

  predicate Mutates(o: Options, ini: string) { WritesPort(o, ini) || WritesRate(o, AfterPort(o, ini)) }

  function ChosenPort(o: Options, ini: string): u16 {
    if o.portOverride.Some? then o.portOverride.value
    else if UsablePort(ini).Some? then UsablePort(ini).value
    else DEFAULT_PORT
  }

  function Checked(config: Config): Prepared {
    if config.webPort != 0 && config.webPort == config.port then Err(PortConflict(config.port)) else Ok(config)
  }

  /** Result of a run on a file with contents `ini`. */
  function Prepare(o: Options, ini: string): Prepared {
    var after := AfterRun(o, ini);
    var rate := if FindRate(after).Some? then FindRate(after).value else o.rate;
    Checked(Config(o.host, ChosenPort(o, ini), FindWebPort(after), Clamp(rate), Mutates(o, ini)))
  }

  /** Result of a run without a file. */
  function PrepareWithoutFile(o: Options): Prepared {
    var port := if o.portOverride.Some? then o.portOverride.value else DEFAULT_PORT;
    Checked(Config(o.host, port, DEFAULT_WEB_PORT, Clamp(o.rate), false))
  }

  class IniFile {
    var contents: string

    constructor (contents: string)
      ensures this.contents == contents
    {
      this.contents := contents;
    }
  }

  /** The file is written before the ports are compared, so a port conflict leaves the edits in it. */
  method PrepareConnectionConfig(o: Options, file: IniFile?) returns (r: Prepared)
    modifies file
    ensures file == null ==> r == PrepareWithoutFile(o)
    ensures file != null ==> r == Prepare(o, old(file.contents)) && file.contents == AfterRun(o, old(file.contents))
  {
    var port := if o.portOverride.Some? then o.portOverride.value else DEFAULT_PORT;
    var webPort := DEFAULT_WEB_PORT;
    var packetSendRate := Clamp(o.rate);
    var iniMutated := false;
    if file != null {
      var ini := file.contents;
      if o.portOverride.None? {
        var text := FindStringValue(ini, PORT);
        var parsed := ToPort(text);
        if parsed.Some? && parsed.value > 0 {
          port := parsed.value;
        } else {
          ini := UpsertKey(ini, PORT, Print(port));
          iniMutated := true;
        }
      }
      if o.autoEnable {
        var text := FindStringValue(ini, PACKET_SEND_RATE);
        var existing := if ToRate(text).Some? then ToRate(text).value else Finite(0.0);
        var shouldSet := if o.onlyWhenZero then NonPositive(existing) else true;
        if shouldSet {
          var formatted := FormatRate(packetSendRate);
          ini := UpsertKey(ini, PACKET_SEND_RATE, formatted);
          iniMutated := true;
        } else {
          packetSendRate := Clamp(existing);
        }
        if iniMutated { file.contents := ini; }
      } else if iniMutated {
        file.contents := ini;
      }
      var text := FindStringValue(ini, PACKET_SEND_RATE);
      if ToRate(text).Some? { packetSendRate := Clamp(ToRate(text).value); }
      text := FindStringValue(ini, WEB_PORT);
      if ToPort(text).Some? { webPort := ToPort(text).value; }
    }
    if webPort != 0 && webPort == port { return Err(PortConflict(port)); }
    r := Ok(Config(o.host, port, webPort, packetSendRate, iniMutated));
  }

  // ---- What is written can be read back ----

  lemma KeysAreClean()
    ensures CleanKey(PORT) && CleanKey(PACKET_SEND_RATE)
    ensures !EqIgnoreCase(PORT, PACKET_SEND_RATE) && !EqIgnoreCase(PORT, WEB_PORT) && !EqIgnoreCase(PACKET_SEND_RATE, WEB_PORT)
    ensures !EqIgnoreCase(PACKET_SEND_RATE, PORT)
  {
    assert |PORT| == 4 && |PACKET_SEND_RATE| == 14 && |WEB_PORT| == 7;
  }

  lemma NumeralsAreClean(s: string)
    requires s != "" && forall i | 0 <= i < |s| :: IsDigit(s[i]) || s[i] == '.'
    ensures CleanValue(s)
  {
  }

  lemma FormattedIsClean(rate: Rate)
    requires Clamped(rate)
    ensures CleanValue(Format(rate))
  {
    if rate.Finite? {
      ShortestDecimals(Thousandths(rate));
      NumeralsAreClean(Format(rate));
    }
  }

  /** After the port is written it reads as written, and no other key reads differently. */
  lemma PortWritten(o: Options, ini: string)
    requires WritesPort(o, ini)
    ensures FindPort(AfterPort(o, ini), PORT) == Some(DEFAULT_PORT)
    ensures FindRate(AfterPort(o, ini)) == FindRate(ini)
    ensures forall k | !EqIgnoreCase(PORT, k) :: Find(AfterPort(o, ini), k) == Find(ini, k)
  {
    var value := Print(DEFAULT_PORT);
    KeysAreClean();
    NumeralsAreClean(value);
    ParsePrinted(DEFAULT_PORT, 0x1_0000);
    EqIgnoreCaseReflexive(PORT);
    forall k ensures Find(AfterPort(o, ini), k) == if EqIgnoreCase(PORT, k) then Some(value) else Find(ini, k) {
      FindAfterUpsert(ini, PORT, value, k);
    }
  }

  /** After the rate is written it reads as the requested one, clamped and in thousandths. */
  lemma RateWritten(o: Options, ini: string)
    requires WritesRate(o, ini)
    ensures FindRate(AfterRate(o, ini)) == Some(WrittenRate(Clamp(o.rate)))
    ensures forall k | !EqIgnoreCase(PACKET_SEND_RATE, k) :: Find(AfterRate(o, ini), k) == Find(ini, k)
  {
    var value := Format(Clamp(o.rate));
    KeysAreClean();
    FormattedIsClean(Clamp(o.rate));
    ParseFormatted(Clamp(o.rate));
    EqIgnoreCaseReflexive(PACKET_SEND_RATE);
    forall k ensures Find(AfterRate(o, ini), k) == if EqIgnoreCase(PACKET_SEND_RATE, k) then Some(value) else Find(ini, k) {
      FindAfterUpsert(ini, PACKET_SEND_RATE, value, k);
    }
  }

  // ---- Laws ----

  /** Only the two keys are ever written: every other key reads after a run as before it. */
  lemma OtherKeysStay(o: Options, ini: string, k: string)
    requires !EqIgnoreCase(PORT, k) && !EqIgnoreCase(PACKET_SEND_RATE, k)
    ensures Find(AfterRun(o, ini), k) == Find(ini, k)
  {
    var mid := AfterPort(o, ini);
    if WritesPort(o, ini) { PortWritten(o, ini); }
    if WritesRate(o, mid) { RateWritten(o, mid); }
  }

  /** With a port given the file keeps its port; without one, the returned port is the one in the file. */
  lemma PortIsInFile(o: Options, ini: string)
    ensures o.portOverride.Some? ==> Find(AfterRun(o, ini), PORT) == Find(ini, PORT) && ChosenPort(o, ini) == o.portOverride.value
    ensures o.portOverride.None? ==> FindPort(AfterRun(o, ini), PORT) == Some(ChosenPort(o, ini)) && ChosenPort(o, ini) > 0
  {
    KeysAreClean();
    var mid := AfterPort(o, ini);
    if WritesPort(o, ini) { PortWritten(o, ini); }
    if WritesRate(o, mid) { RateWritten(o, mid); }
  }

  /** Writing the port does not touch the rate. */
  lemma PortLeavesRate(o: Options, ini: string)
    ensures FindRate(AfterPort(o, ini)) == FindRate(ini)
    ensures WritesRate(o, AfterPort(o, ini)) == WritesRate(o, ini)
  {
    if WritesPort(o, ini) { PortWritten(o, ini); }
  }

  /** The rate in the file after a run. */
  lemma RateInFile(o: Options, ini: string)
    ensures FindRate(AfterRun(o, ini)) == if WritesRate(o, ini) then Some(WrittenRate(Clamp(o.rate))) else FindRate(ini)
  {
    PortLeavesRate(o, ini);
    if WritesRate(o, AfterPort(o, ini)) { RateWritten(o, AfterPort(o, ini)); }
  }

  /** Outcomes that differ at most in whether the file was written. */
  predicate SameOutcome(a: Prepared, b: Prepared) {
    match (a, b)
    case (Ok(x), Ok(y)) => x.(mutated := true) == y.(mutated := true)
    case (Err(x), Err(y)) => x == y
    case _ => false
  }

  /** A requested rate that would be written as 0. */
  predicate PrintsZero(rate: Rate) { !rate.NaN? && Thousandths(Clamp(rate)) == 0 }

  /** A second run with the same options gives the same ports and rate, or the same port conflict, under
      every policy. */
  lemma SecondRunAgrees(o: Options, ini: string)
    ensures SameOutcome(Prepare(o, ini), Prepare(o, AfterRun(o, ini)))
  {
    var once := AfterRun(o, ini);
    KeysAreClean();
    PortIsInFile(o, ini);
    PortIsInFile(o, once);
    RateInFile(o, ini);
    RateInFile(o, once);
    PortLeavesRate(o, once);
    OtherKeysStay(o, ini, WEB_PORT);
    OtherKeysStay(o, once, WEB_PORT);
  }

  /** And it writes nothing, exactly if the rate is not to be written every time, and was not written as
      0: then the file is the same after it. */
  lemma SecondRunIsQuiet(o: Options, ini: string)
    ensures Mutates(o, AfterRun(o, ini)) <==>
            o.autoEnable && (o.onlyWhenZero ==> NonPositive(ExistingRate(ini)) && PrintsZero(o.rate))
    ensures !Mutates(o, AfterRun(o, ini)) ==> AfterRun(o, AfterRun(o, ini)) == AfterRun(o, ini)
  {
    var once := AfterRun(o, ini);
    PortIsInFile(o, ini);
    RateInFile(o, ini);
    RateInFile(o, once);
    PortLeavesRate(o, once);
  }

  /** When a second run does write, it leaves the text as it is exactly if the text settles when the rate
      is written to it; when it does not write, it always does. */
  lemma SecondRunKeepsText(o: Options, ini: string)
    ensures AfterRun(o, AfterRun(o, ini)) == AfterRun(o, ini) <==>
            !Mutates(o, AfterRun(o, ini)) || TextSettles(Lines(AfterPort(o, ini)), PACKET_SEND_RATE)
  {
    var once := AfterRun(o, ini);
    SecondRunIsQuiet(o, ini);
    if Mutates(o, once) {
      PortIsInFile(o, ini);
      PortLeavesRate(o, ini);
      assert AfterPort(o, once) == once;
      KeysAreClean();
      FormattedIsClean(Clamp(o.rate));
      TextStays(AfterPort(o, ini), PACKET_SEND_RATE, Format(Clamp(o.rate)));
    }
  }

  // ---- What the caller gets ----

  /** The number that the text gives for a key, if it is one and fits 16 bits. */
  function NumberIn(ini: string, key: string): Option<nat> {
    match Find(ini, key)
    case Some(text) => ParseUnsigned(text, 0x1_0000)
    case None => None
  }

  /** The rate that the text asks for. */
  function RateIn(ini: string): Option<Rate> {
    match Find(ini, "PacketSendRate")
    case Some(text) => Parse(text)
    case None => None
  }

  lemma WrittenIsClamped(rate: Rate)
    requires Clamped(rate)
    ensures Clamp(WrittenRate(rate)) == WrittenRate(rate)
  {
  }

  /** The port, in terms of the options and the text before the run: the one given; or else the one in the text
      unless it is 0; or else 49123. */
  ghost predicate PortIs(o: Options, ini: string, port: nat) {
    if o.portOverride.Some? then port == o.portOverride.value
    else if NumberIn(ini, "Port").Some? && NumberIn(ini, "Port").value > 0 then port == NumberIn(ini, "Port").value
    else port == 49123
  }

  ghost predicate WebPortIs(ini: string, port: nat) {
    port == if NumberIn(ini, "WebPort").Some? then NumberIn(ini, "WebPort").value else 49124
  }

  /** The requested rate is to be written: always, or if the text has none or one that is not positive. */
  ghost predicate RateIsSet(o: Options, ini: string) {
    o.autoEnable && (!o.onlyWhenZero || RateIn(ini).None? || NonPositive(RateIn(ini).value))
  }

  /** The rate: the requested one, in thousandths, if it is to be written; or else the one in the text, if any;
      clamped in any case. */
  ghost predicate RateIs(o: Options, ini: string, rate: Rate) {
    if RateIsSet(o, ini) then rate == WrittenRate(Clamp(o.rate))
    else rate == Clamp(if RateIn(ini).Some? then RateIn(ini).value else o.rate)
  }

  /** What a run returns: a port conflict exactly if the two ports are the same and the web port is not
      switched off; and else these ports and this rate, with the flag set exactly if something was to be
      written. */
  lemma ReturnedConfig(o: Options, ini: string, port: nat, webPort: nat)
    requires PortIs(o, ini, port) && WebPortIs(ini, webPort)
    ensures Prepare(o, ini).Err? <==> webPort != 0 && webPort == port
    ensures Prepare(o, ini).Err? ==> Prepare(o, ini).error == PortConflict(port)
    ensures Prepare(o, ini).Ok? ==>
              var c := Prepare(o, ini).value;
              c.host == o.host && c.port == port && c.webPort == webPort && RateIs(o, ini, c.rate) &&
              (c.mutated <==> RateIsSet(o, ini) || (o.portOverride.None? && !(NumberIn(ini, "Port").Some? && NumberIn(ini, "Port").value > 0)))
  {
    KeysAreClean();
    OtherKeysStay(o, ini, WEB_PORT);
    RateInFile(o, ini);
    PortLeavesRate(o, ini);
    WrittenIsClamped(Clamp(o.rate));
  }

  /** The rate returned is the one that the file has after the run, clamped, if it has one. */
  lemma RateIsInFile(o: Options, ini: string)
    ensures Prepare(o, ini).Ok? ==>
              Prepare(o, ini).value.rate == Clamp(if RateIn(AfterRun(o, ini)).Some? then RateIn(AfterRun(o, ini)).value else o.rate)
    ensures Prepare(o, ini).Ok? && !Prepare(o, ini).value.mutated ==> AfterRun(o, ini) == ini
  {
  }

  /** Without a file there are only the options and the defaults. */
  lemma ReturnedWithoutFile(o: Options)
    ensures var port: nat := if o.portOverride.Some? then o.portOverride.value else 49123;
            PrepareWithoutFile(o) ==
            if port == 49124 then Err(PortConflict(port)) else Ok(Config(o.host, port, 49124, Clamp(o.rate), false))
  {
  }
}
