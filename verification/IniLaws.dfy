/** What reading back an edited INI text gives. The text itself is not a faithful record: splitting into
    lines and joining them again drops carriage returns and a blank last line. Its entries are. */
module IniLaws {
  import opened Sequences
  import opened Wrappers
  import opened Text
  import opened Ini

  // ---- Keys and values that can be read back ----

  /** A key that a line can carry: on one line, trimmed, without `=`, and not looking like a comment or a
      section header. */
  predicate CleanKey(key: string) {
    Trimmed(key) && '\n' !in key && '=' !in key && (key != "" ==> key[0] != ';' && key[0] != '#' && key[0] != '[')
  }

  predicate CleanValue(value: string) { Trimmed(value) && '\n' !in value }

  /** A line written for a clean key and value is read back as just that key and value. */
  lemma WrittenLine(indent: string, key: string, value: string)
    requires CleanKey(key) && CleanValue(value) && (forall c | c in indent :: IsWhitespace(c))
    ensures SplitKeyValue(indent + (key + ("=" + value))) == Some(KeyValue(key, value, indent))
  {
    var body := key + ("=" + value);
    var line := indent + body;
    WrittenBody(key, value, indent);
    forall i | 0 <= i < |indent| ensures IsWhitespace(line[i]) { assert line[i] == indent[i]; assert indent[i] in indent; }
    IndentLengthIs(line, |indent|);
    assert line[|indent|..] == body && line[..|indent|] == indent;
    TrimKeeps(body);
  }

  lemma WrittenBody(key: string, value: string, indent: string)
    requires CleanKey(key) && CleanValue(value)
    ensures Trimmed(key + ("=" + value))
    ensures SplitTrimmed(key + ("=" + value), indent) == Some(KeyValue(key, value, indent))
  {
    var body := key + ("=" + value);
    assert body[|body| - 1] == if value == "" then '=' else value[|value| - 1];
    BodyParts(key, value);
    TrimKeeps(key);
    TrimKeeps(value);
  }

  lemma BodyParts(key: string, value: string)
    requires '=' !in key
    ensures var body := key + ("=" + value); IndexOf(body, '=') == |key| && body[..|key|] == key && body[|key| + 1..] == value
  {
    var body := key + ("=" + value);
    assert body[..|key|] == key && body[|key| + 1..] == value;
    IndexOfIs(body, '=', |key|);
  }

  /** Whatever a line of one line's length is read as is clean. */
  lemma ReadLine(line: string)
    requires OneLine(line) && SplitKeyValue(line).Some?
    ensures CleanKey(SplitKeyValue(line).value.lhs) && CleanValue(SplitKeyValue(line).value.rhs)
    ensures forall c | c in SplitKeyValue(line).value.indent :: IsWhitespace(c)
  {
    var n := IndentLength(line);
    var trimmed := Trim(line[n..]);
    TrimTrims(line[n..]);
    TrimLacks(line, n, |line|, '\n');
    assert line[n..|line|] == line[n..];
    IndentIsSpace(line);
    ReadTrimmed(trimmed, line[..n]);
  }

  lemma ReadTrimmed(trimmed: string, indent: string)
    requires Trimmed(trimmed) && OneLine(trimmed) && SplitTrimmed(trimmed, indent).Some?
    ensures CleanKey(SplitTrimmed(trimmed, indent).value.lhs) && CleanValue(SplitTrimmed(trimmed, indent).value.rhs)
  {
    var i := IndexOf(trimmed, '=');
    TrimTrims(trimmed[..i]);
    TrimTrims(trimmed[i + 1..]);
    TrimLacks(trimmed, 0, i, '\n');
    TrimLacks(trimmed, i + 1, |trimmed|, '\n');
    assert trimmed[..i][0..i] == trimmed[..i];
    TrimLacks(trimmed[..i], 0, i, '=');
    if Trim(trimmed[..i]) != "" { LhsStart(trimmed, i); }
  }

  /** The key of a trimmed line starts where the line starts. */
  lemma LhsStart(trimmed: string, i: nat)
    requires Trimmed(trimmed) && i <= |trimmed| && Trim(trimmed[..i]) != ""
    ensures Trim(trimmed[..i])[0] == trimmed[0]
  {
    IndentLengthIs(trimmed[..i], 0);
    assert TrimStart(trimmed[..i]) == trimmed[..i];
    TrimEndTrims(trimmed[..i]);
  }

  lemma CleanKeyIgnoresCase(a: string, b: string)
    requires EqIgnoreCase(a, b) && CleanKey(a)
    ensures CleanKey(b)
  {
    if b != "" {
      EqIgnoreCaseKeeps(a, b, 0);
      EqIgnoreCaseKeeps(a, b, |a| - 1);
    }
    forall i | 0 <= i < |b| ensures b[i] != '\n' && b[i] != '=' {
      EqIgnoreCaseKeeps(a, b, i);
      assert a[i] in a;
    }
  }

  /** A value that has been found is clean, and so is the key it has been found under. */
  lemma {:induction false} FoundIsClean(lines: seq<string>, key: string)
    requires OneLiners(lines) && FindIn(lines, key).Some?
    ensures CleanKey(key) && CleanValue(FindIn(lines, key).value)
  {
    assert lines[0] in lines;
    if Sets(lines[0], key) {
      ReadLine(lines[0]);
      CleanKeyIgnoresCase(SplitKeyValue(lines[0]).value.lhs, key);
    } else {
      FoundIsClean(lines[1..], key);
    }
  }

  // ---- Entries ----

  /** The keys and values of a text, in order. */
  function Entries(lines: seq<string>): seq<(string, string)> {
    if lines == [] then [] else Entry(lines[0]) + Entries(lines[1..])
  }

  function Entry(line: string): seq<(string, string)> {
    match SplitKeyValue(line)
    case Some(kv) => [(kv.lhs, kv.rhs)]
    case None => []
  }

  function Lookup(entries: seq<(string, string)>, key: string): Option<string> {
    if entries == [] then None
    else if EqIgnoreCase(entries[0].0, key) then Some(entries[0].1)
    else Lookup(entries[1..], key)
  }

  /** Every entry of `key` replaced. */
  function Replace(entries: seq<(string, string)>, key: string, value: string): seq<(string, string)> {
    if entries == [] then []
    else [if EqIgnoreCase(entries[0].0, key) then (key, value) else entries[0]] + Replace(entries[1..], key, value)
  }

  /** What writing a key means for the entries. */
  function Put(entries: seq<(string, string)>, key: string, value: string): seq<(string, string)> {
    if Lookup(entries, key).Some? then Replace(entries, key, value) else entries + [(key, value)]
  }

  lemma {:induction false} FindIsLookup(lines: seq<string>, key: string)
    ensures FindIn(lines, key) == Lookup(Entries(lines), key)
  {
    if lines != [] {
      FindIsLookup(lines[1..], key);
      var e := SplitKeyValue(lines[0]);
      if e.Some? {
        assert ([(e.value.lhs, e.value.rhs)] + Entries(lines[1..]))[1..] == Entries(lines[1..]);
      } else {
        assert [] + Entries(lines[1..]) == Entries(lines[1..]);
      }
    }
  }

  lemma {:induction false} EntriesAppend(a: seq<string>, b: seq<string>)
    ensures Entries(a + b) == Entries(a) + Entries(b)
  {
    if a == [] {
      assert a + b == b;
    } else {
      assert (a + b)[0] == a[0] && (a + b)[1..] == a[1..] + b;
      EntriesAppend(a[1..], b);
      AppendAssociates(Entry(a[0]), Entries(a[1..]), Entries(b));
    }
  }

  lemma StripCrSplits(line: string)
    ensures SplitKeyValue(StripCr(line)) == SplitKeyValue(line)
  {
    if line != "" && line[|line| - 1] == '\r' {
      var l := StripCr(line);
      assert line == l + ['\r'];
      TrimDropsLast(l, '\r');
      var n := IndentLength(l);
      if n < |l| {
        assert line[n..] == l[n..] + ['\r'];
        TrimDropsLast(l[n..], '\r');
        assert line[..n] == l[..n];
      } else {
        AllSpaceSplits(l);
        IndentLengthGrows(l, '\r');
        AllSpaceSplits(line);
      }
    }
  }

  lemma AllSpaceSplits(line: string)
    requires IndentLength(line) == |line|
    ensures SplitKeyValue(line).None?
  {
    assert Trim(line[|line|..]) == "";
  }

  /** Joining and splitting lines loses no entry. */
  lemma {:induction false} NormalEntries(lines: seq<string>)
    ensures Entries(Normal(lines)) == Entries(lines)
  {
    if |lines| == 1 {
      if lines[0] == "" {
        AllSpaceSplits(lines[0]);
        assert Entries(lines[1..]) == [];
      }
    } else if |lines| > 1 {
      StripCrSplits(lines[0]);
      NormalEntries(lines[1..]);
      assert Normal(lines)[1..] == Normal(lines[1..]);
    }
  }

  lemma {:induction false} RewrittenEntries(lines: seq<string>, key: string, value: string)
    requires OneLiners(lines) && CleanKey(key) && CleanValue(value)
    ensures Entries(RewrittenAll(lines, key, value)) == Replace(Entries(lines), key, value)
    ensures OneLiners(RewrittenAll(lines, key, value))
  {
    if lines != [] {
      var rest := RewrittenAll(lines[1..], key, value);
      assert lines[0] in lines;
      RewrittenEntries(lines[1..], key, value);
      RewrittenLine(lines[0], key, value);
      assert RewrittenAll(lines, key, value)[1..] == rest;
      var e := SplitKeyValue(lines[0]);
      if e.Some? {
        assert ([(e.value.lhs, e.value.rhs)] + Entries(lines[1..]))[1..] == Entries(lines[1..]);
      } else {
        assert [] + Entries(lines[1..]) == Entries(lines[1..]);
        assert [] + Entries(rest) == Entries(rest);
      }
    }
  }

  lemma RewrittenLine(line: string, key: string, value: string)
    requires OneLine(line) && CleanKey(key) && CleanValue(value)
    ensures OneLine(Rewritten(line, key, value))
    ensures Sets(line, key) ==>
              SplitKeyValue(Rewritten(line, key, value)) == Some(KeyValue(key, value, SplitKeyValue(line).value.indent))
  {
    if Sets(line, key) {
      ReadLine(line);
      WrittenLine(SplitKeyValue(line).value.indent, key, value);
    }
  }

  lemma EditedEntries(lines: seq<string>, key: string, value: string)
    requires OneLiners(lines) && CleanKey(key) && CleanValue(value)
    ensures OneLiners(Edited(lines, key, value))
    ensures Entries(Edited(lines, key, value)) == Put(Entries(lines), key, value)
  {
    FindIsLookup(lines, key);
    RewrittenEntries(lines, key, value);
    if FindIn(lines, key).None? {
      var last := key + ("=" + value);
      WrittenLine("", key, value);
      assert "" + last == last;
      SpacedEntries(lines);
      EntriesAppend(Spaced(lines), [last]);
      SingleEntries(last);
    }
  }

  lemma SingleEntries(line: string)
    ensures Entries([line]) == Entry(line)
  {
    assert Entries([line]) == Entry(line) + Entries([line][1..]);
  }

  lemma SpacedEntries(lines: seq<string>)
    requires OneLiners(lines)
    ensures OneLiners(Spaced(lines)) && Entries(Spaced(lines)) == Entries(lines)
  {
    AllSpaceSplits("");
    SingleEntries("");
    EntriesAppend(lines, [""]);
  }

  /** The editing law: whatever is lost of the text, its entries are those of before with `key` put in. */
  lemma UpsertPuts(contents: string, key: string, value: string)
    requires CleanKey(key) && CleanValue(value)
    ensures Entries(Lines(Upsert(contents, key, value))) == Put(Entries(Lines(contents)), key, value)
  {
    var lines := Lines(contents);
    LinesAreOneLiners(contents);
    EditedEntries(lines, key, value);
    UpsertLines(contents, key, value);
    NormalEntries(Edited(lines, key, value));
  }

  // ---- Get after put ----

  lemma {:induction false} LookupPut(entries: seq<(string, string)>, key: string, value: string, k: string)
    ensures Lookup(Put(entries, key, value), k) == if EqIgnoreCase(key, k) then Some(value) else Lookup(entries, k)
  {
    if Lookup(entries, key).Some? {
      LookupReplace(entries, key, value, k);
    } else {
      LookupAppend(entries, (key, value), k);
      if EqIgnoreCase(key, k) { LookupIgnoresCase(entries, key, k); }
    }
  }

  lemma {:induction false} LookupIgnoresCase(entries: seq<(string, string)>, key: string, k: string)
    requires EqIgnoreCase(key, k)
    ensures Lookup(entries, key) == Lookup(entries, k)
  {
    if entries != [] { LookupIgnoresCase(entries[1..], key, k); }
  }

  lemma {:induction false} LookupReplace(entries: seq<(string, string)>, key: string, value: string, k: string)
    ensures EqIgnoreCase(key, k) && Lookup(entries, key).Some? ==> Lookup(Replace(entries, key, value), k) == Some(value)
    ensures !EqIgnoreCase(key, k) ==> Lookup(Replace(entries, key, value), k) == Lookup(entries, k)
  {
    if entries != [] {
      var rest := Replace(entries[1..], key, value);
      LookupReplace(entries[1..], key, value, k);
      assert Replace(entries, key, value)[1..] == rest;
      if EqIgnoreCase(entries[0].0, key) { EqIgnoreCaseTransitive(entries[0].0, key, k); }
    }
  }

  lemma {:induction false} LookupAppend(entries: seq<(string, string)>, e: (string, string), k: string)
    ensures Lookup(entries + [e], k) ==
            if Lookup(entries, k).Some? then Lookup(entries, k) else if EqIgnoreCase(e.0, k) then Some(e.1) else None
  {
    if entries == [] {
      assert entries + [e] == [e] && [e][1..] == [];
    } else {
      assert (entries + [e])[0] == entries[0] && (entries + [e])[1..] == entries[1..] + [e];
      LookupAppend(entries[1..], e, k);
    }
  }

  /** Every key reads as before, except the one written, which reads as written. */
  lemma FindAfterUpsert(contents: string, key: string, value: string, k: string)
    requires CleanKey(key) && CleanValue(value)
    ensures Find(Upsert(contents, key, value), k) == if EqIgnoreCase(key, k) then Some(value) else Find(contents, k)
  {
    UpsertPuts(contents, key, value);
    FindIsLookup(Lines(contents), k);
    FindIsLookup(Lines(Upsert(contents, key, value)), k);
    LookupPut(Entries(Lines(contents)), key, value, k);
  }

  /** A key and value are read back from a text they have been written to exactly when both are clean,
      whatever the text. */
  lemma ReadBack(contents: string, key: string, value: string)
    ensures Find(Upsert(contents, key, value), key) == Some(value) <==> CleanKey(key) && CleanValue(value)
  {
    if CleanKey(key) && CleanValue(value) {
      FindAfterUpsert(contents, key, value, key);
    }
    if Find(Upsert(contents, key, value), key) == Some(value) {
      LinesAreOneLiners(Upsert(contents, key, value));
      FoundIsClean(Lines(Upsert(contents, key, value)), key);
    }
  }

  // ---- The text ----

  /** A line that does not set the key keeps its place and, up to a carriage return at its end, its
      content; only a blank last line can go. */
  lemma OtherLinesStay(contents: string, key: string, value: string, i: nat)
    requires CleanKey(key) && CleanValue(value)
    requires i < |Lines(contents)| && !Sets(Lines(contents)[i], key)
    ensures var before, after := Lines(contents), Lines(Upsert(contents, key, value));
            if i < |after| then after[i] == before[i] || after[i] == StripCr(before[i])
            else before[i] == "" && i == |before| - 1 == |after|
  {
    var before := Lines(contents);
    UpsertLines(contents, key, value);
    EditedKeeps(before, key, value, i);
    NormalKeeps(Edited(before, key, value), i);
  }

  lemma UpsertLines(contents: string, key: string, value: string)
    requires CleanKey(key) && CleanValue(value)
    ensures Lines(Upsert(contents, key, value)) == Normal(Edited(Lines(contents), key, value))
  {
    var lines := Lines(contents);
    LinesAreOneLiners(contents);
    EditedEntries(lines, key, value);
    LinesOfJoin(Edited(lines, key, value));
  }

  /** A line that sets the key keeps its place and the white space it starts with, and says the new value. */
  lemma SettingLinesChange(contents: string, key: string, value: string, i: nat)
    requires CleanKey(key) && CleanValue(value)
    requires i < |Lines(contents)| && Sets(Lines(contents)[i], key)
    ensures var before, after := Lines(contents), Lines(Upsert(contents, key, value));
            i < |after| && after[i] == before[i][..IndentLength(before[i])] + (key + ("=" + value))
  {
    var before := Lines(contents);
    var edited := Edited(before, key, value);
    LinesAreOneLiners(contents);
    assert before[i] in before;
    UpsertLines(contents, key, value);
    SetIsFound(before, key, i);
    RewrittenAt(before, key, value, i);
    assert edited[i] == Rewritten(before[i], key, value);
    RewrittenStays(before[i], key, value);
    SettingLine(before[i], key, value);
    NoCrStays(edited, i);
  }

  lemma SettingLine(line: string, key: string, value: string)
    requires Sets(line, key)
    ensures Rewritten(line, key, value) == line[..IndentLength(line)] + (key + ("=" + value))
  {
  }

  lemma NoCrStays(lines: seq<string>, i: nat)
    requires i < |lines| && lines[i] != "" && !EndsInCr(lines[i])
    ensures i < |Normal(lines)| && Normal(lines)[i] == lines[i]
  {
    NormalKeeps(lines, i);
  }

  lemma {:induction false} SetIsFound(lines: seq<string>, key: string, i: nat)
    requires i < |lines| && Sets(lines[i], key)
    ensures FindIn(lines, key).Some?
    decreases |lines|
  {
    if i > 0 { SetIsFound(lines[1..], key, i - 1); }
  }

  /** A key that no line sets is written on a line of its own at the end, behind all others and one blank line, or
      none if there is one already or the text was empty. */
  lemma AppendedAtEnd(contents: string, key: string, value: string)
    requires CleanKey(key) && CleanValue(value) && Find(contents, key).None?
    ensures var before, after := Lines(contents), Lines(Upsert(contents, key, value));
            var blank := before != [] && before[|before| - 1] != "";
            |after| == |before| + (if blank then 2 else 1) && after[|after| - 1] == key + ("=" + value) &&
            (blank ==> after[|before|] == "")
  {
    var before := Lines(contents);
    var edited := Edited(before, key, value);
    UpsertLines(contents, key, value);
    NewLineStays(key, value);
    NormalKeeps(edited, |edited| - 1);
    if before != [] && before[|before| - 1] != "" { NormalKeeps(edited, |before|); }
  }

  /** The value found is that of the first line that sets the key; none is found exactly if no line does. */
  lemma {:induction false} FoundIsFirst(lines: seq<string>, key: string, i: nat)
    requires i < |lines| && Sets(lines[i], key) && forall k | 0 <= k < i :: !Sets(lines[k], key)
    ensures FindIn(lines, key) == Some(SplitKeyValue(lines[i]).value.rhs)
    decreases |lines|
  {
    if i > 0 { FoundIsFirst(lines[1..], key, i - 1); }
  }

  lemma NoneIsFound(lines: seq<string>, key: string)
    ensures FindIn(lines, key).None? <==> forall i | 0 <= i < |lines| :: !Sets(lines[i], key)
  {
    if FindIn(lines, key).None? {
      forall i | 0 <= i < |lines| ensures !Sets(lines[i], key) { NotFound(lines, key, i); }
    } else {
      var i := FoundSomewhere(lines, key);
    }
  }

  lemma {:induction false} FoundSomewhere(lines: seq<string>, key: string) returns (i: nat)
    requires FindIn(lines, key).Some?
    ensures i < |lines| && Sets(lines[i], key)
    decreases |lines|
  {
    if Sets(lines[0], key) {
      i := 0;
    } else {
      i := FoundSomewhere(lines[1..], key);
      i := i + 1;
    }
  }

  lemma EditedKeeps(lines: seq<string>, key: string, value: string, i: nat)
    requires i < |lines| && !Sets(lines[i], key)
    ensures |lines| <= |Edited(lines, key, value)| && Edited(lines, key, value)[i] == lines[i]
    ensures var e := Edited(lines, key, value); e[|e| - 1] == "" ==> |e| == |lines|
  {
    if FindIn(lines, key).Some? { RewrittenAt(lines, key, value, i); }
  }

  lemma {:induction false} RewrittenAt(lines: seq<string>, key: string, value: string, i: nat)
    requires i < |lines|
    ensures RewrittenAll(lines, key, value)[i] == Rewritten(lines[i], key, value)
    decreases |lines|
  {
    var first, others := [Rewritten(lines[0], key, value)], RewrittenAll(lines[1..], key, value);
    assert RewrittenAll(lines, key, value) == first + others;
    if i > 0 {
      RewrittenAt(lines[1..], key, value, i - 1);
      assert (first + others)[i] == others[i - 1];
    }
  }

  /** Writing the same again changes no entry. */
  lemma UpsertAgain(contents: string, key: string, value: string)
    requires CleanKey(key) && CleanValue(value)
    ensures var once := Upsert(contents, key, value);
            forall k :: Find(Upsert(once, key, value), k) == Find(once, k)
  {
    var once := Upsert(contents, key, value);
    forall k ensures Find(Upsert(once, key, value), k) == Find(once, k) {
      FindAfterUpsert(contents, key, value, k);
      FindAfterUpsert(once, key, value, k);
    }
  }

  // ---- The text after a second edit ----

  predicate EndsInCr(line: string) { line != "" && line[|line| - 1] == '\r' }

  /** Editing the lines once leaves nothing that joining and splitting would take away: no line that ends up
      in front of another ends in a carriage return, and the last one is not blank. */
  predicate TextSettles(lines: seq<string>, key: string) {
    if FindIn(lines, key).None? then forall i | 0 <= i < |lines| :: !EndsInCr(lines[i])
    else lines[|lines| - 1] != "" && forall i | 0 <= i < |lines| - 1 && EndsInCr(lines[i]) :: Sets(lines[i], key)
  }

  /** Bytes of the lines, each with its end. */
  function Size(lines: seq<string>): nat { if lines == [] then 0 else |lines[0]| + 1 + Size(lines[1..]) }

  lemma {:induction false} JoinSize(lines: seq<string>)
    ensures |Join(lines)| == if lines == [] then 0 else Size(lines) - 1
    decreases |lines|
  {
    if |lines| == 1 { assert Size(lines[1..]) == 0; }
    if |lines| > 1 { JoinSize(lines[1..]); }
  }

  /** Joining and splitting takes bytes away unless it leaves the lines as they are. */
  lemma {:induction false} NormalShrinks(lines: seq<string>)
    ensures Size(Normal(lines)) <= Size(lines)
    ensures Size(Normal(lines)) == Size(lines) ==> Normal(lines) == lines
    decreases |lines|
  {
    if |lines| > 1 {
      NormalShrinks(lines[1..]);
      assert Normal(lines)[1..] == Normal(lines[1..]);
      assert lines == [lines[0]] + lines[1..];
    }
  }

  lemma {:induction false} SameHasNoCr(lines: seq<string>, i: nat)
    requires Normal(lines) == lines && i < |lines|
    ensures if i == |lines| - 1 then lines[i] != "" else !EndsInCr(lines[i])
    decreases |lines|
  {
    if |lines| > 1 {
      assert Normal(lines)[0] == StripCr(lines[0]) && Normal(lines)[1..] == Normal(lines[1..]);
      if i > 0 { SameHasNoCr(lines[1..], i - 1); }
    }
  }

  lemma {:induction false} NoCrIsSame(lines: seq<string>)
    requires lines != [] ==> lines[|lines| - 1] != ""
    requires forall i | 0 <= i < |lines| - 1 :: !EndsInCr(lines[i])
    ensures Normal(lines) == lines
    decreases |lines|
  {
    if |lines| > 1 {
      NoCrIsSame(lines[1..]);
      assert StripCr(lines[0]) == lines[0];
      assert lines == [lines[0]] + lines[1..];
    }
  }

  lemma NormalIsSame(lines: seq<string>)
    ensures Normal(lines) == lines <==>
            (lines != [] ==> lines[|lines| - 1] != "" && forall i | 0 <= i < |lines| - 1 :: !EndsInCr(lines[i]))
  {
    if Normal(lines) == lines {
      forall i | 0 <= i < |lines| ensures if i == |lines| - 1 then lines[i] != "" else !EndsInCr(lines[i]) { SameHasNoCr(lines, i); }
    } else if lines != [] && lines[|lines| - 1] != "" && forall i | 0 <= i < |lines| - 1 :: !EndsInCr(lines[i]) {
      NoCrIsSame(lines);
    }
  }

  /** A line that has been rewritten stays as it is, with or without a carriage return taken off its end. */
  lemma RewrittenStays(line: string, key: string, value: string)
    requires OneLine(line) && CleanKey(key) && CleanValue(value)
    ensures var l := Rewritten(line, key, value);
            Rewritten(l, key, value) == l && Rewritten(StripCr(l), key, value) == StripCr(l) && (Sets(line, key) ==> l != "" && !EndsInCr(l))
  {
    var l := Rewritten(line, key, value);
    RewrittenLine(line, key, value);
    EqIgnoreCaseReflexive(key);
    StripCrSplits(l);
    if Sets(line, key) {
      WrittenIsOneLine(key, value);
      var body := key + ("=" + value);
      assert l[|l| - 1] == body[|body| - 1];
    }
  }

  lemma {:induction false} NormalStays(lines: seq<string>, key: string, value: string)
    requires forall l | l in lines :: Rewritten(l, key, value) == l && Rewritten(StripCr(l), key, value) == StripCr(l)
    ensures RewrittenAll(Normal(lines), key, value) == Normal(lines)
    decreases |lines|
  {
    if |lines| == 1 {
      assert lines[0] in lines;
      assert lines[1..] == [];
    } else if |lines| > 1 {
      assert lines[0] in lines;
      NormalStays(lines[1..], key, value);
      assert Normal(lines)[1..] == Normal(lines[1..]);
    }
  }

  lemma EditedStays(lines: seq<string>, key: string, value: string, l: string)
    requires OneLiners(lines) && CleanKey(key) && CleanValue(value) && l in Edited(lines, key, value)
    ensures Rewritten(l, key, value) == l && Rewritten(StripCr(l), key, value) == StripCr(l)
  {
    var edited := Edited(lines, key, value);
    var i :| 0 <= i < |edited| && edited[i] == l;
    if FindIn(lines, key).Some? {
      RewrittenAt(lines, key, value, i);
      assert lines[i] in lines;
      RewrittenStays(lines[i], key, value);
    } else if i < |lines| {
      NotFound(lines, key, i);
      StripCrSplits(l);
    } else {
      AllSpaceSplits("");
      NewLineStays(key, value);
    }
  }

  lemma {:induction false} NotFound(lines: seq<string>, key: string, i: nat)
    requires FindIn(lines, key).None? && i < |lines|
    ensures !Sets(lines[i], key)
    decreases |lines|
  {
    if i > 0 { NotFound(lines[1..], key, i - 1); }
  }

  lemma NewLineStays(key: string, value: string)
    requires CleanKey(key) && CleanValue(value)
    ensures var l := key + ("=" + value); Rewritten(l, key, value) == l && StripCr(l) == l && !EndsInCr(l)
  {
    var l := key + ("=" + value);
    WrittenLine("", key, value);
    assert "" + l == l;
    EqIgnoreCaseReflexive(key);
    WrittenIsOneLine(key, value);
  }

  /** The second of two equal edits does nothing but what joining and splitting does. */
  lemma SecondEdit(contents: string, key: string, value: string)
    requires CleanKey(key) && CleanValue(value)
    ensures Upsert(Upsert(contents, key, value), key, value) == Join(Normal(Edited(Lines(contents), key, value)))
  {
    var lines := Lines(contents);
    var edited := Edited(lines, key, value);
    LinesAreOneLiners(contents);
    UpsertLines(contents, key, value);
    forall l | l in edited ensures Rewritten(l, key, value) == l && Rewritten(StripCr(l), key, value) == StripCr(l) {
      EditedStays(lines, key, value, l);
    }
    NormalStays(edited, key, value);
    FindAfterUpsert(contents, key, value, key);
    EqIgnoreCaseReflexive(key);
  }

  /** What the edited lines lose is lost for good, and shows in the text. */
  lemma JoinedSame(lines: seq<string>)
    requires lines != [""]
    ensures Join(Normal(lines)) == Join(lines) <==> Normal(lines) == lines
  {
    JoinSize(lines);
    JoinSize(Normal(lines));
    NormalShrinks(lines);
    if Normal(lines) == [] && lines != [] { NormalKeeps(lines, 0); }
  }

  lemma EditedSettles(lines: seq<string>, key: string, value: string)
    requires OneLiners(lines) && CleanKey(key) && CleanValue(value)
    ensures Normal(Edited(lines, key, value)) == Edited(lines, key, value) <==> TextSettles(lines, key)
  {
    var edited := Edited(lines, key, value);
    NormalIsSame(edited);
    if FindIn(lines, key).Some? {
      forall i | 0 <= i < |lines|
        ensures edited[i] == Rewritten(lines[i], key, value)
        ensures Sets(lines[i], key) ==> edited[i] != "" && !EndsInCr(edited[i])
      {
        RewrittenAt(lines, key, value, i);
        assert lines[i] in lines;
        RewrittenStays(lines[i], key, value);
      }
      AllSpaceSplits("");
    } else {
      NewLineStays(key, value);
      assert forall i | 0 <= i < |lines| :: edited[i] == lines[i];
    }
  }

  /** Writing the same again leaves the text as it is exactly if no line in front of another ends in a
      carriage return, other than one that sets the key, and the last line is not blank where the key
      is there already. */
  lemma TextStays(contents: string, key: string, value: string)
    requires CleanKey(key) && CleanValue(value)
    ensures var once := Upsert(contents, key, value);
            Upsert(once, key, value) == once <==> TextSettles(Lines(contents), key)
  {
    var lines := Lines(contents);
    LinesAreOneLiners(contents);
    SecondEdit(contents, key, value);
    EditedSettles(lines, key, value);
    EditedEntries(lines, key, value);
    AllSpaceSplits("");
    SingleEntries("");
    LookupPut(Entries(lines), key, value, key);
    EqIgnoreCaseReflexive(key);
    JoinedSame(Edited(lines, key, value));
  }

  function Blanks(n: nat): (b: seq<string>)
    ensures |b| == n && forall i | 0 <= i < n :: b[i] == ""
  {
    seq(n, _ => "")
  }

  /** One way for the text to change: of the line ends behind the line one goes each time. */
  lemma UpsertAgainShortens(key: string, value: string, n: nat)
    requires CleanKey(key) && CleanValue(value)
    ensures var line := key + ("=" + value);
            Upsert(Join([line] + Blanks(n + 1)), key, value) == Join([line] + Blanks(n))
  {
    var line := key + ("=" + value);
    var lines := [line] + Blanks(n);
    WrittenLine("", key, value);
    assert "" + line == line;
    EqIgnoreCaseReflexive(key);
    WrittenIsOneLine(key, value);
    BlanksLoseOne(n);
    Resplit(line, Blanks(n + 1));
    AllSpaceSplits("");
    RewrittenSame(lines, key, value);
  }

  lemma WrittenIsOneLine(key: string, value: string)
    requires CleanKey(key) && CleanValue(value)
    ensures var line := key + ("=" + value); OneLine(line) && line[|line| - 1] != '\r'
  {
    var line := key + ("=" + value);
    assert line[|line| - 1] == if value == "" then '=' else value[|value| - 1];
  }

  lemma {:induction false} BlanksLoseOne(n: nat)
    ensures Normal(Blanks(n + 1)) == Blanks(n)
  {
    if n > 0 {
      BlanksLoseOne(n - 1);
      assert Blanks(n + 1)[1..] == Blanks(n);
    }
  }

  lemma Resplit(line: string, more: seq<string>)
    requires more != [] && OneLine(line) && (line == "" || line[|line| - 1] != '\r') && OneLiners(more)
    ensures Lines(Join([line] + more)) == [line] + Normal(more)
  {
    var lines := [line] + more;
    assert lines[1..] == more;
    LinesOfJoin(lines);
  }

  lemma {:induction false} RewrittenSame(lines: seq<string>, key: string, value: string)
    requires forall l | l in lines :: Rewritten(l, key, value) == l
    ensures RewrittenAll(lines, key, value) == lines
  {
    if lines != [] {
      assert lines[0] in lines;
      RewrittenSame(lines[1..], key, value);
    }
  }
}
