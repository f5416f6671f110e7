/** The INI editor of src/config.rs: finding the value of a key, and writing it. */
module Ini {
  import opened Wrappers
  import opened Text

  // ---- Lines ----

  function StripCr(line: string): string {
    if line != "" && line[|line| - 1] == '\r' then line[..|line| - 1] else line
  }

  /** `str::lines`: a line ends at a newline, with one carriage return before it dropped; what follows
      the last newline is a line unless it is empty. */
  function Lines(contents: string): seq<string>
    decreases |contents|
  {
    if contents == "" then []
    else
      var i := IndexOf(contents, '\n');
      if i == |contents| then [contents] else [StripCr(contents[..i])] + Lines(contents[i + 1..])
  }

  /** `join("\n")`. */
  function Join(lines: seq<string>): string {
    if lines == [] then ""
    else if |lines| == 1 then lines[0]
    else lines[0] + ("\n" + Join(lines[1..]))
  }

  // ---- One line ----

  datatype KeyValue = KeyValue(lhs: string, rhs: string, indent: string)

  /** `split_key_value`: comments, section headers, blank lines and lines without `=` have no key. */
  function SplitKeyValue(line: string): Option<KeyValue> {
    SplitTrimmed(Trim(line[IndentLength(line)..]), line[..IndentLength(line)])
  }

  function SplitTrimmed(trimmed: string, indent: string): Option<KeyValue> {
    if trimmed == "" || trimmed[0] == ';' || trimmed[0] == '#' || trimmed[0] == '[' then None
    else
      var i := IndexOf(trimmed, '=');
      if i == |trimmed| then None else Some(KeyValue(Trim(trimmed[..i]), Trim(trimmed[i + 1..]), indent))
  }

  /** A line that sets `key`. */
  predicate Sets(line: string, key: string) {
    SplitKeyValue(line).Some? && EqIgnoreCase(SplitKeyValue(line).value.lhs, key)
  }

  // ---- Specification of the two operations ----

  /** The value of the first of the lines that sets `key`. */
  function FindIn(lines: seq<string>, key: string): Option<string> {
    if lines == [] then None
    else if Sets(lines[0], key) then Some(SplitKeyValue(lines[0]).value.rhs)
    else FindIn(lines[1..], key)
  }

  function Find(contents: string, key: string): Option<string> { FindIn(Lines(contents), key) }

  /** A line with the new value if it sets `key`, and as it is otherwise. */
  function Rewritten(line: string, key: string, value: string): string {
    if Sets(line, key) then SplitKeyValue(line).value.indent + (key + ("=" + value)) else line
  }

  function RewrittenAll(lines: seq<string>, key: string, value: string): (r: seq<string>)
    ensures |r| == |lines|
  {
    if lines == [] then [] else [Rewritten(lines[0], key, value)] + RewrittenAll(lines[1..], key, value)
  }

  /** The lines to be written: a key that no line sets goes to the end, with a blank line before it
      unless there is one or nothing at all. */
  function Edited(lines: seq<string>, key: string, value: string): seq<string> {
    if FindIn(lines, key).Some? then RewrittenAll(lines, key, value)
    else Spaced(lines) + [key + ("=" + value)]
  }

  function Spaced(lines: seq<string>): seq<string> {
    if lines != [] && lines[|lines| - 1] != "" then lines + [""] else lines
  }

  function Upsert(contents: string, key: string, value: string): string { Join(Edited(Lines(contents), key, value)) }

  lemma {:induction false} RewrittenPush(lines: seq<string>, line: string, key: string, value: string)
    ensures RewrittenAll(lines + [line], key, value) == RewrittenAll(lines, key, value) + [Rewritten(line, key, value)]
  {
    if lines == [] {
      assert lines + [line] == [line];
    } else {
      RewrittenPush(lines[1..], line, key, value);
      assert (lines + [line])[1..] == lines[1..] + [line];
    }
  }

  lemma RewrittenNext(lines: seq<string>, i: nat, key: string, value: string)
    requires i < |lines|
    ensures RewrittenAll(lines[..i + 1], key, value) == RewrittenAll(lines[..i], key, value) + [Rewritten(lines[i], key, value)]
    ensures lines[..i + 1] == lines[..i] + [lines[i]]
    ensures FindIn(lines[i..], key) ==
            if Sets(lines[i], key) then Some(SplitKeyValue(lines[i]).value.rhs) else FindIn(lines[i + 1..], key)
  {
    RewrittenPush(lines[..i], lines[i], key, value);
    assert lines[..i] + [lines[i]] == lines[..i + 1];
    assert lines[i..][0] == lines[i] && lines[i..][1..] == lines[i + 1..];
  }

  // ---- The operations ----

  method FindStringValue(contents: string, key: string) returns (r: Option<string>)
    ensures r == Find(contents, key)
  {
    var lines := Lines(contents);
    var i := 0;
    while i < |lines|
      invariant i <= |lines|
      invariant FindIn(lines[i..], key) == FindIn(lines, key)
    {
      if Sets(lines[i], key) { return Some(SplitKeyValue(lines[i]).value.rhs); }
      i := i + 1;
    }
    r := None;
  }

  method UpsertKey(contents: string, key: string, value: string) returns (r: string)
    ensures r == Upsert(contents, key, value)
  {
    var lines := Lines(contents);
    var found := false;
    var outputLines := [];
    var i := 0;
    while i < |lines|
      invariant i <= |lines|
      invariant outputLines == RewrittenAll(lines[..i], key, value)
      invariant found || FindIn(lines[i..], key).Some? <==> FindIn(lines, key).Some?
      invariant !found ==> outputLines == lines[..i]
    {
      RewrittenNext(lines, i, key, value);
      outputLines := outputLines + [Rewritten(lines[i], key, value)];
      if Sets(lines[i], key) { found := true; }
      i := i + 1;
    }
    assert lines[..i] == lines && lines[i..] == [];
    if !found {
      if outputLines != [] && outputLines[|outputLines| - 1] != "" { outputLines := outputLines + [""]; }
      assert outputLines == Spaced(lines);
      outputLines := outputLines + [key + ("=" + value)];
    }
    assert outputLines == Edited(lines, key, value);
    r := Join(outputLines);
  }

  // ---- What splitting into lines undoes of joining ----

  ghost predicate OneLine(line: string) { '\n' !in line }

  ghost predicate OneLiners(lines: seq<string>) { forall l | l in lines :: OneLine(l) }

  /** What remains of lines that are joined and split again: every line but the last loses a carriage
      return at its end, and an empty last line is lost. */
  function Normal(lines: seq<string>): seq<string> {
    if lines == [] then []
    else if |lines| == 1 then (if lines[0] == "" then [] else lines)
    else [StripCr(lines[0])] + Normal(lines[1..])
  }

  lemma {:induction false} LinesOfJoin(lines: seq<string>)
    requires OneLiners(lines)
    ensures Lines(Join(lines)) == Normal(lines)
  {
    if |lines| == 1 {
      assert lines[0] in lines;
      IndexOfIs(lines[0], '\n', |lines[0]|);
      assert lines == [lines[0]];
    } else if |lines| > 1 {
      var rest := Join(lines[1..]);
      var u := lines[0] + ("\n" + rest);
      assert lines[0] in lines;
      assert u[..|lines[0]|] == lines[0] && u[|lines[0]| + 1..] == rest;
      IndexOfIs(u, '\n', |lines[0]|);
      LinesOfJoin(lines[1..]);
    }
  }

  lemma {:induction false} LinesAreOneLiners(contents: string)
    ensures OneLiners(Lines(contents))
    decreases |contents|
  {
    if contents != "" {
      var i := IndexOf(contents, '\n');
      if i < |contents| {
        LinesAreOneLiners(contents[i + 1..]);
      } else {
        assert contents[..i] == contents;
      }
    }
  }

  /** A line survives joining and splitting up to a carriage return at its end, unless it is the last
      and empty. */
  lemma {:induction false} NormalKeeps(lines: seq<string>, i: nat)
    requires i < |lines|
    ensures |Normal(lines)| == if lines[|lines| - 1] == "" then |lines| - 1 else |lines|
    ensures i < |Normal(lines)| ==> Normal(lines)[i] == lines[i] || Normal(lines)[i] == StripCr(lines[i])
    decreases |lines|
  {
    if |lines| > 1 { NormalKeeps(lines[1..], if i == 0 then 0 else i - 1); }
  }
}
