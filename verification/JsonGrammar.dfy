/** The JSON grammar of RFC 8259 as syntax trees with their spelling, written without reference to the
    scanner, and the proof that the scanner recognises exactly the spellings of these trees. */
module JsonGrammar {
  import opened JsonScanner

  /** One character of a string as it is spelled (section 7 of RFC 8259). */
  datatype Glyph = Plain(c: char) | Escape(c: char) | Unicode(hex: Bytes)

  /** A value with everything its spelling needs, white space included. */
  datatype Value =
    | Word(text: Bytes)
    | Number(minus: bool, whole: Bytes, fraction: Bytes, exponent: Bytes)
    | Text(body: seq<Glyph>)
    | Array(elements: Elements)
    | Object(members: Members)

  /** The elements of an array that are still to come, then the closing bracket. `gap` is the space
      after the comma, which the first element does not have. */
  datatype Elements = EndArray(pad: Bytes) | Element(lead: Bytes, gap: Bytes, value: Value, rest: Elements)

  datatype Members =
    | EndObject(pad: Bytes)
    | Member(lead: Bytes, gap: Bytes, entry: Entry, rest: Members)

  datatype Entry = Entry(name: seq<Glyph>, colonLead: Bytes, colonGap: Bytes, value: Value)

  // ---- Well-formed trees ----

  ghost predicate Spaces(w: Bytes) { w == "" || (IsSpace(w[0]) && Spaces(w[1..])) }

  ghost predicate Digits(d: Bytes) { d == "" || (IsDigit(d[0]) && Digits(d[1..])) }

  ghost predicate GoodGlyph(g: Glyph) {
    match g
    case Plain(c) => IsPlain(c)
    case Escape(c) => IsEscape(c)
    case Unicode(hex) => |hex| == 4 && IsHex(hex[0]) && IsHex(hex[1]) && IsHex(hex[2]) && IsHex(hex[3])
  }

  ghost predicate GoodGlyphs(body: seq<Glyph>) { body == [] || (GoodGlyph(body[0]) && GoodGlyphs(body[1..])) }

  ghost predicate GoodWhole(d: Bytes) { Digits(d) && d != "" && (d[0] == '0' ==> |d| == 1) }

  ghost predicate GoodFraction(f: Bytes) { f == "" || (|f| > 1 && f[0] == '.' && Digits(f[1..])) }

  ghost predicate GoodExponent(e: Bytes) {
    e == "" ||
    ((e[0] == 'e' || e[0] == 'E') &&
     ((|e| > 1 && Digits(e[1..])) || (|e| > 2 && (e[1] == '+' || e[1] == '-') && Digits(e[2..]))))
  }

  ghost predicate Good(v: Value) {
    match v
    case Word(text) => text == "true" || text == "false" || text == "null"
    case Number(_, whole, fraction, exponent) => GoodWhole(whole) && GoodFraction(fraction) && GoodExponent(exponent)
    case Text(body) => GoodGlyphs(body)
    case Array(elements) => GoodElements(elements, true)
    case Object(members) => GoodMembers(members, true)
  }

  ghost predicate GoodElements(e: Elements, first: bool) {
    match e
    case EndArray(pad) => Spaces(pad)
    case Element(lead, gap, value, rest) =>
      Spaces(lead) && Spaces(gap) && (first ==> gap == "") && Good(value) && GoodElements(rest, false)
  }

  ghost predicate GoodMembers(m: Members, first: bool) {
    match m
    case EndObject(pad) => Spaces(pad)
    case Member(lead, gap, entry, rest) =>
      Spaces(lead) && Spaces(gap) && (first ==> gap == "") && GoodEntry(entry) && GoodMembers(rest, false)
  }

  ghost predicate GoodEntry(e: Entry) {
    GoodGlyphs(e.name) && Spaces(e.colonLead) && Spaces(e.colonGap) && Good(e.value)
  }

  // ---- Spelling ----

  ghost function SpellGlyph(g: Glyph): (s: Bytes)
    ensures s != ""
  {
    match g
    case Plain(c) => [c]
    case Escape(c) => ['\\', c]
    case Unicode(hex) => ['\\', 'u'] + hex
  }

  ghost function SpellGlyphs(body: seq<Glyph>): Bytes {
    if body == [] then "" else SpellGlyph(body[0]) + SpellGlyphs(body[1..])
  }

  /** A string from just after its opening quote. */
  ghost function SpellString(body: seq<Glyph>): Bytes { SpellGlyphs(body) + "\"" }

  ghost function Spell(v: Value): Bytes {
    match v
    case Word(text) => text
    case Number(minus, whole, fraction, exponent) => (if minus then "-" else "") + (whole + (fraction + exponent))
    case Text(body) => "\"" + SpellString(body)
    case Array(elements) => "[" + SpellElements(elements, true)
    case Object(members) => "{" + SpellMembers(members, true)
  }

  ghost function SpellElements(e: Elements, first: bool): Bytes {
    match e
    case EndArray(pad) => pad + "]"
    case Element(lead, gap, value, rest) =>
      lead + (Separator(gap, first) + (Spell(value) + SpellElements(rest, false)))
  }

  ghost function SpellEntry(e: Entry): Bytes {
    "\"" + (SpellString(e.name) + (e.colonLead + (":" + (e.colonGap + Spell(e.value)))))
  }

  ghost function SpellMembers(m: Members, first: bool): Bytes {
    match m
    case EndObject(pad) => pad + "}"
    case Member(lead, gap, entry, rest) =>
      lead + (Separator(gap, first) + (SpellEntry(entry) + SpellMembers(rest, false)))
  }

  // ---- Spelling at a position ----

  /** `x` is what `s` reads from position `i` on. */
  ghost predicate At(s: Bytes, i: nat, x: Bytes) { i + |x| <= |s| && Agree(s, i, x, 0) }

  /** `s` from position `i` and `x` agree from the `k`-th byte of `x` on. Stated by recursion, so that
      proofs see single bytes of it only where they ask. */
  ghost predicate Agree(s: Bytes, i: nat, x: Bytes, k: nat)
    requires i + |x| <= |s|
    decreases |x| - k
  {
    k < |x| ==> s[i + k] == x[k] && Agree(s, i, x, k + 1)
  }

  lemma {:induction false} AgreeIsEqual(s: Bytes, i: nat, x: Bytes, k: nat)
    requires i + |x| <= |s| && k <= |x|
    ensures Agree(s, i, x, k) <==> s[i + k..i + |x|] == x[k..]
    decreases |x| - k
  {
    if k < |x| {
      AgreeIsEqual(s, i, x, k + 1);
      assert s[i + k..i + |x|] == [s[i + k]] + s[i + k + 1..i + |x|];
      assert x[k..] == [x[k]] + x[k + 1..];
    }
  }

  lemma AtIsEqual(s: Bytes, i: nat, x: Bytes)
    ensures At(s, i, x) <==> i + |x| <= |s| && s[i..i + |x|] == x
  {
    if i + |x| <= |s| { AgreeIsEqual(s, i, x, 0); }
  }

  lemma AtJoin(s: Bytes, i: nat, x: Bytes, y: Bytes)
    ensures At(s, i, x + y) <==> At(s, i, x) && At(s, i + |x|, y)
  {
    AtIsEqual(s, i, x + y);
    AtIsEqual(s, i, x);
    AtIsEqual(s, i + |x|, y);
    if i + |x| + |y| <= |s| {
      var z := s[i..i + |x| + |y|];
      assert s[i..i + |x|] == z[..|x|] && s[i + |x|..i + |x| + |y|] == z[|x|..];
    }
  }

  lemma AtByte(s: Bytes, i: nat, c: char)
    ensures At(s, i, [c]) <==> i < |s| && s[i] == c
  {
    AtIsEqual(s, i, [c]);
    if i < |s| { assert s[i..i + 1] == [s[i]]; }
  }

  lemma AtIndex(s: Bytes, i: nat, x: Bytes, k: nat)
    requires At(s, i, x) && k < |x|
    ensures s[i + k] == x[k]
  {
    AtIsEqual(s, i, x);
    assert s[i + k] == s[i..i + |x|][k];
  }

  lemma AtHead(s: Bytes, i: nat, c: char, x: Bytes)
    ensures At(s, i, [c] + x) <==> i < |s| && s[i] == c && At(s, i + 1, x)
  {
    AtJoin(s, i, [c], x);
    AtByte(s, i, c);
  }

  /** An item of a container with what precedes and follows it. */
  lemma AtItem(s: Bytes, i: nat, lead: Bytes, sep: Bytes, x: Bytes, y: Bytes)
    ensures At(s, i, lead + (sep + (x + y))) <==>
            At(s, i, lead) && At(s, i + |lead|, sep) && At(s, i + |lead| + |sep|, x) && At(s, i + |lead| + |sep| + |x|, y)
  {
    AtJoin(s, i, lead, sep + (x + y));
    AtJoin(s, i + |lead|, sep, x + y);
    AtJoin(s, i + |lead| + |sep|, x, y);
  }

  /** A name and its value with the colon between them. */
  lemma AtMember(s: Bytes, i: nat, name: Bytes, colonLead: Bytes, colonGap: Bytes, x: Bytes)
    ensures At(s, i, "\"" + (name + (colonLead + (":" + (colonGap + x))))) <==>
            i < |s| && s[i] == '"' && At(s, i + 1, name) && At(s, i + 1 + |name|, colonLead) &&
            i + 1 + |name| + |colonLead| < |s| && s[i + 1 + |name| + |colonLead|] == ':' &&
            At(s, i + 2 + |name| + |colonLead|, colonGap) && At(s, i + 2 + |name| + |colonLead| + |colonGap|, x)
  {
    AtHead(s, i, '"', name + (colonLead + (":" + (colonGap + x))));
    AtItem(s, i + 1, name, colonLead, ":", colonGap + x);
    AtByte(s, i + 1 + |name| + |colonLead|, ':');
    AtJoin(s, i + 2 + |name| + |colonLead|, colonGap, x);
  }

  ghost function Separator(gap: Bytes, first: bool): Bytes { if first then "" else "," + gap }

  lemma AtElement(s: Bytes, i: nat, e: Elements, first: bool)
    requires e.Element?
    ensures var j := i + |e.lead|; var v := j + |Separator(e.gap, first)|; var n := v + |Spell(e.value)|;
            (At(s, i, SpellElements(e, first)) <==>
             At(s, i, e.lead) && At(s, j, Separator(e.gap, first)) && At(s, v, Spell(e.value)) && At(s, n, SpellElements(e.rest, false))) &&
            i + |SpellElements(e, first)| == n + |SpellElements(e.rest, false)|
  {
    AtItem(s, i, e.lead, Separator(e.gap, first), Spell(e.value), SpellElements(e.rest, false));
  }

  lemma AtEntry(s: Bytes, i: nat, m: Members, first: bool)
    requires m.Member?
    ensures var j := i + |m.lead|; var v := j + |Separator(m.gap, first)|; var n := v + |SpellEntry(m.entry)|;
            (At(s, i, SpellMembers(m, first)) <==>
             At(s, i, m.lead) && At(s, j, Separator(m.gap, first)) && At(s, v, SpellEntry(m.entry)) && At(s, n, SpellMembers(m.rest, false))) &&
            i + |SpellMembers(m, first)| == n + |SpellMembers(m.rest, false)|
  {
    AtItem(s, i, m.lead, Separator(m.gap, first), SpellEntry(m.entry), SpellMembers(m.rest, false));
  }

  // ---- Skipping ----

  lemma {:induction false} SkipSpaceSound(s: Bytes, i: nat) returns (w: Bytes)
    requires i <= |s|
    ensures Spaces(w) && At(s, i, w) && SkipSpace(s, i) == i + |w|
    decreases |s| - i
  {
    if i < |s| && IsSpace(s[i]) {
      var rest := SkipSpaceSound(s, i + 1);
      w := [s[i]] + rest;
      AtHead(s, i, s[i], rest);
    } else {
      w := "";
    }
  }

  lemma {:induction false} SkipSpaceComplete(s: Bytes, i: nat, w: Bytes)
    requires Spaces(w) && At(s, i, w) && (i + |w| < |s| ==> !IsSpace(s[i + |w|]))
    ensures SkipSpace(s, i) == i + |w|
    decreases |w|
  {
    if w != "" {
      assert w == [w[0]] + w[1..];
      AtHead(s, i, w[0], w[1..]);
      SkipSpaceComplete(s, i + 1, w[1..]);
    }
  }

  lemma {:induction false} SkipDigitsSound(s: Bytes, i: nat) returns (d: Bytes)
    requires i <= |s|
    ensures Digits(d) && At(s, i, d) && SkipDigits(s, i) == i + |d|
    decreases |s| - i
  {
    if i < |s| && IsDigit(s[i]) {
      var rest := SkipDigitsSound(s, i + 1);
      d := [s[i]] + rest;
      AtHead(s, i, s[i], rest);
    } else {
      d := "";
    }
  }

  lemma {:induction false} SkipDigitsComplete(s: Bytes, i: nat, d: Bytes)
    requires Digits(d) && At(s, i, d) && (i + |d| < |s| ==> !IsDigit(s[i + |d|]))
    ensures SkipDigits(s, i) == i + |d|
    decreases |d|
  {
    if d != "" {
      assert d == [d[0]] + d[1..];
      AtHead(s, i, d[0], d[1..]);
      SkipDigitsComplete(s, i + 1, d[1..]);
    }
  }

  // ---- Strings ----

  lemma {:induction false} StringSound(s: Bytes, i: nat) returns (body: seq<Glyph>)
    requires i <= |s| && ScanString(s, i).Complete?
    ensures GoodGlyphs(body) && At(s, i, SpellString(body)) && ScanString(s, i).end == i + |SpellString(body)|
    decreases |s| - i
  {
    AtByte(s, i, '"');
    if s[i] == '"' {
      body := [];
      assert SpellString([]) == "\"";
    } else {
      var g :=
        if IsPlain(s[i]) then Plain(s[i])
        else if IsEscape(s[i + 1]) then Escape(s[i + 1])
        else Unicode(s[i + 2..i + 6]);
      var n := |SpellGlyph(g)|;
      AtIsEqual(s, i, SpellGlyph(g));
      var rest := StringSound(s, i + n);
      body := [g] + rest;
      assert body[1..] == rest;
      assert SpellString(body) == SpellGlyph(g) + SpellString(rest);
      AtJoin(s, i, SpellGlyph(g), SpellString(rest));
    }
  }

  lemma GlyphScans(s: Bytes, i: nat, g: Glyph)
    requires GoodGlyph(g) && At(s, i, SpellGlyph(g))
    ensures ScanString(s, i) == ScanString(s, i + |SpellGlyph(g)|)
  {
    var x := SpellGlyph(g);
    AtIndex(s, i, x, 0);
    if !g.Plain? { AtIndex(s, i, x, 1); }
    if g.Unicode? {
      AtIndex(s, i, x, 2);
      AtIndex(s, i, x, 3);
      AtIndex(s, i, x, 4);
      AtIndex(s, i, x, 5);
    }
  }

  lemma {:induction false} StringComplete(s: Bytes, i: nat, body: seq<Glyph>)
    requires GoodGlyphs(body) && At(s, i, SpellString(body))
    ensures ScanString(s, i) == Complete(i + |SpellString(body)|)
    decreases |body|
  {
    if body == [] {
      assert SpellString([]) == "\"";
      AtByte(s, i, '"');
    } else {
      var x := SpellGlyph(body[0]);
      assert SpellString(body) == x + SpellString(body[1..]);
      AtJoin(s, i, x, SpellString(body[1..]));
      GlyphScans(s, i, body[0]);
      StringComplete(s, i + |x|, body[1..]);
    }
  }

  // ---- Numbers and words ----

  lemma WordSound(s: Bytes, i: nat, word: Bytes)
    requires i <= |s| && ScanWord(s, i, word).Complete?
    ensures At(s, i, word)
    decreases |word|
  {
    if word != "" {
      WordSound(s, i + 1, word[1..]);
      AtByte(s, i, word[0]);
      AtJoin(s, i, [word[0]], word[1..]);
      assert [word[0]] + word[1..] == word;
    }
  }

  lemma WordComplete(s: Bytes, i: nat, word: Bytes)
    requires At(s, i, word)
    ensures ScanWord(s, i, word) == Complete(i + |word|)
    decreases |word|
  {
    if word != "" {
      AtByte(s, i, word[0]);
      assert [word[0]] + word[1..] == word;
      AtJoin(s, i, [word[0]], word[1..]);
      WordComplete(s, i + 1, word[1..]);
    }
  }

  lemma ExponentSound(s: Bytes, i: nat) returns (e: Bytes)
    requires i <= |s| && ScanExponent(s, i).Complete?
    ensures GoodExponent(e) && At(s, i, e) && ScanExponent(s, i).end == i + |e|
  {
    if i < |s| && (s[i] == 'e' || s[i] == 'E') {
      var j := if i + 1 < |s| && (s[i + 1] == '+' || s[i + 1] == '-') then i + 2 else i + 1;
      var d := SkipDigitsSound(s, j + 1);
      AtByte(s, j, s[j]);
      AtJoin(s, j, [s[j]], d);
      AtIsEqual(s, i, s[i..j]);
      AtJoin(s, i, s[i..j], [s[j]] + d);
      e := s[i..j] + ([s[j]] + d);
      assert e[j - i..] == [s[j]] + d;
    } else {
      e := "";
    }
  }

  lemma FractionSound(s: Bytes, i: nat) returns (f: Bytes, e: Bytes)
    requires i <= |s| && ScanFraction(s, i).Complete?
    ensures GoodFraction(f) && GoodExponent(e) && At(s, i, f + e) && ScanFraction(s, i).end == i + |f + e|
  {
    if i < |s| && s[i] == '.' {
      var d := SkipDigitsSound(s, i + 1);
      e := ExponentSound(s, i + 1 + |d|);
      f := "." + d;
      AtByte(s, i, '.');
      AtJoin(s, i, ".", d);
      AtJoin(s, i, f, e);
      assert f[1..] == d;
    } else {
      f := "";
      e := ExponentSound(s, i);
      assert f + e == e;
    }
  }

  lemma NumberSound(s: Bytes, i: nat) returns (w: Bytes, f: Bytes, e: Bytes)
    requires i <= |s| && ScanNumber(s, i).Complete?
    ensures GoodWhole(w) && GoodFraction(f) && GoodExponent(e)
    ensures At(s, i, w + (f + e)) && ScanNumber(s, i).end == i + |w + (f + e)|
  {
    var d := "";
    if s[i] != '0' { d := SkipDigitsSound(s, i + 1); }
    f, e := FractionSound(s, i + 1 + |d|);
    w := [s[i]] + d;
    AtByte(s, i, s[i]);
    AtJoin(s, i, [s[i]], d);
    AtJoin(s, i, w, f + e);
  }

  /** A byte that a number would take in. */
  ghost predicate ExtendsNumber(c: char) { IsDigit(c) || c == '.' || c == 'e' || c == 'E' }

  ghost predicate NumberEnds(s: Bytes, i: nat) { i < |s| ==> !ExtendsNumber(s[i]) }

  lemma ExponentComplete(s: Bytes, i: nat, e: Bytes)
    requires GoodExponent(e) && At(s, i, e) && NumberEnds(s, i + |e|)
    ensures ScanExponent(s, i) == Complete(i + |e|)
  {
    if e != "" {
      assert |e| > 1;
      AtIndex(s, i, e, 0);
      AtIndex(s, i, e, 1);
      assert e[1] == e[1..][0];
      var k := if e[1] == '+' || e[1] == '-' then 2 else 1;
      AtIndex(s, i, e, k);
      assert e == e[..k + 1] + e[k + 1..];
      AtJoin(s, i, e[..k + 1], e[k + 1..]);
      assert e[k..][1..] == e[k + 1..];
      assert IsDigit(e[1]) ==> k == 1;
      assert Digits(e[k..]);
      assert e[k] == e[k..][0];
      SkipDigitsComplete(s, i + k + 1, e[k + 1..]);
    }
  }

  lemma FractionComplete(s: Bytes, i: nat, f: Bytes, e: Bytes)
    requires GoodFraction(f) && GoodExponent(e) && At(s, i, f + e) && NumberEnds(s, i + |f + e|)
    ensures ScanFraction(s, i) == Complete(i + |f + e|)
  {
    AtJoin(s, i, f, e);
    ExponentComplete(s, i + |f|, e);
    if e != "" { AtIndex(s, i + |f|, e, 0); }
    if f != "" {
      AtIndex(s, i, f, 0);
      assert f == "." + f[1..];
      AtJoin(s, i, ".", f[1..]);
      SkipDigitsComplete(s, i + 1, f[1..]);
    }
  }

  lemma NumberComplete(s: Bytes, i: nat, w: Bytes, f: Bytes, e: Bytes)
    requires GoodWhole(w) && GoodFraction(f) && GoodExponent(e)
    requires At(s, i, w + (f + e)) && NumberEnds(s, i + |w + (f + e)|)
    ensures ScanNumber(s, i) == Complete(i + |w + (f + e)|)
  {
    AtJoin(s, i, w, f + e);
    FractionComplete(s, i + |w|, f, e);
    if f + e != "" { AtIndex(s, i + |w|, f + e, 0); }
    AtIndex(s, i, w, 0);
    assert w == [w[0]] + w[1..];
    AtJoin(s, i, [w[0]], w[1..]);
    SkipDigitsComplete(s, i + 1, w[1..]);
  }

  // ---- Values: whatever the scanner completes is spelled by a tree ----

  lemma BareSound(s: Bytes, i: nat) returns (v: Value)
    requires i < |s| && ScanValue(s, i).Complete? && !SelfDelimiting(s[i])
    ensures Good(v) && At(s, i, Spell(v)) && ScanValue(s, i).end == i + |Spell(v)| && !v.Object?
  {
    if s[i] == 't' || s[i] == 'f' || s[i] == 'n' {
      var rest := if s[i] == 't' then "rue" else if s[i] == 'f' then "alse" else "ull";
      WordSound(s, i + 1, rest);
      AtHead(s, i, s[i], rest);
      v := Word([s[i]] + rest);
    } else if s[i] == '-' {
      var w, f, e := NumberSound(s, i + 1);
      AtHead(s, i, '-', w + (f + e));
      v := Number(true, w, f, e);
    } else {
      var w, f, e := NumberSound(s, i);
      assert "" + (w + (f + e)) == w + (f + e);
      v := Number(false, w, f, e);
    }
  }

  lemma {:induction false} ValueSound(s: Bytes, i: nat) returns (v: Value)
    requires i <= |s| && ScanValue(s, i).Complete?
    ensures Good(v) && At(s, i, Spell(v)) && ScanValue(s, i).end == i + |Spell(v)|
    ensures v.Object? <==> s[i] == '{'
    decreases |s| - i, 1
  {
    if s[i] == '{' {
      var m := MembersSound(s, i + 1, true);
      v := Object(m);
      AtHead(s, i, '{', SpellMembers(m, true));
    } else if s[i] == '[' {
      var e := ElementsSound(s, i + 1, true);
      v := Array(e);
      AtHead(s, i, '[', SpellElements(e, true));
    } else if s[i] == '"' {
      var body := StringSound(s, i + 1);
      v := Text(body);
      AtHead(s, i, '"', SpellString(body));
    } else {
      v := BareSound(s, i);
    }
  }

  /** The space before an item or a closing bracket, and the comma with its space unless the item is
      the first. */
  lemma SeparatorSound(s: Bytes, i: nat, first: bool) returns (lead: Bytes, gap: Bytes)
    requires i <= |s| && SkipSpace(s, i) < |s| && (!first ==> s[SkipSpace(s, i)] == ',')
    ensures Spaces(lead) && Spaces(gap) && (first ==> gap == "")
    ensures At(s, i, lead) && SkipSpace(s, i) == i + |lead|
    ensures At(s, i + |lead|, Separator(gap, first))
    ensures !first ==> SkipSpace(s, i + |lead| + 1) == i + |lead| + 1 + |gap|
  {
    lead := SkipSpaceSound(s, i);
    gap := "";
    if !first {
      gap := SkipSpaceSound(s, i + |lead| + 1);
      AtHead(s, i + |lead|, ',', gap);
    }
  }

  lemma ClosingSound(s: Bytes, i: nat, close: char) returns (pad: Bytes)
    requires i <= |s| && SkipSpace(s, i) < |s| && s[SkipSpace(s, i)] == close
    ensures Spaces(pad) && At(s, i, pad + [close]) && SkipSpace(s, i) == i + |pad|
  {
    pad := SkipSpaceSound(s, i);
    AtByte(s, i + |pad|, close);
    AtJoin(s, i, pad, [close]);
  }

  /** One round of scanning an array: where its element starts, and what is left to scan. */
  lemma ElementsRound(s: Bytes, i: nat, first: bool, v: nat, n: nat)
    requires i <= |s| && SkipSpace(s, i) < |s| && s[SkipSpace(s, i)] != ']' && (!first ==> s[SkipSpace(s, i)] == ',')
    requires v == if first then SkipSpace(s, i) else SkipSpace(s, SkipSpace(s, i) + 1)
    requires v < |s| && s[v] != ']' && ScanValue(s, v) == Complete(n)
    ensures ScanElements(s, i, first) == ScanElements(s, n, false)
  {
  }

  lemma ElementsRounds(s: Bytes, i: nat, first: bool)
    requires i <= |s| && ScanElements(s, i, first).Complete?
    ensures SkipSpace(s, i) < |s|
    ensures s[SkipSpace(s, i)] == ']' ==> ScanElements(s, i, first).end == SkipSpace(s, i) + 1
    ensures s[SkipSpace(s, i)] != ']' ==>
              (!first ==> s[SkipSpace(s, i)] == ',') &&
              var v := if first then SkipSpace(s, i) else SkipSpace(s, SkipSpace(s, i) + 1);
              ScanValue(s, v).Complete? && ScanElements(s, i, first) == ScanElements(s, ScanValue(s, v).end, false)
  {
  }

  /** `lead` and the separator with `gap` are what stands between `i` and the next item at `k`. */
  ghost predicate Leads(s: Bytes, i: nat, first: bool, lead: Bytes, gap: Bytes, k: nat) {
    Spaces(lead) && Spaces(gap) && (first ==> gap == "") &&
    At(s, i, lead) && At(s, i + |lead|, Separator(gap, first)) && k == i + |lead| + |Separator(gap, first)|
  }

  /** The first of the remaining elements of a scanned array. */
  lemma ElementFound(s: Bytes, i: nat, first: bool) returns (lead: Bytes, gap: Bytes, v: nat)
    requires i <= |s| && ScanElements(s, i, first).Complete? && s[SkipSpace(s, i)] != ']'
    ensures Leads(s, i, first, lead, gap, v) && v <= |s|
    ensures ScanValue(s, v).Complete? && ScanElements(s, i, first) == ScanElements(s, ScanValue(s, v).end, false)
  {
    ElementsRounds(s, i, first);
    lead, gap := SeparatorSound(s, i, first);
    v := i + |lead| + |Separator(gap, first)|;
  }

  lemma ElementBuilt(s: Bytes, i: nat, first: bool, lead: Bytes, gap: Bytes, v: nat, value: Value, n: nat, rest: Elements)
    returns (e: Elements)
    requires Leads(s, i, first, lead, gap, v) && Good(value) && GoodElements(rest, false)
    requires At(s, v, Spell(value)) && n == v + |Spell(value)| && At(s, n, SpellElements(rest, false))
    ensures GoodElements(e, first) && At(s, i, SpellElements(e, first))
    ensures i + |SpellElements(e, first)| == n + |SpellElements(rest, false)|
  {
    e := Element(lead, gap, value, rest);
    AtElement(s, i, e, first);
  }

  lemma {:induction false} ElementsSound(s: Bytes, i: nat, first: bool) returns (e: Elements)
    requires i <= |s| && ScanElements(s, i, first).Complete?
    ensures GoodElements(e, first) && At(s, i, SpellElements(e, first))
    ensures ScanElements(s, i, first).end == i + |SpellElements(e, first)|
    decreases |s| - i, 2
  {
    ElementsRounds(s, i, first);
    if s[SkipSpace(s, i)] == ']' {
      var pad := ClosingSound(s, i, ']');
      e := EndArray(pad);
    } else {
      var lead, gap, v := ElementFound(s, i, first);
      var value := ValueSound(s, v);
      var n := ScanValue(s, v).end;
      var rest := ElementsSound(s, n, false);
      e := ElementBuilt(s, i, first, lead, gap, v, value, n, rest);
    }
  }

  lemma EntryBuilt(s: Bytes, i: nat, name: seq<Glyph>, colonLead: Bytes, colonGap: Bytes, value: Value) returns (e: Entry)
    requires i < |s| && s[i] == '"' && GoodGlyphs(name) && Spaces(colonLead) && Spaces(colonGap) && Good(value)
    requires var n := i + 1 + |SpellString(name)|; var c := n + |colonLead|;
             At(s, i + 1, SpellString(name)) && At(s, n, colonLead) && c < |s| && s[c] == ':' &&
             At(s, c + 1, colonGap) && At(s, c + 1 + |colonGap|, Spell(value))
    ensures GoodEntry(e) && At(s, i, SpellEntry(e))
    ensures |SpellEntry(e)| == 2 + |SpellString(name)| + |colonLead| + |colonGap| + |Spell(value)|
  {
    e := Entry(name, colonLead, colonGap, value);
    AtMember(s, i, SpellString(name), colonLead, colonGap, Spell(value));
  }

  /** What scanning one name and its value has gone through. */
  lemma EntryRounds(s: Bytes, i: nat)
    requires i <= |s| && ScanMember(s, i).Complete?
    ensures i < |s| && s[i] == '"' && ScanString(s, i + 1).Complete?
    ensures var c := SkipSpace(s, ScanString(s, i + 1).end);
            c < |s| && s[c] == ':' && ScanMember(s, i) == ScanValue(s, SkipSpace(s, c + 1))
  {
  }

  lemma {:induction false} EntrySound(s: Bytes, i: nat) returns (e: Entry)
    requires i <= |s| && ScanMember(s, i).Complete?
    ensures GoodEntry(e) && At(s, i, SpellEntry(e)) && ScanMember(s, i).end == i + |SpellEntry(e)|
    decreases |s| - i, 1
  {
    EntryRounds(s, i);
    var name := StringSound(s, i + 1);
    var colonLead := SkipSpaceSound(s, ScanString(s, i + 1).end);
    var c := i + 1 + |SpellString(name)| + |colonLead|;
    var colonGap := SkipSpaceSound(s, c + 1);
    var value := ValueSound(s, c + 1 + |colonGap|);
    e := EntryBuilt(s, i, name, colonLead, colonGap, value);
  }

  lemma MembersRound(s: Bytes, i: nat, first: bool, k: nat, n: nat)
    requires i <= |s| && SkipSpace(s, i) < |s| && s[SkipSpace(s, i)] != '}' && (!first ==> s[SkipSpace(s, i)] == ',')
    requires k == if first then SkipSpace(s, i) else SkipSpace(s, SkipSpace(s, i) + 1)
    requires k <= |s| && ScanMember(s, k) == Complete(n)
    ensures ScanMembers(s, i, first) == ScanMembers(s, n, false)
  {
  }

  lemma MembersRounds(s: Bytes, i: nat, first: bool)
    requires i <= |s| && ScanMembers(s, i, first).Complete?
    ensures SkipSpace(s, i) < |s|
    ensures s[SkipSpace(s, i)] == '}' ==> ScanMembers(s, i, first).end == SkipSpace(s, i) + 1
    ensures s[SkipSpace(s, i)] != '}' ==>
              (!first ==> s[SkipSpace(s, i)] == ',') &&
              var k := if first then SkipSpace(s, i) else SkipSpace(s, SkipSpace(s, i) + 1);
              ScanMember(s, k).Complete? && ScanMembers(s, i, first) == ScanMembers(s, ScanMember(s, k).end, false)
  {
  }

  lemma MemberFound(s: Bytes, i: nat, first: bool) returns (lead: Bytes, gap: Bytes, k: nat)
    requires i <= |s| && ScanMembers(s, i, first).Complete? && s[SkipSpace(s, i)] != '}'
    ensures Leads(s, i, first, lead, gap, k) && k <= |s|
    ensures ScanMember(s, k).Complete? && ScanMembers(s, i, first) == ScanMembers(s, ScanMember(s, k).end, false)
  {
    MembersRounds(s, i, first);
    lead, gap := SeparatorSound(s, i, first);
    k := i + |lead| + |Separator(gap, first)|;
  }

  lemma MemberBuilt(s: Bytes, i: nat, first: bool, lead: Bytes, gap: Bytes, k: nat, entry: Entry, n: nat, rest: Members)
    returns (m: Members)
    requires Leads(s, i, first, lead, gap, k) && GoodEntry(entry) && GoodMembers(rest, false)
    requires At(s, k, SpellEntry(entry)) && n == k + |SpellEntry(entry)| && At(s, n, SpellMembers(rest, false))
    ensures GoodMembers(m, first) && At(s, i, SpellMembers(m, first))
    ensures i + |SpellMembers(m, first)| == n + |SpellMembers(rest, false)|
  {
    m := Member(lead, gap, entry, rest);
    AtEntry(s, i, m, first);
  }

  lemma {:induction false} MembersSound(s: Bytes, i: nat, first: bool) returns (m: Members)
    requires i <= |s| && ScanMembers(s, i, first).Complete?
    ensures GoodMembers(m, first) && At(s, i, SpellMembers(m, first))
    ensures ScanMembers(s, i, first).end == i + |SpellMembers(m, first)|
    decreases |s| - i, 2
  {
    MembersRounds(s, i, first);
    if s[SkipSpace(s, i)] == '}' {
      var pad := ClosingSound(s, i, '}');
      m := EndObject(pad);
    } else {
      var lead, gap, k := MemberFound(s, i, first);
      var entry := EntrySound(s, k);
      var n := ScanMember(s, k).end;
      var rest := MembersSound(s, n, false);
      m := MemberBuilt(s, i, first, lead, gap, k, entry, n, rest);
    }
  }

  // ---- Values: whatever a tree spells, the scanner completes ----

  /** The first byte of a spelling tells the kind of value, and is never white space or a bracket end. */
  lemma SpellStart(v: Value)
    requires Good(v)
    ensures Spell(v) != ""
    ensures var c := Spell(v)[0]; !IsSpace(c) && c != ']' && c != '}' && c != ',' && c != ':'
    ensures var c := Spell(v)[0]; (v.Object? <==> c == '{') && (SelfDelimiting(c) || Bare(c))
  {
    if v.Number? && !v.minus {
      assert Spell(v)[0] == v.whole[0];
    }
  }

  lemma SignedScans(s: Bytes, i: nat)
    requires i < |s|
    ensures IsDigit(s[i]) ==> ScanValue(s, i) == ScanNumber(s, i)
    ensures s[i] == '-' ==> ScanValue(s, i) == ScanNumber(s, i + 1)
  {
  }

  lemma SignedComplete(s: Bytes, i: nat, minus: bool, w: Bytes, f: Bytes, e: Bytes)
    requires Good(Number(minus, w, f, e)) && At(s, i, Spell(Number(minus, w, f, e)))
    requires NumberEnds(s, i + |Spell(Number(minus, w, f, e))|)
    ensures i <= |s| && ScanValue(s, i) == Complete(i + |Spell(Number(minus, w, f, e))|)
  {
    var x := w + (f + e);
    if minus {
      assert Spell(Number(minus, w, f, e)) == ['-'] + x;
      AtHead(s, i, '-', x);
      NumberComplete(s, i + 1, w, f, e);
    } else {
      assert Spell(Number(minus, w, f, e)) == x;
      NumberComplete(s, i, w, f, e);
      AtIndex(s, i, x, 0);
    }
    SignedScans(s, i);
  }

  lemma BareWordComplete(s: Bytes, i: nat, text: Bytes)
    requires Good(Word(text)) && At(s, i, text)
    ensures i <= |s| && ScanValue(s, i) == Complete(i + |text|)
  {
    assert text == [text[0]] + text[1..];
    AtHead(s, i, text[0], text[1..]);
    WordComplete(s, i + 1, text[1..]);
  }

  lemma {:induction false} ValueComplete(s: Bytes, i: nat, v: Value)
    requires Good(v) && At(s, i, Spell(v)) && (v.Number? ==> NumberEnds(s, i + |Spell(v)|))
    ensures ScanValue(s, i) == Complete(i + |Spell(v)|)
    decreases v, 0
  {
    match v
    case Word(text) => BareWordComplete(s, i, text);
    case Number(minus, w, f, e) => SignedComplete(s, i, minus, w, f, e);
    case Text(body) =>
      AtHead(s, i, '"', SpellString(body));
      StringComplete(s, i + 1, body);
    case Array(e) =>
      AtHead(s, i, '[', SpellElements(e, true));
      ElementsComplete(s, i + 1, e, true);
    case Object(m) =>
      AtHead(s, i, '{', SpellMembers(m, true));
      MembersComplete(s, i + 1, m, true);
  }

  /** What comes after a value inside a container is white space, a comma or a closing bracket. */
  lemma ElementsStart(e: Elements)
    requires GoodElements(e, false)
    ensures SpellElements(e, false) != "" && !ExtendsNumber(SpellElements(e, false)[0])
  {
    match e
    case EndArray(_) =>
    case Element(_, _, _, _) =>
  }

  lemma MembersStart(m: Members)
    requires GoodMembers(m, false)
    ensures SpellMembers(m, false) != "" && !ExtendsNumber(SpellMembers(m, false)[0])
  {
    match m
    case EndObject(_) =>
    case Member(_, _, _, _) =>
  }

  lemma ClosingComplete(s: Bytes, i: nat, pad: Bytes, close: char)
    requires Spaces(pad) && At(s, i, pad + [close]) && !IsSpace(close)
    ensures SkipSpace(s, i) == i + |pad| < |s| && s[i + |pad|] == close
  {
    AtJoin(s, i, pad, [close]);
    AtByte(s, i + |pad|, close);
    SkipSpaceComplete(s, i, pad);
  }

  /** A separator is a comma and its space, or nothing before the first item. */
  lemma SeparatorComplete(s: Bytes, i: nat, lead: Bytes, gap: Bytes, first: bool)
    requires Spaces(lead) && Spaces(gap) && (first ==> gap == "")
    requires At(s, i, lead) && At(s, i + |lead|, Separator(gap, first))
    requires var v := i + |lead| + |Separator(gap, first)|; v < |s| && !IsSpace(s[v])
    ensures SkipSpace(s, i) == i + |lead| < |s|
    ensures !first ==> s[i + |lead|] == ',' && SkipSpace(s, i + |lead| + 1) == i + |lead| + 1 + |gap|
  {
    if !first {
      AtHead(s, i + |lead|, ',', gap);
      SkipSpaceComplete(s, i + |lead| + 1, gap);
    }
    SkipSpaceComplete(s, i, lead);
  }

  /** Where the first of the remaining elements stands, and where what follows it begins. */
  lemma ElementParts(s: Bytes, i: nat, e: Elements, first: bool) returns (v: nat, n: nat)
    requires e.Element? && GoodElements(e, first) && At(s, i, SpellElements(e, first))
    ensures SkipSpace(s, i) < |s| && s[SkipSpace(s, i)] != ']' && (!first ==> s[SkipSpace(s, i)] == ',')
    ensures v == if first then SkipSpace(s, i) else SkipSpace(s, SkipSpace(s, i) + 1)
    ensures v < |s| && s[v] != ']' && At(s, v, Spell(e.value)) && n == v + |Spell(e.value)| && NumberEnds(s, n)
    ensures At(s, n, SpellElements(e.rest, false))
    ensures i + |SpellElements(e, first)| == n + |SpellElements(e.rest, false)|
  {
    AtElement(s, i, e, first);
    v := i + |e.lead| + |Separator(e.gap, first)|;
    n := v + |Spell(e.value)|;
    SpellStart(e.value);
    AtIndex(s, v, Spell(e.value), 0);
    ElementsStart(e.rest);
    AtIndex(s, n, SpellElements(e.rest, false), 0);
    SeparatorComplete(s, i, e.lead, e.gap, first);
  }

  lemma {:induction false} ElementsComplete(s: Bytes, i: nat, e: Elements, first: bool)
    requires GoodElements(e, first) && At(s, i, SpellElements(e, first))
    ensures ScanElements(s, i, first) == Complete(i + |SpellElements(e, first)|)
    decreases e, 0
  {
    match e
    case EndArray(pad) => ClosingComplete(s, i, pad, ']');
    case Element(_, _, value, rest) =>
      var v, n := ElementParts(s, i, e, first);
      ValueComplete(s, v, value);
      ElementsComplete(s, n, rest, false);
      ElementsRound(s, i, first, v, n);
  }

  lemma EntryParts(s: Bytes, i: nat, e: Entry) returns (n: nat, c: nat, v: nat)
    requires GoodEntry(e) && At(s, i, SpellEntry(e))
    ensures i < |s| && s[i] == '"' && ScanString(s, i + 1) == Complete(n)
    ensures c == SkipSpace(s, n) < |s| && s[c] == ':' && v == SkipSpace(s, c + 1)
    ensures At(s, v, Spell(e.value)) && i + |SpellEntry(e)| == v + |Spell(e.value)|
  {
    var x := Spell(e.value);
    AtMember(s, i, SpellString(e.name), e.colonLead, e.colonGap, x);
    n := i + 1 + |SpellString(e.name)|;
    c := n + |e.colonLead|;
    v := c + 1 + |e.colonGap|;
    SpellStart(e.value);
    AtIndex(s, v, x, 0);
    StringComplete(s, i + 1, e.name);
    SkipSpaceComplete(s, n, e.colonLead);
    SkipSpaceComplete(s, c + 1, e.colonGap);
  }

  lemma {:induction false} EntryComplete(s: Bytes, i: nat, e: Entry)
    requires GoodEntry(e) && At(s, i, SpellEntry(e)) && NumberEnds(s, i + |SpellEntry(e)|)
    ensures i <= |s| && ScanMember(s, i) == Complete(i + |SpellEntry(e)|)
    decreases e, 0
  {
    var n, c, v := EntryParts(s, i, e);
    ValueComplete(s, v, e.value);
  }

  lemma EntryStart(s: Bytes, i: nat, e: Entry)
    requires At(s, i, SpellEntry(e))
    ensures i < |s| && s[i] == '"' && |SpellEntry(e)| > 0
  {
    AtHead(s, i, '"', SpellString(e.name) + (e.colonLead + (":" + (e.colonGap + Spell(e.value)))));
  }

  lemma MemberLength(m: Members, first: bool)
    requires m.Member? && GoodMembers(m, first)
    ensures |SpellMembers(m, first)| == |m.lead| + |Separator(m.gap, first)| + |SpellEntry(m.entry)| + |SpellMembers(m.rest, false)|
  {
  }

  lemma MemberParts(s: Bytes, i: nat, m: Members, first: bool) returns (k: nat, n: nat)
    requires m.Member? && GoodMembers(m, first) && At(s, i, SpellMembers(m, first))
    ensures SkipSpace(s, i) < |s| && s[SkipSpace(s, i)] != '}' && (!first ==> s[SkipSpace(s, i)] == ',')
    ensures k == if first then SkipSpace(s, i) else SkipSpace(s, SkipSpace(s, i) + 1)
    ensures At(s, k, SpellEntry(m.entry)) && n == k + |SpellEntry(m.entry)| && NumberEnds(s, n)
    ensures At(s, n, SpellMembers(m.rest, false))
    ensures i + |SpellMembers(m, first)| == n + |SpellMembers(m.rest, false)|
  {
    MemberLength(m, first);
    AtEntry(s, i, m, first);
    k := i + |m.lead| + |Separator(m.gap, first)|;
    n := k + |SpellEntry(m.entry)|;
    EntryStart(s, k, m.entry);
    MembersStart(m.rest);
    AtIndex(s, n, SpellMembers(m.rest, false), 0);
    SeparatorComplete(s, i, m.lead, m.gap, first);
  }

  lemma {:induction false} MembersComplete(s: Bytes, i: nat, m: Members, first: bool)
    requires GoodMembers(m, first) && At(s, i, SpellMembers(m, first))
    ensures ScanMembers(s, i, first) == Complete(i + |SpellMembers(m, first)|)
    decreases m, 0
  {
    match m
    case EndObject(pad) => ClosingComplete(s, i, pad, '}');
    case Member(_, _, entry, rest) =>
      var k, n := MemberParts(s, i, m, first);
      EntryComplete(s, k, entry);
      MembersComplete(s, n, rest, false);
      MembersRound(s, i, first, k, n);
  }

  // ---- The scanner against the grammar ----

  /** `s` spells exactly one JSON object, with nothing around it. */
  ghost predicate IsObjectText(s: Bytes) { exists v: Value :: v.Object? && Good(v) && Spell(v) == s }

  /** The scanner ends a document that starts with `{` after `n` bytes exactly when those bytes spell
      a JSON object; so at most one prefix of any input does. */
  lemma ObjectDocuments(s: Bytes, n: nat)
    requires |s| > 0 && s[0] == '{'
    ensures ScanDocument(s) == Complete(n) <==> n <= |s| && IsObjectText(s[..n])
  {
    if ScanDocument(s) == Complete(n) {
      var v := ValueSound(s, 0);
      AtIsEqual(s, 0, Spell(v));
    }
    if n <= |s| && IsObjectText(s[..n]) {
      var v: Value :| v.Object? && Good(v) && Spell(v) == s[..n];
      AtIsEqual(s, 0, Spell(v));
      ValueComplete(s, 0, v);
    }
  }

  /** After a syntax error no continuation of the input makes any of its prefixes a JSON object. */
  lemma BadIsHopeless(s: Bytes, u: Bytes, n: nat)
    requires |s| > 0 && s[0] == '{' && ScanDocument(s).Bad? && s <= u && n <= |u|
    ensures !IsObjectText(u[..n])
  {
    DocumentGrows(s, u);
    ObjectDocuments(u, n);
  }
}
