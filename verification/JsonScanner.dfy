/** The JSON scanner behind `serde_json::Deserializer::from_slice(..).into_iter::<Value>()`, as far as
    framing is concerned: where one value ends, or that the input ran out, or that it is malformed.
    The grammar is RFC 8259 (section 2 for structure, section 6 for numbers, section 7 for strings).
    Bytes are modelled as `char`s; those from 0x80 up only ever occur inside strings. */
module JsonScanner {
  type Bytes = seq<char>

  /** What scanning a value finds: its end, an end of input inside it, or a syntax error. */
  datatype Scan = Complete(end: nat) | Incomplete | Bad

  predicate IsSpace(c: char) { c == ' ' || c == '\n' || c == '\t' || c == '\r' }

  predicate IsDigit(c: char) { '0' <= c <= '9' }

  predicate IsHex(c: char) { IsDigit(c) || 'a' <= c <= 'f' || 'A' <= c <= 'F' }

  predicate IsEscape(c: char) {
    c == '"' || c == '\\' || c == '/' || c == 'b' || c == 'f' || c == 'n' || c == 'r' || c == 't'
  }

  /** A byte that may stand for itself inside a string. */
  predicate IsPlain(c: char) { c != '"' && c != '\\' && c >= ' ' }

  function SkipSpace(s: Bytes, i: nat): (j: nat)
    requires i <= |s|
    ensures i <= j <= |s|
    decreases |s| - i
  {
    if i < |s| && IsSpace(s[i]) then SkipSpace(s, i + 1) else i
  }

  function SkipDigits(s: Bytes, i: nat): (j: nat)
    requires i <= |s|
    ensures i <= j <= |s|
    decreases |s| - i
  {
    if i < |s| && IsDigit(s[i]) then SkipDigits(s, i + 1) else i
  }

  /** The rest of `true`, `false` or `null`. */
  function ScanWord(s: Bytes, i: nat, word: string): (r: Scan)
    requires i <= |s|
    ensures r.Complete? ==> r.end == i + |word| <= |s|
    decreases |word|
  {
    if word == "" then Complete(i)
    else if i == |s| then Incomplete
    else if s[i] != word[0] then Bad
    else ScanWord(s, i + 1, word[1..])
  }

  /** A number from its first digit on. */
  function ScanNumber(s: Bytes, i: nat): (r: Scan)
    requires i <= |s|
    ensures r.Complete? ==> i < r.end <= |s|
  {
    if i == |s| then Incomplete
    else if s[i] == '0' then
      if i + 1 < |s| && IsDigit(s[i + 1]) then Bad else ScanFraction(s, i + 1)
    else if IsDigit(s[i]) then ScanFraction(s, SkipDigits(s, i + 1))
    else Bad
  }

  function ScanFraction(s: Bytes, i: nat): (r: Scan)
    requires i <= |s|
    ensures r.Complete? ==> i <= r.end <= |s|
  {
    if i < |s| && s[i] == '.' then
      var j := SkipDigits(s, i + 1);
      if i + 1 < j then ScanExponent(s, j) else if j == |s| then Incomplete else Bad
    else ScanExponent(s, i)
  }

  function ScanExponent(s: Bytes, i: nat): (r: Scan)
    requires i <= |s|
    ensures r.Complete? ==> i <= r.end <= |s|
  {
    if i < |s| && (s[i] == 'e' || s[i] == 'E') then
      var j := if i + 1 < |s| && (s[i + 1] == '+' || s[i + 1] == '-') then i + 2 else i + 1;
      if j == |s| then Incomplete
      else if IsDigit(s[j]) then Complete(SkipDigits(s, j + 1))
      else Bad
    else Complete(i)
  }

  /** A string from just after its opening quote. A `\u` with fewer than four bytes behind it counts as
      an end of input, whatever those bytes are. */
  function ScanString(s: Bytes, i: nat): (r: Scan)
    requires i <= |s|
    ensures r.Complete? ==> i < r.end <= |s|
    decreases |s| - i
  {
    if i == |s| then Incomplete
    else if s[i] == '"' then Complete(i + 1)
    else if IsPlain(s[i]) then ScanString(s, i + 1)
    else if s[i] != '\\' then Bad
    else if i + 1 == |s| then Incomplete
    else if IsEscape(s[i + 1]) then ScanString(s, i + 2)
    else if s[i + 1] != 'u' then Bad
    else if |s| < i + 6 then Incomplete
    else if IsHex(s[i + 2]) && IsHex(s[i + 3]) && IsHex(s[i + 4]) && IsHex(s[i + 5]) then ScanString(s, i + 6)
    else Bad
  }

  function ScanValue(s: Bytes, i: nat): (r: Scan)
    requires i <= |s|
    ensures r.Complete? ==> i < r.end <= |s|
    decreases |s| - i, 1
  {
    if i == |s| then Incomplete
    else if s[i] == '{' then ScanMembers(s, i + 1, true)
    else if s[i] == '[' then ScanElements(s, i + 1, true)
    else if s[i] == '"' then ScanString(s, i + 1)
    else if s[i] == 't' then ScanWord(s, i + 1, "rue")
    else if s[i] == 'f' then ScanWord(s, i + 1, "alse")
    else if s[i] == 'n' then ScanWord(s, i + 1, "ull")
    else if s[i] == '-' then ScanNumber(s, i + 1)
    else ScanNumber(s, i)
  }

  /** What follows `[`, or an element of an array. */
  function ScanElements(s: Bytes, i: nat, first: bool): (r: Scan)
    requires i <= |s|
    ensures r.Complete? ==> i < r.end <= |s|
    decreases |s| - i, 2
  {
    var j := SkipSpace(s, i);
    if j == |s| then Incomplete
    else if s[j] == ']' then Complete(j + 1)
    else if !first && s[j] != ',' then Bad
    else
      var v := if first then j else SkipSpace(s, j + 1);
      if v < |s| && s[v] == ']' then Bad
      else
        var r := ScanValue(s, v);
        if r.Complete? then ScanElements(s, r.end, false) else r
  }

  /** What follows `{`, or a member of an object. */
  function ScanMembers(s: Bytes, i: nat, first: bool): (r: Scan)
    requires i <= |s|
    ensures r.Complete? ==> i < r.end <= |s|
    decreases |s| - i, 2
  {
    var j := SkipSpace(s, i);
    if j == |s| then Incomplete
    else if s[j] == '}' then Complete(j + 1)
    else if !first && s[j] != ',' then Bad
    else
      var k := if first then j else SkipSpace(s, j + 1);
      var r := ScanMember(s, k);
      if r.Complete? then ScanMembers(s, r.end, false) else r
  }

  /** One name, its colon and its value. */
  function ScanMember(s: Bytes, i: nat): (r: Scan)
    requires i <= |s|
    ensures r.Complete? ==> i < r.end <= |s|
    decreases |s| - i, 1
  {
    if i == |s| then Incomplete
    else if s[i] != '"' then Bad
    else
      var key := ScanString(s, i + 1);
      if !key.Complete? then key
      else
        var colon := SkipSpace(s, key.end);
        if colon == |s| then Incomplete
        else if s[colon] != ':' then Bad
        else ScanValue(s, SkipSpace(s, colon + 1))
  }

  /** Values that show their own end. The others are the bare numbers and words. */
  predicate SelfDelimiting(c: char) { c == '{' || c == '[' || c == '"' }

  /** The first byte of a bare number or word. */
  predicate Bare(c: char) { IsDigit(c) || c == '-' || c == 't' || c == 'f' || c == 'n' }

  /** The bytes that may follow a bare value. */
  predicate EndsBare(c: char) {
    IsSpace(c) || c == '"' || c == '[' || c == ']' || c == '{' || c == '}' || c == ',' || c == ':'
  }

  /** One call of the stream deserializer on a buffer that starts with no whitespace. */
  function ScanDocument(s: Bytes): (r: Scan)
    requires |s| > 0
    ensures r.Complete? ==> 0 < r.end <= |s|
  {
    var r := ScanValue(s, 0);
    if r.Complete? && !SelfDelimiting(s[0]) && r.end < |s| && !EndsBare(s[r.end]) then Bad else r
  }

  /** The classes of bytes that the grammar speaks of. */
  lemma ByteClasses(c: char)
    ensures IsSpace(c) <==> c in {0x20 as char, 0x09 as char, 0x0A as char, 0x0D as char}
    ensures IsEscape(c) <==> c in {0x22 as char, 0x5C as char, 0x2F as char, 0x62 as char, 0x66 as char, 0x6E as char, 0x72 as char, 0x74 as char}
    ensures IsPlain(c) <==> 0x20 <= c as int && c as int != 0x22 && c as int != 0x5C
    ensures IsHex(c) <==> 0x30 <= c as int <= 0x39 || 0x41 <= c as int <= 0x46 || 0x61 <= c as int <= 0x66
    ensures IsDigit(c) <==> 0x30 <= c as int <= 0x39
  {
  }

  // ---- More input never changes a verdict that has been reached ----

  /** A result that bytes after the scanned ones cannot change. */
  predicate Settled(s: Bytes, r: Scan) { r.Bad? || (r.Complete? && r.end < |s|) }

  lemma {:induction false} SkipSpaceGrows(s: Bytes, u: Bytes, i: nat)
    requires s <= u && i <= |s|
    ensures SkipSpace(s, i) < |s| ==> SkipSpace(u, i) == SkipSpace(s, i)
    ensures SkipSpace(s, i) <= SkipSpace(u, i)
    decreases |s| - i
  {
    if i < |s| && IsSpace(s[i]) { SkipSpaceGrows(s, u, i + 1); }
  }

  lemma {:induction false} SkipDigitsGrows(s: Bytes, u: Bytes, i: nat)
    requires s <= u && i <= |s|
    ensures SkipDigits(s, i) < |s| ==> SkipDigits(u, i) == SkipDigits(s, i)
    decreases |s| - i
  {
    if i < |s| && IsDigit(s[i]) { SkipDigitsGrows(s, u, i + 1); }
  }

  lemma {:induction false} WordGrows(s: Bytes, u: Bytes, i: nat, word: string)
    requires s <= u && i <= |s|
    ensures !ScanWord(s, i, word).Incomplete? ==> ScanWord(u, i, word) == ScanWord(s, i, word)
    decreases |word|
  {
    if word != "" && i < |s| && s[i] == word[0] { WordGrows(s, u, i + 1, word[1..]); }
  }

  lemma ExponentGrows(s: Bytes, u: Bytes, i: nat)
    requires s <= u && i <= |s| && Settled(s, ScanExponent(s, i))
    ensures ScanExponent(u, i) == ScanExponent(s, i)
  {
    if i < |s| && (s[i] == 'e' || s[i] == 'E') {
      var j := if i + 1 < |s| && (s[i + 1] == '+' || s[i + 1] == '-') then i + 2 else i + 1;
      if IsDigit(s[j]) { SkipDigitsGrows(s, u, j + 1); }
    }
  }

  lemma FractionGrows(s: Bytes, u: Bytes, i: nat)
    requires s <= u && i <= |s| && Settled(s, ScanFraction(s, i))
    ensures ScanFraction(u, i) == ScanFraction(s, i)
  {
    if i < |s| && s[i] == '.' {
      SkipDigitsGrows(s, u, i + 1);
      var j := SkipDigits(s, i + 1);
      if i + 1 < j { ExponentGrows(s, u, j); }
    } else {
      ExponentGrows(s, u, i);
    }
  }

  lemma NumberGrows(s: Bytes, u: Bytes, i: nat)
    requires s <= u && i <= |s| && Settled(s, ScanNumber(s, i))
    ensures ScanNumber(u, i) == ScanNumber(s, i)
  {
    if IsDigit(s[i]) {
      if s[i] == '0' {
        if !(i + 1 < |s| && IsDigit(s[i + 1])) { FractionGrows(s, u, i + 1); }
      } else {
        SkipDigitsGrows(s, u, i + 1);
        FractionGrows(s, u, SkipDigits(s, i + 1));
      }
    }
  }

  lemma {:induction false} StringGrows(s: Bytes, u: Bytes, i: nat)
    requires s <= u && i <= |s| && !ScanString(s, i).Incomplete?
    ensures ScanString(u, i) == ScanString(s, i)
    decreases |s| - i
  {
    if s[i] == '"' {
    } else if IsPlain(s[i]) {
      StringGrows(s, u, i + 1);
    } else if s[i] == '\\' {
      if IsEscape(s[i + 1]) {
        StringGrows(s, u, i + 2);
      } else if s[i + 1] == 'u' {
        if IsHex(s[i + 2]) && IsHex(s[i + 3]) && IsHex(s[i + 4]) && IsHex(s[i + 5]) { StringGrows(s, u, i + 6); }
      }
    }
  }

  lemma {:induction false} ValueGrows(s: Bytes, u: Bytes, i: nat)
    requires s <= u && i < |s|
    requires Settled(s, ScanValue(s, i)) || (SelfDelimiting(s[i]) && !ScanValue(s, i).Incomplete?)
    ensures ScanValue(u, i) == ScanValue(s, i)
    decreases |s| - i, 1
  {
    if s[i] == '{' { MembersGrow(s, u, i + 1, true); }
    else if s[i] == '[' { ElementsGrow(s, u, i + 1, true); }
    else if s[i] == '"' { StringGrows(s, u, i + 1); }
    else if s[i] == 't' { WordGrows(s, u, i + 1, "rue"); }
    else if s[i] == 'f' { WordGrows(s, u, i + 1, "alse"); }
    else if s[i] == 'n' { WordGrows(s, u, i + 1, "ull"); }
    else if s[i] == '-' { NumberGrows(s, u, i + 1); }
    else { NumberGrows(s, u, i); }
  }

  lemma {:induction false} ElementsGrow(s: Bytes, u: Bytes, i: nat, first: bool)
    requires s <= u && i <= |s| && !ScanElements(s, i, first).Incomplete?
    ensures ScanElements(u, i, first) == ScanElements(s, i, first)
    decreases |s| - i, 2
  {
    SkipSpaceGrows(s, u, i);
    var j := SkipSpace(s, i);
    if s[j] != ']' && (first || s[j] == ',') {
      if !first { SkipSpaceGrows(s, u, j + 1); }
      var v := if first then j else SkipSpace(s, j + 1);
      if s[v] != ']' {
        ValueGrows(s, u, v);
        var r := ScanValue(s, v);
        if r.Complete? { ElementsGrow(s, u, r.end, false); }
      }
    }
  }

  lemma {:induction false} MembersGrow(s: Bytes, u: Bytes, i: nat, first: bool)
    requires s <= u && i <= |s| && !ScanMembers(s, i, first).Incomplete?
    ensures ScanMembers(u, i, first) == ScanMembers(s, i, first)
    decreases |s| - i, 2
  {
    SkipSpaceGrows(s, u, i);
    var j := SkipSpace(s, i);
    if s[j] != '}' && (first || s[j] == ',') {
      if !first { SkipSpaceGrows(s, u, j + 1); }
      MemberGrows(s, u, if first then j else SkipSpace(s, j + 1));
      var r := ScanMember(s, if first then j else SkipSpace(s, j + 1));
      if r.Complete? { MembersGrow(s, u, r.end, false); }
    }
  }

  /** The value of a member stands behind its name and colon. */
  lemma MemberValue(s: Bytes, i: nat)
    requires i <= |s| && Settled(s, ScanMember(s, i)) && i < |s| && s[i] == '"' && ScanString(s, i + 1).Complete?
    ensures SkipSpace(s, ScanString(s, i + 1).end) < |s|
    ensures var c := SkipSpace(s, ScanString(s, i + 1).end);
            s[c] == ':' ==> SkipSpace(s, c + 1) < |s| && ScanMember(s, i) == ScanValue(s, SkipSpace(s, c + 1))
  {
    var c := SkipSpace(s, ScanString(s, i + 1).end);
    if s[c] == ':' { assert ScanMember(s, i) == ScanValue(s, SkipSpace(s, c + 1)); }
  }

  lemma {:induction false} MemberGrows(s: Bytes, u: Bytes, i: nat)
    requires s <= u && i <= |s| && Settled(s, ScanMember(s, i))
    ensures ScanMember(u, i) == ScanMember(s, i)
    decreases |s| - i, 1
  {
    if s[i] == '"' {
      var key := ScanString(s, i + 1);
      StringGrows(s, u, i + 1);
      if key.Complete? {
        MemberValue(s, i);
        SkipSpaceGrows(s, u, key.end);
        var colon := SkipSpace(s, key.end);
        if s[colon] == ':' {
          SkipSpaceGrows(s, u, colon + 1);
          ValueGrows(s, u, SkipSpace(s, colon + 1));
        }
      }
    }
  }

  /** A verdict on a document that does not start with a bare value is final: any input that begins
      with the scanned bytes gets the same one. */
  lemma DocumentGrows(s: Bytes, u: Bytes)
    requires s <= u && |s| > 0 && !Bare(s[0]) && !ScanDocument(s).Incomplete?
    ensures ScanDocument(u) == ScanDocument(s)
  {
    ValueGrows(s, u, 0);
  }
}
