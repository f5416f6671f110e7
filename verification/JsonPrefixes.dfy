/** When the scanner asks for more input: exactly if some continuation makes an object of it, but for one case,
    a string that breaks off in a `\u` whose first bytes are no hexadecimal digits. */
module JsonPrefixes {
  import opened JsonGrammar
  import opened JsonScanner

  // ---- Items of arrays and objects ----

  /** What follows an opening bracket, or an item, goes on with another item. */
  predicate GoesOn(s: Bytes, i: nat, first: bool, close: char) {
    i <= |s| && SkipSpace(s, i) < |s| && s[SkipSpace(s, i)] != close && (first || s[SkipSpace(s, i)] == ',')
  }

  /** Where that item starts. */
  function ItemAt(s: Bytes, i: nat, first: bool): (v: nat)
    requires i <= |s| && SkipSpace(s, i) < |s|
    ensures i <= v <= |s| && (!first ==> i < v)
  {
    if first then SkipSpace(s, i) else SkipSpace(s, SkipSpace(s, i) + 1)
  }

  // ---- Breaking off in an impossible escape ----

  /** One of the bytes from `i` on is no hexadecimal digit. */
  predicate LacksHex(s: Bytes, i: nat) { exists k | i <= k < |s| :: !IsHex(s[k]) }

  /** The string from `i` on breaks off less than four bytes behind a `\u`, and not all of these are hexadecimal. */
  predicate StuckString(s: Bytes, i: nat)
    decreases |s| - i
  {
    i < |s| && s[i] != '"' &&
    if IsPlain(s[i]) then StuckString(s, i + 1)
    else
      s[i] == '\\' && i + 1 < |s| &&
      if IsEscape(s[i + 1]) then StuckString(s, i + 2)
      else s[i + 1] == 'u' &&
           if |s| < i + 6 then LacksHex(s, i + 2)
           else IsHex(s[i + 2]) && IsHex(s[i + 3]) && IsHex(s[i + 4]) && IsHex(s[i + 5]) && StuckString(s, i + 6)
  }

  /** The value from `i` on breaks off in such a string; and so for the parts of it. */
  predicate StuckValue(s: Bytes, i: nat)
    decreases |s| - i, 1
  {
    i < |s| &&
    if s[i] == '{' then StuckMembers(s, i + 1, true)
    else if s[i] == '[' then StuckElements(s, i + 1, true)
    else s[i] == '"' && StuckString(s, i + 1)
  }

  predicate StuckElements(s: Bytes, i: nat, first: bool)
    decreases |s| - i, 2
  {
    GoesOn(s, i, first, ']') &&
    var v := ItemAt(s, i, first);
    if ScanValue(s, v).Complete? then StuckElements(s, ScanValue(s, v).end, false) else StuckValue(s, v)
  }

  predicate StuckMembers(s: Bytes, i: nat, first: bool)
    decreases |s| - i, 2
  {
    GoesOn(s, i, first, '}') &&
    var k := ItemAt(s, i, first);
    if ScanMember(s, k).Complete? then StuckMembers(s, ScanMember(s, k).end, false) else StuckMember(s, k)
  }

  predicate StuckMember(s: Bytes, i: nat)
    decreases |s| - i, 1
  {
    i < |s| && s[i] == '"' &&
    var key := ScanString(s, i + 1);
    if !key.Complete? then StuckString(s, i + 1)
    else
      var colon := SkipSpace(s, key.end);
      colon < |s| && s[colon] == ':' && StuckValue(s, SkipSpace(s, colon + 1))
  }

  // ---- Steps of the scanner on longer input ----

  /** White space goes on to the end of the input, and no further. */
  lemma {:induction false} SpaceToEnd(s: Bytes, x: Bytes, i: nat)
    requires i <= |s| && x != [] && !IsSpace(x[0])
    ensures SkipSpace(s + x, i) == SkipSpace(s, i)
    decreases |s| - i
  {
    if i < |s| && IsSpace(s[i]) { SpaceToEnd(s, x, i + 1); }
  }

  /** Items start at the same place in longer input, unless the input ends before one. */
  lemma ItemStays(s: Bytes, u: Bytes, i: nat, first: bool, close: char)
    requires s <= u && GoesOn(s, i, first, close) && (ItemAt(s, i, first) == |s| ==> |s| < |u| && !IsSpace(u[|s|]))
    ensures GoesOn(u, i, first, close) && ItemAt(u, i, first) == ItemAt(s, i, first)
  {
    SkipSpaceGrows(s, u, i);
    if !first {
      SkipSpaceGrows(s, u, SkipSpace(s, i) + 1);
      if ItemAt(s, i, first) == |s| {
        SpaceToEnd(s, u[|s|..], SkipSpace(s, i) + 1);
        assert s + u[|s|..] == u;
      }
    }
  }

  lemma ElementsStep(s: Bytes, i: nat, first: bool)
    requires GoesOn(s, i, first, ']')
    ensures var v := ItemAt(s, i, first);
            ScanElements(s, i, first) ==
            if v < |s| && s[v] == ']' then Bad
            else if ScanValue(s, v).Complete? then ScanElements(s, ScanValue(s, v).end, false)
            else ScanValue(s, v)
  {
  }

  lemma MembersStep(s: Bytes, i: nat, first: bool)
    requires GoesOn(s, i, first, '}')
    ensures var k := ItemAt(s, i, first);
            ScanMembers(s, i, first) ==
            if ScanMember(s, k).Complete? then ScanMembers(s, ScanMember(s, k).end, false) else ScanMember(s, k)
  {
  }

  lemma ElementsWait(s: Bytes, i: nat, first: bool)
    requires i <= |s| && ScanElements(s, i, first).Incomplete?
    ensures SkipSpace(s, i) == |s| || GoesOn(s, i, first, ']')
  {
  }

  lemma MembersWait(s: Bytes, i: nat, first: bool)
    requires i <= |s| && ScanMembers(s, i, first).Incomplete?
    ensures SkipSpace(s, i) == |s| || GoesOn(s, i, first, '}')
  {
  }

  // ---- Such input is never completed ----

  lemma {:induction false} StuckStringStays(s: Bytes, u: Bytes, i: nat)
    requires s <= u && i <= |s| && StuckString(s, i)
    ensures ScanString(s, i).Incomplete? && !ScanString(u, i).Complete?
    decreases |s| - i
  {
    if IsPlain(s[i]) {
      StuckStringStays(s, u, i + 1);
    } else if IsEscape(s[i + 1]) {
      StuckStringStays(s, u, i + 2);
    } else if |s| >= i + 6 {
      StuckStringStays(s, u, i + 6);
    } else {
      var k :| i + 2 <= k < |s| && !IsHex(s[k]);
      assert u[k] == s[k];
    }
  }

  lemma {:induction false} StuckValueStays(s: Bytes, u: Bytes, i: nat)
    requires s <= u && i <= |s| && StuckValue(s, i)
    ensures ScanValue(s, i).Incomplete? && !ScanValue(u, i).Complete?
    decreases |s| - i, 1
  {
    if s[i] == '{' { StuckMembersStay(s, u, i + 1, true); }
    else if s[i] == '[' { StuckElementsStay(s, u, i + 1, true); }
    else { StuckStringStays(s, u, i + 1); }
  }

  lemma {:induction false} StuckElementsStay(s: Bytes, u: Bytes, i: nat, first: bool)
    requires s <= u && i <= |s| && StuckElements(s, i, first)
    ensures ScanElements(s, i, first).Incomplete? && !ScanElements(u, i, first).Complete?
    decreases |s| - i, 2
  {
    var v := ItemAt(s, i, first);
    if ScanValue(s, v).Complete? {
      var e := ScanValue(s, v).end;
      StuckElementsStay(s, u, e, false);
      ValueGrows(s, u, v);
    } else {
      StuckValueStays(s, u, v);
    }
    ItemStays(s, u, i, first, ']');
    ElementsStep(s, i, first);
    ElementsStep(u, i, first);
  }

  lemma {:induction false} StuckMembersStay(s: Bytes, u: Bytes, i: nat, first: bool)
    requires s <= u && i <= |s| && StuckMembers(s, i, first)
    ensures ScanMembers(s, i, first).Incomplete? && !ScanMembers(u, i, first).Complete?
    decreases |s| - i, 2
  {
    var k := ItemAt(s, i, first);
    if ScanMember(s, k).Complete? {
      var e := ScanMember(s, k).end;
      StuckMembersStay(s, u, e, false);
      MemberGrows(s, u, k);
    } else {
      StuckMemberStays(s, u, k);
    }
    ItemStays(s, u, i, first, '}');
    MembersStep(s, i, first);
    MembersStep(u, i, first);
  }

  lemma {:induction false} StuckMemberStays(s: Bytes, u: Bytes, i: nat)
    requires s <= u && i <= |s| && StuckMember(s, i)
    ensures ScanMember(s, i).Incomplete? && !ScanMember(u, i).Complete?
    decreases |s| - i, 1
  {
    var key := ScanString(s, i + 1);
    if key.Complete? {
      StringGrows(s, u, i + 1);
      SkipSpaceGrows(s, u, key.end);
      var colon := SkipSpace(s, key.end);
      SkipSpaceGrows(s, u, colon + 1);
      StuckValueStays(s, u, SkipSpace(s, colon + 1));
    } else {
      StuckStringStays(s, u, i + 1);
    }
  }

  // ---- All other input can be completed ----

  /** A value that the input ends with is not changed by bytes that go on with something else. */
  lemma ValueStands(s: Bytes, u: Bytes, i: nat)
    requires s <= u && i <= |s| && ScanValue(s, i).Complete? && NumberEnds(u, ScanValue(s, i).end)
    ensures ScanValue(u, i) == ScanValue(s, i)
  {
    var v := ValueSound(s, i);
    AtIsEqual(s, i, Spell(v));
    AtIsEqual(u, i, Spell(v));
    assert u[i..i + |Spell(v)|] == s[i..i + |Spell(v)|];
    ValueComplete(u, i, v);
  }

  lemma MemberStands(s: Bytes, u: Bytes, i: nat)
    requires s <= u && i <= |s| && ScanMember(s, i).Complete? && NumberEnds(u, ScanMember(s, i).end)
    ensures ScanMember(u, i) == ScanMember(s, i)
  {
    var key := ScanString(s, i + 1);
    StringGrows(s, u, i + 1);
    SkipSpaceGrows(s, u, key.end);
    var colon := SkipSpace(s, key.end);
    SkipSpaceGrows(s, u, colon + 1);
    ValueStands(s, u, SkipSpace(s, colon + 1));
  }

  /** `more` brings a string to its end. */
  lemma {:induction false} FinishString(s: Bytes, i: nat) returns (more: Bytes)
    requires i <= |s| && ScanString(s, i).Incomplete? && !StuckString(s, i)
    ensures ScanString(s + more, i) == Complete(|s + more|)
    decreases |s| - i
  {
    if i == |s| {
      more := "\"";
    } else if IsPlain(s[i]) {
      more := FinishString(s, i + 1);
    } else if i + 1 == |s| {
      more := "n\"";
      EndOfString(s + more, i + 2);
    } else if IsEscape(s[i + 1]) {
      more := FinishString(s, i + 2);
    } else if |s| >= i + 6 {
      more := FinishString(s, i + 6);
    } else {
      more := "0000"[..i + 6 - |s|] + "\"";
      var u := s + more;
      forall k | i + 2 <= k < i + 6 ensures IsHex(u[k]) {
        if k >= |s| { assert u[k] == more[k - |s|]; }
      }
      EndOfString(u, i + 6);
    }
  }

  lemma EndOfString(u: Bytes, i: nat)
    requires i < |u| && u[i] == '"'
    ensures ScanString(u, i) == Complete(i + 1)
  {
  }

  lemma FinishNumber(s: Bytes, i: nat)
    requires i <= |s| && ScanNumber(s, i).Incomplete?
    ensures ScanNumber(s + "0", i) == Complete(|s| + 1)
  {
    if i < |s| {
      SkipDigitsGrows(s, s + "0", i + 1);
      FinishFraction(s, if s[i] == '0' then i + 1 else SkipDigits(s, i + 1));
    }
  }

  lemma FinishFraction(s: Bytes, i: nat)
    requires i <= |s| && ScanFraction(s, i).Incomplete?
    ensures i < |s| && ScanFraction(s + "0", i) == Complete(|s| + 1)
  {
    var u := s + "0";
    if s[i] == '.' {
      SkipDigitsGrows(s, u, i + 1);
      var j := SkipDigits(s, i + 1);
      if i + 1 < j {
        FinishExponent(s, j);
      } else {
        assert SkipDigits(u, |s|) == |s| + 1;
      }
    } else {
      FinishExponent(s, i);
    }
  }

  lemma FinishExponent(s: Bytes, i: nat)
    requires i <= |s| && ScanExponent(s, i).Incomplete?
    ensures i < |s| && !IsDigit(s[i]) && ScanExponent(s + "0", i) == Complete(|s| + 1)
  {
  }

  lemma {:induction false} FinishWord(s: Bytes, i: nat, word: string) returns (more: Bytes)
    requires i <= |s| && ScanWord(s, i, word).Incomplete?
    ensures ScanWord(s + more, i, word) == Complete(|s + more|)
    decreases |word|
  {
    if i == |s| {
      more := word;
      WholeWord(s, word, 0);
    } else {
      more := FinishWord(s, i + 1, word[1..]);
    }
  }

  lemma {:induction false} WholeWord(s: Bytes, word: string, k: nat)
    requires k <= |word|
    ensures ScanWord(s + word, |s| + k, word[k..]) == Complete(|s + word|)
    decreases |word| - k
  {
    if k < |word| {
      WholeWord(s, word, k + 1);
      assert word[k..][1..] == word[k + 1..];
    }
  }

  /** Behind the input it takes no more than an empty string to have a value, with a name before it if need be. */
  lemma EmptyString(s: Bytes)
    ensures ScanValue(s + "\"\"", |s|) == Complete(|s| + 2)
  {
    EndOfString(s + "\"\"", |s| + 1);
  }

  lemma EmptyMember(s: Bytes)
    ensures ScanMember(s + "\"\":\"\"", |s|) == Complete(|s| + 5)
  {
    var u := s + "\"\":\"\"";
    EndOfString(u, |s| + 1);
    EndOfString(u, |s| + 4);
    assert SkipSpace(u, |s| + 2) == |s| + 2 && SkipSpace(u, |s| + 3) == |s| + 3;
  }

  lemma {:induction false} FinishValue(s: Bytes, i: nat) returns (more: Bytes)
    requires i <= |s| && ScanValue(s, i).Incomplete? && !StuckValue(s, i)
    ensures more != [] && ScanValue(s + more, i) == Complete(|s + more|)
    ensures i == |s| ==> more[0] == '"'
    decreases |s| - i, 1
  {
    if i == |s| {
      more := "\"\"";
      EmptyString(s);
    } else if s[i] == '{' {
      more := FinishMembers(s, i + 1, true);
    } else if s[i] == '[' {
      more := FinishElements(s, i + 1, true);
    } else if s[i] == '"' {
      more := FinishString(s, i + 1);
      assert more == [] ==> s + more == s;
    } else if s[i] == 't' {
      more := FinishWord(s, i + 1, "rue");
      assert more == [] ==> s + more == s;
    } else if s[i] == 'f' {
      more := FinishWord(s, i + 1, "alse");
      assert more == [] ==> s + more == s;
    } else if s[i] == 'n' {
      more := FinishWord(s, i + 1, "ull");
      assert more == [] ==> s + more == s;
    } else {
      more := "0";
      FinishNumber(s, if s[i] == '-' then i + 1 else i);
    }
  }

  /** A bracket behind the last item. */
  lemma CloseArray(s: Bytes)
    ensures ScanElements(s + "]", |s|, false) == Complete(|s| + 1)
  {
  }

  lemma CloseObject(s: Bytes)
    ensures ScanMembers(s + "}", |s|, false) == Complete(|s| + 1)
  {
  }

  lemma CloseElements(s: Bytes, x: Bytes, i: nat, first: bool)
    requires GoesOn(s, i, first, ']') && x != []
    requires var v := ItemAt(s, i, first);
             (if v == |s| then x[0] == '"' else s[v] != ']') && ScanValue(s + x, v) == Complete(|s + x|)
    ensures ScanElements(s + (x + "]"), i, first) == Complete(|s + (x + "]")|)
  {
    var v, u := ItemAt(s, i, first), s + (x + "]");
    assert (s + x) + "]" == u;
    ValueStands(s + x, u, v);
    ItemStays(s, u, i, first, ']');
    ElementsStep(u, i, first);
    CloseArray(s + x);
  }

  lemma CloseMembers(s: Bytes, x: Bytes, i: nat, first: bool)
    requires GoesOn(s, i, first, '}') && x != []
    requires var k := ItemAt(s, i, first); (k == |s| ==> x[0] == '"') && ScanMember(s + x, k) == Complete(|s + x|)
    ensures ScanMembers(s + (x + "}"), i, first) == Complete(|s + (x + "}")|)
  {
    var k, u := ItemAt(s, i, first), s + (x + "}");
    assert (s + x) + "}" == u;
    MemberStands(s + x, u, k);
    ItemStays(s, u, i, first, '}');
    MembersStep(u, i, first);
    CloseObject(s + x);
  }

  lemma {:induction false} FinishElements(s: Bytes, i: nat, first: bool) returns (more: Bytes)
    requires i <= |s| && ScanElements(s, i, first).Incomplete? && !StuckElements(s, i, first)
    ensures more != [] && ScanElements(s + more, i, first) == Complete(|s + more|)
    ensures i == |s| ==> more == "]"
    decreases |s| - i, 2
  {
    ElementsWait(s, i, first);
    if SkipSpace(s, i) == |s| {
      more := "]";
      SpaceToEnd(s, more, i);
    } else {
      var v := ItemAt(s, i, first);
      ElementsStep(s, i, first);
      if ScanValue(s, v).Complete? {
        more := FinishElements(s, ScanValue(s, v).end, false);
        ValueStands(s, s + more, v);
        ItemStays(s, s + more, i, first, ']');
        ElementsStep(s + more, i, first);
      } else {
        var x := FinishValue(s, v);
        more := x + "]";
        CloseElements(s, x, i, first);
      }
    }
  }

  lemma {:induction false} FinishMembers(s: Bytes, i: nat, first: bool) returns (more: Bytes)
    requires i <= |s| && ScanMembers(s, i, first).Incomplete? && !StuckMembers(s, i, first)
    ensures more != [] && ScanMembers(s + more, i, first) == Complete(|s + more|)
    ensures i == |s| ==> more == "}"
    decreases |s| - i, 2
  {
    MembersWait(s, i, first);
    if SkipSpace(s, i) == |s| {
      more := "}";
      SpaceToEnd(s, more, i);
    } else {
      var k := ItemAt(s, i, first);
      MembersStep(s, i, first);
      if ScanMember(s, k).Complete? {
        more := FinishMembers(s, ScanMember(s, k).end, false);
        MemberStands(s, s + more, k);
        ItemStays(s, s + more, i, first, '}');
        MembersStep(s + more, i, first);
      } else {
        var x := FinishMember(s, k);
        more := x + "}";
        CloseMembers(s, x, i, first);
      }
    }
  }

  lemma {:induction false} FinishMember(s: Bytes, i: nat) returns (more: Bytes)
    requires i <= |s| && ScanMember(s, i).Incomplete? && !StuckMember(s, i)
    ensures more != [] && ScanMember(s + more, i) == Complete(|s + more|)
    ensures i == |s| ==> more[0] == '"'
    decreases |s| - i, 1
  {
    if i == |s| {
      more := "\"\":\"\"";
      EmptyMember(s);
    } else if ScanString(s, i + 1).Incomplete? {
      var x := FinishString(s, i + 1);
      more := x + ":\"\"";
      assert s + x + ":\"\"" == s + more;
      StringGrows(s + x, s + more, i + 1);
      ColonAndValue(s + x, ":\"\"");
    } else {
      more := FinishBehindName(s, i);
    }
  }

  lemma {:induction false} FinishBehindName(s: Bytes, i: nat) returns (more: Bytes)
    requires i < |s| && s[i] == '"' && ScanString(s, i + 1).Complete?
    requires ScanMember(s, i).Incomplete? && !StuckMember(s, i)
    ensures more != [] && ScanMember(s + more, i) == Complete(|s + more|)
    decreases |s| - i, 0
  {
    var e := ScanString(s, i + 1).end;
    var colon := SkipSpace(s, e);
    if colon == |s| {
      more := ":\"\"";
      StringGrows(s, s + more, i + 1);
      SpaceToEnd(s, more, e);
      ColonAndValue(s, more);
    } else {
      var v := SkipSpace(s, colon + 1);
      more := FinishValue(s, v);
      StringGrows(s, s + more, i + 1);
      SkipSpaceGrows(s, s + more, e);
      if v == |s| { SpaceToEnd(s, more, colon + 1); } else { SkipSpaceGrows(s, s + more, colon + 1); }
    }
  }

  lemma ColonAndValue(s: Bytes, more: Bytes)
    requires more == ":\"\""
    ensures var u := s + more;
            SkipSpace(u, |s|) == |s| && u[|s|] == ':' && SkipSpace(u, |s| + 1) == |s| + 1 && ScanValue(u, |s| + 1) == Complete(|u|)
  {
    EndOfString(s + more, |s| + 2);
  }

  // ---- Verdicts on objects ----

  /** Some continuation makes an object of `s`. */
  ghost predicate Begins(s: Bytes) { exists more :: IsObjectText(s + more) }

  /** Some beginning of `s`, or all of it, is an object. */
  ghost predicate HasObject(s: Bytes) { exists n | 0 <= n <= |s| :: IsObjectText(s[..n]) }

  lemma {:induction false} IncompleteBegins(s: Bytes)
    requires |s| > 0 && s[0] == '{' && ScanDocument(s).Incomplete? && !StuckValue(s, 0)
    ensures Begins(s)
  {
    var more := FinishValue(s, 0);
    var u := s + more;
    ObjectDocuments(u, |u|);
    assert u[..|u|] == u;
  }

  lemma StuckIsHopeless(s: Bytes)
    requires |s| > 0 && s[0] == '{' && StuckValue(s, 0)
    ensures ScanDocument(s).Incomplete? && !Begins(s)
  {
    StuckValueStays(s, s, 0);
    forall more ensures !IsObjectText(s + more) {
      var u := s + more;
      StuckValueStays(s, u, 0);
      ObjectDocuments(u, |u|);
      assert u[..|u|] == u;
    }
  }

  lemma ObjectsDoNotBegin(s: Bytes, n: nat, more: Bytes)
    requires |s| > 0 && s[0] == '{' && ScanDocument(s) == Complete(n) && IsObjectText(s + more)
    ensures n == |s| && more == []
  {
    var u := s + more;
    DocumentGrows(s, u);
    ObjectDocuments(u, |u|);
    assert u[..|u|] == u;
  }

  /** Each verdict on a document that starts with `{` is given exactly when it is right: it is complete if it has
      an object in front; it asks for more if it can become one, or is stuck; and it is a syntax error if
      neither, so that no continuation could make an object of it. */
  lemma VerdictIsRight(s: Bytes)
    requires |s| > 0 && s[0] == '{'
    ensures ScanDocument(s).Complete? <==> HasObject(s)
    ensures ScanDocument(s).Incomplete? <==> !HasObject(s) && (Begins(s) || StuckValue(s, 0))
    ensures ScanDocument(s).Bad? <==> !HasObject(s) && !Begins(s) && !StuckValue(s, 0)
  {
    if ScanDocument(s).Complete? {
      ObjectDocuments(s, ScanDocument(s).end);
    }
    forall n | 0 <= n <= |s| && IsObjectText(s[..n]) ensures ScanDocument(s) == Complete(n) {
      ObjectDocuments(s, n);
    }
    if StuckValue(s, 0) {
      StuckIsHopeless(s);
    } else if ScanDocument(s).Incomplete? {
      IncompleteBegins(s);
    }
    if ScanDocument(s).Bad? {
      forall more ensures !IsObjectText(s + more) {
        var u := s + more;
        BadIsHopeless(s, u, |u|);
        assert u[..|u|] == u;
      }
    }
  }

  /** The exception is real: this asks for more, though nothing can make an object of it. */
  lemma StuckExample()
    ensures var s := "{\"\\uZ"; ScanDocument(s).Incomplete? && StuckValue(s, 0) && !HasObject(s) && !Begins(s)
  {
    var s := "{\"\\uZ";
    assert s[0] == '{' && s[1] == '"' && s[2] == '\\' && s[3] == 'u' && s[4] == 'Z' && |s| == 5;
    assert StuckString(s, 2);
    assert SkipSpace(s, 1) == 1;
    StuckIsHopeless(s);
    VerdictIsRight(s);
  }
}
