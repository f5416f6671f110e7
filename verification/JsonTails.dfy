/** What the scanner makes of the beginnings of a document, and of what is left of one when a beginning of
    it has been taken for the whole. */
module JsonTails {
  import opened JsonScanner
  import opened JsonGrammar

  // ---- Beginnings ----

  /** A verdict that the scanner reached before the last byte, or on a syntax error, is final. */
  lemma VerdictGrows(s: Bytes, u: Bytes)
    requires s <= u && |s| > 0
    requires ScanDocument(s).Bad? || (ScanDocument(s).Complete? && (ScanDocument(s).end < |s| || !Bare(s[0])))
    ensures ScanDocument(u) == ScanDocument(s)
  {
    ValueGrows(s, u, 0);
  }

  /** A document is complete as soon as its last byte is there. */
  lemma DocumentIsThere(s: Bytes, k: nat)
    requires |s| > 0 && ScanDocument(s).Complete? && ScanDocument(s).end <= k <= |s|
    ensures ScanDocument(s[..k]) == ScanDocument(s)
  {
    var n := ScanDocument(s).end;
    var v := ValueSound(s, 0);
    AtIsEqual(s, 0, Spell(v));
    AtIsEqual(s[..k], 0, Spell(v));
    assert s[..k][0..n] == s[0..n];
    ValueComplete(s[..k], 0, v);
  }

  // ---- Numbers ----

  lemma {:induction false} SkipDigitsStops(s: Bytes, i: nat)
    requires i <= |s|
    ensures forall k | i <= k < SkipDigits(s, i) :: IsDigit(s[k])
    ensures SkipDigits(s, i) < |s| ==> !IsDigit(s[SkipDigits(s, i)])
    decreases |s| - i
  {
    if i < |s| && IsDigit(s[i]) { SkipDigitsStops(s, i + 1); }
  }

  /** Digits end at the same place wherever among them one starts. */
  lemma {:induction false} SkipDigitsFrom(s: Bytes, i: nat, k: nat)
    requires i <= |s| && i <= k <= SkipDigits(s, i)
    ensures SkipDigits(s, k) == SkipDigits(s, i)
    decreases |s| - i
  {
    if i < k { SkipDigitsFrom(s, i + 1, k); }
  }

  lemma ExponentDigits(s: Bytes, i: nat) returns (j: nat)
    requires i <= |s| && ScanExponent(s, i).Complete? && i < ScanExponent(s, i).end
    ensures s[i] == 'e' || s[i] == 'E'
    ensures i < j < |s| && IsDigit(s[j]) && !IsDigit(s[j - 1]) && SkipDigits(s, j) == ScanExponent(s, i).end
    ensures forall k | i <= k < j :: !IsDigit(s[k])
  {
    j := if i + 1 < |s| && (s[i + 1] == '+' || s[i + 1] == '-') then i + 2 else i + 1;
    assert SkipDigits(s, j) == SkipDigits(s, j + 1);
  }

  /** A byte that ends a number, if there is one at all. */
  predicate EndsNumber(s: Bytes, m: nat) { m >= |s| || EndsBare(s[m]) }

  lemma NothingFollows(s: Bytes, m: nat)
    requires m <= |s| && EndsNumber(s, m)
    ensures ScanFraction(s, m) == Complete(m) && SkipDigits(s, m) == m
  {
  }

  /** Inside an exponent that is not over: either it begins here, or these are its last digits. */
  lemma ExponentTail(s: Bytes, i: nat, k: nat, m: nat)
    requires 0 < i <= k < m <= |s| && ScanExponent(s, i) == Complete(m) && EndsNumber(s, m) && IsDigit(s[k - 1])
    requires IsDigit(s[i - 1])
    ensures s[k] == 'e' || s[k] == 'E' || (IsDigit(s[k]) && ScanFraction(s, SkipDigits(s, k)) == Complete(m))
  {
    var j := ExponentDigits(s, i);
    if k > i {
      SkipDigitsStops(s, j);
      SkipDigitsFrom(s, j, k);
      NothingFollows(s, m);
    }
  }

  lemma FractionTail(s: Bytes, i: nat, k: nat, m: nat)
    requires 0 < i <= k < m <= |s| && ScanFraction(s, i) == Complete(m) && EndsNumber(s, m) && IsDigit(s[k - 1])
    requires IsDigit(s[i - 1])
    ensures s[k] in ".eE" || (IsDigit(s[k]) && ScanFraction(s, SkipDigits(s, k)) == Complete(m))
  {
    if s[i] == '.' {
      var j := SkipDigits(s, i + 1);
      SkipDigitsStops(s, i + 1);
      if i < k < j {
        SkipDigitsFrom(s, i + 1, k);
        if j == m { NothingFollows(s, m); } else { var d := ExponentDigits(s, j); }
      } else if j <= k {
        ExponentTail(s, j, k, m);
      }
    } else {
      ExponentTail(s, i, k, m);
    }
  }

  /** What is left of a number behind one of its digits is no number's beginning, or digits from which on
      the scanner comes to the same end. */
  lemma NumberTail(s: Bytes, i: nat, k: nat, m: nat)
    requires i < k < m <= |s| && ScanNumber(s, i) == Complete(m) && EndsNumber(s, m) && IsDigit(s[k - 1])
    ensures s[k] in ".eE" || (IsDigit(s[k]) && ScanFraction(s, SkipDigits(s, k)) == Complete(m))
  {
    var j := if s[i] == '0' then i + 1 else SkipDigits(s, i + 1);
    SkipDigitsStops(s, i + 1);
    if k < j {
      SkipDigitsFrom(s, i + 1, k);
    } else {
      FractionTail(s, j, k, m);
    }
  }

  lemma NumberEndsInDigit(s: Bytes, i: nat)
    requires i <= |s| && ScanNumber(s, i).Complete?
    ensures IsDigit(s[ScanNumber(s, i).end - 1])
  {
    SkipDigitsStops(s, i + 1);
    var a := if s[i] == '0' then i + 1 else SkipDigits(s, i + 1);
    var b := a;
    if a < |s| && s[a] == '.' {
      SkipDigitsStops(s, a + 1);
      b := SkipDigits(s, a + 1);
    }
    if b < ScanNumber(s, i).end {
      var j := ExponentDigits(s, b);
      SkipDigitsStops(s, j);
    }
  }

  // ---- Scanning from a later byte on ----

  function Later(r: Scan, k: nat): Scan { if r.Complete? then Complete(r.end + k) else r }

  lemma {:induction false} SkipDigitsLater(s: Bytes, k: nat, i: nat)
    requires k + i <= |s|
    ensures SkipDigits(s, k + i) == k + SkipDigits(s[k..], i)
    decreases |s| - i
  {
    if k + i < |s| && IsDigit(s[k + i]) { SkipDigitsLater(s, k, i + 1); }
  }

  lemma ExponentLater(s: Bytes, k: nat, i: nat)
    requires k + i <= |s|
    ensures ScanExponent(s, k + i) == Later(ScanExponent(s[k..], i), k)
  {
    var t := s[k..];
    if i < |t| && (t[i] == 'e' || t[i] == 'E') {
      var j := if i + 1 < |t| && (t[i + 1] == '+' || t[i + 1] == '-') then i + 2 else i + 1;
      if j < |t| { SkipDigitsLater(s, k, j + 1); }
    }
  }

  lemma FractionLater(s: Bytes, k: nat, i: nat)
    requires k + i <= |s|
    ensures ScanFraction(s, k + i) == Later(ScanFraction(s[k..], i), k)
  {
    var t := s[k..];
    if i < |t| && t[i] == '.' {
      SkipDigitsLater(s, k, i + 1);
      ExponentLater(s, k, SkipDigits(t, i + 1));
    } else {
      ExponentLater(s, k, i);
    }
  }

  /** What digits inside a number scan as by themselves. */
  lemma DigitsTail(s: Bytes, k: nat, m: nat)
    requires k < m <= |s| && IsDigit(s[k]) && ScanFraction(s, SkipDigits(s, k)) == Complete(m) && EndsNumber(s, m)
    ensures ScanDocument(s[k..]).Bad? || ScanDocument(s[k..]) == Complete(m - k)
  {
    DigitsLater(s, k, m);
    assert s[k..][0] == s[k] && (m < |s| ==> s[k..][m - k] == s[m]);
    DigitsFirst(s[k..], m - k);
  }

  lemma DigitsLater(s: Bytes, k: nat, m: nat)
    requires k < m <= |s| && ScanFraction(s, SkipDigits(s, k)) == Complete(m)
    ensures ScanFraction(s[k..], SkipDigits(s[k..], 0)) == Complete(m - k)
  {
    SkipDigitsLater(s, k, 0);
    FractionLater(s, k, SkipDigits(s[k..], 0));
  }

  lemma DigitsFirst(t: Bytes, m: nat)
    requires 0 < m <= |t| && IsDigit(t[0]) && ScanFraction(t, SkipDigits(t, 0)) == Complete(m) && EndsNumber(t, m)
    ensures ScanDocument(t).Bad? || ScanDocument(t) == Complete(m)
  {
    if t[0] == '0' && |t| > 1 && IsDigit(t[1]) {
      assert ScanNumber(t, 0).Bad?;
    } else {
      assert ScanNumber(t, 0) == Complete(m);
    }
  }

  // ---- Two verdicts on one document ----

  /** If a beginning of a document is complete by itself but the whole comes to another verdict, then the
      document is a bare value and the beginning ends where the bytes in hand ended. */
  lemma TakenForWhole(t: Bytes, k: nat)
    requires 0 < k <= |t| && ScanDocument(t[..k]).Complete? && ScanDocument(t) != ScanDocument(t[..k])
    ensures k < |t| && Bare(t[0]) && ScanDocument(t[..k]) == Complete(k)
    ensures ScanDocument(t).Complete? ==> k < ScanDocument(t).end
  {
    assert t[..|t|] == t;
    if ScanDocument(t[..k]).end < k || !Bare(t[0]) { VerdictGrows(t[..k], t); }
    if ScanDocument(t).Complete? && ScanDocument(t).end <= k { DocumentIsThere(t, k); }
  }

  lemma WordHasOneEnd(t: Bytes, k: nat)
    requires 0 < k <= |t| && (t[0] == 't' || t[0] == 'f' || t[0] == 'n')
    requires ScanDocument(t[..k]).Complete? && ScanDocument(t).Complete?
    ensures ScanDocument(t[..k]) == ScanDocument(t)
  {
  }

  /** When the beginning of a longer document has been taken for the whole, what is left of it is a syntax
      error, or a document of its own that ends where the longer one does. */
  lemma TailOfDocument(t: Bytes, k: nat)
    requires 0 < k <= |t| && ScanDocument(t[..k]).Complete? && ScanDocument(t).Complete?
    requires ScanDocument(t) != ScanDocument(t[..k])
    ensures k < ScanDocument(t).end && !IsSpace(t[k]) && t[k] != 0x0C as char
    ensures ScanDocument(t[k..]).Bad? || ScanDocument(t[k..]) == Complete(ScanDocument(t).end - k)
  {
    TakenForWhole(t, k);
    var m, i := ScanDocument(t).end, if t[0] == '-' then 1 else 0;
    if t[0] == 't' || t[0] == 'f' || t[0] == 'n' { WordHasOneEnd(t, k); }
    assert ScanNumber(t, i) == Complete(m);
    assert ScanNumber(t[..k], i) == Complete(k);
    NumberEndsInDigit(t[..k], i);
    NumberTail(t, i, k, m);
    if IsDigit(t[k]) { DigitsTail(t, k, m); } else { assert t[k..][0] == t[k]; }
  }
}
