/** The string operations of Rust's standard library that the sources use. */
module Text {
  /** Unicode's `White_Space` property, which `char::is_whitespace` and `str::trim` go by. */
  predicate IsWhitespace(c: char) {
    0x09 as char <= c <= 0x0D as char || c == ' ' || c == 0x85 as char || c == 0xA0 as char || c == 0x1680 as char ||
    0x2000 as char <= c <= 0x200A as char || c == 0x2028 as char || c == 0x2029 as char || c == 0x202F as char ||
    c == 0x205F as char || c == 0x3000 as char
  }

  /** These are the code points of Unicode's property. */
  lemma WhiteSpaceIs(c: char)
    ensures IsWhitespace(c) <==>
            c as int in {9, 10, 11, 12, 13, 32, 133, 160, 5760, 8192, 8193, 8194, 8195, 8196, 8197, 8198, 8199, 8200, 8201, 8202,
                         8232, 8233, 8239, 8287, 12288}
  {
  }

  /** The length of the white space `s` starts with. */
  function IndentLength(s: string): (n: nat)
    ensures n <= |s|
  {
    if s != "" && IsWhitespace(s[0]) then 1 + IndentLength(s[1..]) else 0
  }

  function TrimStart(s: string): (t: string) { s[IndentLength(s)..] }

  function TrimEnd(s: string): (t: string)
    ensures |t| <= |s|
  {
    if s != "" && IsWhitespace(s[|s| - 1]) then TrimEnd(s[..|s| - 1]) else s
  }

  function Trim(s: string): string { TrimEnd(TrimStart(s)) }

  /** No white space at either end. */
  predicate Trimmed(s: string) { s == "" || (!IsWhitespace(s[0]) && !IsWhitespace(s[|s| - 1])) }

  function ToLower(c: char): char { if 'A' <= c <= 'Z' then c + 32 as char else c }

  predicate EqIgnoreCase(a: string, b: string) {
    |a| == |b| && forall i | 0 <= i < |a| :: ToLower(a[i]) == ToLower(b[i])
  }

  /** The position of the first `c`, or the length of `s`. */
  function IndexOf(s: string, c: char): (i: nat)
    ensures i <= |s|
    ensures i < |s| ==> s[i] == c
    ensures c !in s[..i]
  {
    if s == "" || s[0] == c then 0
    else
      var i := 1 + IndexOf(s[1..], c);
      assert s[..i] == [s[0]] + s[1..][..i - 1];
      i
  }

  lemma IndexOfIs(s: string, c: char, i: nat)
    requires i <= |s| && c !in s[..i] && (i < |s| ==> s[i] == c)
    ensures IndexOf(s, c) == i
  {
    var j := IndexOf(s, c);
    assert forall k | 0 <= k < i :: s[..i][k] == s[k];
    assert forall k | 0 <= k < j :: s[..j][k] == s[k];
  }

  // ---- Trimming ----

  lemma {:induction false} IndentIsSpace(s: string)
    ensures forall i | 0 <= i < IndentLength(s) :: IsWhitespace(s[i])
    ensures IndentLength(s) < |s| ==> !IsWhitespace(s[IndentLength(s)])
  {
    if s != "" && IsWhitespace(s[0]) {
      IndentIsSpace(s[1..]);
      forall i | 0 <= i < IndentLength(s) ensures IsWhitespace(s[i]) {
        if i > 0 { assert s[i] == s[1..][i - 1]; }
      }
    }
  }

  lemma {:induction false} IndentLengthIs(s: string, n: nat)
    requires n <= |s| && (forall i | 0 <= i < n :: IsWhitespace(s[i])) && (n < |s| ==> !IsWhitespace(s[n]))
    ensures IndentLength(s) == n
    decreases |s|
  {
    if n > 0 {
      forall i | 0 <= i < n - 1 ensures IsWhitespace(s[1..][i]) { assert s[1..][i] == s[i + 1]; }
      IndentLengthIs(s[1..], n - 1);
    }
  }

  lemma {:induction false} TrimEndTrims(s: string)
    ensures TrimEnd(s) <= s
    ensures TrimEnd(s) != "" ==> !IsWhitespace(TrimEnd(s)[|TrimEnd(s)| - 1])
    decreases |s|
  {
    if s != "" && IsWhitespace(s[|s| - 1]) { TrimEndTrims(s[..|s| - 1]); }
  }

  lemma TrimTrims(s: string)
    ensures Trimmed(Trim(s))
  {
    IndentIsSpace(s);
    TrimEndTrims(TrimStart(s));
    assert Trim(s) <= TrimStart(s);
  }

  /** A character that is not in `s` is in no part of it, trimmed or not. */
  lemma TrimLacks(s: string, from: nat, to: nat, c: char)
    requires c !in s && from <= to <= |s|
    ensures c !in s[from..to] && c !in Trim(s[from..to])
  {
    var part := s[from..to];
    var start := TrimStart(part);
    SliceLacks(s, from, to, c);
    SliceLacks(part, IndentLength(part), |part|, c);
    TrimEndTrims(start);
    SliceLacks(start, 0, |Trim(part)|, c);
    assert part[IndentLength(part)..|part|] == start && start[0..|Trim(part)|] == Trim(part);
  }

  lemma SliceLacks(s: string, from: nat, to: nat, c: char)
    requires c !in s && from <= to <= |s|
    ensures c !in s[from..to]
  {
  }

  lemma TrimKeeps(s: string)
    requires Trimmed(s)
    ensures Trim(s) == s
  {
    IndentLengthIs(s, 0);
  }

  lemma IndentLengthGrows(s: string, c: char)
    requires IsWhitespace(c)
    ensures IndentLength(s + [c]) == if IndentLength(s) < |s| then IndentLength(s) else |s| + 1
  {
    var n := IndentLength(s);
    var u := s + [c];
    IndentIsSpace(s);
    assert forall i | 0 <= i < |s| :: u[i] == s[i];
    if n < |s| { IndentLengthIs(u, n); } else { IndentLengthIs(u, n + 1); }
  }

  /** White space at the end is what trimming drops. */
  lemma TrimDropsLast(s: string, c: char)
    requires IsWhitespace(c)
    ensures Trim(s + [c]) == Trim(s)
    ensures IndentLength(s) < |s| ==> IndentLength(s + [c]) == IndentLength(s)
    ensures IndentLength(s) == |s| ==> Trim(s) == ""
  {
    IndentLengthGrows(s, c);
    if IndentLength(s) < |s| { TrimStartGrows(s, c); }
  }

  lemma TrimStartGrows(s: string, c: char)
    requires IsWhitespace(c) && IndentLength(s) < |s| && IndentLength(s + [c]) == IndentLength(s)
    ensures Trim(s + [c]) == Trim(s)
  {
    var x := TrimStart(s);
    assert TrimStart(s + [c]) == x + [c];
    TrimEndDrops(x, c);
  }

  lemma TrimEndDrops(x: string, c: char)
    requires IsWhitespace(c)
    ensures TrimEnd(x + [c]) == TrimEnd(x)
  {
    assert (x + [c])[..|x|] == x;
  }

  /** Nothing is left of a text exactly if it is all white space. */
  lemma AllSpaceTrims(s: string)
    ensures Trim(s) == "" <==> forall c | c in s :: IsWhitespace(c)
  {
    IndentIsSpace(s);
    if IndentLength(s) == |s| {
      forall c | c in s ensures IsWhitespace(c) {
        var i :| 0 <= i < |s| && s[i] == c;
        assert IsWhitespace(s[i]);
      }
    } else {
      var rest := TrimStart(s);
      assert s[IndentLength(s)] in s && rest[0] == s[IndentLength(s)];
      TrimEndKeepsFirst(rest);
    }
  }

  lemma {:induction false} TrimEndKeepsFirst(s: string)
    requires s != "" && !IsWhitespace(s[0])
    ensures TrimEnd(s) != ""
    decreases |s|
  {
    if IsWhitespace(s[|s| - 1]) { TrimEndKeepsFirst(s[..|s| - 1]); }
  }

  // ---- Comparing without case ----

  lemma EqIgnoreCaseReflexive(a: string)
    ensures EqIgnoreCase(a, a)
  {
  }

  lemma EqIgnoreCaseTransitive(a: string, b: string, c: string)
    requires EqIgnoreCase(a, b)
    ensures EqIgnoreCase(a, c) <==> EqIgnoreCase(b, c)
  {
  }

  /** All letters made capital. */
  function Capitals(s: string): (t: string)
    ensures |t| == |s|
  {
    seq(|s|, i requires 0 <= i < |s| => if 'a' <= s[i] <= 'z' then s[i] - 32 as char else s[i])
  }

  /** Texts are the same without case exactly if they are the same in capitals. */
  lemma EqInCapitals(a: string, b: string)
    ensures EqIgnoreCase(a, b) <==> Capitals(a) == Capitals(b)
  {
    if EqIgnoreCase(a, b) {
      assert forall i | 0 <= i < |a| :: Capitals(a)[i] == Capitals(b)[i];
    }
    if Capitals(a) == Capitals(b) {
      forall i | 0 <= i < |a| ensures ToLower(a[i]) == ToLower(b[i]) { assert Capitals(a)[i] == Capitals(b)[i]; }
    }
  }

  /** Characters that are no letters stand at the same places. */
  lemma EqIgnoreCaseKeeps(a: string, b: string, i: nat)
    requires EqIgnoreCase(a, b) && i < |a|
    ensures IsWhitespace(a[i]) <==> IsWhitespace(b[i])
    ensures a[i] == b[i] || ('A' <= a[i] <= 'Z' || 'a' <= a[i] <= 'z')
    ensures a[i] == b[i] || ('A' <= b[i] <= 'Z' || 'a' <= b[i] <= 'z')
  {
    assert ToLower(a[i]) == ToLower(b[i]);
  }
}
