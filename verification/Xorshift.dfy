/** The generator step of src/bin/mock_broadcast.rs: xorshift64*. */
module Xorshift {
  function Right12(x: bv64): bv64 { x ^ (x >> 12) }

  function Unright12(x: bv64): bv64 { x ^ (x >> 12) ^ (x >> 24) ^ (x >> 36) ^ (x >> 48) ^ (x >> 60) }

  function Left25(x: bv64): bv64 { x ^ (x << 25) }

  function Unleft25(x: bv64): bv64 { x ^ (x << 25) ^ (x << 50) }

  function Right27(x: bv64): bv64 { x ^ (x >> 27) }

  function Unright27(x: bv64): bv64 { x ^ (x >> 27) ^ (x >> 54) }

  /** The next state. */
  function Step(x: bv64): bv64 { Right27(Left25(Right12(x))) }

  /** The state before `y`. */
  function Unstep(y: bv64): bv64 { Unright12(Unleft25(Unright27(y))) }

  const WORD: nat := 0x1_0000_0000_0000_0000

  /** Multiplying 64-bit numbers wraps. */
  function WrappingMul(n: nat, factor: nat): (r: nat)
    ensures r < WORD
  {
    n * factor % WORD
  }

  const FACTOR: nat := 0x2545_F491_4F6C_DD1D

  /** The number drawn from a state. */
  function Output(x: bv64): nat { WrappingMul(x as nat, FACTOR) }

  // ---- Each layer undoes its inverse, and the other way round. The expressions are spelled out for
  // ---- the solver, which settles them word by word and gets lost in them bit by bit.

  lemma Right12Inverse(x: bv64)
    ensures Unright12(Right12(x)) == x
  {
    assert Right12(x) == x ^ (x >> 12);
    assert Unright12(Right12(x)) == Unright12(x ^ (x >> 12));
    assert Unright12(x ^ (x >> 12)) == (var a := x ^ (x >> 12); a ^ (a >> 12) ^ (a >> 24) ^ (a >> 36) ^ (a >> 48) ^ (a >> 60));
    assert (var a := x ^ (x >> 12); a ^ (a >> 12) ^ (a >> 24) ^ (a >> 36) ^ (a >> 48) ^ (a >> 60)) == x;
  }

  lemma Unright12Inverse(x: bv64)
    ensures Right12(Unright12(x)) == x
  {
    assert Unright12(x) == x ^ (x >> 12) ^ (x >> 24) ^ (x >> 36) ^ (x >> 48) ^ (x >> 60);
    assert Right12(Unright12(x)) == Right12(x ^ (x >> 12) ^ (x >> 24) ^ (x >> 36) ^ (x >> 48) ^ (x >> 60));
    assert Right12(x ^ (x >> 12) ^ (x >> 24) ^ (x >> 36) ^ (x >> 48) ^ (x >> 60)) == (var a := x ^ (x >> 12) ^ (x >> 24) ^ (x >> 36) ^ (x >> 48) ^ (x >> 60); a ^ (a >> 12));
    assert (var a := x ^ (x >> 12) ^ (x >> 24) ^ (x >> 36) ^ (x >> 48) ^ (x >> 60); a ^ (a >> 12)) == x;
  }

  lemma Left25Inverse(x: bv64)
    ensures Unleft25(Left25(x)) == x
  {
    assert Left25(x) == x ^ (x << 25);
    assert Unleft25(Left25(x)) == Unleft25(x ^ (x << 25));
    assert Unleft25(x ^ (x << 25)) == (var a := x ^ (x << 25); a ^ (a << 25) ^ (a << 50));
    assert (var a := x ^ (x << 25); a ^ (a << 25) ^ (a << 50)) == x;
  }

  lemma Unleft25Inverse(x: bv64)
    ensures Left25(Unleft25(x)) == x
  {
    assert Unleft25(x) == x ^ (x << 25) ^ (x << 50);
    assert Left25(Unleft25(x)) == Left25(x ^ (x << 25) ^ (x << 50));
    assert Left25(x ^ (x << 25) ^ (x << 50)) == (var a := x ^ (x << 25) ^ (x << 50); a ^ (a << 25));
    assert (var a := x ^ (x << 25) ^ (x << 50); a ^ (a << 25)) == x;
  }

  lemma Right27Inverse(x: bv64)
    ensures Unright27(Right27(x)) == x
  {
    assert Right27(x) == x ^ (x >> 27);
    assert Unright27(Right27(x)) == Unright27(x ^ (x >> 27));
    assert Unright27(x ^ (x >> 27)) == (var a := x ^ (x >> 27); a ^ (a >> 27) ^ (a >> 54));
    assert (var a := x ^ (x >> 27); a ^ (a >> 27) ^ (a >> 54)) == x;
  }

  lemma Unright27Inverse(x: bv64)
    ensures Right27(Unright27(x)) == x
  {
    assert Unright27(x) == x ^ (x >> 27) ^ (x >> 54);
    assert Right27(Unright27(x)) == Right27(x ^ (x >> 27) ^ (x >> 54));
    assert Right27(x ^ (x >> 27) ^ (x >> 54)) == (var a := x ^ (x >> 27) ^ (x >> 54); a ^ (a >> 27));
    assert (var a := x ^ (x >> 27) ^ (x >> 54); a ^ (a >> 27)) == x;
  }

  lemma UnstepInverse(y: bv64)
    ensures Step(Unstep(y)) == y
  {
    calc {
      Step(Unstep(y));
      Right27(Left25(Right12(Unright12(Unleft25(Unright27(y))))));
      { Unright12Inverse(Unleft25(Unright27(y))); }
      Right27(Left25(Unleft25(Unright27(y))));
      { Unleft25Inverse(Unright27(y)); }
      Right27(Unright27(y));
      { Unright27Inverse(y); }
      y;
    }
  }

  lemma StepInverse(x: bv64)
    ensures Unstep(Step(x)) == x
  {
    calc {
      Unstep(Step(x));
      Unright12(Unleft25(Unright27(Right27(Left25(Right12(x))))));
      { Right27Inverse(Left25(Right12(x))); }
      Unright12(Unleft25(Left25(Right12(x))));
      { Left25Inverse(Right12(x)); }
      Unright12(Right12(x));
      { Right12Inverse(x); }
      x;
    }
  }

  /** The step is a bijection on 64-bit words. */
  lemma StepIsBijection(x: bv64, y: bv64)
    ensures Step(x) == y <==> x == Unstep(y)
  {
    StepInverse(x);
    UnstepInverse(y);
  }

  /** The state after `n` draws. */
  function Steps(x: bv64, n: nat): bv64 { if n == 0 then x else Step(Steps(x, n - 1)) }

  lemma StepOfZero()
    ensures Step(0) == 0
  {
    assert Right12(0) == 0 && Left25(0) == 0 && Right27(0) == 0;
  }

  /** Different seeds never meet. */
  lemma {:induction false} SeedsStayApart(x: bv64, y: bv64, n: nat)
    ensures Steps(x, n) == Steps(y, n) <==> x == y
  {
    if n > 0 {
      SeedsStayApart(x, y, n - 1);
      StepInverse(Steps(x, n - 1));
      StepInverse(Steps(y, n - 1));
    }
  }

  lemma {:induction false} ZeroStays(n: nat)
    ensures Steps(0, n) == 0
  {
    StepOfZero();
    if n > 0 { ZeroStays(n - 1); }
  }

  /** Zero is the one state the generator is stuck in, and no other seed ever gets there. */
  lemma {:induction false} ZeroIsIsolated(seed: bv64, n: nat)
    ensures Steps(seed, n) == 0 <==> seed == 0
  {
    ZeroStays(n);
    SeedsStayApart(seed, 0, n);
  }

  // ---- The numbers drawn ----

  /** The factor has an inverse, being odd. */
  const INVERSE: nat := 0x5907_1D96_D81E_CD35

  lemma WrapsTo(n: nat, k: int, m: int)
    requires n < WORD && m == n + k * WORD
    ensures m % WORD == n
  {
  }

  lemma MulInverse(n: nat)
    requires n < WORD
    ensures WrappingMul(WrappingMul(n, FACTOR), INVERSE) == n
    ensures WrappingMul(WrappingMul(n, INVERSE), FACTOR) == n
  {
    var q, r := n * FACTOR / WORD, n * FACTOR % WORD;
    WrapsTo(n, n * (FACTOR * INVERSE / WORD) - q * INVERSE, r * INVERSE);
    var p, t := n * INVERSE / WORD, n * INVERSE % WORD;
    WrapsTo(n, n * (FACTOR * INVERSE / WORD) - p * FACTOR, t * FACTOR);
  }

  /** Every 64-bit number is drawn from exactly one, so no two states draw the same. */
  lemma OutputIsBijection(x: bv64, m: nat)
    requires m < WORD
    ensures Output(x) == m <==> x as nat == WrappingMul(m, INVERSE)
  {
    MulInverse(x as nat);
    MulInverse(m);
  }
}
