/** The 32-bit shift register of CRC-32: one step, its linearity and its reverse. */
module ShiftRegister {
  const POLY: bv32 := 0xEDB8_8320

  // The operations on words are functions, so that proofs can leave them alone.

  function Xor(s: bv32, t: bv32): bv32 {
    s ^ t
  }

  function Half(s: bv32): bv32 {
    s >> 1
  }

  predicate Odd(s: bv32) {
    s & 1 == 1
  }

  /** The highest bit is set. */
  predicate High(s: bv32) {
    s & 0x8000_0000 != 0
  }

  /** One step: the lowest bit goes out, and comes back as the polynomial. */
  function Step(s: bv32): bv32 {
    if s & 1 == 1 then (s >> 1) ^ 0xEDB8_8320 else s >> 1
  }

  /** The step before. */
  function Unstep(s: bv32): bv32 {
    if s & 0x8000_0000 == 0 then s << 1 else ((s ^ 0xEDB8_8320) << 1) | 1
  }

  function Steps(s: bv32, n: nat): bv32
    decreases n
  {
    if n == 0 then s else Steps(Step(s), n - 1)
  }

  lemma OddIs(s: bv32)
    ensures Odd(s) <==> s & 1 == 1
  {
  }

  lemma StepOdd(s: bv32)
    requires s & 1 == 1
    ensures Step(s) == Xor(Half(s), 0xEDB8_8320)
  {
  }

  lemma StepEven(s: bv32)
    requires !(s & 1 == 1)
    ensures Step(s) == Half(s)
  {
  }

  lemma StepIs(s: bv32)
    ensures Step(s) == if Odd(s) then Xor(Half(s), POLY) else Half(s)
  {
    hide Step, Xor, Half, Odd;
    OddIs(s);
    if Odd(s) {
      StepOdd(s);
    } else {
      StepEven(s);
    }
  }

  lemma XorAssoc(a: bv32, b: bv32, c: bv32)
    ensures Xor(Xor(a, b), c) == Xor(a, Xor(b, c))
  {
  }

  lemma XorComm(a: bv32, b: bv32)
    ensures Xor(a, b) == Xor(b, a)
  {
  }

  lemma XorPairs(a: bv32, b: bv32, c: bv32, d: bv32)
    ensures Xor(Xor(a, b), Xor(c, d)) == Xor(Xor(a, c), Xor(b, d))
  {
    hide *;
    XorAssoc(a, b, Xor(c, d));
    XorAssoc(b, c, d);
    XorComm(b, c);
    XorAssoc(c, b, d);
    XorAssoc(a, c, Xor(b, d));
  }

  lemma XorZero(s: bv32)
    ensures Xor(s, 0) == s && Xor(0, s) == s && Xor(s, s) == 0
  {
  }

  lemma HalfXor(s: bv32, t: bv32)
    ensures Half(Xor(s, t)) == Xor(Half(s), Half(t))
  {
  }

  lemma OddXor(s: bv32, t: bv32)
    ensures Odd(Xor(s, t)) <==> Odd(s) != Odd(t)
  {
  }

  /** The register is linear. */
  lemma StepXor(s: bv32, t: bv32)
    ensures Step(Xor(s, t)) == Xor(Step(s), Step(t))
  {
    hide *;
    StepIs(s);
    StepIs(t);
    StepIs(Xor(s, t));
    OddXor(s, t);
    HalfXor(s, t);
    var p, q := Half(s), Half(t);
    XorPairs(p, POLY, q, POLY);
    XorZero(POLY);
    XorZero(Xor(p, q));
    XorAssoc(p, POLY, q);
    XorComm(POLY, q);
    XorAssoc(p, q, POLY);
  }

  lemma {:induction false} StepsXor(s: bv32, t: bv32, n: nat)
    ensures Steps(Xor(s, t), n) == Xor(Steps(s, n), Steps(t, n))
    decreases n
  {
    hide Step, Xor;
    if n > 0 {
      StepXor(s, t);
      StepsXor(Step(s), Step(t), n - 1);
    }
  }

  lemma {:induction false} StepsAdd(s: bv32, m: nat, n: nat)
    ensures Steps(Steps(s, m), n) == Steps(s, m + n)
    decreases m
  {
    hide Step;
    if m > 0 {
      StepsAdd(Step(s), m - 1, n);
    }
  }

  // Stepping back.

  function Twice(s: bv32): bv32 {
    s << 1
  }

  function SetLow(s: bv32): bv32 {
    s | 1
  }

  lemma UnstepHigh(s: bv32)
    requires s & 0x8000_0000 != 0
    ensures Unstep(s) == SetLow(Twice(Xor(s, 0xEDB8_8320)))
  {
  }

  lemma UnstepLow(s: bv32)
    requires !(s & 0x8000_0000 != 0)
    ensures Unstep(s) == Twice(s)
  {
  }

  lemma HighIs(s: bv32)
    ensures High(s) <==> s & 0x8000_0000 != 0
  {
  }

  lemma UnstepIs(s: bv32)
    ensures Unstep(s) == if High(s) then SetLow(Twice(Xor(s, POLY))) else Twice(s)
  {
    hide Unstep, Xor, Twice, SetLow, High;
    HighIs(s);
    if High(s) {
      UnstepHigh(s);
    } else {
      UnstepLow(s);
    }
  }

  lemma TwiceFacts(s: bv32)
    ensures !Odd(Twice(s)) && Odd(SetLow(Twice(s))) && Half(SetLow(Twice(s))) == Half(Twice(s))
  {
  }

  lemma TwiceHalf(s: bv32)
    requires !High(s)
    ensures Half(Twice(s)) == s
  {
  }

  lemma HalfTwice(s: bv32)
    ensures !High(Half(s)) && (if Odd(s) then SetLow(Twice(Half(s))) == s else Twice(Half(s)) == s)
  {
  }

  lemma HighXor(s: bv32, t: bv32)
    ensures High(Xor(s, t)) <==> High(s) != High(t)
  {
  }

  lemma HighPoly()
    ensures High(POLY) && !Odd(POLY)
  {
  }

  lemma UnstepBack(s: bv32)
    ensures Step(Unstep(s)) == s
  {
    hide *;
    var u := Unstep(s);
    UnstepIs(s);
    StepIs(u);
    HighPoly();
    if High(s) {
      var t := Xor(s, POLY);
      HighXor(s, POLY);
      TwiceFacts(t);
      TwiceHalf(t);
      XorTwice(s, POLY);
    } else {
      TwiceFacts(s);
      TwiceHalf(s);
    }
  }

  lemma XorTwice(s: bv32, t: bv32)
    ensures Xor(Xor(s, t), t) == s
  {
    hide *;
    XorAssoc(s, t, t);
    XorZero(t);
    XorZero(s);
  }

  lemma StepBack(s: bv32)
    ensures Unstep(Step(s)) == s
  {
    hide *;
    StepIs(s);
    UnstepIs(Step(s));
    HalfTwice(s);
    HighPoly();
    HighXor(Half(s), POLY);
    XorTwice(Half(s), POLY);
  }

  lemma UnstepXor(s: bv32, t: bv32)
    ensures Unstep(Xor(s, t)) == Xor(Unstep(s), Unstep(t))
  {
    hide *;
    StepXor(Unstep(s), Unstep(t));
    UnstepBack(s);
    UnstepBack(t);
    StepBack(Xor(Unstep(s), Unstep(t)));
  }

  lemma StepZero()
    ensures Step(0) == 0 && Unstep(0) == 0
  {
  }

  lemma {:induction false} StepsZero(n: nat)
    ensures Steps(0, n) == 0
  {
    hide Step;
    if n > 0 {
      StepZero();
      StepsZero(n - 1);
    }
  }

  /** Nothing but zero steps to zero. */
  lemma {:induction false} StepsNonzero(s: bv32, n: nat)
    ensures Steps(s, n) == 0 <==> s == 0
    decreases n
  {
    hide Step, Unstep;
    if n > 0 {
      StepZero();
      StepBack(s);
      StepsNonzero(Step(s), n - 1);
    }
  }

  // Eight steps at a time.

  function Eight(s: bv32): bv32 {
    Step(Step(Step(Step(Step(Step(Step(Step(s))))))))
  }

  lemma EightIs(s: bv32)
    ensures Steps(s, 8) == Eight(s)
  {
    hide Step;
    var t := Step(Step(Step(Step(s))));
    assert Steps(t, 4) == Steps(Step(Step(t)), 2);
    assert Steps(s, 8) == Steps(Step(Step(s)), 6) == Steps(t, 4);
  }

  lemma EightXor(s: bv32, t: bv32)
    ensures Eight(Xor(s, t)) == Xor(Eight(s), Eight(t))
  {
    hide *;
    EightIs(s);
    EightIs(t);
    EightIs(Xor(s, t));
    StepsXor(s, t, 8);
  }

  function Quarter(s: bv32): bv32 {
    s >> 2
  }

  /** Two zero bits go out without coming back. */
  lemma EvenTwice(s: bv32)
    requires s & 3 == 0
    ensures Step(Step(s)) == Quarter(s)
  {
    StepEven(s);
    StepEven(s >> 1);
  }

  /** The lowest two bits are zero. */
  predicate Fourth(s: bv32) {
    s & 3 == 0
  }

  lemma FourthStep(s: bv32)
    requires Fourth(s)
    ensures Step(Step(s)) == Quarter(s)
  {
    hide Step, Quarter;
    EvenTwice(s);
  }

  lemma ZeroPairs(s: bv32)
    requires s & 0xFF == 0
    ensures Fourth(s) && Fourth(Quarter(s)) && Fourth(Quarter(Quarter(s))) && Fourth(Quarter(Quarter(Quarter(s))))
    ensures Quarter(Quarter(Quarter(Quarter(s)))) == s >> 8
  {
  }

  lemma ShiftOut(s: bv32)
    requires s & 0xFF == 0
    ensures Eight(s) == s >> 8
  {
    hide Step, Quarter, Fourth;
    ZeroPairs(s);
    FourthStep(s);
    FourthStep(Quarter(s));
    FourthStep(Quarter(Quarter(s)));
    FourthStep(Quarter(Quarter(Quarter(s))));
  }

  function Upper(s: bv32): bv32 {
    s >> 8
  }

  function Lower(s: bv32): bv32 {
    s & 0xFF
  }

  /** The low byte and the rest go their own ways. */
  lemma ByteApart(s: bv32)
    ensures Eight(s) == Xor(Upper(s), Eight(Lower(s)))
  {
    hide Eight, Xor, Lower;
    var rest := s & 0xFFFF_FF00;
    SplitByte(s);
    EightXor(rest, Lower(s));
    ShiftOut(rest);
  }

  lemma SplitByte(s: bv32)
    ensures s == Xor(s & 0xFFFF_FF00, Lower(s)) && (s & 0xFFFF_FF00) & 0xFF == 0 && (s & 0xFFFF_FF00) >> 8 == s >> 8
  {
  }
}
