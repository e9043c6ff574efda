/**
 * Which patterns of blocks the detector's checksum cannot tell from nothing. A block adds one bit and 64 steps of the
 * register; because squaring is linear over bits, that comes to zero exactly when one bit and one step a block do.
 */
module CrcPattern {
  import opened ShiftRegister

  function Pick(b: bool, c: bv32): bv32 {
    if b then c else 0
  }

  function Bit(b: bool): bv32 {
    Pick(b, 1)
  }

  /** The checksum of a pattern as the detector forms it: 64 steps for each position. */
  function Wide(b: seq<bool>): bv32 {
    if b == [] then 0 else Steps(Xor(Wide(b[..|b| - 1]), Bit(b[|b| - 1])), 64)
  }

  /** The CRC of the pattern itself, one step for each position: the remainder of the pattern as a polynomial. */
  function Narrow(b: seq<bool>): bv32 {
    if b == [] then 0 else Step(Xor(Narrow(b[..|b| - 1]), Bit(b[|b| - 1])))
  }

  // Short words.

  /** s has at most n bits. */
  predicate Fits(s: bv32, n: nat)
    decreases n
  {
    if n == 0 then s == 0 else Fits(Half(s), n - 1)
  }

  /** Every bit of s is one of t's. */
  predicate Within(s: bv32, t: bv32) {
    s & t == s
  }

  lemma HalfWithin(s: bv32, t: bv32)
    requires Within(s, t)
    ensures Within(Half(s), Half(t))
  {
  }

  lemma WithinZero(s: bv32)
    requires Within(s, 0)
    ensures s == 0
  {
  }

  lemma {:induction false} FitsWithin(s: bv32, t: bv32, n: nat)
    requires Within(s, t) && Fits(t, n)
    ensures Fits(s, n)
    decreases n
  {
    hide Within, Half;
    if n == 0 {
      WithinZero(s);
    } else {
      HalfWithin(s, t);
      FitsWithin(Half(s), Half(t), n - 1);
    }
  }

  lemma OnesFit()
    ensures Fits(0x7FFF_FFFF, 31)
  {
    assert Fits(0x7F_FFFF, 23) by { assert Fits(0x7FFF, 15); }
  }

  lemma HalfOnes(s: bv32)
    ensures Within(Half(s), 0x7FFF_FFFF)
  {
  }

  lemma HalfFits(s: bv32)
    ensures Fits(Half(s), 31)
  {
    hide *;
    HalfOnes(s);
    OnesFit();
    FitsWithin(Half(s), 0x7FFF_FFFF, 31);
  }

  // Squaring.

  /** The square of s as a polynomial, divided by x^31 to keep 1 in place: each bit goes twice as far from the lowest. */
  function Square(s: bv32, n: nat): bv32
    decreases n
  {
    if n == 0 then 0 else Xor(Bit(Odd(s)), Unstep(Unstep(Square(Half(s), n - 1))))
  }

  lemma PickXor(b: bool, c: bool, v: bv32)
    ensures Pick(b != c, v) == Xor(Pick(b, v), Pick(c, v))
  {
    hide Xor;
    XorZero(v);
    XorZero(0);
  }

  lemma {:induction false} SquareXor(s: bv32, t: bv32, n: nat)
    ensures Square(Xor(s, t), n) == Xor(Square(s, n), Square(t, n))
    decreases n
  {
    hide Xor, Half, Odd, Unstep, Pick;
    if n == 0 {
      XorZero(0);
    } else {
      OddXor(s, t);
      HalfXor(s, t);
      PickXor(Odd(s), Odd(t), 1);
      var u, v := Square(Half(s), n - 1), Square(Half(t), n - 1);
      SquareXor(Half(s), Half(t), n - 1);
      UnstepXor(u, v);
      UnstepXor(Unstep(u), Unstep(v));
      XorPairs(Bit(Odd(s)), Bit(Odd(t)), Unstep(Unstep(u)), Unstep(Unstep(v)));
    }
  }

  /** Bits that are not there add nothing. */
  lemma {:induction false} SquareShort(s: bv32, n: nat)
    requires Fits(s, n)
    ensures Square(s, n + 1) == Square(s, n)
    decreases n
  {
    if n == 0 {
      SquareZero(1);
    } else {
      hide Xor, Half, Odd, Unstep, Pick;
      SquareShort(Half(s), n - 1);
    }
  }

  lemma {:induction false} SquareZero(n: nat)
    ensures Square(0, n) == 0
    decreases n
  {
    if n > 0 {
      SquareZero(n - 1);
      ZeroParts();
      hide Xor, Half, Odd, Unstep;
      StepZero();
      XorZero(0);
    }
  }

  lemma ZeroParts()
    ensures Half(0) == 0 && !Odd(0) && Half(1) == 0 && Odd(1)
  {
  }

  /** The square of the polynomial's lower part is two steps from 1. */
  lemma SquarePoly()
    ensures Square(POLY, 32) == 0x76DC_4190
  {
    assert Square(0xED, 8) == 0x5451;
    assert Square(0xEDB8, 16) == 0x5451_4540;
    assert Square(0xED_B883, 24) == 0x77F7_49D9;
  }

  lemma TwoSteps()
    ensures Step(Step(1)) == 0x76DC_4190
  {
  }

  lemma StepPick(s: bv32)
    ensures Step(s) == Xor(Half(s), Pick(Odd(s), POLY))
  {
    hide Step, Xor, Half, Odd;
    StepIs(s);
    XorZero(Half(s));
  }

  function Squared(s: bv32): bv32 {
    Square(s, 32)
  }

  /** Two steps of the square for one of the word. */
  lemma SquareStep(s: bv32)
    ensures Squared(Step(s)) == Step(Step(Squared(s)))
  {
    hide Step, Unstep, Xor, Half, Odd;
    var h, v := Half(s), Square(Half(s), 31);
    HalfFits(s);
    SquareShort(h, 31);
    StepPick(s);
    SquareXor(h, Pick(Odd(s), POLY), 32);
    SquarePoly();
    SquareZero(32);
    TwoSteps();
    StepXor(Pick(Odd(s), 1), Unstep(Unstep(v)));
    StepXor(Step(Pick(Odd(s), 1)), Step(Unstep(Unstep(v))));
    UnstepBack(Unstep(v));
    UnstepBack(v);
    StepZero();
    XorComm(v, Step(Step(Pick(Odd(s), 1))));
  }

  lemma {:induction false} SquareSteps(s: bv32, n: nat)
    ensures Squared(Steps(s, n)) == Steps(Squared(s), 2 * n)
    decreases n
  {
    hide Step, Squared;
    if n > 0 {
      SquareStep(s);
      SquareSteps(Step(s), n - 1);
      assert Steps(Squared(s), 2 * n) == Steps(Step(Step(Squared(s))), 2 * (n - 1));
    }
  }

  // The square has an inverse, so only zero has the square zero.

  /** The inverse of Square(2). */
  const ROOT: bv32 := 0x34DC_BB29

  /** The square root of s as a polynomial, scaled in the same way: pairs of bits go half as far. */
  function Root(s: bv32, n: nat): bv32
    decreases n
  {
    if n == 0 then 0
    else Xor(Xor(Pick(Odd(s), 1), Pick(Odd(Half(s)), ROOT)), Unstep(Root(Half(Half(s)), n - 1)))
  }

  lemma {:induction false} RootXor(s: bv32, t: bv32, n: nat)
    ensures Root(Xor(s, t), n) == Xor(Root(s, n), Root(t, n))
    decreases n
  {
    hide Xor, Half, Odd, Unstep, Pick;
    if n == 0 {
      XorZero(0);
    } else {
      OddXor(s, t);
      HalfXor(s, t);
      var h, i := Half(s), Half(t);
      OddXor(h, i);
      HalfXor(h, i);
      PickXor(Odd(s), Odd(t), 1);
      PickXor(Odd(h), Odd(i), ROOT);
      XorPairs(Pick(Odd(s), 1), Pick(Odd(t), 1), Pick(Odd(h), ROOT), Pick(Odd(i), ROOT));
      var u, v := Root(Half(h), n - 1), Root(Half(i), n - 1);
      RootXor(Half(h), Half(i), n - 1);
      UnstepXor(u, v);
      XorPairs(Xor(Pick(Odd(s), 1), Pick(Odd(h), ROOT)), Xor(Pick(Odd(t), 1), Pick(Odd(i), ROOT)), Unstep(u), Unstep(v));
    }
  }

  lemma {:induction false} RootZero(n: nat)
    ensures Root(0, n) == 0
    decreases n
  {
    if n > 0 {
      RootZero(n - 1);
      ZeroParts();
      hide Xor, Half, Odd, Unstep;
      StepZero();
      XorZero(0);
    }
  }

  lemma {:induction false} RootShort(s: bv32, n: nat)
    requires Fits(s, 2 * n)
    ensures Root(s, n + 1) == Root(s, n)
    decreases n
  {
    if n == 0 {
      RootZero(1);
    } else {
      hide Xor, Half, Odd, Unstep, Pick;
      assert Fits(Half(s), 2 * n - 1);
      RootShort(Half(Half(s)), n - 1);
    }
  }

  lemma RootPoly()
    ensures Root(POLY, 16) == 0xF7D6_DEB4
  {
    assert Root(0xED, 4) == 0xC75F_45F4;
    assert Root(0xEDB8, 8) == 0x04B0_2270;
    assert Root(0xED_B883, 12) == 0x024A_4321;
  }

  lemma RootHalfPoly()
    ensures Root(0x76DC_4190, 16) == POLY
  {
    assert Root(0x76, 4) == 0xE7AE_5783;
    assert Root(0x76DC, 8) == 0xB540_E36D;
    assert Root(0x76_DC41, 12) == 0x8FD1_1716;
  }

  lemma StepRoot()
    ensures Step(ROOT) == 0xF7D6_DEB4 && Step(1) == POLY && Step(POLY) == 0x76DC_4190
  {
  }

  function Rooted(s: bv32): bv32 {
    Root(s, 16)
  }

  /** One step of the root for two of the word. */
  lemma RootStep(s: bv32)
    ensures Rooted(Step(Step(s))) == Step(Rooted(s))
  {
    hide Step, Unstep, Xor, Half, Odd, Fits;
    TwoStepsAre(s);
    var q, o, o1 := Half(Half(s)), Odd(s), Odd(Half(s));
    var v := Root(q, 15);
    QuarterFits(s);
    RootShort(q, 15);
    RootXor(Xor(q, Pick(o1, POLY)), Pick(o, 0x76DC_4190), 16);
    RootXor(q, Pick(o1, POLY), 16);
    RootPoly();
    RootHalfPoly();
    RootZero(16);
    StepRoot();
    StepZero();
    StepXor(Xor(Pick(o, 1), Pick(o1, ROOT)), Unstep(v));
    StepXor(Pick(o, 1), Pick(o1, ROOT));
    UnstepBack(v);
    Reordered(v, Step(Pick(o1, ROOT)), Step(Pick(o, 1)));
  }

  lemma Reordered(a: bv32, b: bv32, c: bv32)
    ensures Xor(Xor(a, b), c) == Xor(Xor(c, b), a)
  {
    hide *;
    XorAssoc(a, b, c);
    XorComm(b, c);
    XorComm(a, Xor(c, b));
  }

  lemma QuarterFits(s: bv32)
    ensures Fits(Half(Half(s)), 30)
  {
    hide Half;
    HalfFits(s);
    assert Fits(Half(s), 31);
  }

  lemma TwoStepsAre(s: bv32)
    ensures Step(Step(s)) == Xor(Xor(Half(Half(s)), Pick(Odd(Half(s)), POLY)), Pick(Odd(s), 0x76DC_4190))
  {
    hide Step, Xor, Half, Odd;
    StepPick(s);
    StepXor(Half(s), Pick(Odd(s), POLY));
    StepPick(Half(s));
    StepRoot();
    StepZero();
  }

  lemma Ones()
    ensures Square(1, 32) == 1 && Root(1, 16) == 1
  {
    SquareZero(31);
    RootZero(15);
    ZeroParts();
    StepZero();
    hide Square, Root;
    OnePlus();
  }

  lemma OnePlus()
    ensures Xor(1, 0) == 1 && Xor(Xor(1, 0), 0) == 1
  {
  }

  /** The root of the square is the word: so it is for 1, and so it stays over steps back and sums. */
  lemma {:induction false} RootSquare(s: bv32, n: nat)
    requires Fits(s, n)
    ensures Rooted(Squared(s)) == s
    decreases n
  {
    hide Step, Unstep, Xor, Half, Odd, Rooted, Squared;
    if n == 0 {
      SquaredZero();
    } else {
      var h := Half(s);
      RootSquare(h, n - 1);
      BackToWord(s);
      SquaredXor(Pick(Odd(s), 1), Unstep(h));
      RootXor(Squared(Pick(Odd(s), 1)), Squared(Unstep(h)), 16);
      RootedIs(Squared(Pick(Odd(s), 1)));
      RootedIs(Squared(Unstep(h)));
      RootedIs(Squared(s));
      SquaredZero();
      SquareStep(Unstep(h));
      RootStep(Squared(Unstep(h)));
      UnstepBack(h);
      StepBack(Rooted(Squared(Unstep(h))));
    }
  }

  lemma SquaredZero()
    ensures Squared(0) == 0 && Rooted(0) == 0 && Squared(1) == 1 && Rooted(1) == 1
  {
    SquareZero(32);
    RootZero(16);
    Ones();
  }

  lemma SquaredXor(s: bv32, t: bv32)
    ensures Squared(Xor(s, t)) == Xor(Squared(s), Squared(t))
  {
    hide Xor;
    SquareXor(s, t, 32);
  }

  lemma RootedIs(s: bv32)
    ensures Rooted(s) == Root(s, 16)
  {
  }

  /** A word is its lowest bit and, a step back, its upper half. */
  lemma BackToWord(s: bv32)
    ensures s == Xor(Pick(Odd(s), 1), Unstep(Half(s)))
  {
    hide Unstep, Xor, Half, Odd, Twice, SetLow, High;
    UnstepIs(Half(s));
    HalfTwice(s);
    TwiceFacts(Half(s));
    LowSet(Twice(Half(s)));
    XorZero(Twice(Half(s)));
  }

  lemma LowSet(s: bv32)
    requires !Odd(s)
    ensures SetLow(s) == Xor(1, s)
  {
  }

  lemma SquaredNonzero(s: bv32)
    ensures Squared(s) == 0 <==> s == 0
  {
    hide Squared, Rooted, Half;
    HalfFits(s);
    RootSquare(s, 32);
    SquaredZero();
  }

  // Six squares: 64 steps for one.

  function Sixth(s: bv32): bv32 {
    Squared(Squared(Squared(Squared(Squared(Squared(s))))))
  }

  lemma SixthStep(s: bv32)
    ensures Sixth(Step(s)) == Steps(Sixth(s), 64)
  {
    hide Step, Squared;
    var s1 := Squared(s);
    var s2 := Squared(s1);
    var s3 := Squared(s2);
    var s4 := Squared(s3);
    var s5 := Squared(s4);
    assert Steps(s, 1) == Step(s);
    SquareSteps(s, 1);
    SquareSteps(s1, 2);
    SquareSteps(s2, 4);
    SquareSteps(s3, 8);
    SquareSteps(s4, 16);
    SquareSteps(s5, 32);
  }

  lemma SixthXor(s: bv32, t: bv32)
    ensures Sixth(Xor(s, t)) == Xor(Sixth(s), Sixth(t))
  {
    hide Xor, Squared;
    var s1, t1 := Squared(s), Squared(t);
    var s2, t2 := Squared(s1), Squared(t1);
    var s3, t3 := Squared(s2), Squared(t2);
    var s4, t4 := Squared(s3), Squared(t3);
    SquaredXor(s, t);
    SquaredXor(s1, t1);
    SquaredXor(s2, t2);
    SquaredXor(s3, t3);
    SquaredXor(s4, t4);
    SquaredXor(Squared(s4), Squared(t4));
  }

  lemma SixthNonzero(s: bv32)
    ensures Sixth(s) == 0 <==> s == 0
  {
    hide Squared;
    SquaredNonzero(s);
    SquaredNonzero(Squared(s));
    SquaredNonzero(Squared(Squared(s)));
    SquaredNonzero(Squared(Squared(Squared(s))));
    SquaredNonzero(Squared(Squared(Squared(Squared(s)))));
    SquaredNonzero(Squared(Squared(Squared(Squared(Squared(s))))));
  }

  lemma SixthBit(b: bool)
    ensures Sixth(Bit(b)) == Bit(b)
  {
    hide Squared;
    SquaredZero();
  }

  lemma {:induction false} WideIs(b: seq<bool>)
    ensures Wide(b) == Sixth(Narrow(b))
  {
    hide Xor, Step, Sixth, Steps, Bit;
    if b == [] {
      SixthNonzero(0);
    } else {
      var a, x := b[..|b| - 1], b[|b| - 1];
      WideIs(a);
      SixthBit(x);
      SixthXor(Narrow(a), Bit(x));
      SixthStep(Xor(Narrow(a), Bit(x)));
    }
  }

  /** The detector's checksum of a pattern is zero exactly when the CRC of the pattern itself is. */
  lemma WideIff(b: seq<bool>)
    ensures Wide(b) == 0 <==> Narrow(b) == 0
  {
    hide Wide, Narrow, Sixth;
    WideIs(b);
    SixthNonzero(Narrow(b));
  }

  // Up to 32 positions nothing but the empty pattern has the CRC zero.

  /** Where bit n of the pattern stands before any step. */
  function Place(n: nat): bv32 {
    if n == 0 then 1 else Unstep(Place(n - 1))
  }

  /** The pattern as a word, all steps still to come. */
  function Packed(b: seq<bool>): bv32 {
    if b == [] then 0 else Xor(Packed(b[..|b| - 1]), Pick(b[|b| - 1], Place(|b| - 1)))
  }

  lemma {:induction false} PlaceSteps(n: nat)
    ensures Steps(Place(n), n) == 1
  {
    hide Step, Unstep;
    if n > 0 {
      UnstepBack(Place(n - 1));
      PlaceSteps(n - 1);
    }
  }

  lemma {:induction false} NarrowIs(b: seq<bool>)
    ensures Narrow(b) == Steps(Packed(b), |b|)
  {
    hide Xor, Step, Unstep, Place;
    if b != [] {
      var a, x, n := b[..|b| - 1], b[|b| - 1], |b| - 1;
      var v := Pick(x, Place(n));
      NarrowIs(a);
      StepsXor(Packed(a), v, n);
      PlaceSteps(n);
      StepsZero(n);
      StepsAdd(Xor(Packed(a), v), n, 1);
      assert Steps(Steps(Xor(Packed(a), v), n), 1) == Step(Steps(Xor(Packed(a), v), n));
    }
  }

  lemma {:induction false} FitsMore(s: bv32, n: nat, m: nat)
    requires Fits(s, n) && n <= m
    ensures Fits(s, m)
    decreases m
  {
    if n == 0 {
      if m > 0 {
        ZeroParts();
        FitsMore(0, 0, m - 1);
      }
    } else {
      hide Half;
      FitsMore(Half(s), n - 1, m - 1);
    }
  }

  lemma {:induction false} FitsXor(s: bv32, t: bv32, n: nat)
    requires Fits(s, n) && Fits(t, n)
    ensures Fits(Xor(s, t), n)
    decreases n
  {
    hide Half, Xor;
    if n == 0 {
      XorZero(0);
    } else {
      HalfXor(s, t);
      FitsXor(Half(s), Half(t), n - 1);
    }
  }

  lemma HighDoesNotFit()
    ensures !Fits(0x8000_0000, 31)
  {
    assert !Fits(0x8000, 15);
    assert !Fits(0x80_0000, 23);
  }

  lemma HighWithin(s: bv32)
    requires High(s)
    ensures Within(0x8000_0000, s)
  {
  }

  lemma FitsLow(s: bv32, n: nat)
    requires Fits(s, n) && n <= 31
    ensures !High(s)
  {
    hide *;
    if High(s) {
      HighWithin(s);
      FitsMore(s, n, 31);
      FitsWithin(0x8000_0000, s, 31);
      HighDoesNotFit();
    }
  }

  lemma {:induction false} PlaceFits(n: nat)
    requires n <= 31
    ensures Fits(Place(n), n + 1) && !Fits(Place(n), n)
  {
    if n == 0 {
      ZeroParts();
    } else {
      hide Half, Unstep, Twice, SetLow, High;
      var p := Place(n - 1);
      PlaceFits(n - 1);
      FitsLow(p, n);
      UnstepIs(p);
      TwiceHalf(p);
    }
  }

  lemma {:induction false} PackedFits(b: seq<bool>)
    requires |b| <= 32
    ensures Fits(Packed(b), |b|)
  {
    hide Xor, Half, Place, Fits;
    if b == [] {
      FitsZero();
    } else {
      var n := |b| - 1;
      PackedFits(b[..n]);
      FitsMore(Packed(b[..n]), n, n + 1);
      PlaceFits(n);
      FitsZero();
      FitsMore(0, 0, n + 1);
      FitsXor(Packed(b[..n]), Pick(b[n], Place(n)), n + 1);
    }
  }

  lemma FitsZero()
    ensures Fits(0, 0)
  {
  }

  predicate Empty(b: seq<bool>) {
    forall i :: 0 <= i < |b| ==> !b[i]
  }

  lemma {:induction false} PackedNonzero(b: seq<bool>)
    requires |b| <= 32
    ensures Packed(b) == 0 <==> Empty(b)
  {
    hide Xor, Place, Fits;
    if b != [] {
      var n := |b| - 1;
      var a := b[..n];
      PackedNonzero(a);
      PackedFits(a);
      PlaceFits(n);
      XorZero(Packed(a));
      if b[n] && Packed(b) == 0 {
        XorTwice(Packed(a), Place(n));
        XorZero(Place(n));
        assert false;
      }
      assert Empty(b) <==> Empty(a) && !b[n];
    }
  }

  /** Patterns of at most 32 positions have the checksum zero only when they are empty. */
  lemma ShortPattern(b: seq<bool>)
    requires |b| <= 32
    ensures Wide(b) == 0 <==> Empty(b)
  {
    hide Wide, Narrow, Packed, Steps, Empty;
    WideIff(b);
    NarrowIs(b);
    StepsNonzero(Packed(b), |b|);
    PackedNonzero(b);
  }

  // And 32 more positions always suffice to bring the checksum to zero.

  /** The lowest n bits of s, lowest first. */
  function Bits(s: bv32, n: nat): (b: seq<bool>)
    ensures |b| == n
    decreases n
  {
    if n == 0 then [] else [Odd(s)] + Bits(Half(s), n - 1)
  }

  lemma Drained(s: bv32)
    ensures Step(Xor(s, Bit(Odd(s)))) == Half(s)
  {
    hide Step, Xor, Half, Odd;
    var t := Xor(s, Bit(Odd(s)));
    StepIs(t);
    OddXor(s, Bit(Odd(s)));
    HalfXor(s, Bit(Odd(s)));
    ZeroParts();
    XorZero(Half(s));
  }

  lemma {:induction false} Completed(b: seq<bool>, s: bv32, n: nat)
    requires Narrow(b) == s && Fits(s, n)
    ensures Narrow(b + Bits(s, n)) == 0
    decreases n
  {
    hide Step, Xor, Half, Odd, Bit;
    if n == 0 {
      assert b + [] == b;
    } else {
      var b' := b + [Odd(s)];
      assert b'[..|b'| - 1] == b;
      Drained(s);
      Completed(b', Half(s), n - 1);
      assert b' + Bits(Half(s), n - 1) == b + Bits(s, n);
    }
  }

  /** Every pattern can be completed within 32 positions to one that the checksum does not see. */
  lemma Compensated(b: seq<bool>)
    ensures Wide(b + Bits(Narrow(b), 32)) == 0
  {
    hide Narrow, Wide, Bits, Half;
    HalfFits(Narrow(b));
    assert Fits(Narrow(b), 32);
    Completed(b, Narrow(b), 32);
    WideIff(b + Bits(Narrow(b), 32));
  }
}
