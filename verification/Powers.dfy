/** Powers, and the bits of an exponent in the order the exponentiation loops meet them. */
module Powers {
  import opened Arith
  import opened Words
  import opened Modular
  import opened NumberTheory
  import opened Reciprocal
  import opened Bignum
  import opened BigMul

  /** Squaring, and multiplying in once more where the bit is set. */
  lemma ExpBit(b: int, e: nat, bit: bool)
    ensures Exp(b, 2 * e + (if bit then 1 else 0))
         == (if bit then Mul(Mul(Exp(b, e), Exp(b, e)), b) else Mul(Exp(b, e), Exp(b, e)))
  {
    ExpAdd(b, e, e);
    if bit {
      assert Exp(b, 2 * e + 1) == Mul(b, Exp(b, 2 * e));
      MulComm(b, Exp(b, 2 * e));
    }
  }

  /** Whether bit j of a word is set. */
  predicate BitSet(w: word, j: nat)
    requires j < W
  {
    ShiftRight(w, j) % 2 != 0
  }

  /** The loops stand at word i from the top and bit j of it; e is the part of the exponent already met. */
  ghost predicate ExpInv(exp: seq<word>, i: nat, j: int, e: nat)
    requires IsBignum(exp)
  {
    && i <= exp[0] && -1 <= j < W
    && if i == exp[0] then BnVal(exp) == e else BnVal(exp) == Mul(e, Weight(exp, i, j)) + Rest(exp, i, j)
  }

  ghost function Weight(exp: seq<word>, i: nat, j: int): nat
    requires IsBignum(exp) && i < exp[0] && -1 <= j
  {
    Mul(Pow2(j + 1), BPow(exp[0] - i - 1))
  }

  ghost function Rest(exp: seq<word>, i: nat, j: int): nat
    requires IsBignum(exp) && i < exp[0] && -1 <= j
  {
    DivMod(exp[exp[0] - i], Pow2(j + 1));
    Mul(exp[exp[0] - i] % Pow2(j + 1), BPow(exp[0] - i - 1)) + Raw(exp, exp[0] - i - 1)
  }

  lemma ExpStart(exp: seq<word>)
    requires IsBignum(exp)
    ensures ExpInv(exp, 0, W - 1, 0)
  {
    if exp[0] == 0 {
      EmptyValue(exp);
    } else {
      SmallMod(exp[exp[0]], B);
      RawStep(exp, exp[0] - 1);
      MulUnit(Weight(exp, 0, W - 1));
    }
  }

  lemma EmptyValue(exp: seq<word>)
    requires IsBignum(exp) && exp[0] == 0
    ensures BnVal(exp) == 0
  {
  }

  lemma SmallMod(x: nat, m: nat)
    requires x < m
    ensures x % m == x
  {
    DivModUnique(x, m, 0, x);
  }

  lemma SplitBit(w: nat, p: nat)
    requires p > 0
    ensures w % (2 * p) == ((w / p) % 2) * p + w % p
  {
    DivMod(w, p);
    var q := w / p;
    DivMod(q, 2);
    Distrib(q % 2, (q / 2) * 2, p);
    Assoc(q / 2, 2, p);
    var r := (q % 2) * p + w % p;
    MulMono(q % 2, 1, p);
    MulNonNeg(q % 2, p);
    DivModUnique(w, 2 * p, q / 2, r);
  }

  /** One bit is met. */
  lemma ExpBitStep(exp: seq<word>, i: nat, j: nat, e: nat)
    requires IsBignum(exp) && i < exp[0] && j < W && ExpInv(exp, i, j, e)
    ensures ExpInv(exp, i, j - 1, 2 * e + (if BitSet(exp[exp[0] - i], j) then 1 else 0))
  {
    var w := exp[exp[0] - i];
    var p, b := Pow2(j), BPow(exp[0] - i - 1);
    var bit := if BitSet(w, j) then 1 else 0;
    BitIs(w, j);
    SplitBit(w, p);
    assert Pow2(j + 1) == 2 * p;
    BitStepMath(e, bit, p, b, w % p, Raw(exp, exp[0] - i - 1), BnVal(exp));
  }

  lemma BitIs(w: word, j: nat)
    requires j < W
    ensures (w / Pow2(j)) % 2 == if BitSet(w, j) then 1 else 0
  {
  }

  lemma BitStepMath(e: nat, bit: nat, p: nat, b: nat, low: nat, rest: nat, v: nat)
    requires v == Mul(e, Mul(2 * p, b)) + (Mul(bit * p + low, b) + rest)
    ensures v == Mul(2 * e + bit, Mul(p, b)) + (Mul(low, b) + rest)
  {
    Distrib(bit * p, low, b);
    Assoc(bit, p, b);
    Assoc(2, p, b);
    Assoc(e, 2, p * b);
    Distrib(2 * e, bit, p * b);
  }

  /** One word is used up. */
  lemma ExpWordStep(exp: seq<word>, i: nat, e: nat)
    requires IsBignum(exp) && i < exp[0] && ExpInv(exp, i, -1, e)
    ensures ExpInv(exp, i + 1, W - 1, e)
  {
    var w := exp[exp[0] - i];
    assert Pow2(-1 + 1) == 1;
    DivModUnique(w, 1, w, 0);
    MulUnit(BPow(exp[0] - i - 1));
    assert BnVal(exp) == Mul(e, BPow(exp[0] - i - 1)) + Raw(exp, exp[0] - i - 1);
    if i + 1 == exp[0] {
      MulUnit(e);
      assert exp[1..1] == [];
    } else {
      var n := exp[0] - i - 2;
      SmallMod(exp[n + 1], B);
      RawStep(exp, n);
      BPowUp(n);
    }
  }

  /** The loop that skips the leading zero bits of the exponent. */
  method SkipLeadingZeros(exp: array<word>) returns (i: nat, j: nat)
    requires IsBignum(exp[..])
    ensures i <= exp[0] && j < W && ExpInv(exp[..], i, j, 0)
    ensures i == exp[0] ==> BnVal(exp[..]) == 0
    ensures i < exp[0] ==> BnVal(exp[..]) > 0
  {
    hide ExpInv, LVal, BPow, Pow2, Mul, BnVal, BitSet;
    i := 0;
    j := W - 1;
    ExpStart(exp[..]);
    while i < exp[0] && !BitSet(exp[exp[0] - i], j)
      invariant i <= exp[0] && 0 <= j < W && ExpInv(exp[..], i, j, 0)
      decreases exp[0] - i, j
    {
      ExpBitStep(exp[..], i, j, 0);
      if j == 0 {
        ExpWordStep(exp[..], i, 0);
        i := i + 1;
        j := W - 1;
      } else {
        j := j - 1;
      }
    }
    if i < exp[0] {
      ExpBitStep(exp[..], i, j, 0);
      ExpNonZero(exp[..], i, j - 1);
    } else {
      ExpDone(exp[..], i, j, 0);
    }
  }

  lemma ExpNonZero(exp: seq<word>, i: nat, j: int)
    requires IsBignum(exp) && i < exp[0] && ExpInv(exp, i, j, 1)
    ensures BnVal(exp) > 0
  {
    MulUnit(Weight(exp, i, j));
    MulLt(0, Pow2(j + 1), BPow(exp[0] - i - 1));
    MulUnit(BPow(exp[0] - i - 1));
  }

  lemma ExpDone(exp: seq<word>, i: nat, j: int, e: nat)
    requires IsBignum(exp) && i == exp[0] && ExpInv(exp, i, j, e)
    ensures BnVal(exp) == e
  {
  }
}
