/** Why the quotient words internal_mod picks are safe, and why it stops only below 2*m. */
module DivisionMath {
  import opened Arith
  import opened Words
  import opened Reciprocal

  /** top is the leading W bits of the len-word number x, once x is shifted left until its top bit is set. */
  ghost predicate NormalTop(x: nat, len: nat, shift: nat, top: word) {
    && len >= 1 && top >= TOP && shift < W
    && Mul(top, BPow(len - 1)) <= Mul(x, Pow2(shift)) < Mul(top + 1, BPow(len - 1))
  }

  /** recip/K does not overestimate the reciprocal of the shifted modulus. */
  ghost predicate Admissible(recip: nat, m: nat, mlen: nat, rshift: nat)
    requires mlen >= 1
  {
    Mul(Mul(recip, m), Pow2(rshift)) <= Mul(K, BPow(mlen - 1))
  }

  /** 2^F where F = (n - mlen - 1) * W + rshift + 1 - shift, as an equation between non-negative powers. */
  ghost predicate Offset(pf: nat, ps: nat, n: nat, mlen: nat, shift: nat, rshift: nat) {
    // either F >= 0 and pf = 2^F, ps = 1, or F < 0 and pf = 1, ps = 2^-F
    pf >= 1 && ps >= 1 && Mul(Mul(pf, Pow2(shift)), BPow(mlen + 1)) == Mul(ps, Mul(2 * Pow2(rshift), BPow(n)))
  }

  lemma OffsetIs(n: nat, mlen: nat, shift: nat, rshift: nat, f: int)
    requires f == (n - mlen - 1) * W + rshift + 1 - shift
    ensures f >= 0 ==> Offset(Pow2(f), 1, n, mlen, shift, rshift)
    ensures f < 0 ==> Offset(1, Pow2(-f), n, mlen, shift, rshift)
  {
    hide Mul, BPow;
    BPowIsPow2(n);
    BPowIsPow2(mlen + 1);
    Distrib(n, -(mlen + 1), W);
    assert 2 * Pow2(rshift) == Pow2(rshift + 1);
    PowMul(rshift + 1, n * W);
    if f >= 0 {
      PowMul(f, shift);
      PowMul(f + shift, (mlen + 1) * W);
      MulUnit(Pow2(rshift + 1 + n * W));
    } else {
      MulUnit(Pow2(shift));
      PowMul(shift, (mlen + 1) * W);
      PowMul(-f, rshift + 1 + n * W);
    }
  }

  lemma PowMul(x: nat, y: nat)
    ensures Mul(Pow2(x), Pow2(y)) == Pow2(x + y)
  {
    Pow2Add(x, y);
  }

  /** The heart of the safety argument: q words of quotient never overshoot. */
  lemma QuotientChain(q: nat, m: nat, x: nat, recip: nat, aword: nat, b: nat, k: nat, bm: nat, bn: nat, prs: nat, psh: nat)
    requires Mul(q, b) <= Mul(recip, aword)
    requires Mul(Mul(recip, m), prs) <= Mul(k, bm)
    requires Mul(aword, bn) <= Mul(x, psh)
    requires 2 * k == Mul(b, b)
    ensures Mul(Mul(q, m), Mul(2 * prs, Mul(b, bn))) <= Mul(x, Mul(psh, Mul(b, Mul(b, bm))))
  {
    hide Mul;
    var u := Mul(m, prs);
    // q*b*(m*prs) <= recip*aword*(m*prs) <= aword*k*bm
    MulLe(Mul(q, b), Mul(recip, aword), u);
    MulAssoc(recip, aword, u);
    MulComm(aword, u);
    MulAssoc(recip, u, aword);
    MulAssoc(recip, m, prs);
    MulLe(Mul(recip, u), Mul(k, bm), aword);
    // times bn
    var v := Mul(k, bm);
    MulLe(Mul(Mul(q, b), u), Mul(v, aword), bn);
    MulAssoc(v, aword, bn);
    MulLe(Mul(aword, bn), Mul(x, psh), v);
    // twice
    var left := Mul(Mul(Mul(q, b), u), bn);
    assert 2 * left <= 2 * Mul(v, Mul(x, psh));
    ChainLeft(q, m, b, bn, prs);
    ChainRight(x, psh, k, bm, b);
  }

  lemma ChainLeft(q: nat, m: nat, b: nat, bn: nat, prs: nat)
    ensures 2 * Mul(Mul(Mul(q, b), Mul(m, prs)), bn) == Mul(Mul(q, m), Mul(2 * prs, Mul(b, bn)))
  {
    hide Mul;
    MulAssoc(q, b, Mul(m, prs));
    MulComm(b, Mul(m, prs));
    MulAssoc(m, prs, b);
    MulAssoc(q, m, Mul(prs, b));
    MulAssoc(Mul(q, m), Mul(prs, b), bn);
    MulAssoc(prs, b, bn);
    MulPlus(prs, prs, Mul(b, bn));
    MulPlus(Mul(prs, Mul(b, bn)), Mul(prs, Mul(b, bn)), Mul(q, m));
  }

  lemma ChainRight(x: nat, psh: nat, k: nat, bm: nat, b: nat)
    requires 2 * k == Mul(b, b)
    ensures 2 * Mul(Mul(k, bm), Mul(x, psh)) == Mul(x, Mul(psh, Mul(b, Mul(b, bm))))
  {
    hide Mul;
    MulPlus(k, k, bm);
    MulAssoc(b, b, bm);
    MulPlus(Mul(k, bm), Mul(k, bm), Mul(x, psh));
    MulComm(Mul(b, Mul(b, bm)), Mul(x, psh));
    MulAssoc(x, psh, Mul(b, Mul(b, bm)));
  }

  lemma BTwice(n: nat)
    ensures BPow(n + 1) == Mul(B, BPow(n)) && BPow(n + 2) == Mul(B, Mul(B, BPow(n)))
  {
    assert BPow(n + 2) == B * BPow(n + 1);
  }

  /** q times the modulus, moved to the place it is subtracted from, does not exceed what is left. */
  lemma QuotientSafe(q: nat, m: nat, mlen: nat, rshift: nat, recip: nat, x: nat, n: nat, shift: nat, aword: word,
                     pf: nat, ps: nat)
    requires mlen >= 1 && NormalTop(x, n, shift, aword) && Admissible(recip, m, mlen, rshift)
    requires Mul(q, B) <= Mul(recip, aword) && Offset(pf, ps, n, mlen, shift, rshift)
    ensures Mul(Mul(q, m), pf) <= Mul(x, ps)
  {
    hide Mul, Pow2, BPow, B, K;
    Scales();
    QuotientChain(q, m, x, recip, aword, B, K, BPow(mlen - 1), BPow(n - 1), Pow2(rshift), Pow2(shift));
    BTwice(mlen - 1);
    BTwice(n - 1);
    // left * pf <= right * pf, and Offset turns right * pf into ps * left
    var lf := Mul(2 * Pow2(rshift), BPow(n));
    var rt := Mul(Pow2(shift), BPow(mlen + 1));
    MulLe(Mul(Mul(q, m), lf), Mul(x, rt), pf);
    Mul3(Mul(q, m), lf, pf);
    MulAssoc(x, rt, pf);
    MulComm(rt, pf);
    MulAssoc(pf, Pow2(shift), BPow(mlen + 1));
    MulAssoc(x, ps, lf);
    MulLt(0, Pow2(rshift) + Pow2(rshift), BPow(n));
    MulUnit(BPow(n));
    CancelLe(Mul(Mul(q, m), pf), Mul(x, ps), lf);
  }

  /** The quotient word is not zero: recip and aword both fill their words. */
  lemma QuotientPositive(recip: word, d: word, aword: word)
    requires d >= TOP && Corrected(recip, d) && aword >= TOP
    ensures recip >= TOP - 1 && Mul(recip, aword) >= B
  {
    hide Mul, NewtonEstimate, K, B, TOP;
    Scales();
    NewtonBracket(d);
    MulLe(d, B, recip + 1);
    MulMinus(TOP, 1, B);
    MulUnit(B);
    MulComm(recip + 1, B);
    CancelLt(TOP - 1, recip + 1, B);
    MulLe(TOP - 1, recip, aword);
    MulLe(TOP, aword, TOP - 1);
    MulLe(2, TOP - 1, TOP);
    MulUnit(TOP);
    MulComm(TOP - 1, aword);
    MulComm(TOP - 1, TOP);
  }

  /** The modulus, shifted, fills mlen words at least half. */
  lemma ModulusSize(m: nat, mlen: nat, rshift: nat, d: word)
    requires NormalTop(m, mlen, rshift, d)
    ensures Mul(2 * m, Pow2(rshift)) >= BPow(mlen)
  {
    hide Mul, Pow2, BPow, B, TOP;
    Scales();
    MulLe(TOP, d, BPow(mlen - 1));
    MulPlus(TOP, TOP, BPow(mlen - 1));
    BTwice(mlen - 1);
    MulPlus(m, m, Pow2(rshift));
  }

  /** Leaving the loop because the quotient lies wholly below the units: a < m. */
  lemma FarBelow(x: nat, n: nat, shift: nat, aword: word, m: nat, mlen: nat, rshift: nat, d: word, ps: nat)
    requires NormalTop(x, n, shift, aword) && NormalTop(m, mlen, rshift, d)
    requires Offset(1, ps, n, mlen, shift, rshift) && ps >= B
    ensures x < m
  {
    hide Mul, Pow2, BPow, B, TOP;
    Scales();
    ModulusSize(m, mlen, rshift, d);
    BTwice(n - 1);
    BTwice(mlen);
    // x*psh < B^n
    MulLe(aword + 1, B, BPow(n - 1));
    var u := 2 * Pow2(rshift);
    // x * u * B * psh < u * B * B^n <= psh * B^(mlen+1)
    MulLt(0, B, u);
    MulUnit(u);
    MulComm(u, B);
    MulLt(Mul(x, Pow2(shift)), BPow(n), Mul(u, B));
    MulLe(B, ps, Mul(u, BPow(n)));
    MulUnit(Pow2(shift));
    MulAssoc(B, u, BPow(n));
    MulComm(Mul(B, u), BPow(n));
    FarBelowMath(x, m, Pow2(shift), u, B, BPow(mlen));
    MoveTwo(m, Pow2(rshift));
    CancelLt(x, m, u);
  }

  lemma MoveTwo(m: int, p: int)
    ensures Mul(2 * m, p) == Mul(m, 2 * p) == 2 * Mul(m, p)
  {
    MulPlus(m, m, p);
    MulPlus(p, p, m);
  }

  lemma FarBelowMath(x: nat, m: nat, psh: nat, u: nat, b: nat, bm: nat)
    requires Mul(Mul(x, psh), Mul(u, b)) < Mul(psh, Mul(b, bm)) && psh > 0 && b > 0
    ensures Mul(x, u) < bm
  {
    hide Mul;
    MulAssoc(x, psh, Mul(u, b));
    MulComm(psh, Mul(u, b));
    MulAssoc(x, Mul(u, b), psh);
    MulAssoc(x, u, b);
    MulComm(psh, Mul(b, bm));
    CancelLt(Mul(Mul(x, u), b), Mul(b, bm), psh);
    MulComm(b, bm);
    CancelLt(Mul(x, u), bm, b);
  }

  /** A quotient word that vanishes when shifted right by ps bits bounds the word it came from. */
  lemma SmallQuotient(recip: word, d: word, aword: word, ps: nat)
    requires d >= TOP && Corrected(recip, d) && aword >= TOP && Mul(recip, aword) < Mul(ps, B)
    ensures Mul(aword + 1, TOP) <= 2 * Mul(ps, d)
  {
    hide Mul, NewtonEstimate, K, B, TOP;
    Scales();
    NewtonBracket(d);
    MoveBy(recip, d);
    // (TOP - 2) * B < recip * d
    MulMinus(TOP, 2, B);
    MulUnit(B);
    MulLt(Mul(TOP - 2, B), Mul(recip, d), aword);
    MulAssoc(recip, d, aword);
    MulComm(d, aword);
    MulAssoc(recip, aword, d);
    MulLt(Mul(recip, aword), Mul(ps, B), d);
    Mul3(TOP - 2, B, aword);
    Mul3(ps, B, d);
    CancelLt(Mul(TOP - 2, aword), Mul(ps, d), B);
    // and what the rounding costs is small against that
    MulLe(TOP, aword, TOP - 2);
    MulLe(5, TOP - 2, TOP);
    MulComm(TOP, TOP - 2);
    MulComm(aword, TOP - 2);
    Five(TOP);
    MulMinus(TOP, 2, aword);
    MulPlus(aword, 1, TOP);
    MulUnit(aword);
    MulUnit(TOP);
    MulComm(aword, TOP);
  }

  lemma Five(x: int)
    ensures Mul(5, x) == 5 * x
  {
  }

  /** Leaving the loop because the quotient word has no bits left: a < 2*m. */
  lemma QuotientExhausted(x: nat, n: nat, shift: nat, aword: word, m: nat, mlen: nat, rshift: nat, d: word, recip: word,
                          ps: nat)
    requires NormalTop(x, n, shift, aword) && NormalTop(m, mlen, rshift, d) && Corrected(recip, d)
    requires Offset(1, ps, n, mlen, shift, rshift) && Mul(recip, aword) < Mul(ps, B)
    ensures x < 2 * m
  {
    hide Mul, Pow2, BPow, B, TOP, K;
    Scales();
    SmallQuotient(recip, d, aword, ps);
    BTwice(n - 1);
    BTwice(mlen - 1);
    MulUnit(Pow2(shift));
    ExhaustedMath(x, aword, d, ps, Pow2(shift), Pow2(rshift), B, TOP, BPow(n - 1), BPow(mlen - 1));
    MulLe(Mul(d, BPow(mlen - 1)), Mul(m, Pow2(rshift)), B);
    ExhaustedEnd(x, m, Pow2(rshift), B, TOP, d, BPow(mlen - 1));
  }

  lemma ExhaustedMath(x: nat, aword: nat, d: nat, ps: nat, psh: nat, prs: nat, b: nat, top: nat, bn: nat, bm: nat)
    requires Mul(x, psh) < Mul(aword + 1, bn) && Mul(aword + 1, top) <= 2 * Mul(ps, d)
    requires Mul(psh, Mul(b, Mul(b, bm))) == Mul(ps, Mul(2 * prs, Mul(b, bn)))
    requires psh > 0 && prs > 0 && b > 0 && top > 0
    ensures Mul(Mul(x, top), prs) < Mul(Mul(d, b), bm)
  {
    hide Mul;
    var z := Mul(prs, b);
    MulLt(0, prs, b);
    MulUnit(b);
    // x * psh * top < 2 * ps * d * bn
    MulLt(Mul(x, psh), Mul(aword + 1, bn), top);
    Mul3(aword + 1, bn, top);
    MulLe(Mul(aword + 1, top), 2 * Mul(ps, d), bn);
    // times prs * b
    MulLt(Mul(Mul(x, psh), top), Mul(2 * Mul(ps, d), bn), z);
    Rearrange(ps, d, bn, prs, b);
    // the right side is d * psh * b * b * bm
    var e := Mul(b, Mul(b, bm));
    assert Mul(Mul(2 * Mul(ps, d), bn), z) == Mul(Mul(d, e), psh) by {
      MulComm(psh, e);
      MulAssoc(d, e, psh);
    }
    assert Mul(Mul(Mul(x, psh), top), z) == Mul(Mul(Mul(x, top), z), psh) by {
      Mul3(x, psh, top);
      Mul3(Mul(x, top), psh, z);
    }
    CancelLt(Mul(Mul(x, top), z), Mul(d, e), psh);
    MulAssoc(Mul(x, top), prs, b);
    assert Mul(d, e) == Mul(Mul(Mul(d, b), bm), b) by {
      MulAssoc(d, b, bm);
      MulComm(b, Mul(b, bm));
      MulAssoc(d, Mul(b, bm), b);
    }
    CancelLt(Mul(Mul(x, top), prs), Mul(Mul(d, b), bm), b);
  }

  lemma Rearrange(ps: int, d: int, bn: int, prs: int, b: int)
    ensures Mul(Mul(2 * Mul(ps, d), bn), Mul(prs, b)) == Mul(d, Mul(ps, Mul(2 * prs, Mul(b, bn))))
  {
    hide Mul;
    MulComm(ps, d);
    MulAssoc(d, ps, bn);
    MoveTwo(Mul(d, ps), bn);
    MoveTwo(Mul(Mul(d, ps), bn), Mul(prs, b));
    MoveTwo(prs, Mul(b, bn));
    MulAssoc(prs, b, bn);
    MulComm(Mul(prs, b), bn);
    MulAssoc(Mul(d, ps), bn, Mul(prs, b));
    MulAssoc(d, ps, Mul(bn, Mul(prs, b)));
    MulPlus(Mul(prs, Mul(b, bn)), Mul(prs, Mul(b, bn)), ps);
    MulPlus(Mul(ps, Mul(prs, Mul(b, bn))), Mul(ps, Mul(prs, Mul(b, bn))), d);
  }

  lemma ExhaustedEnd(x: nat, m: nat, prs: nat, b: nat, top: nat, d: nat, bm: nat)
    requires Mul(Mul(x, top), prs) < Mul(Mul(d, b), bm) && Mul(Mul(d, bm), b) <= Mul(Mul(m, prs), b)
    requires b == 2 * top && prs > 0 && top > 0
    ensures x < 2 * m
  {
    hide Mul;
    Mul3(d, b, bm);
    Mul3(m, prs, b);
    CancelLt(Mul(x, top), Mul(m, b), prs);
    MoveTwo(m, top);
    CancelLt(x, 2 * m, top);
  }

  /** Leaving the loop because every word that m could be subtracted from is zero. */
  lemma LeadingZerosBelow(x: nat, m: nat, mlen: nat, rshift: nat, d: word)
    requires NormalTop(m, mlen, rshift, d) && x < BPow(mlen - 1)
    ensures x < m
  {
    hide Mul, Pow2, BPow, B, TOP;
    // otherwise m * 2^rshift < B^(mlen-1) * 2^(W-1) <= top * B^(mlen-1)
    if m <= x {
      Scales();
      Pow2Mono(rshift, W - 1);
      TopIs();
      MulLt(m, BPow(mlen - 1), Pow2(rshift));
      MulLe(Pow2(rshift), TOP, BPow(mlen - 1));
      MulLe(TOP, d, BPow(mlen - 1));
      MulComm(TOP, BPow(mlen - 1));
    }
  }

  lemma TopIs()
    ensures TOP == Pow2(W - 1)
  {
  }

  // When the reciprocal is admissible.

  /** Whenever the documented bound recip * (d+1) <= K holds, the reciprocal is admissible. */
  lemma AdmissibleWhenUnder(m: nat, mlen: nat, rshift: nat, d: word, recip: nat)
    requires NormalTop(m, mlen, rshift, d) && Mul(recip, d + 1) <= K
    ensures Admissible(recip, m, mlen, rshift)
  {
    hide Mul, Pow2, BPow, B, TOP, K;
    MulAssoc(recip, m, Pow2(rshift));
    MulLe(Mul(m, Pow2(rshift)), Mul(d + 1, BPow(mlen - 1)), recip);
    MulAssoc(recip, d + 1, BPow(mlen - 1));
    MulLe(Mul(recip, d + 1), K, BPow(mlen - 1));
  }
}
