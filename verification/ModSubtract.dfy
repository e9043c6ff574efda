/** The two subtraction loops of internal_mod: a -= (q * m) << offset, word by word from the low end. */
module ModSubtract {
  import opened Arith
  import opened Words
  import opened AddSub
  import opened Karatsuba
  import opened Reciprocal
  import opened Bignum

  /** The low t words of the mlen-word number at m, zero words standing above its top. */
  ghost function LowWords(s: seq<word>, m: nat, mlen: nat, t: nat): nat
    requires m + mlen <= |s|
  {
    if t <= mlen then V(s, m + mlen - t, t) else V(s, m, mlen)
  }

  /** Word number t of m, counted from the low end: 0 above the top. */
  function PaddedWord(s: seq<word>, m: nat, mlen: nat, t: nat): word
    requires m + mlen <= |s|
  {
    if t < mlen then s[m + mlen - 1 - t] else 0
  }

  lemma LowWordsStep(s: seq<word>, m: nat, mlen: nat, t: nat)
    requires m + mlen <= |s|
    ensures LowWords(s, m, mlen, t + 1) == LowWords(s, m, mlen, t) + Mul(PaddedWord(s, m, mlen, t), BPow(t))
  {
    hide Val, BPow;
    if t < mlen {
      VStep(s, m + mlen - t - 1, t);
    } else {
      MulUnit(BPow(t));
    }
  }

  /** t words are done at [at, at+t): what is still owed above them is in units of B^t. */
  ghost predicate SubInv(m0: seq<word>, s: seq<word>, at: nat, m: nat, mlen: nat, q: nat, pb: nat, t: nat, owed: int) {
    && |s| == |m0| && at + t <= |m0| && m + mlen <= |m0|
    && V(s, at, t) - V(m0, at, t) + Mul(Mul(q, LowWords(m0, m, mlen, t)), pb) == Mul(owed, BPow(t))
  }

  lemma SubStart(m0: seq<word>, at: nat, m: nat, mlen: nat, q: nat, pb: nat)
    requires at <= |m0| && m + mlen <= |m0|
    ensures SubInv(m0, m0, at, m, mlen, q, pb, 0, 0)
  {
    VZero(m0, m + mlen, 0);
    MulUnit(q);
    MulUnit(pb);
    MulUnit(BPow(0));
    assert LowWords(m0, m, mlen, 0) == 0;
  }

  /** One word: product is the new word of q*m, sub the word actually subtracted, addw what the bit shift carries on. */
  lemma SubStep(m0: seq<word>, s: seq<word>, at: nat, m: nat, mlen: nat, q: nat, pb: nat, t: nat,
                hi: nat, addw: nat, c: nat, hi': nat, addw': nat, product: word, sub: word, z: word, c': nat)
    requires at >= 1 && SubInv(m0, s, at, m, mlen, q, pb, t, Mul(hi, pb) + addw + 1 - c)
    requires product + Mul(hi', B) == Mul(q, PaddedWord(m0, m, mlen, t)) + hi
    requires Mul(product, pb) == Mul(addw', B) + sub - addw
    requires z + Mul(c', B) == m0[at - 1] + Not(sub) + c
    ensures SubInv(m0, s[at - 1 := z], at - 1, m, mlen, q, pb, t + 1, Mul(hi', pb) + addw' + 1 - c')
  {
    BPowUp(t);
    hide Val, BPow, V, Mul;
    var s' := s[at - 1 := z];
    VStep2(s', at - 1, t);
    VStep2(m0, at - 1, t);
    VSame(s, s', at, t);
    LowWordsStep(m0, m, mlen, t);
    SubStepMath(V(s, at, t), V(m0, at, t), LowWords(m0, m, mlen, t), q, pb, BPow(t), hi, addw, c, hi', addw',
                product, sub, z, c', m0[at - 1], PaddedWord(m0, m, mlen, t));
  }

  lemma VStep2(m: seq<word>, at: nat, len: nat)
    requires at + len < |m|
    ensures V(m, at, len + 1) == Mul(m[at], BPow(len)) + V(m, at + 1, len)
  {
    VStep(m, at, len);
  }

  lemma SubStepMath(v: int, v0: int, low: int, q: int, pb: int, p: int, hi: int, addw: int, c: int, hi': int, addw': int,
                    product: int, sub: int, z: int, c': int, x: int, mw: int)
    requires v - v0 + Mul(Mul(q, low), pb) == Mul(Mul(hi, pb) + addw + 1 - c, p)
    requires product + Mul(hi', B) == Mul(q, mw) + hi
    requires Mul(product, pb) == Mul(addw', B) + sub - addw
    requires z + Mul(c', B) == x + (B - 1 - sub) + c
    ensures (Mul(z, p) + v) - (Mul(x, p) + v0) + Mul(Mul(q, low + Mul(mw, p)), pb)
         == Mul(Mul(hi', pb) + addw' + 1 - c', Mul(B, p))
  {
    hide Mul;
    // the new part of q*m*2^bits, in units of p
    assert z - x == B - 1 - sub + c - Mul(c', B);
    MulPlus(low, Mul(mw, p), q);
    MulPlus(Mul(q, low), Mul(q, Mul(mw, p)), pb);
    MulAssoc(q, mw, p);
    Mul3(Mul(q, mw), p, pb);
    // (q*mw)*pb in words
    MulMinus(product + Mul(hi', B), hi, pb);
    MulPlus(product, Mul(hi', B), pb);
    Mul3(hi', B, pb);
    // everything over p
    MulMinus(z, x, p);
    var owed := Mul(hi, pb) + addw + 1 - c;
    var owed' := Mul(hi', pb) + addw' + 1 - c';
    MulPlus(owed + (z - x), Mul(Mul(q, mw), pb), p);
    MulPlus(owed, z - x, p);
    MulAssoc(owed', B, p);
    MulPlus(Mul(hi', pb) + addw' + 1, -c', B);
    MulPlus(Mul(hi', pb) + addw', 1, B);
    MulPlus(Mul(hi', pb), addw', B);
    MulUnit(B);
    NegArg(c', B);
  }

  lemma NegArg(x: int, y: int)
    ensures Mul(-x, y) == -Mul(x, y)
  {
  }

  /** BignumMULADD and BignumADC with their products under the name that proofs hide. */
  function MulAddM(a: word, b: word, c: word): (r: (word, word))
    ensures r.0 + Mul(r.1, B) == Mul(a, b) + c
  {
    MulAdd2(a, b, c, 0)
  }

  function AdcM(a: word, b: word, c: nat): (r: (word, nat))
    requires c <= 1
    ensures r.0 + Mul(r.1, B) == a + b + c && r.1 <= 1
  {
    Adc(a, b, c)
  }

  /** What a subtraction loop over the words [i, wordoffset+mlen) of a leaves there. */
  ghost predicate Subtracted(m0: seq<word>, s: seq<word>, at: nat, t: nat, m: nat, mlen: nat, q: nat, pb: nat)
    requires at + t <= |m0| == |s| && m + mlen <= |m0|
  {
    exists owed: int :: V(s, at, t) == V(m0, at, t) - Mul(Mul(q, LowWords(m0, m, mlen, t)), pb) + Mul(owed, BPow(t))
  }

  lemma SubDoneBy(m0: seq<word>, s: seq<word>, at: nat, m: nat, mlen: nat, q: nat, pb: nat, t: nat, owed: int)
    requires SubInv(m0, s, at, m, mlen, q, pb, t, owed)
    ensures Subtracted(m0, s, at, t, m, mlen, q, pb)
  {
    hide Val, BPow, V, LowWords, Mul;
    assert V(s, at, t) == V(m0, at, t) - Mul(Mul(q, LowWords(m0, m, mlen, t)), pb) + Mul(owed, BPow(t));
  }

  /** The loop for bitoffset == 0. The words below a[i] and above m's reach are not touched. */
  method SubtractAligned(mem: array<word>, a: nat, i: nat, m: nat, mlen: nat, q: word, wordoffset: nat)
    requires i <= wordoffset + mlen && a + wordoffset + mlen <= mem.Length && m + mlen <= mem.Length
    requires Clear(m, mlen, a + i, wordoffset + mlen - i)
    modifies mem
    ensures OnlyChanged(old(mem[..]), mem[..], a + i, wordoffset + mlen - i)
    ensures Subtracted(old(mem[..]), mem[..], a + i, wordoffset + mlen - i, m, mlen, q, 1)
  {
    hide Val, BPow, V, LowWords, Mul, SubInv, Subtracted;
    ghost var m0 := mem[..];
    var c, prevHiWord: word := 1, 0;
    var k: int := mlen - 1;
    ghost var t := 0;
    SubStart(m0, a + wordoffset + mlen, m, mlen, q, 1);
    MulUnit(prevHiWord);
    while wordoffset + k >= i
      invariant wordoffset + k + 1 >= i && t == mlen - 1 - k && c <= 1
      invariant OnlyChanged(m0, mem[..], a + wordoffset + k + 1, t)
      invariant SubInv(m0, mem[..], a + wordoffset + k + 1, m, mlen, q, 1, t, Mul(prevHiWord, 1) + 0 + 1 - c)
    {
      ghost var s := mem[..];
      var mword := if k < 0 then 0 else mem[m + k];
      var p := MulAddM(q, mword, prevHiWord);
      var r := AdcM(mem[a + wordoffset + k], Not(p.0), c);
      MulUnit(p.0);
      MulUnit(B);
      SubStep(m0, s, a + wordoffset + k + 1, m, mlen, q, 1, t, prevHiWord, 0, c, p.1, 0, p.0, p.0, r.0, r.1);
      mem[a + wordoffset + k] := r.0;
      prevHiWord, c := p.1, r.1;
      k, t := k - 1, t + 1;
    }
    SubDoneBy(m0, mem[..], a + i, m, mlen, q, 1, t, Mul(prevHiWord, 1) + 0 + 1 - c);
  }

  /** product shifted left by bits, cut into the word at hand and the bits for the next one. */
  lemma ShiftProduct(product: word, bits: nat)
    requires 0 < bits < W
    ensures Mul(product, Pow2(bits)) == Mul(ShiftRight(product, W - bits), B) + ShiftLeft(product, bits)
    ensures ShiftRight(product, W - bits) < Pow2(bits)
    ensures ShiftLeft(product, bits) <= B - Pow2(bits)
  {
    SplitShift(product, bits);
    Pow2Add(W - bits, bits);
    assert W - bits + bits == W;
    ShiftProductMath(product, Pow2(W - bits), Pow2(bits));
  }

  lemma ShiftProductMath(n: nat, hi: nat, lo: nat)
    requires hi > 0 && lo > 0 && n < hi * lo
    ensures n / hi < lo && (n * lo) % (hi * lo) <= hi * lo - lo
  {
    DivMod(n, hi);
    var q, r := n / hi, n % hi;
    if q >= lo {
      MulMono(lo, q, hi);
    }
    MulStrict(0, lo, hi);
    Distrib(r, q * hi, lo);
    Assoc(q, hi, lo);
    MulMono(r, hi - 1, lo);
    Distrib(hi, -1, lo);
    MulNonNeg(r, lo);
    DivModUnique(n * lo, hi * lo, q, r * lo);
  }

  /** The loop for bitoffset > 0. The C code ors the shifted product into add_word: they share no bits, so + is |. */
  method SubtractUnaligned(mem: array<word>, a: nat, i: nat, m: nat, mlen: nat, q: word, wordoffset: nat, bitoffset: nat)
    requires i <= wordoffset + mlen && a + wordoffset + mlen <= mem.Length && m + mlen <= mem.Length
    requires Clear(m, mlen, a + i, wordoffset + mlen - i) && 0 < bitoffset < W
    modifies mem
    ensures OnlyChanged(old(mem[..]), mem[..], a + i, wordoffset + mlen - i)
    ensures Subtracted(old(mem[..]), mem[..], a + i, wordoffset + mlen - i, m, mlen, q, Pow2(bitoffset))
  {
    hide Val, BPow, V, LowWords, Mul, SubInv, Subtracted, Pow2, ShiftLeft, ShiftRight;
    ghost var m0 := mem[..];
    ghost var pb := Pow2(bitoffset);
    var addWord: word, c, prevHiWord: word := 0, 1, 0;
    var k: int := mlen - 1;
    ghost var t := 0;
    SubStart(m0, a + wordoffset + mlen, m, mlen, q, pb);
    MulUnit(pb);
    while wordoffset + k >= i
      invariant wordoffset + k + 1 >= i && t == mlen - 1 - k && c <= 1 && addWord < pb
      invariant OnlyChanged(m0, mem[..], a + wordoffset + k + 1, t)
      invariant SubInv(m0, mem[..], a + wordoffset + k + 1, m, mlen, q, pb, t, Mul(prevHiWord, pb) + addWord + 1 - c)
    {
      ghost var s := mem[..];
      var mword := if k < 0 then 0 else mem[m + k];
      var p := MulAddM(q, mword, prevHiWord);
      ShiftProduct(p.0, bitoffset);
      var sub: word := addWord + ShiftLeft(p.0, bitoffset);
      var r := AdcM(mem[a + wordoffset + k], Not(sub), c);
      SubStep(m0, s, a + wordoffset + k + 1, m, mlen, q, pb, t, prevHiWord, addWord, c,
              p.1, ShiftRight(p.0, W - bitoffset), p.0, sub, r.0, r.1);
      mem[a + wordoffset + k] := r.0;
      addWord := ShiftRight(p.0, W - bitoffset);
      prevHiWord, c := p.1, r.1;
      k, t := k - 1, t + 1;
    }
    SubDoneBy(m0, mem[..], a + i, m, mlen, q, pb, t, Mul(prevHiWord, pb) + addWord + 1 - c);
  }
}
