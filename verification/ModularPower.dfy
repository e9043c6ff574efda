/** modmul and modpow_simple: multiply, reduce, repeat. */
module ModularPower {
  import opened Arith
  import opened Words
  import opened AddSub
  import opened Karatsuba
  import opened Reciprocal
  import opened DivisionMath
  import opened Bignum
  import opened ModSubtract
  import opened Division
  import opened BigDiv
  import opened Modular
  import opened NumberTheory
  import opened Powers

  /** A 2*mlen-word number below a bound of mlen words has only zeros in its upper half. */
  lemma UpperHalfZero(s: seq<word>, at: nat, mlen: nat, bound: nat)
    requires at + 2 * mlen <= |s| && V(s, at, 2 * mlen) < bound <= BPow(mlen)
    ensures V(s, at + mlen, mlen) == V(s, at, 2 * mlen)
  {
    hide Val, BPow, V;
    VSplitMul(s, at, mlen, mlen);
    MulUnit(BPow(mlen));
    if V(s, at, mlen) > 0 {
      MulLe(1, V(s, at, mlen), BPow(mlen));
    }
  }

  lemma CongRemainder(r: nat, q: nat, m: nat, x: nat)
    requires r + Mul(q, m) == x
    ensures Cong(r, x, m)
  {
    CongBy(x, r, m, q);
    CongSym(x, r, m);
  }

  /** The arrays of the exponentiation loops in one arena: modulus, base, two double-length numbers, scratch. */
  ghost predicate Arena(size: nat, mlen: nat, a: nat, b: nat) {
    && mlen >= 1 && size >= 6 * mlen + Scratch(mlen)
    && ((a == 2 * mlen && b == 4 * mlen) || (a == 4 * mlen && b == 2 * mlen))
  }

  /** z := x * y mod m, where m is at 0, z is one of the double-length numbers, and x, y are mlen words elsewhere. */
  method MulMod(mem: array<word>, x: nat, y: nat, z: nat, mlen: nat, recip: word, rshift: nat, ghost d: word)
    requires Modulus(mem[..], 0, mlen, recip, rshift, d) && 6 * mlen + Scratch(mlen) <= mem.Length
    requires mlen <= z && z + 2 * mlen <= 6 * mlen && x + mlen <= 6 * mlen && y + mlen <= 6 * mlen
    requires Clear(x, mlen, z, 2 * mlen) && Clear(y, mlen, z, 2 * mlen)
    modifies mem
    ensures OnlyChanged2(old(mem[..]), mem[..], z, 2 * mlen, 6 * mlen, Scratch(mlen))
    ensures V(mem[..], z + mlen, mlen) < old(V(mem[..], 0, mlen))
    ensures Cong(V(mem[..], z + mlen, mlen), old(Mul(V(mem[..], x, mlen), V(mem[..], y, mlen))), old(V(mem[..], 0, mlen)))
  {
    hide Val, BPow, V, Mul, Scratch, Cong, Modulus;
    ghost var s := mem[..];
    ghost var mv := V(s, 0, mlen);
    InternalMul(mem, x, y, z, mlen, 6 * mlen);
    SameModulus(s, mem[..], 0, mlen, recip, rshift, d);
    VSame(s, mem[..], 0, mlen);
    ghost var product := V(mem[..], z, 2 * mlen);
    ghost var q := InternalMod(mem, z, 2 * mlen, 0, mlen, null, recip, rshift, d);
    CongRemainder(V(mem[..], z, 2 * mlen), q, mv, product);
    VBound(s, 0, mlen);
    UpperHalfZero(mem[..], z, mlen, mv);
  }

  /** State of the main loop: e bits of exponent are met and a holds base^e modulo m. */
  ghost predicate PowInv(m0: seq<word>, s: seq<word>, mlen: nat, a: nat, b: nat, base: int, e: nat) {
    && Arena(|s|, mlen, a, b) && |m0| == |s|
    && OnlyChanged(m0, s, 2 * mlen, 4 * mlen + Scratch(mlen))
    && Cong(V(s, a + mlen, mlen), Exp(base, e), V(m0, 0, mlen))
  }

  lemma SquareCong(v: int, sq: int, p: int, m: int)
    requires Cong(v, p, m) && Cong(sq, Mul(v, v), m)
    ensures Cong(sq, Mul(p, p), m)
  {
    hide *;
    CongMul(v, p, v, p, m);
    CongTrans(sq, Mul(v, v), Mul(p, p), m);
  }

  lemma TimesCong(v: int, p: int, base: int, n: int, w: int, m: int)
    requires Cong(v, p, m) && Cong(n, base, m) && Cong(w, Mul(v, n), m)
    ensures Cong(w, Mul(p, base), m)
  {
    hide *;
    CongMul(v, p, n, base, m);
    CongTrans(w, Mul(v, n), Mul(p, base), m);
  }

  /** One exponent bit: square, multiply where the bit is set, otherwise swap the two arrays. */
  method PowStep(mem: array<word>, ghost m0: seq<word>, mlen: nat, a: nat, b: nat, bit: bool, recip: word, rshift: nat,
                 ghost d: word, ghost base: int, ghost e: nat)
    returns (a': nat, b': nat)
    requires PowInv(m0, mem[..], mlen, a, b, base, e) && Modulus(m0, 0, mlen, recip, rshift, d)
    requires Cong(V(m0, mlen, mlen), base, V(m0, 0, mlen))
    modifies mem
    ensures PowInv(m0, mem[..], mlen, a', b', base, 2 * e + (if bit then 1 else 0))
    ensures V(mem[..], a' + mlen, mlen) < V(m0, 0, mlen)
  {
    hide Val, BPow, V, Mul, Scratch, Cong, Modulus, Exp;
    ghost var s := mem[..];
    ghost var mv := V(m0, 0, mlen);
    SameModulus(m0, s, 0, mlen, recip, rshift, d);
    VSame(m0, s, 0, mlen);
    MulMod(mem, a + mlen, a + mlen, b, mlen, recip, rshift, d);
    ghost var t := mem[..];
    SquareCong(V(s, a + mlen, mlen), V(t, b + mlen, mlen), Exp(base, e), mv);
    ExpBit(base, e, bit);
    if bit {
      SameModulus(m0, t, 0, mlen, recip, rshift, d);
      VSame(m0, t, 0, mlen);
      VSame(m0, t, mlen, mlen);
      MulMod(mem, b + mlen, mlen, a, mlen, recip, rshift, d);
      TimesCong(V(t, b + mlen, mlen), Mul(Exp(base, e), Exp(base, e)), base, V(m0, mlen, mlen),
                V(mem[..], a + mlen, mlen), mv);
      a', b' := a, b;
    } else {
      a', b' := b, a;
    }
  }

  /** The two nested loops over the exponent's words and bits. */
  method PowLoop(mem: array<word>, exp: array<word>, mlen: nat, recip: word, rshift: nat, ghost d: word, ghost base: int)
    returns (a: nat)
    requires IsBignum(exp[..]) && exp != mem && Arena(mem.Length, mlen, 2 * mlen, 4 * mlen)
    requires Modulus(mem[..], 0, mlen, recip, rshift, d)
    requires Cong(V(mem[..], mlen, mlen), base, V(mem[..], 0, mlen))
    requires V(mem[..], 3 * mlen, mlen) == 1
    modifies mem
    ensures (a == 2 * mlen || a == 4 * mlen) && 6 * mlen <= mem.Length
    ensures Cong(V(mem[..], a + mlen, mlen), Exp(base, BnVal(exp[..])), old(V(mem[..], 0, mlen)))
    ensures if BnVal(exp[..]) == 0 then V(mem[..], a + mlen, mlen) == 1
            else V(mem[..], a + mlen, mlen) < old(V(mem[..], 0, mlen))
  {
    hide Val, BPow, LVal, BnVal, V, Mul, Pow2, Scratch, Cong, Modulus, Exp, ExpInv, BitSet;
    ghost var m0 := mem[..];
    var b: nat;
    a, b := 2 * mlen, 4 * mlen;
    ExpZero(base, V(m0, 0, mlen));
    var i, j0 := SkipLeadingZeros(exp);
    var j: int := j0;
    ghost var e: nat := 0;
    ghost var reduced := false;
    while i < exp[0]
      invariant 0 <= i <= exp[0] && 0 <= j < W && ExpInv(exp[..], i, j, e)
      invariant PowInv(m0, mem[..], mlen, a, b, base, e)
      invariant reduced ==> V(mem[..], a + mlen, mlen) < V(m0, 0, mlen)
      invariant !reduced ==> e == 0 && mem[..] == m0 && a == 2 * mlen
      invariant i < exp[0] ==> BnVal(exp[..]) > 0
      invariant reduced ==> BnVal(exp[..]) > 0
      invariant !reduced && i == exp[0] ==> BnVal(exp[..]) == 0
      decreases exp[0] - i
    {
      while j >= 0
        invariant -1 <= j < W && ExpInv(exp[..], i, j, e)
        invariant PowInv(m0, mem[..], mlen, a, b, base, e)
        invariant j == -1 ==> reduced
        invariant reduced ==> V(mem[..], a + mlen, mlen) < V(m0, 0, mlen)
        decreases j
      {
        var bit := BitSet(exp[exp[0] - i], j);
        ExpBitStep(exp[..], i, j, e);
        a, b := PowStep(mem, m0, mlen, a, b, bit, recip, rshift, d, base, e);
        e := 2 * e + (if bit then 1 else 0);
        reduced := true;
        j := j - 1;
      }
      ExpWordStep(exp[..], i, e);
      i := i + 1;
      j := W - 1;
    }
    ExpDone(exp[..], i, j, e);
  }

  /** Top bits and reciprocal of a modulus that has been loaded at m. */
  method PrepareModulus(mem: array<word>, m: nat, mlen: nat) returns (recip: word, rshift: nat, ghost d: word)
    requires mlen >= 1 && m + mlen <= mem.Length && mem[m] != 0
    ensures Modulus(mem[..], m, mlen, recip, rshift, d)
  {
    hide Val, BPow, V, Mul, NormalTop, Corrected, Modulus, Pow2;
    var m0;
    rshift, m0 := TopBits(mem, m, mlen);
    TopFits(V(mem[..], m, mlen), mlen, rshift, m0);
    recip := ReciprocalWord(m0);
    d := m0;
    ModulusBy(mem[..], m, mlen, recip, rshift, d);
  }

  /** The words of a reduced number as a trimmed Bignum with as many words as the modulus. */
  method ResultBn(mem: array<word>, at: nat, mlen: nat, ghost bound: nat) returns (result: array<word>)
    requires at + mlen <= mem.Length && 1 <= mlen < B && V(mem[..], at, mlen) <= bound
    ensures fresh(result) && IsBignum(result[..]) && 1 <= result[0] <= mlen && (result[0] > 1 ==> result[result[0]] != 0)
    ensures BnVal(result[..]) == V(mem[..], at, mlen)
  {
    hide Val, BPow, LVal, BnVal, V;
    result := NewBn(mlen);
    VBound(mem[..], at, mlen);
    StoreLittleEndian(mem, at, mlen, result);
    Trim(result);
  }

  /** p * q mod `mod`. */
  method ModMul(p: array<word>, q: array<word>, mod: array<word>) returns (result: array<word>)
    requires IsBignum(p[..]) && IsBignum(q[..]) && IsModulus(mod[..])
    ensures fresh(result) && IsBignum(result[..]) && 1 <= result[0] <= mod[0]
    ensures result[0] > 1 ==> result[result[0]] != 0
    ensures BnVal(result[..]) < BnVal(mod[..]) && Cong(BnVal(result[..]), Mul(BnVal(p[..]), BnVal(q[..])), BnVal(mod[..]))
  {
    hide Val, BPow, LVal, BnVal, V, Mul, Scratch, Cong, Modulus;
    var mlen: nat := mod[0];
    var pqlen: nat := if p[0] > q[0] then p[0] else q[0];
    if 2 * pqlen <= mlen {
      pqlen := mlen / 2 + 1;
    }
    // m, then n and o of pqlen words, a of 2*pqlen words, scratch
    var scratchlen := MulComputeScratch(pqlen);
    var mem := new word[mlen + 4 * pqlen + scratchlen];
    LoadFactors(mod, p, q, mem, mlen, pqlen);
    MultiplyReduce(mem, mlen, pqlen);
    BnBound(mod[..]);
    result := ResultBn(mem, 4 * pqlen, mlen, BnVal(mod[..]));
  }

  method LoadFactors(mod: array<word>, p: array<word>, q: array<word>, mem: array<word>, mlen: nat, pqlen: nat)
    requires IsBignum(mod[..]) && IsBignum(p[..]) && IsBignum(q[..]) && mod[0] == mlen >= 1
    requires p[0] <= pqlen && q[0] <= pqlen && mlen + 2 * pqlen <= mem.Length && mem != mod && mem != p && mem != q
    modifies mem
    ensures V(mem[..], 0, mlen) == BnVal(mod[..]) && mem[0] == mod[mod[0]]
    ensures V(mem[..], mlen, pqlen) == BnVal(p[..]) && V(mem[..], mlen + pqlen, pqlen) == BnVal(q[..])
  {
    hide Val, BPow, LVal, BnVal, V;
    LoadBigEndian(mod, mem, 0, mlen);
    ghost var s0 := mem[..];
    LoadBigEndian(p, mem, mlen, pqlen);
    ghost var s1 := mem[..];
    LoadBigEndian(q, mem, mlen + pqlen, pqlen);
    VSame(s0, mem[..], 0, mlen);
    VSame(s1, mem[..], mlen, pqlen);
  }

  /** The main computation: the product's remainder is left in the low mlen words of its 2*pqlen. */
  method MultiplyReduce(mem: array<word>, mlen: nat, pqlen: nat)
    requires mlen >= 1 && 2 * pqlen >= mlen && mlen + 4 * pqlen + Scratch(pqlen) <= mem.Length && mem[0] != 0
    modifies mem
    ensures V(mem[..], 4 * pqlen, mlen) < old(V(mem[..], 0, mlen))
    ensures Cong(V(mem[..], 4 * pqlen, mlen), old(Mul(V(mem[..], mlen, pqlen), V(mem[..], mlen + pqlen, pqlen))),
                 old(V(mem[..], 0, mlen)))
  {
    hide Val, BPow, V, Mul, Scratch, Cong, Modulus;
    var n, o, a := mlen, mlen + pqlen, mlen + 2 * pqlen;
    ghost var s2 := mem[..];
    var recip, rshift, d := PrepareModulus(mem, 0, mlen);
    InternalMul(mem, n, o, a, pqlen, a + 2 * pqlen);
    SameModulus(s2, mem[..], 0, mlen, recip, rshift, d);
    VSame(s2, mem[..], 0, mlen);
    ghost var product := V(mem[..], a, 2 * pqlen);
    ghost var k := InternalMod(mem, a, 2 * pqlen, 0, mlen, null, recip, rshift, d);
    CongRemainder(V(mem[..], a, 2 * pqlen), k, V(s2, 0, mlen), product);
    VBound(s2, 0, mlen);
    LowPart(mem[..], a, 2 * pqlen, mlen, V(s2, 0, mlen));
  }

  /** A remainder sits wholly in the low mlen words. */
  lemma LowPart(s: seq<word>, a: nat, alen: nat, mlen: nat, bound: nat)
    requires a + alen <= |s| && mlen <= alen && V(s, a, alen) < bound < BPow(mlen)
    ensures V(s, a + alen - mlen, mlen) == V(s, a, alen)
  {
    hide Val, BPow, V, Mul;
    VSplitMul(s, a, alen - mlen, mlen);
    MulUnit(BPow(mlen));
    if V(s, a, alen - mlen) > 0 {
      MulLe(1, V(s, a, alen - mlen), BPow(mlen));
    }
  }

  /** The number 1 in 2*mlen words. */
  method LoadOne(mem: array<word>, at: nat, mlen: nat)
    requires mlen >= 1 && at + 2 * mlen <= mem.Length
    modifies mem
    ensures OnlyChanged(old(mem[..]), mem[..], at, 2 * mlen) && V(mem[..], at + mlen, mlen) == 1
  {
    hide BPow;
    ZeroFill(mem, at, 2 * mlen);
    mem[at + 2 * mlen - 1] := 1;
    LeadingZeros(mem[..], at + mlen, mlen - 1, 1);
    assert mem[..][at + 2 * mlen - 1..at + 2 * mlen - 1 + 1] == [1];
    ValOne(1);
  }

  /** base^exp mod `mod`, by multiplication and division; a zero exponent gives 1 even for modulus 1. */
  method ModPowSimple(base_in: array<word>, exp: array<word>, mod: array<word>) returns (result: array<word>)
    requires IsBignum(base_in[..]) && IsBignum(exp[..]) && IsModulus(mod[..])
    ensures fresh(result) && IsBignum(result[..])
    ensures Cong(BnVal(result[..]), Exp(BnVal(base_in[..]), BnVal(exp[..])), BnVal(mod[..]))
    ensures if BnVal(exp[..]) == 0 then BnVal(result[..]) == 1 else BnVal(result[..]) < BnVal(mod[..])
  {
    hide Val, BPow, LVal, BnVal, V, Mul, Scratch, Cong, Modulus, Exp;
    var base := BigMod(base_in, mod);
    CongMod(BnVal(base_in[..]), BnVal(mod[..]));
    var mlen: nat := mod[0];
    var scratchlen := MulComputeScratch(mlen);
    var mem := new word[6 * mlen + scratchlen];
    LoadBigEndian(mod, mem, 0, mlen);
    ghost var s0 := mem[..];
    LoadBigEndian(base, mem, mlen, mlen);
    ghost var s1 := mem[..];
    LoadOne(mem, 2 * mlen, mlen);
    VSame(s0, mem[..], 0, mlen);
    VSame(s1, mem[..], mlen, mlen);
    var recip, rshift, d := PrepareModulus(mem, 0, mlen);
    var a := PowLoop(mem, exp, mlen, recip, rshift, d, BnVal(base_in[..]));
    VBound(mem[..], a + mlen, mlen);
    result := ResultBn(mem, a + mlen, mlen, BPow(mlen));
  }
}
