/** internal_mod: remainder and quotient by subtracting well-chosen multiples of the modulus. */
module Division {
  import opened Arith
  import opened Words
  import opened AddSub
  import opened Karatsuba
  import opened Reciprocal
  import opened DivisionMath
  import opened ReciprocalBound
  import opened Bignum
  import opened ModSubtract

  lemma TopShifted(w0: nat, w1: nat, r: nat, hi: nat, lo: nat, b: nat, p: nat, pp: nat,
                   h: nat)
    requires hi > 0 && lo > 0 && b == Mul(hi, lo) && pp == Mul(b, p) && w1 < b && r < p && Mul(w0, lo) < b
    requires Mul(h, hi) <= w1 < Mul(h, hi) + hi
    ensures var top := Mul(w0, lo) + h; var x := Mul(w0, pp) + Mul(w1, p) + r;
            Mul(top, pp) <= Mul(x, lo) < Mul(top + 1, pp)
  {
    hide Mul;
    var l := w1 - Mul(h, hi);
    // w1 * lo == h * b + l * lo, and l * lo <= b - lo
    MulPlus(Mul(h, hi), l, lo);
    MulAssoc(h, hi, lo);
    MulLe(l, hi - 1, lo);
    MulMinus(hi, 1, lo);
    MulUnit(lo);
    // all of x * lo
    MulPlus(Mul(w0, pp) + Mul(w1, p), r, lo);
    MulPlus(Mul(w0, pp), Mul(w1, p), lo);
    Mul3(w0, pp, lo);
    Mul3(w1, p, lo);
    MulPlus(Mul(h, b), Mul(l, lo), p);
    MulAssoc(h, b, p);
    MulLe(Mul(l, lo), b - lo, p);
    MulMinus(b, lo, p);
    MulLe(r, p, lo);
    MulLt(r, p, lo);
    MulComm(lo, p);
    MulPlus(Mul(w0, lo), h, pp);
    MulPlus(Mul(w0, lo) + h, 1, pp);
    MulUnit(pp);
  }

  /** The first W bits of a number with a nonzero first word, and how far left they had to be shifted. */
  method TopBits(mem: array<word>, at: nat, len: nat) returns (shift: nat, top: word)
    requires len >= 1 && at + len <= mem.Length && mem[at] != 0
    ensures NormalTop(V(mem[..], at, len), len, shift, top)
  {
    hide Val, BPow, V, Mul, Pow2, ShiftLeft, ShiftRight, NormalTop, B, TOP;
    shift := BnClz(mem[at]);
    BelowTop(mem[at], shift);
    ShiftLeftExact(mem[at], shift);
    top := ShiftLeft(mem[at], shift);
    if shift > 0 && len > 1 {
      TopSum(mem[at], mem[at + 1], shift);
      top := top + ShiftRight(mem[at + 1], W - shift);
      TopTwoWords(mem[..], at, len, shift, top);
    } else {
      TopOneWord(mem[..], at, len, shift, top);
    }
  }

  lemma BelowTop(x: word, shift: nat)
    requires shift < W && Mul(x, Pow2(shift)) < B
    ensures x < Pow2(W - shift)
  {
    Pow2Add(W - shift, shift);
    assert W - shift + shift == W;
    CancelLt(x, Pow2(W - shift), Pow2(shift));
  }

  /** The two parts that the code ors together share no bits. */
  lemma TopSum(w0: word, w1: word, shift: nat)
    requires 0 < shift < W && w0 < Pow2(W - shift)
    ensures Mul(w0, Pow2(shift)) + ShiftRight(w1, W - shift) < B
  {
    hide *;
    PowMul(W - shift, shift);
    assert W - shift + shift == W;
    BIs();
    ShiftRightBounds(w1, W - shift);
    MulComm(Pow2(shift), Pow2(W - shift));
    CancelLt(ShiftRight(w1, W - shift), Pow2(shift), Pow2(W - shift));
    MulLe(w0, Pow2(W - shift) - 1, Pow2(shift));
    MulMinus(Pow2(W - shift), 1, Pow2(shift));
    MulUnit(Pow2(shift));
  }

  lemma TopTwoWords(s: seq<word>, at: nat, len: nat, shift: nat, top: word)
    requires len >= 2 && at + len <= |s| && 0 < shift < W && TOP <= Mul(s[at], Pow2(shift)) < B
    requires top == Mul(s[at], Pow2(shift)) + ShiftRight(s[at + 1], W - shift)
    ensures NormalTop(V(s, at, len), len, shift, top)
  {
    hide *;
    var k := W - shift;
    ShiftRightBounds(s[at + 1], k);
    PowMul(k, shift);
    BIs();
    TwoWordValue(s, at, len);
    TopShifted(s[at], s[at + 1], V(s, at + 2, len - 2), Pow2(k), Pow2(shift), B, BPow(len - 2), BPow(len - 1),
               ShiftRight(s[at + 1], k));
    NormalTopBy(V(s, at, len), len, shift, top);
  }

  lemma TwoWordValue(s: seq<word>, at: nat, len: nat)
    requires len >= 2 && at + len <= |s|
    ensures V(s, at, len) == Mul(s[at], BPow(len - 1)) + Mul(s[at + 1], BPow(len - 2)) + V(s, at + 2, len - 2)
    ensures V(s, at + 2, len - 2) < BPow(len - 2) && BPow(len - 1) == Mul(B, BPow(len - 2))
  {
    hide Val, V, Mul;
    VStep2(s, at, len - 1);
    VStep2(s, at + 1, len - 2);
    VBound(s, at + 2, len - 2);
    BPowUp(len - 2);
  }

  lemma NormalTopBy(x: nat, len: nat, shift: nat, top: word)
    requires len >= 1 && top >= TOP && shift < W
    requires Mul(top, BPow(len - 1)) <= Mul(x, Pow2(shift)) < Mul(top + 1, BPow(len - 1))
    ensures NormalTop(x, len, shift, top)
  {
  }

  lemma BIs()
    ensures B == Pow2(W)
  {
  }

  lemma ShiftRightBounds(x: word, n: nat)
    requires n <= W
    ensures Mul(ShiftRight(x, n), Pow2(n)) <= x < Mul(ShiftRight(x, n), Pow2(n)) + Pow2(n)
  {
    DivMul(x, Pow2(n));
  }

  lemma TopOneWord(s: seq<word>, at: nat, len: nat, shift: nat, top: word)
    requires len >= 1 && at + len <= |s| && shift < W && (shift == 0 || len == 1)
    requires TOP <= top == Mul(s[at], Pow2(shift)) < B
    ensures NormalTop(V(s, at, len), len, shift, top)
  {
    hide Val, V, Mul, B, TOP;
    VStep2(s, at, len - 1);
    VBound(s, at + 1, len - 1);
    assert Pow2(0) == 1 && BPow(0) == 1;
    MulUnit(s[at]);
    MulUnit(V(s, at, len));
    MulUnit(top);
    MulUnit(top + 1);
    MulPlus(top, 1, BPow(len - 1));
    MulUnit(BPow(len - 1));
  }

  /** The modulus as the loop sees it: nonzero top word, and reciprocal_word's answer for its top W bits d. */
  ghost predicate Modulus(s: seq<word>, m: nat, mlen: nat, recip: word, rshift: nat, d: word)
  {
    && mlen >= 1 && m + mlen <= |s| && s[m] != 0
    && NormalTop(V(s, m, mlen), mlen, rshift, d) && Corrected(recip, d)
  }

  lemma ModulusAtLeast(s: seq<word>, m: nat, mlen: nat)
    requires mlen >= 1 && m + mlen <= |s| && s[m] != 0
    ensures V(s, m, mlen) >= BPow(mlen - 1)
  {
    hide Val, BPow, V, Mul;
    VStep2(s, m, mlen - 1);
    MulLe(1, s[m], BPow(mlen - 1));
    MulUnit(BPow(mlen - 1));
  }

  /** One choice of q and of the place to subtract q * m; done means there is nothing left to choose. */
  method PickQuotient(mem: array<word>, at: nat, n: nat, m: nat, mlen: nat, recip: word, rshift: nat, ghost d: word)
    returns (q: word, offset: nat, done: bool)
    requires n >= 1 && at + n <= mem.Length && mem[at] != 0 && Modulus(mem[..], m, mlen, recip, rshift, d)
    ensures done ==> V(mem[..], at, n) < 2 * V(mem[..], m, mlen)
    ensures !done ==> q > 0 && Mul(Mul(q, V(mem[..], m, mlen)), Pow2(offset)) <= V(mem[..], at, n)
  {
    hide Val, BPow, V, Mul, Pow2, ShiftRight, B, K, TOP, NormalTop, Corrected, Admissible, Offset;
    var shift, aword := TopBits(mem, at, n);
    ghost var x, mv := V(mem[..], at, n), V(mem[..], m, mlen);
    AlwaysAdmissible(mv, mlen, rshift, d, recip);
    var product := MulAddM(recip, aword, 0);
    q := product.1;
    var f := -((mlen + 1 - n) * W + shift - rshift - 1);
    OffsetForm(n, mlen, shift, rshift, f);
    OffsetIs(n, mlen, shift, rshift, f);
    AwordTop(x, n, shift, aword, mv, mlen, rshift, d);
    if f < 0 {
      ghost var ps := Pow2(-f);
      if -f >= W {
        BelowAll(x, n, shift, aword, mv, mlen, rshift, d, -f);
        return 0, 0, true;
      }
      ClipQuotient(q, -f);
      QuotientSafe(q, mv, mlen, rshift, recip, x, n, shift, aword, 1, ps);
      ghost var q0 := q;
      q := ShiftRight(q, -f);
      offset := 0;
      if q == 0 {
        Vanished(product.0, q0, recip, aword, ps);
        QuotientExhausted(x, n, shift, aword, mv, mlen, rshift, d, recip, ps);
        return 0, 0, true;
      }
      ClippedSafe(q, q0, mv, ps, x);
      done := false;
    } else {
      offset := f;
      QuotientSafe(q, mv, mlen, rshift, recip, x, n, shift, aword, Pow2(f), 1);
      MulUnit(x);
      NotZero(product.0, q, recip, d, aword);
      done := false;
    }
  }

  lemma AwordTop(x: nat, n: nat, shift: nat, aword: word, mv: nat, mlen: nat, rshift: nat, d: word)
    requires NormalTop(x, n, shift, aword) && NormalTop(mv, mlen, rshift, d)
    ensures aword >= TOP && d >= TOP && rshift < W && shift < W
  {
  }

  lemma OffsetForm(n: nat, mlen: nat, shift: nat, rshift: nat, f: int)
    requires f == -((mlen + 1 - n) * W + shift - rshift - 1)
    ensures f == (n - mlen - 1) * W + rshift + 1 - shift
  {
    var k: int := mlen + 1;
    Distrib(k, -(n as int), W);
    Distrib(n, -k, W);
  }

  lemma BelowAll(x: nat, n: nat, shift: nat, aword: word, m: nat, mlen: nat, rshift: nat, d: word, s: nat)
    requires NormalTop(x, n, shift, aword) && NormalTop(m, mlen, rshift, d)
    requires Offset(1, Pow2(s), n, mlen, shift, rshift) && s >= W
    ensures x < 2 * m
  {
    Pow2Mono(W, s);
    BIs();
    FarBelow(x, n, shift, aword, m, mlen, rshift, d, Pow2(s));
  }

  lemma ClipQuotient(q: word, s: nat)
    requires s < W
    ensures Mul(ShiftRight(q, s), Pow2(s)) <= q && (ShiftRight(q, s) == 0 ==> q < Pow2(s))
  {
    DivMul(q, Pow2(s));
    ShiftBounds(q, s);
  }

  lemma Vanished(lo: word, q: word, recip: word, aword: word, ps: nat)
    requires lo + Mul(q, B) == Mul(recip, aword) + 0 && q < ps
    ensures Mul(recip, aword) < Mul(ps, B)
  {
    MulLe(q + 1, ps, B);
    MulPlus(q, 1, B);
    MulUnit(B);
  }

  lemma ClippedSafe(q: nat, q0: nat, m: nat, ps: nat, x: nat)
    requires ps > 0 && Mul(q, ps) <= q0 && Mul(Mul(q0, m), 1) <= Mul(x, ps)
    ensures Mul(Mul(q, m), Pow2(0)) <= x
  {
    assert Pow2(0) == 1;
    hide Mul, Pow2;
    MulUnit(Mul(q0, m));
    MulUnit(Mul(q, m));
    MulLe(Mul(q, ps), q0, m);
    Mul3(q, ps, m);
    CancelLe(Mul(q, m), x, ps);
  }

  lemma NotZero(lo: word, q: word, recip: word, d: word, aword: word)
    requires lo + Mul(q, B) == Mul(recip, aword) + 0
    requires d >= TOP && Corrected(recip, d) && aword >= TOP
    ensures q > 0
  {
    hide Mul, Corrected;
    QuotientPositive(recip, d, aword);
    MulUnit(B);
  }

  /** The subtrahend reaches only words that the loops visit. */
  lemma SubtrahendFits(q: nat, mv: nat, mlen: nat, offset: nat, wo: nat, bits: nat, x: nat, n: nat)
    requires q > 0 && mlen >= 1 && mv >= BPow(mlen - 1) && Mul(Mul(q, mv), Pow2(offset)) <= x < BPow(n)
    requires wo == offset / W && bits == offset % W
    ensures mlen + wo <= n
    ensures Mul(Mul(q, mv), Pow2(offset)) == Mul(Mul(Mul(q, mv), Pow2(bits)), BPow(wo))
  {
    hide *;
    ShiftedIs(Mul(q, mv), wo, bits, offset);
    MulLe(1, q, mv);
    MulUnit(mv);
    MulLe(1, Pow2(bits), Mul(q, mv));
    MulUnit(Mul(q, mv));
    MulLe(BPow(mlen - 1), Mul(Mul(q, mv), Pow2(bits)), BPow(wo));
    BPowSum(mlen - 1, wo);
    if mlen + wo > n {
      BPowMono(n, mlen - 1 + wo);
    }
  }

  lemma BPowSum(x: nat, y: nat)
    ensures Mul(BPow(x), BPow(y)) == BPow(x + y)
  {
    BPowAdd(x, y);
  }

  /** A region of wo + t words whose upper t words lose s, where s still fits there. */
  lemma UpperDifference(x: nat, hi: nat, low: nat, s: nat, hi': nat, owed: int, p: nat, pt: nat)
    requires x == Mul(hi, p) + low && low < p && Mul(s, p) <= x && p > 0
    requires hi' == hi - s + Mul(owed, pt) && hi' < pt && hi < pt
    ensures Mul(hi', p) + low == x - Mul(s, p)
  {
    hide *;
    MulPlus(hi, 1, p);
    MulUnit(p);
    CancelLt(s, hi + 1, p);
    MulUnit(pt);
    NegArg(owed, pt);
    SameQuotient(-owed, hi', 0, hi - s, pt);
    MulMinus(hi, s, p);
  }

  lemma UpperDone(m0: seq<word>, s: seq<word>, at: nat, t: nat, wo: nat, m: nat, mlen: nat, q: nat, pb: nat)
    requires at + t + wo <= |m0| == |s| && m + mlen <= |m0| && t >= mlen
    requires Subtracted(m0, s, at, t, m, mlen, q, pb) && OnlyChanged(m0, s, at, t)
    requires Mul(Mul(Mul(q, V(m0, m, mlen)), pb), BPow(wo)) <= V(m0, at, t + wo)
    requires q >= 0 && pb >= 0
    ensures V(s, at, t + wo) == V(m0, at, t + wo) - Mul(Mul(Mul(q, V(m0, m, mlen)), pb), BPow(wo))
  {
    var owed :| V(s, at, t) == V(m0, at, t) - Mul(Mul(q, LowWords(m0, m, mlen, t)), pb) + Mul(owed, BPow(t));
    LowWordsAll(m0, m, mlen, t);
    hide Val, BPow, V, Mul, LowWords;
    VSplitMul(m0, at, t, wo);
    VSplitMul(s, at, t, wo);
    VSame(m0, s, at + t, wo);
    VBound(m0, at + t, wo);
    VBound(m0, at, t);
    VBound(s, at, t);
    UpperDifference(V(m0, at, t + wo), V(m0, at, t), V(m0, at + t, wo), Mul(Mul(q, V(m0, m, mlen)), pb),
                    V(s, at, t), owed, BPow(wo), BPow(t));
  }

  lemma LowWordsAll(s: seq<word>, m: nat, mlen: nat, t: nat)
    requires m + mlen <= |s| && t >= mlen
    ensures LowWords(s, m, mlen, t) == V(s, m, mlen)
  {
  }

  /** Takes (q * m) << offset off the words of a from i on, where it is known not to exceed them. */
  method ApplyQuotient(mem: array<word>, a: nat, i: nat, alen: nat, m: nat, mlen: nat, q: word, offset: nat)
    requires i < alen && a + alen <= mem.Length && m + mlen <= mem.Length && Clear(a, alen, m, mlen)
    requires q > 0 && mlen >= 1 && mem[m] != 0
    requires Mul(Mul(q, V(mem[..], m, mlen)), Pow2(offset)) <= V(mem[..], a + i, alen - i)
    modifies mem
    ensures OnlyChanged(old(mem[..]), mem[..], a + i, alen - i)
    ensures V(mem[..], a + i, alen - i)
         == old(V(mem[..], a + i, alen - i) - Mul(Mul(q, V(mem[..], m, mlen)), Pow2(offset)))
  {
    hide Val, BPow, V, Mul, Pow2, Subtracted;
    ghost var m0 := mem[..];
    ghost var mv, x := V(m0, m, mlen), V(m0, a + i, alen - i);
    var wo := offset / W;
    var bitoffset := offset % W;
    ModulusAtLeast(m0, m, mlen);
    VBound(m0, a + i, alen - i);
    SubtrahendFits(q, mv, mlen, offset, wo, bitoffset, x, alen - i);
    var wordoffset := alen - mlen - wo;
    ghost var t := wordoffset + mlen - i;
    if bitoffset == 0 {
      SubtractAligned(mem, a, i, m, mlen, q, wordoffset);
      PowZero();
      UpperDone(m0, mem[..], a + i, t, wo, m, mlen, q, 1);
    } else {
      SubtractUnaligned(mem, a, i, m, mlen, q, wordoffset, bitoffset);
      UpperDone(m0, mem[..], a + i, t, wo, m, mlen, q, Pow2(bitoffset));
    }
  }

  lemma PowZero()
    ensures Pow2(0) == 1
  {
  }

  // The fix-up: one last subtraction of m, or none.

  /** m with zero words in front, alen words in all. */
  ghost function Padded(s: seq<word>, m: nat, mlen: nat, alen: nat): (p: seq<word>)
    requires m + mlen <= |s| && mlen <= alen
    ensures |p| == alen
    ensures forall i :: 0 <= i < alen ==> p[i] == (if i < alen - mlen then 0 else s[m + i - (alen - mlen)])
  {
    seq(alen, i requires 0 <= i < alen => PaddedWord(s, m, mlen, alen - 1 - i))
  }

  lemma PaddedValue(s: seq<word>, m: nat, mlen: nat, alen: nat)
    requires m + mlen <= |s| && mlen <= alen
    ensures Val(Padded(s, m, mlen, alen)) == V(s, m, mlen)
  {
    hide Val, BPow;
    var p := Padded(s, m, mlen, alen);
    ValLeadingZeros(p, alen - mlen);
    assert p[alen - mlen..] == s[m..m + mlen];
  }

  /** Compares a with m word by word from the top down. */
  method AtLeastModulus(mem: array<word>, a: nat, alen: nat, m: nat, mlen: nat) returns (ge: bool)
    requires a + alen <= mem.Length && m + mlen <= mem.Length && mlen <= alen
    ensures ge <==> V(mem[..], a, alen) >= V(mem[..], m, mlen)
  {
    hide Val, BPow;
    ghost var p, s := Padded(mem[..], m, mlen, alen), mem[a..a + alen];
    PaddedValue(mem[..], m, mlen, alen);
    var i := 0;
    while i < alen
      invariant 0 <= i <= alen && s[..i] == p[..i]
    {
      var mindex: int := mlen - alen + i;
      var mword := if mindex < 0 then 0 else mem[m + mindex];
      assert mword == p[i] && mem[a + i] == s[i];
      if mem[a + i] < mword {
        ValCompare(s, p, i);
        return false;
      } else if mem[a + i] > mword {
        ValCompare(p, s, i);
        return true;
      }
      i := i + 1;
    }
    assert s == p;
    ge := true;
  }

  /** a -= m, over all of a. */
  method SubtractModulus(mem: array<word>, a: nat, alen: nat, m: nat, mlen: nat)
    requires a + alen <= mem.Length && m + mlen <= mem.Length && Clear(a, alen, m, mlen) && mlen <= alen
    requires V(mem[..], m, mlen) <= V(mem[..], a, alen)
    modifies mem
    ensures OnlyChanged(old(mem[..]), mem[..], a, alen)
    ensures V(mem[..], a, alen) == old(V(mem[..], a, alen) - V(mem[..], m, mlen))
  {
    hide Val, BPow, V, LowWords, Mul, SubInv, Subtracted;
    ghost var m0 := mem[..];
    var c: nat := 1;
    var i: int := alen - 1;
    SubStart(m0, a + alen, m, mlen, 1, 1);
    MulUnit(0);
    MulUnit(B);
    while i >= 0
      invariant -1 <= i < alen && c <= 1
      invariant OnlyChanged(m0, mem[..], a + i + 1, alen - 1 - i)
      invariant SubInv(m0, mem[..], a + i + 1, m, mlen, 1, 1, alen - 1 - i, Mul(0, 1) + 0 + 1 - c)
    {
      ghost var s := mem[..];
      var mindex: int := mlen - alen + i;
      var mword := if mindex < 0 then 0 else mem[m + mindex];
      var r := AdcM(mem[a + i], Not(mword), c);
      MulUnit(mword);
      SubStep(m0, s, a + i + 1, m, mlen, 1, 1, alen - 1 - i, 0, 0, c, 0, 0, mword, mword, r.0, r.1);
      mem[a + i] := r.0;
      i, c := i - 1, r.1;
    }
    SubDoneBy(m0, mem[..], a, m, mlen, 1, 1, alen, Mul(0, 1) + 0 + 1 - c);
    WholeDifference(m0, mem[..], a, alen, m, mlen);
  }

  lemma WholeDifference(m0: seq<word>, s: seq<word>, a: nat, alen: nat, m: nat, mlen: nat)
    requires a + alen <= |m0| == |s| && m + mlen <= |m0| && alen >= mlen
    requires Subtracted(m0, s, a, alen, m, mlen, 1, 1) && OnlyChanged(m0, s, a, alen)
    requires V(m0, m, mlen) <= V(m0, a, alen)
    ensures V(s, a, alen) == V(m0, a, alen) - V(m0, m, mlen)
  {
    assert BPow(0) == 1;
    hide Val, V, Mul, LowWords, Subtracted;
    var mv := V(m0, m, mlen);
    MulUnit(mv);
    UpperDone(m0, s, a, alen, 0, m, mlen, 1, 1);
  }

  // internal_mod itself.

  /** The state of the main loop: acc times m has been taken off, and the words before i are zero. */
  ghost predicate ModInv(m0: seq<word>, s: seq<word>, a: nat, alen: nat, m: nat, mlen: nat, i: nat, acc: nat) {
    && a + alen <= |m0| && m + mlen <= |m0| && i <= alen && Clear(a, alen, m, mlen)
    && OnlyChanged(m0, s, a, alen)
    && (forall j :: a <= j < a + i ==> s[j] == 0)
    && V(s, a, alen) + Mul(acc, V(m0, m, mlen)) == V(m0, a, alen)
  }

  ghost predicate QuotInv(s: seq<word>, v0: nat, count: nat, acc: nat) {
    IsBignum(s) && s[0] == count && BnVal(s) == v0 + acc
  }

  /** One pass of the main loop at a nonzero word: either a multiple of m comes off, or the loop is over. */
  method ModStep(mem: array<word>, ghost m0: seq<word>, a: nat, alen: nat, m: nat, mlen: nat, i: nat, quot: array?<word>,
                 recip: word, rshift: nat, ghost d: word, ghost acc: nat, ghost v0: nat, ghost count: nat)
    returns (done: bool, ghost acc': nat)
    requires ModInv(m0, mem[..], a, alen, m, mlen, i, acc) && i < alen && mem[a + i] != 0
    requires Modulus(m0, m, mlen, recip, rshift, d)
    requires quot != null ==> quot != mem && QuotInv(quot[..], v0, count, acc) && v0 + V(m0, a, alen) < BPow(count)
    modifies mem, if quot == null then {} else {quot}
    ensures ModInv(m0, mem[..], a, alen, m, mlen, i, acc')
    ensures quot != null ==> QuotInv(quot[..], v0, count, acc')
    ensures done ==> V(mem[..], a, alen) < 2 * V(m0, m, mlen)
    ensures !done ==> V(mem[..], a, alen) < old(V(mem[..], a, alen))
  {
    hide Val, BPow, V, Mul, Pow2, BnVal, Modulus;
    ghost var s := mem[..];
    VSame(m0, s, m, mlen);
    LeadingZeros(s, a, i, alen - i);
    SameModulus(m0, s, m, mlen, recip, rshift, d);
    var q, offset;
    q, offset, done := PickQuotient(mem, a + i, alen - i, m, mlen, recip, rshift, d);
    acc' := acc;
    if done {
      return;
    }
    ghost var z := Mul(q, Pow2(offset));
    acc' := acc + z;
    ModulusTop(s, m, mlen, recip, rshift, d);
    StepSums(V(s, a, alen), V(m0, a, alen), V(m0, m, mlen), q, Pow2(offset), acc, mlen, s, m);
    ApplyQuotient(mem, a, i, alen, m, mlen, q, offset);
    LeadingZeros(mem[..], a, i, alen - i);
    if quot != null {
      InternalAddShifted(quot, q, offset);
    }
  }

  lemma SameModulus(m0: seq<word>, s: seq<word>, m: nat, mlen: nat, recip: word, rshift: nat, d: word)
    requires Modulus(m0, m, mlen, recip, rshift, d) && |s| == |m0| && forall j :: m <= j < m + mlen ==> s[j] == m0[j]
    ensures Modulus(s, m, mlen, recip, rshift, d)
  {
    VSame(m0, s, m, mlen);
  }

  lemma ModulusTop(s: seq<word>, m: nat, mlen: nat, recip: word, rshift: nat, d: word)
    requires Modulus(s, m, mlen, recip, rshift, d)
    ensures mlen >= 1 && m + mlen <= |s| && s[m] != 0
  {
  }

  lemma StepSums(x: nat, x0: nat, mv: nat, q: nat, p: nat, acc: nat, mlen: nat, s: seq<word>, m: nat)
    requires x + Mul(acc, mv) == x0 && q > 0 && p > 0
    requires mlen >= 1 && m + mlen <= |s| && s[m] != 0 && mv == V(s, m, mlen)
    ensures Mul(Mul(q, mv), p) == Mul(Mul(q, p), mv) > 0
    ensures x - Mul(Mul(q, mv), p) + Mul(acc + Mul(q, p), mv) == x0
    ensures Mul(Mul(q, mv), p) <= x ==> acc + Mul(q, p) <= x0
  {
    ModulusAtLeast(s, m, mlen);
    hide *;
    Mul3(q, mv, p);
    MulPlus(acc, Mul(q, p), mv);
    MulLt(0, q, p);
    MulUnit(p);
    MulLt(0, Mul(q, p), mv);
    MulUnit(mv);
    MulLe(1, mv, acc + Mul(q, p));
    MulUnit(acc + Mul(q, p));
  }

  /**
   * a := a mod m, and a div m is added to quot when there is one. The ghost result is the quotient.
   * The words of a are alen words at a, those of m are mlen words at m; d is what recip is the reciprocal of.
   */
  method InternalMod(mem: array<word>, a: nat, alen: nat, m: nat, mlen: nat, quot: array?<word>, recip: word, rshift: nat,
                     ghost d: word) returns (ghost q: nat)
    requires a + alen <= mem.Length && Clear(a, alen, m, mlen) && mlen <= alen
    requires Modulus(mem[..], m, mlen, recip, rshift, d)
    requires quot != null ==> quot != mem && IsBignum(quot[..])
                              && BnVal(quot[..]) + V(mem[..], a, alen) < BPow(quot[0])
    modifies mem, if quot == null then {} else {quot}
    ensures OnlyChanged(old(mem[..]), mem[..], a, alen)
    ensures V(mem[..], a, alen) + Mul(q, old(V(mem[..], m, mlen))) == old(V(mem[..], a, alen))
    ensures V(mem[..], a, alen) < old(V(mem[..], m, mlen))
    ensures quot != null ==> QuotInv(quot[..], old(BnVal(quot[..])), old(quot[0]), q)
  {
    hide Val, BPow, V, Mul, Pow2, BnVal, Modulus, Corrected, Admissible, NormalTop;
    ghost var m0 := mem[..];
    ghost var v0, count := if quot == null then 0 else BnVal(quot[..]), if quot == null then 0 else quot[0];
    ModulusTop(m0, m, mlen, recip, rshift, d);
    var i := 0;
    q := 0;
    MulUnit(V(m0, m, mlen));
    while i <= alen - mlen
      invariant i <= alen - mlen + 1 && ModInv(m0, mem[..], a, alen, m, mlen, i, q)
      invariant quot != null ==> QuotInv(quot[..], v0, count, q)
      decreases V(mem[..], a, alen), alen - i
    {
      if mem[a + i] == 0 {
        i := i + 1;
        continue;
      }
      var done;
      done, q := ModStep(mem, m0, a, alen, m, mlen, i, quot, recip, rshift, d, q, v0, count);
      if done {
        break;
      }
    }
    if i > alen - mlen {
      ZeroTop(m0, mem[..], a, alen, m, mlen, i, recip, rshift, d);
    }
    VSame(m0, mem[..], m, mlen);
    var ge := AtLeastModulus(mem, a, alen, m, mlen);
    if ge {
      FixupSums(V(mem[..], a, alen), V(m0, a, alen), V(m0, m, mlen), q);
      SubtractModulus(mem, a, alen, m, mlen);
      ModulusPositive(m0, m, mlen);
      if quot != null {
        PowZero();
        MulUnit(1);
        InternalAddShifted(quot, 1, 0);
      }
      q := q + 1;
    }
  }

  lemma ModulusPositive(s: seq<word>, m: nat, mlen: nat)
    requires mlen >= 1 && m + mlen <= |s| && s[m] != 0
    ensures V(s, m, mlen) > 0
  {
    ModulusAtLeast(s, m, mlen);
  }

  lemma FixupSums(x: nat, x0: nat, mv: nat, q: nat)
    requires x + Mul(q, mv) == x0 && x >= mv
    ensures x - mv + Mul(q + 1, mv) == x0 && (mv > 0 ==> q + 1 <= x0)
  {
    hide *;
    MulPlus(q, 1, mv);
    MulUnit(mv);
    if mv > 0 {
      MulLe(1, mv, q + 1);
      MulUnit(q + 1);
    }
  }

  lemma ZeroTop(m0: seq<word>, s: seq<word>, a: nat, alen: nat, m: nat, mlen: nat, i: nat, recip: word, rshift: nat, d: word)
    requires |s| == |m0| && a + alen <= |s| && 1 <= mlen <= alen && i == alen - mlen + 1 && forall j :: a <= j < a + i ==> s[j] == 0
    requires Modulus(m0, m, mlen, recip, rshift, d)
    ensures V(s, a, alen) < 2 * V(m0, m, mlen)
  {
    hide Val, BPow, V, Mul, Pow2, Corrected, Admissible, NormalTop;
    LeadingZeros(s, a, i, alen - i);
    VBound(s, a + i, alen - i);
    LeadingZerosBelow(V(s, a, alen), V(m0, m, mlen), mlen, rshift, d);
  }
}
