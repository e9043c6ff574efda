/** The Bignum format: an array whose first element counts the words that follow, least significant first. */
module Bignum {
  import opened Arith
  import opened Words
  import opened Reciprocal

  ghost predicate IsBignum(b: seq<word>) {
    |b| >= 1 && b[0] < |b|
  }

  /** The number a Bignum stands for. */
  ghost function BnVal(b: seq<word>): (v: nat)
    requires IsBignum(b)
  {
    LVal(b[1..1 + b[0]])
  }

  lemma {:induction false} LValBound(s: seq<word>)
    ensures LVal(s) < BPow(|s|)
  {
    LValReverse(s);
    ValBound(Reverse(s));
  }

  lemma {:induction false} LValUpdate(s: seq<word>, j: nat, z: word)
    requires j < |s|
    ensures LVal(s[j := z]) == LVal(s) + Mul(z - s[j], BPow(j))
  {
    hide BPow;
    var t := s[j := z];
    if j == 0 {
      assert t[1..] == s[1..];
      BPowOne();
      MulUnit(z - s[j]);
    } else {
      assert t[1..] == s[1..][j - 1 := z];
      LValUpdate(s[1..], j - 1, z);
      UpdateStep(LVal(s[1..]), z - s[j], j);
    }
  }

  lemma UpdateStep(tail: int, dz: int, j: nat)
    requires j > 0
    ensures B * (tail + Mul(dz, BPow(j - 1))) == B * tail + Mul(dz, BPow(j))
  {
    Distrib(tail, Mul(dz, BPow(j - 1)), B);
    Assoc(dz, BPow(j - 1), B);
  }

  lemma {:induction false} LValConcat(s: seq<word>, t: seq<word>)
    ensures LVal(s + t) == LVal(s) + Mul(BPow(|s|), LVal(t))
  {
    LValReverse(s + t);
    LValReverse(s);
    LValReverse(t);
    assert Reverse(s + t) == Reverse(t) + Reverse(s);
    ValConcat(Reverse(t), Reverse(s));
  }

  lemma LValZeros(s: seq<word>)
    requires forall i :: 0 <= i < |s| ==> s[i] == 0
    ensures LVal(s) == 0
  {
    LValReverse(s);
    ValZero(Reverse(s));
  }

  /** A Bignum read most significant word first, as the internal routines do. */
  lemma BnValBigEndian(b: seq<word>)
    requires IsBignum(b)
    ensures BnVal(b) == Val(Reverse(b[1..1 + b[0]]))
  {
    LValReverse(b[1..1 + b[0]]);
  }

  /** Leading zero words may be dropped from the count. */
  lemma DropTopZero(b: seq<word>)
    requires IsBignum(b) && b[0] >= 1 && b[b[0]] == 0
    ensures IsBignum(b[0 := b[0] - 1]) && BnVal(b[0 := b[0] - 1]) == BnVal(b)
  {
    var c := b[0 := b[0] - 1];
    assert b[1..1 + b[0]] == c[1..1 + c[0]] + [0];
    LValConcat(c[1..1 + c[0]], [0]);
    LValZeros([0]);
    MulUnit(BPow(|c[1..1 + c[0]]|));
  }

  /** bn_restore_invariant, and the loops that trim every result: the top word is made nonzero, or the only one. */
  method Trim(b: array<word>)
    requires IsBignum(b[..])
    modifies b
    ensures IsBignum(b[..]) && BnVal(b[..]) == old(BnVal(b[..]))
    ensures b[0] <= old(b[0]) && (b[0] > 1 ==> b[b[0]] != 0)
    ensures old(b[0]) >= 1 ==> b[0] >= 1
    ensures forall i :: 1 <= i < b.Length ==> b[i] == old(b[i])
  {
    while b[0] > 1 && b[b[0]] == 0
      invariant IsBignum(b[..]) && BnVal(b[..]) == old(BnVal(b[..]))
      invariant b[0] <= old(b[0]) && (old(b[0]) >= 1 ==> b[0] >= 1)
      invariant forall i :: 1 <= i < b.Length ==> b[i] == old(b[i])
      decreases b[0]
    {
      DropTopZero(b[..]);
      ghost var s := b[..];
      b[0] := b[0] - 1;
      assert b[..] == s[0 := s[0] - 1];
    }
  }

  /** Adds addend plus a carry to one word of a Bignum; the carry out belongs to the next word. */
  method AddWord(number: array<word>, at: nat, addend: word, carryIn: nat) returns (carry: nat)
    requires IsBignum(number[..]) && 1 <= at <= number[0] && carryIn <= 1
    modifies number
    ensures IsBignum(number[..]) && number[0] == old(number[0]) && carry <= 1
    ensures BnVal(number[..]) + Mul(carry, BPow(at)) == old(BnVal(number[..])) + Mul(addend + carryIn, BPow(at - 1))
  {
    hide LVal, BPow, Mul;
    ghost var s := number[..];
    var r := Adc(number[at], addend, carryIn);
    number[at] := r.0;
    carry := r.1;
    assert number[..] == s[at := r.0];
    AddWordMath(s, at, addend, carryIn, r);
  }

  lemma AddWordMath(s: seq<word>, at: nat, addend: word, carryIn: nat, r: (word, nat))
    requires IsBignum(s) && 1 <= at <= s[0] && r.0 + r.1 * B == s[at] + addend + carryIn
    ensures BnVal(s[at := r.0]) + Mul(r.1, BPow(at)) == BnVal(s) + Mul(addend + carryIn, BPow(at - 1))
  {
    hide LVal, BPow;
    var p := s[1..1 + s[0]];
    assert s[at := r.0][1..1 + s[0]] == p[at - 1 := r.0];
    LValUpdate(p, at - 1, r.0);
    BPowUp(at - 1);
    AddWordSum(r.0, s[at], addend + carryIn, r.1, BPow(at - 1));
  }

  lemma BPowUp(n: nat)
    ensures BPow(n + 1) == Mul(B, BPow(n))
  {
  }

  lemma AddWordSum(z: int, x: int, y: int, c: int, p: int)
    requires z + c * B == x + y
    ensures Mul(z - x, p) + Mul(c, Mul(B, p)) == Mul(y, p)
  {
    MulAssoc(c, B, p);
    MulPlus(z - x, Mul(c, B), p);
  }

  /** n shifted left by bshift bits, as a low and a high word. */
  lemma SplitShift(n: word, bshift: nat)
    requires bshift < W
    ensures ShiftLeft(n, bshift) + Mul(if bshift == 0 then 0 else ShiftRight(n, W - bshift), B) == Mul(n, Pow2(bshift))
  {
    if bshift == 0 {
      assert Pow2(0) == 1;
      MulUnit(n);
      MulUnit(B);
      Small(n, B);
    } else {
      SplitShiftMath(n, Pow2(W - bshift), Pow2(bshift));
      Pow2Add(W - bshift, bshift);
      assert W - bshift + bshift == W;
    }
  }

  lemma Small(n: nat, m: nat)
    requires n < m
    ensures n % m == 0 * m + n && n * 1 == n
  {
    DivModUnique(n, m, 0, n);
  }

  lemma SplitShiftMath(n: nat, hi: nat, lo: nat)
    requires hi > 0 && lo > 0
    ensures (n * lo) % (hi * lo) + Mul(n / hi, hi * lo) == n * lo
  {
    DivMod(n, hi);
    var q, r := n / hi, n % hi;
    MulStrict(0, lo, hi);
    Distrib(r, q * hi, lo);
    Assoc(q, hi, lo);
    MulStrict(r, hi, lo);
    MulNonNeg(r, lo);
    DivModUnique(n * lo, hi * lo, q, r * lo);
  }

  /** Adds n * 2^shift to a Bignum that has room for the sum; none of the range assertions can fail. */
  method InternalAddShifted(number: array<word>, n: word, shift: nat)
    requires IsBignum(number[..]) && n > 0
    requires BnVal(number[..]) + Mul(n, Pow2(shift)) < BPow(number[0])
    modifies number
    ensures IsBignum(number[..]) && number[0] == old(number[0])
    ensures BnVal(number[..]) == old(BnVal(number[..])) + Mul(n, Pow2(shift))
  {
    hide LVal, BPow, Mul, Pow2, ShiftLeft, ShiftRight, BnVal;
    var at := 1 + shift / W;
    var bshift := shift % W;
    ghost var w0 := shift / W;
    var addendl := ShiftLeft(n, bshift);
    var addendh: word := if bshift == 0 then 0 else ShiftRight(n, W - bshift);
    SplitShift(n, bshift);
    ShiftedIs(n, w0, bshift, shift);
    ghost var goal := BnVal(number[..]) + Mul(n, Pow2(shift));
    ghost var count := number[0];
    RoomFor(Mul(n, Pow2(bshift)), w0, count, goal, n, bshift);
    assert at <= number[0];
    var carry: nat := AddWord(number, at, addendl, 0);
    at := at + 1;
    PendingStart(addendl, addendh, w0);
    MulUnit(BPow(at - 1));
    if addendh == 0 && carry == 0 {
      return;
    }
    PendingHigh(carry + addendh, BPow(at - 1), count, at, goal, BnVal(number[..]), addendh, carry);
    assert at <= number[0];
    carry := AddWord(number, at, addendh, carry);
    at := at + 1;
    while carry != 0
      invariant IsBignum(number[..]) && number[0] == count && carry <= 1 && 1 <= at <= count + 1
      invariant BnVal(number[..]) + Mul(carry, BPow(at - 1)) == goal
      decreases count + 1 - at
    {
      MulUnit(BPow(at - 1));
      assert at <= number[0];
      carry := AddWord(number, at, 0, carry);
      at := at + 1;
    }
    MulUnit(BPow(at - 1));
  }

  lemma ShiftedIs(n: nat, w0: nat, bshift: nat, shift: nat)
    requires w0 == shift / W && bshift == shift % W
    ensures Mul(n, Pow2(shift)) == Mul(Mul(n, Pow2(bshift)), BPow(w0))
  {
    hide Mul;
    DivMod(shift, W);
    Pow2Add(bshift, w0 * W);
    BPowIsPow2(w0);
    PowProduct(bshift, w0, shift);
    MulAssoc(n, Pow2(bshift), BPow(w0));
  }

  lemma PowProduct(bshift: nat, w0: nat, shift: nat)
    requires shift == bshift + w0 * W && Pow2(shift) == Pow2(bshift) * Pow2(w0 * W) && BPow(w0) == Pow2(w0 * W)
    ensures Pow2(shift) == Mul(Pow2(bshift), BPow(w0))
  {
  }

  lemma RoomFor(v: nat, w0: nat, count: nat, goal: nat, n: nat, bshift: nat)
    requires n > 0 && v == Mul(n, Pow2(bshift)) && Mul(v, BPow(w0)) <= goal < BPow(count)
    ensures w0 < count
  {
    hide Mul;
    MulLt(0, n, Pow2(bshift));
    MulUnit(Pow2(bshift));
    MulLe(1, v, BPow(w0));
    MulUnit(BPow(w0));
    if w0 >= count {
      BPowMono(count, w0);
    }
  }

  lemma PendingStart(lo: int, hi: int, w0: nat)
    ensures Mul(lo + Mul(hi, B), BPow(w0)) == Mul(lo + 0, BPow(w0)) + Mul(hi, BPow(w0 + 1))
  {
    MulPlus(lo, Mul(hi, B), BPow(w0));
    MulAssoc(hi, B, BPow(w0));
  }

  lemma PendingHigh(x: nat, p: nat, count: nat, at: nat, goal: nat, v: nat, hi: nat, carry: nat)
    requires at >= 1 && x == carry + hi && x > 0 && p == BPow(at - 1) && v + Mul(carry, p) + Mul(hi, p) == goal < BPow(count)
    ensures at <= count && v + Mul(hi + carry, p) == goal
  {
    hide Mul, BPow;
    MulPlus(hi, carry, p);
    MulLe(1, x, p);
    MulUnit(p);
    if at > count {
      BPowMono(count, at - 1);
    }
  }
}
