/** internal_mul: schoolbook and Karatsuba multiplication inside one shared scratch buffer. */
module Karatsuba {
  import opened Arith
  import opened Words
  import opened AddSub

  const KARATSUBA_THRESHOLD := 50

  /** Scratch words needed by a multiplication of len words and by all its recursive calls. */
  function Scratch(len: nat): nat {
    if len > KARATSUBA_THRESHOLD then
      var midlen := len - len / 2 + 1;
      4 * midlen + Scratch(midlen)
    else 0
  }

  lemma ScratchStep(len: nat)
    requires len > KARATSUBA_THRESHOLD
    ensures Scratch(len) == 4 * (len - len / 2 + 1) + Scratch(len - len / 2 + 1)
  {
  }

  lemma {:induction false} ScratchMono(m: nat, n: nat)
    requires m <= n
    ensures Scratch(m) <= Scratch(n)
    decreases n
  {
    if m > KARATSUBA_THRESHOLD {
      ScratchMono(m - m / 2 + 1, n - n / 2 + 1);
    }
  }

  /** mul_compute_scratch. */
  method MulComputeScratch(len0: nat) returns (ret: nat)
    ensures ret == Scratch(len0)
  {
    var len := len0;
    ret := 0;
    while len > KARATSUBA_THRESHOLD
      invariant len >= 0 && ret + Scratch(len) == Scratch(len0)
    {
      var toplen := len / 2;
      var botlen := len - toplen;
      var midlen := botlen + 1;
      ret := ret + 4 * midlen;
      len := midlen;
    }
  }

  ghost predicate Clear(a: nat, n: nat, c: nat, m: nat) {
    a + n <= c || c + m <= a
  }

  /** Nothing outside [c, c+n) and [s, s+k) differs between the two memories. */
  ghost predicate OnlyChanged2(m0: seq<word>, m1: seq<word>, c: nat, n: nat, s: nat, k: nat) {
    |m0| == |m1| && forall i :: 0 <= i < |m0| && !(c <= i < c + n) && !(s <= i < s + k) ==> m1[i] == m0[i]
  }

  lemma Unaffected2(m0: seq<word>, m1: seq<word>, c: nat, n: nat, s: nat, k: nat, a: nat, len: nat)
    requires OnlyChanged2(m0, m1, c, n, s, k) && a + len <= |m0|
    requires Clear(a, len, c, n) && Clear(a, len, s, k)
    ensures V(m1, a, len) == V(m0, a, len)
  {
    VSame(m0, m1, a, len);
  }

  /** The inner loop of the ordinary method: adds x * b to the words at cp and returns the carry. */
  method MulRow(mem: array<word>, x: word, b: nat, cp: nat, len: nat) returns (carry: word)
    requires b + len <= mem.Length && cp + len <= mem.Length && Clear(b, len, cp, len)
    modifies mem
    ensures V(mem[..], cp, len) + carry * BPow(len) == old(V(mem[..], cp, len) + x * V(mem[..], b, len))
    ensures OnlyChanged(old(mem[..]), mem[..], cp, len)
  {
    ghost var m0 := mem[..];
    carry := 0;
    var k := len;
    while k > 0
      invariant 0 <= k <= len
      invariant OnlyChanged(m0, mem[..], cp + k, len - k)
      invariant CarryInv(m0, mem[..], cp, b, cp, len, x, k, carry)
    {
      k := k - 1;
      var r := MulAdd2(x, mem[b + k], mem[cp + k], carry);
      CarryIteration(m0, mem[..], cp, b, cp, len, x, k, carry, r.0, r.1);
      mem[cp + k], carry := r.0, r.1;
    }
  }

  lemma RowMath(x: int, carry: int, row: int, row0: int, low: int, hi: int, bv: int, p: int)
    requires carry + row == row0 + x * bv
    requires row0 * p + low == hi * bv
    ensures (carry + row) * p + low == (x * p + hi) * bv
  {
    Distrib(row0, x * bv, p);
    Assoc(x, bv, p);
    Assoc(x, p, bv);
    assert bv * p == p * bv;
    Distrib(x * p, hi, bv);
  }

  /** The outer loop of the ordinary method: the words of a from i on are multiplied in. */
  ghost predicate SchoolInv(m0: seq<word>, m: seq<word>, a: nat, b: nat, c: nat, len: nat, i: nat) {
    && i <= len && a + len <= |m0| && b + len <= |m0| && c + 2 * len <= |m0|
    && Clear(a, len, c, 2 * len) && Clear(b, len, c, 2 * len)
    && OnlyChanged(m0, m, c, 2 * len)
    && V(m, c + i, 2 * len - i) == V(m0, a + i, len - i) * V(m0, b, len)
  }

  /** One row, in terms of the memories before it (m1) and after its carry is stored (m2). */
  lemma RowDone(m0: seq<word>, m1: seq<word>, m2: seq<word>, a: nat, b: nat, c: nat, len: nat, i: nat)
    requires i < len && |m1| == |m2| && SchoolInv(m0, m1, a, b, c, len, i + 1)
    requires OnlyChanged(m1, m2, c + i, len + 1)
    requires m2[c + i] * BPow(len) + V(m2, c + i + 1, len) == V(m1, c + i + 1, len) + m0[a + i] * V(m0, b, len)
    ensures SchoolInv(m0, m2, a, b, c, len, i)
  {
    hide Val, BPow, V;
    RowValue(m0, m1, m2, a, b, c, len, i);
  }

  lemma RowValue(m0: seq<word>, m1: seq<word>, m2: seq<word>, a: nat, b: nat, c: nat, len: nat, i: nat)
    requires i < len && |m1| == |m2| && a + len <= |m0| && b + len <= |m0| && c + 2 * len <= |m1|
    requires forall k :: c + i + 1 + len <= k < c + 2 * len ==> m1[k] == m2[k]
    requires V(m1, c + i + 1, 2 * len - (i + 1)) == V(m0, a + i + 1, len - (i + 1)) * V(m0, b, len)
    requires m2[c + i] * BPow(len) + V(m2, c + i + 1, len) == V(m1, c + i + 1, len) + m0[a + i] * V(m0, b, len)
    ensures V(m2, c + i, 2 * len - i) == V(m0, a + i, len - i) * V(m0, b, len)
  {
    hide Val, BPow, V;
    var low := len - i - 1;
    VSplit(m1, c + i + 1, len, low);
    VSplit(m2, c + i, len + 1, low);
    VStep(m2, c + i, len);
    VSame(m1, m2, c + i + 1 + len, low);
    VStep(m0, a + i, low);
    RowMath(m0[a + i], m2[c + i] * BPow(len), V(m2, c + i + 1, len), V(m1, c + i + 1, len),
            V(m2, c + i + 1 + len, low), V(m0, a + i + 1, low), V(m0, b, len), BPow(low));
  }

  /** The body of the outer loop. */
  method SchoolRow(mem: array<word>, ghost m0: seq<word>, a: nat, b: nat, c: nat, len: nat, i: nat)
    requires i < len && SchoolInv(m0, mem[..], a, b, c, len, i + 1)
    modifies mem
    ensures SchoolInv(m0, mem[..], a, b, c, len, i)
  {
    hide Val, BPow;
    ghost var m1 := mem[..];
    VSame(m0, m1, b, len);
    var carry := MulRow(mem, mem[a + i], b, c + i + 1, len);
    ghost var m2 := mem[..];
    mem[c + i] := carry;
    VSame(m2, mem[..], c + i + 1, len);
    RowDone(m0, m1, mem[..], a, b, c, len, i);
  }

  method ZeroFill(mem: array<word>, c: nat, n: nat)
    requires c + n <= mem.Length
    modifies mem
    ensures forall k :: c <= k < c + n ==> mem[k] == 0
    ensures OnlyChanged(old(mem[..]), mem[..], c, n)
  {
    ghost var m0 := mem[..];
    var i := 0;
    while i < n
      invariant 0 <= i <= n
      invariant OnlyChanged(m0, mem[..], c, n)
      invariant forall k :: c <= k < c + i ==> mem[k] == 0
    {
      mem[c + i] := 0;
      i := i + 1;
    }
  }

  /** The ordinary O(N^2) branch of internal_mul. */
  method MulSchoolbook(mem: array<word>, a: nat, b: nat, c: nat, len: nat)
    requires a + len <= mem.Length && b + len <= mem.Length && c + 2 * len <= mem.Length
    requires Clear(a, len, c, 2 * len) && Clear(b, len, c, 2 * len)
    modifies mem
    ensures V(mem[..], c, 2 * len) == old(Mul(V(mem[..], a, len), V(mem[..], b, len)))
    ensures OnlyChanged(old(mem[..]), mem[..], c, 2 * len)
  {
    hide Val, BPow;
    ghost var m0 := mem[..];
    ZeroFill(mem, c, 2 * len);
    var i := len;
    VZero(mem[..], c + len, len);
    VZero(m0, a + len, 0);
    while i > 0
      invariant i >= 0 && SchoolInv(m0, mem[..], a, b, c, len, i)
    {
      i := i - 1;
      SchoolRow(mem, m0, a, b, c, len, i);
    }
  }

  /** Copies a top-word number into the low end of [s, s+pad+bot), zeros above it. */
  method PadCopy(mem: array<word>, hi: nat, top: nat, s: nat, pad: nat, bot: nat)
    requires hi + top <= mem.Length && s + pad + bot <= mem.Length
    requires top <= bot <= top + pad && 1 <= pad <= bot
    requires Clear(hi, top, s, pad + bot)
    modifies mem
    ensures V(mem[..], s + pad, bot) == old(V(mem[..], hi, top))
    ensures forall k :: s <= k < s + pad ==> mem[k] == 0
    ensures OnlyChanged(old(mem[..]), mem[..], s, pad + bot)
  {
    hide Val, BPow;
    ghost var m0 := mem[..];
    ZeroFill(mem, s, 2 * pad);
    var at := s + pad + bot - top;
    var i := 0;
    while i < top
      invariant 0 <= i <= top
      invariant OnlyChanged(m0, mem[..], s, pad + bot)
      invariant forall k :: s <= k < at ==> mem[k] == 0
      invariant mem[at..at + i] == m0[hi..hi + i]
    {
      mem[at + i] := mem[hi + i];
      i := i + 1;
    }
    PadCopyDone(m0, mem[..], hi, top, s, pad, bot);
  }

  lemma PadCopyDone(m0: seq<word>, m: seq<word>, hi: nat, top: nat, s: nat, pad: nat, bot: nat)
    requires hi + top <= |m0| && s + pad + bot <= |m| && top <= bot
    requires forall k :: s <= k < s + pad + bot - top ==> m[k] == 0
    requires m[s + pad + bot - top..s + pad + bot] == m0[hi..hi + top]
    ensures V(m, s + pad, bot) == V(m0, hi, top)
  {
    hide Val, BPow;
    VSplit(m, s + pad, bot - top, top);
    VZero(m, s + pad, bot - top);
  }

  /** Fills [s, s+pad+bot) with the sum of a top-word and a bot-word number, carry word included. */
  method PadAdd(mem: array<word>, hi: nat, top: nat, lo: nat, bot: nat, s: nat, pad: nat)
    requires hi + top <= mem.Length && lo + bot <= mem.Length && s + pad + bot <= mem.Length
    requires top <= bot <= top + pad && 1 <= pad <= bot
    requires Clear(hi, top, s, pad + bot) && Clear(lo, bot, s, pad + bot)
    modifies mem
    ensures V(mem[..], s, pad + bot) == old(V(mem[..], hi, top) + V(mem[..], lo, bot))
    ensures OnlyChanged(old(mem[..]), mem[..], s, pad + bot)
  {
    hide Val, BPow;
    ghost var m0 := mem[..];
    PadCopy(mem, hi, top, s, pad, bot);
    VSame(m0, mem[..], lo, bot);
    var carry := InternalAdd(mem, s + pad, lo, s + pad, bot);
    ghost var m2 := mem[..];
    mem[s + pad - 1] := carry;
    VSame(m2, mem[..], s + pad, bot);
    PadAddDone(mem[..], bot, s, pad, carry);
  }

  lemma PadAddDone(m: seq<word>, bot: nat, s: nat, pad: nat, carry: nat)
    requires s + pad + bot <= |m| && 1 <= pad
    requires forall k :: s <= k < s + pad - 1 ==> m[k] == 0
    requires m[s + pad - 1] == carry
    ensures V(m, s, pad + bot) == V(m, s + pad, bot) + carry * BPow(bot)
  {
    hide Val, BPow;
    VSplit(m, s, pad - 1, bot + 1);
    VZero(m, s, pad - 1);
    VStep(m, s + pad - 1, bot);
  }

  lemma RippleStart(m0: seq<word>, c: nat, n: nat, carry: nat)
    requires c + n <= |m0|
    ensures V(m0, c + n, n - n) + carry * BPow(n - n) == V(m0, c + n, n - n) + carry
  {
    assert BPow(n - n) == 1;
  }

  lemma RippleStep(m0: seq<word>, m1: seq<word>, c: nat, n: nat, i: nat, carry: nat, z: word, carry': nat, carry0: nat)
    requires i < n && c + n <= |m0| == |m1|
    requires V(m1, c + i + 1, n - i - 1) + carry * BPow(n - i - 1) == V(m0, c + i + 1, n - i - 1) + carry0
    requires z + carry' * B == m0[c + i] + carry
    ensures V(m1[c + i := z], c + i, n - i) + carry' * BPow(n - i) == V(m0, c + i, n - i) + carry0
  {
    var p := BPow(n - i - 1);
    assert BPow(n - i) == B * p;
    hide Val, BPow;
    var m2 := m1[c + i := z];
    VStep(m0, c + i, n - i - 1);
    VStep(m2, c + i, n - i - 1);
    VSame(m1, m2, c + i + 1, n - i - 1);
    Assoc(carry', B, p);
    Distrib(z, carry' * B, p);
    Distrib(m0[c + i], carry, p);
  }

  /** The carry ripple of internal_mul: it cannot run off the top when the sum fits. */
  method Ripple(mem: array<word>, c: nat, n: nat, carry0: nat)
    requires c + n <= mem.Length && carry0 <= 1
    requires V(mem[..], c, n) + carry0 < BPow(n)
    modifies mem
    ensures V(mem[..], c, n) == old(V(mem[..], c, n)) + carry0
    ensures OnlyChanged(old(mem[..]), mem[..], c, n)
  {
    ghost var m0 := mem[..];
    var carry: nat := carry0;
    var i := n;
    hide Val, BPow;
    RippleStart(m0, c, n, carry0);
    while carry != 0
      invariant 0 <= i <= n && carry <= 1
      invariant OnlyChanged(m0, mem[..], c + i, n - i)
      invariant V(mem[..], c + i, n - i) + carry * BPow(n - i) == V(m0, c + i, n - i) + carry0
      decreases i
    {
      assert carry * BPow(n - i) == BPow(n - i);
      i := i - 1;
      var r := Adc(mem[c + i], 0, carry);
      RippleStep(m0, mem[..], c, n, i, carry, r.0, r.1, carry0);
      mem[c + i], carry := r.0, r.1;
    }
    VSplit(m0, c, i, n - i);
    VSplit(mem[..], c, i, n - i);
    VSame(m0, mem[..], c, i);
  }

  lemma AddAtMath(n0: int, hi0: int, mid0: int, lo: int, mid1: int, carry: int, m: int, pm: int, p: int)
    requires n0 == (hi0 * pm + mid0) * p + lo
    requires mid1 + carry * pm == mid0 + m
    ensures ((hi0 + carry) * pm + mid1) * p + lo == n0 + m * p
  {
    Distrib(hi0, carry, pm);
    assert (hi0 + carry) * pm + mid1 == (hi0 * pm + mid0) + m;
    Distrib(hi0 * pm + mid0, m, p);
  }

  /** Adds the n words at m, shifted up by bot words, into the 2*len words at c, carry ripple included. */
  method AddAt(mem: array<word>, c: nat, total: nat, m: nat, n: nat, bot: nat)
    requires n + bot <= total && c + total <= mem.Length && m + n <= mem.Length && Clear(m, n, c, total)
    requires V(mem[..], c, total) + Mul(V(mem[..], m, n), BPow(bot)) < BPow(total)
    modifies mem
    ensures V(mem[..], c, total) == old(V(mem[..], c, total) + Mul(V(mem[..], m, n), BPow(bot)))
    ensures OnlyChanged(old(mem[..]), mem[..], c, total)
  {
    hide Val, BPow, Mul;
    ghost var m0 := mem[..];
    var at := total - bot - n;
    var carry := InternalAdd(mem, c + at, m, c + at, n);
    ghost var m1 := mem[..];
    AddAtFits(m0, m1, c, total, V(m0, m, n), n, bot, carry);
    Ripple(mem, c, at, carry);
    AddAtDone(m0, m1, mem[..], c, total, V(m0, m, n), n, bot, carry);
  }

  lemma Split3(s: seq<word>, c: nat, at: nat, n: nat, bot: nat)
    requires c + at + n + bot <= |s|
    ensures V(s, c, at + n + bot) == (V(s, c, at) * BPow(n) + V(s, c + at, n)) * BPow(bot) + V(s, c + at + n, bot)
  {
    hide Val, BPow;
    VSplit(s, c, at + n, bot);
    VSplit(s, c, at, n);
  }

  lemma AddAtFits(m0: seq<word>, m1: seq<word>, c: nat, total: nat, v: nat, n: nat, bot: nat, carry: nat)
    requires n + bot <= total && c + total <= |m0| && carry <= 1
    requires OnlyChanged(m0, m1, c + total - bot - n, n)
    requires V(m0, c, total) + Mul(v, BPow(bot)) < BPow(total)
    requires V(m1, c + total - bot - n, n) + carry * BPow(n) == V(m0, c + total - bot - n, n) + v
    ensures V(m1, c, total - bot - n) == V(m0, c, total - bot - n)
    ensures V(m1, c, total - bot - n) + carry < BPow(total - bot - n)
  {
    hide Val, BPow;
    var at := total - bot - n;
    VSame(m0, m1, c, at);
    Split3(m0, c, at, n, bot);
    var hi := V(m0, c, at) + carry;
    AddAtMath(V(m0, c, total), V(m0, c, at), V(m0, c + at, n), V(m0, c + at + n, bot), V(m1, c + at, n), carry, v,
              BPow(n), BPow(bot));
    BPowAdd(at + n, bot);
    BPowAdd(at, n);
    MulCancelStrict(hi * BPow(n) + V(m1, c + at, n), BPow(at + n), BPow(bot));
    MulCancelStrict(hi, BPow(at), BPow(n));
  }

  lemma AddAtDone(m0: seq<word>, m1: seq<word>, m2: seq<word>, c: nat, total: nat, v: nat, n: nat, bot: nat, carry: nat)
    requires n + bot <= total && c + total <= |m0|
    requires OnlyChanged(m0, m1, c + total - bot - n, n) && OnlyChanged(m1, m2, c, total - bot - n)
    requires V(m1, c + total - bot - n, n) + carry * BPow(n) == V(m0, c + total - bot - n, n) + v
    requires V(m2, c, total - bot - n) == V(m0, c, total - bot - n) + carry
    ensures V(m2, c, total) == V(m0, c, total) + Mul(v, BPow(bot))
  {
    hide Val, BPow;
    var at := total - bot - n;
    Split3(m0, c, at, n, bot);
    Split3(m2, c, at, n, bot);
    VSame(m1, m2, c + at, n);
    VSame(m0, m2, c + at + n, bot);
    AddAtMath(V(m0, c, total), V(m0, c, at), V(m0, c + at, n), V(m0, c + at + n, bot), V(m1, c + at, n), carry, v,
              BPow(n), BPow(bot));
  }

  /** What internal_mul may rely on: everything in the arena, inputs clear of output and scratch. */
  ghost predicate MulArgs(size: nat, a: nat, b: nat, c: nat, len: nat, scratch: nat) {
    && a + len <= size && b + len <= size && c + 2 * len <= size && scratch + Scratch(len) <= size
    && Clear(a, len, c, 2 * len) && Clear(b, len, c, 2 * len) && Clear(c, 2 * len, scratch, Scratch(len))
    && Clear(a, len, scratch, Scratch(len)) && Clear(b, len, scratch, Scratch(len))
  }

  /** Computes c = a * b; of the rest of the arena only Scratch(len) words of scratch change. */
  method InternalMul(mem: array<word>, a: nat, b: nat, c: nat, len: nat, scratch: nat)
    requires MulArgs(mem.Length, a, b, c, len, scratch)
    modifies mem
    ensures V(mem[..], c, 2 * len) == old(Mul(V(mem[..], a, len), V(mem[..], b, len)))
    ensures OnlyChanged2(old(mem[..]), mem[..], c, 2 * len, scratch, Scratch(len))
    decreases len, 1
  {
    hide Val, BPow, Scratch, Mul, V, Ends, EndsSum;
    if len > KARATSUBA_THRESHOLD {
      ghost var m0 := mem[..];
      var toplen := len / 2;
      var botlen := len - toplen;
      var midlen := botlen + 1;
      ScratchStep(len);
      MulEnds(mem, a, b, c, toplen, botlen, scratch);
      ghost var m1 := mem[..];
      SameInputs(m0, m1, a, b, c, toplen, botlen, scratch);
      MulCentre(mem, a, b, toplen, botlen, scratch);
      SameEnds(m1, mem[..], c, toplen, botlen, scratch);
      KaraSizes(m1, a, b, c, toplen, botlen);
      ghost var m2 := mem[..];
      SubtractEnds(mem, c, toplen, botlen, scratch);
      SameEnds(m2, mem[..], c, toplen, botlen, scratch);
      AddAt(mem, c, 2 * len, scratch + 2 * midlen, 2 * midlen, botlen);
    } else {
      MulSchoolbook(mem, a, b, c, len);
    }
  }

  /** How internal_mul cuts its inputs: botlen is the bigger half. */
  ghost predicate Halves(toplen: nat, botlen: nat) {
    toplen == (toplen + botlen) / 2 && toplen + botlen > KARATSUBA_THRESHOLD
  }

  /** The coefficients a1*b1 and a0*b0 are side by side in c. */
  ghost predicate Ends(m: seq<word>, a: nat, b: nat, c: nat, toplen: nat, botlen: nat)
    requires a + toplen + botlen <= |m| && b + toplen + botlen <= |m| && c + 2 * (toplen + botlen) <= |m|
  {
    && V(m, c, 2 * toplen) == Mul(V(m, a, toplen), V(m, b, toplen))
    && V(m, c + 2 * toplen, 2 * botlen) == Mul(V(m, a + toplen, botlen), V(m, b + toplen, botlen))
  }

  ghost function EndsSum(m: seq<word>, c: nat, toplen: nat, botlen: nat): nat
    requires c + 2 * (toplen + botlen) <= |m|
  {
    V(m, c, 2 * toplen) + V(m, c + 2 * toplen, 2 * botlen)
  }

  /** (a1 + a0) * (b1 + b0). */
  ghost function Centre(m: seq<word>, a: nat, b: nat, toplen: nat, botlen: nat): int
    requires a + toplen + botlen <= |m| && b + toplen + botlen <= |m|
  {
    Mul(V(m, a, toplen) + V(m, a + toplen, botlen), V(m, b, toplen) + V(m, b + toplen, botlen))
  }

  method MulEnds(mem: array<word>, a: nat, b: nat, c: nat, toplen: nat, botlen: nat, scratch: nat)
    requires Halves(toplen, botlen) && MulArgs(mem.Length, a, b, c, toplen + botlen, scratch)
    modifies mem
    ensures OnlyChanged2(old(mem[..]), mem[..], c, 2 * (toplen + botlen), scratch, Scratch(toplen + botlen))
    ensures Ends(mem[..], a, b, c, toplen, botlen)
    decreases toplen + botlen, 0
  {
    hide Val, BPow, Scratch, Mul, V;
    ghost var m0 := mem[..];
    ScratchMono(toplen, toplen + botlen);
    ScratchMono(botlen, toplen + botlen);
    InternalMul(mem, a, b, c, toplen, scratch);
    ghost var m1 := mem[..];
    InternalMul(mem, a + toplen, b + toplen, c + 2 * toplen, botlen, scratch);
    Unaffected2(m1, mem[..], c + 2 * toplen, 2 * botlen, scratch, Scratch(botlen), c, 2 * toplen);
    SameInputs(m0, mem[..], a, b, c, toplen, botlen, scratch);
    SameInputs(m1, mem[..], a, b, c, toplen, botlen, scratch);
  }

  lemma SameInputs(m0: seq<word>, m1: seq<word>, a: nat, b: nat, c: nat, toplen: nat, botlen: nat, scratch: nat)
    requires MulArgs(|m0|, a, b, c, toplen + botlen, scratch)
    requires OnlyChanged2(m0, m1, c, 2 * (toplen + botlen), scratch, Scratch(toplen + botlen))
    ensures V(m1, a, toplen) == V(m0, a, toplen) && V(m1, a + toplen, botlen) == V(m0, a + toplen, botlen)
    ensures V(m1, b, toplen) == V(m0, b, toplen) && V(m1, b + toplen, botlen) == V(m0, b + toplen, botlen)
    ensures V(m1, a, toplen + botlen) == V(m0, a, toplen + botlen)
    ensures V(m1, b, toplen + botlen) == V(m0, b, toplen + botlen)
  {
    hide Val, BPow, Scratch, V;
    VSame(m0, m1, a, toplen);
    VSame(m0, m1, a + toplen, botlen);
    VSame(m0, m1, b, toplen);
    VSame(m0, m1, b + toplen, botlen);
    VSame(m0, m1, a, toplen + botlen);
    VSame(m0, m1, b, toplen + botlen);
  }

  /** The product (a1 + a0) * (b1 + b0), computed wholly inside scratch. */
  method MulCentre(mem: array<word>, a: nat, b: nat, toplen: nat, botlen: nat, scratch: nat)
    requires Halves(toplen, botlen) && scratch + Scratch(toplen + botlen) <= mem.Length
    requires a + toplen + botlen <= mem.Length && b + toplen + botlen <= mem.Length
    requires Clear(a, toplen + botlen, scratch, Scratch(toplen + botlen))
    requires Clear(b, toplen + botlen, scratch, Scratch(toplen + botlen))
    modifies mem
    ensures OnlyChanged(old(mem[..]), mem[..], scratch, Scratch(toplen + botlen))
    ensures Scratch(toplen + botlen) >= 4 * (botlen + 1)
    ensures V(mem[..], scratch + 2 * (botlen + 1), 2 * (botlen + 1)) == old(Centre(mem[..], a, b, toplen, botlen))
    decreases toplen + botlen, 0
  {
    hide Val, BPow, Scratch, Mul, V;
    ScratchStep(toplen + botlen);
    ghost var m0 := mem[..];
    var midlen := botlen + 1;
    SumHalves(mem, a, b, toplen, botlen, scratch);
    InternalMul(mem, scratch, scratch + midlen, scratch + 2 * midlen, midlen, scratch + 4 * midlen);
  }

  /** a1 + a0 and b1 + b0, carry words included, side by side in scratch. */
  method SumHalves(mem: array<word>, a: nat, b: nat, toplen: nat, botlen: nat, scratch: nat)
    requires Halves(toplen, botlen) && scratch + 2 * (botlen + 1) <= mem.Length
    requires a + toplen + botlen <= mem.Length && b + toplen + botlen <= mem.Length
    requires Clear(a, toplen + botlen, scratch, 2 * (botlen + 1))
    requires Clear(b, toplen + botlen, scratch, 2 * (botlen + 1))
    modifies mem
    ensures OnlyChanged(old(mem[..]), mem[..], scratch, 2 * (botlen + 1))
    ensures V(mem[..], scratch, botlen + 1) == old(V(mem[..], a, toplen) + V(mem[..], a + toplen, botlen))
    ensures V(mem[..], scratch + (botlen + 1), botlen + 1)
         == old(V(mem[..], b, toplen) + V(mem[..], b + toplen, botlen))
  {
    hide Val, BPow, V;
    ghost var m0 := mem[..];
    PadAdd(mem, a, toplen, a + toplen, botlen, scratch, 1);
    ghost var m1 := mem[..];
    VSame(m0, m1, b, toplen);
    VSame(m0, m1, b + toplen, botlen);
    PadAdd(mem, b, toplen, b + toplen, botlen, scratch + (botlen + 1), 1);
    VSame(m1, mem[..], scratch, botlen + 1);
  }

  /** Takes the outer two coefficients off the central product, leaving a1*b0 + a0*b1. */
  method SubtractEnds(mem: array<word>, c: nat, toplen: nat, botlen: nat, scratch: nat)
    requires Halves(toplen, botlen) && scratch + 4 * (botlen + 1) <= mem.Length
    requires c + 2 * (toplen + botlen) <= mem.Length && Clear(c, 2 * (toplen + botlen), scratch, 4 * (botlen + 1))
    requires EndsSum(mem[..], c, toplen, botlen) <= V(mem[..], scratch + 2 * (botlen + 1), 2 * (botlen + 1))
    modifies mem
    ensures OnlyChanged(old(mem[..]), mem[..], scratch, 4 * (botlen + 1))
    ensures V(mem[..], scratch + 2 * (botlen + 1), 2 * (botlen + 1))
         == old(V(mem[..], scratch + 2 * (botlen + 1), 2 * (botlen + 1)) - EndsSum(mem[..], c, toplen, botlen))
  {
    hide Val, BPow, V;
    ghost var m0 := mem[..];
    var midlen := botlen + 1;
    PadAdd(mem, c, 2 * toplen, c + 2 * toplen, 2 * botlen, scratch, 2);
    VSame(m0, mem[..], scratch + 2 * midlen, 2 * midlen);
    InternalSub(mem, scratch + 2 * midlen, scratch, scratch + 2 * midlen, 2 * midlen);
  }

  lemma SameEnds(m0: seq<word>, m1: seq<word>, c: nat, toplen: nat, botlen: nat, scratch: nat)
    requires c + 2 * (toplen + botlen) <= |m0|
    requires Clear(c, 2 * (toplen + botlen), scratch, Scratch(toplen + botlen))
    requires OnlyChanged(m0, m1, scratch, Scratch(toplen + botlen))
    ensures V(m1, c, 2 * (toplen + botlen)) == V(m0, c, 2 * (toplen + botlen))
    ensures EndsSum(m1, c, toplen, botlen) == EndsSum(m0, c, toplen, botlen)
  {
    hide Val, BPow, V, Scratch;
    VSame(m0, m1, c, 2 * (toplen + botlen));
    VSame(m0, m1, c, 2 * toplen);
    VSame(m0, m1, c + 2 * toplen, 2 * botlen);
  }

  lemma CentreMath(a1: nat, a0: nat, b1: nat, b0: nat)
    ensures (a1 + a0) * (b1 + b0) - (a1 * b1 + a0 * b0) == a1 * b0 + a0 * b1
    ensures a1 * b0 + a0 * b1 >= 0
  {
    Distrib(a1, a0, b1 + b0);
    Distrib(b1, b0, a1);
    Distrib(b1, b0, a0);
    MulNonNeg(a1, b0);
    MulNonNeg(a0, b1);
  }

  lemma ProductMath(a1: int, a0: int, b1: int, b0: int, d: int)
    ensures (a1 * d + a0) * (b1 * d + b0) == (a1 * b1) * (d * d) + a0 * b0 + (a1 * b0 + a0 * b1) * d
  {
    Distrib(a1 * d, a0, b1 * d + b0);
    Distrib(b1 * d, b0, a1 * d);
    Distrib(b1 * d, b0, a0);
    Distrib(a1 * b0, a0 * b1, d);
    Assoc(a1, d, b1 * d);
    Assoc(a1, b1, d * d);
    assert d * (b1 * d) == b1 * (d * d);
    assert (a1 * d) * b0 == (a1 * b0) * d;
    assert a0 * (b1 * d) == (a0 * b1) * d;
  }

  /** Karatsuba's identity: the outer coefficients are e1 and e0, d is the base of the two big digits. */
  lemma KaraMath(a1: nat, a0: nat, b1: nat, b0: nat, d: nat, a: nat, b: nat, c: nat, dd: nat, e1: nat, e0: nat)
    requires a == Mul(a1, d) + a0 && b == Mul(b1, d) + b0 && dd == Mul(d, d)
    requires e1 == Mul(a1, b1) && e0 == Mul(a0, b0) && c == Mul(e1, dd) + e0
    ensures e1 + e0 <= Mul(a1 + a0, b1 + b0)
    ensures c + Mul(Mul(a1 + a0, b1 + b0) - (e1 + e0), d) == Mul(a, b)
  {
    CentreMath(a1, a0, b1, b0);
    ProductMath(a1, a0, b1, b0, d);
  }

  /** The two coefficients in place and the middle one still to be added give the product, which fits. */
  lemma KaraSizes(m: seq<word>, a: nat, b: nat, c: nat, toplen: nat, botlen: nat)
    requires a + toplen + botlen <= |m| && b + toplen + botlen <= |m| && c + 2 * (toplen + botlen) <= |m|
    requires Ends(m, a, b, c, toplen, botlen)
    ensures EndsSum(m, c, toplen, botlen) <= Centre(m, a, b, toplen, botlen)
    ensures V(m, c, 2 * (toplen + botlen))
            + Mul(Centre(m, a, b, toplen, botlen) - EndsSum(m, c, toplen, botlen), BPow(botlen))
         == Mul(V(m, a, toplen + botlen), V(m, b, toplen + botlen)) < BPow(2 * (toplen + botlen))
  {
    hide Val, BPow, V, Mul;
    VSplitMul(m, a, toplen, botlen);
    VSplitMul(m, b, toplen, botlen);
    VSplitMul(m, c, 2 * toplen, 2 * botlen);
    BPowDouble(botlen);
    ProductBound(m, a, b, toplen + botlen);
    KaraMath(V(m, a, toplen), V(m, a + toplen, botlen), V(m, b, toplen), V(m, b + toplen, botlen), BPow(botlen),
             V(m, a, toplen + botlen), V(m, b, toplen + botlen), V(m, c, 2 * toplen + 2 * botlen), BPow(2 * botlen),
             V(m, c, 2 * toplen), V(m, c + 2 * toplen, 2 * botlen));
  }

  lemma VSplitMul(m: seq<word>, at: nat, hi: nat, lo: nat)
    requires at + hi + lo <= |m|
    ensures V(m, at, hi + lo) == Mul(V(m, at, hi), BPow(lo)) + V(m, at + hi, lo)
  {
    VSplit(m, at, hi, lo);
  }

  lemma BPowDouble(n: nat)
    ensures BPow(2 * n) == Mul(BPow(n), BPow(n))
  {
    BPowAdd(n, n);
  }

  lemma ProductBound(m: seq<word>, a: nat, b: nat, len: nat)
    requires a + len <= |m| && b + len <= |m|
    ensures Mul(V(m, a, len), V(m, b, len)) < BPow(2 * len)
  {
    hide Val, BPow;
    VBound(m, a, len);
    VBound(m, b, len);
    MulMono(V(m, a, len), BPow(len), V(m, b, len));
    MulStrict(V(m, b, len), BPow(len), BPow(len));
    BPowAdd(len, len);
  }
}
