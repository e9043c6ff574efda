/** internal_mul_low: the low len words of a product. */
module MulLow {
  import opened Arith
  import opened Words
  import opened AddSub
  import opened Karatsuba

  /** Word at carries the outer loop's counter i: the words of a from i on are multiplied in, modulo B^len. */
  ghost predicate LowInv(m0: seq<word>, m: seq<word>, a: nat, b: nat, c: nat, len: nat, i: nat, q: nat) {
    && i <= len && a + len <= |m0| && b + len <= |m0| && c + len <= |m0|
    && Clear(a, len, c, len) && Clear(b, len, c, len)
    && OnlyChanged(m0, m, c, len)
    && V(m, c, len) + Mul(q, BPow(len)) == Mul(V(m0, a + i, len - i), V(m0, b, len))
  }

  lemma LowRowMath(c0: nat, c1: nat, top0: nat, top1: nat, rest: nat, x: nat, carry: nat, b: nat, bhi: nat, blo: nat,
                   p: nat, r: nat, pr: nat, q: nat, tail: nat)
    requires c0 == Mul(top0, p) + rest && c1 == Mul(top1, p) + rest && pr == Mul(r, p)
    requires top1 + Mul(carry, r) == top0 + Mul(x, blo) && b == Mul(bhi, r) + blo
    requires c0 + Mul(q, pr) == Mul(tail, b)
    ensures c1 + Mul(q + carry + Mul(x, bhi), pr) == Mul(Mul(x, p) + tail, b)
  {
    var xb := Mul(x, b);
    assert xb == Mul(Mul(x, bhi), r) + Mul(x, blo) by {
      Distrib(Mul(bhi, r), blo, x);
      Assoc(x, bhi, r);
    }
    var k := carry + Mul(x, bhi);
    assert top1 + Mul(k, r) == top0 + xb by { Distrib(carry, Mul(x, bhi), r); }
    assert c1 + Mul(Mul(k, r), p) == c0 + Mul(xb, p) by {
      Distrib(top1, Mul(k, r), p);
      Distrib(top0, xb, p);
    }
    Assoc(k, r, p);
    Distrib(q, k, pr);
    Distrib(Mul(x, p), tail, b);
    assert Mul(Mul(x, p), b) == Mul(xb, p) by {
      Assoc(x, p, b);
      Assoc(x, b, p);
    }
  }

  /** The body of the outer loop: one row, with whatever leaves the len words dropped. */
  method LowRow(mem: array<word>, ghost m0: seq<word>, a: nat, b: nat, c: nat, len: nat, i: nat, ghost q: nat)
    returns (ghost q': nat)
    requires i < len && LowInv(m0, mem[..], a, b, c, len, i + 1, q)
    modifies mem
    ensures LowInv(m0, mem[..], a, b, c, len, i, q')
  {
    hide Val, BPow, V, Mul;
    ghost var m1 := mem[..];
    var low := len - 1 - i;
    VSame(m0, m1, b + low, i + 1);
    var carry := MulRowM(mem, mem[a + i], b + low, c, i + 1);
    q' := q + carry + Mul(m0[a + i], V(m0, b, low));
    LowRowDone(m0, m1, mem[..], a, b, c, len, i, q, carry);
  }

  method MulRowM(mem: array<word>, x: word, b: nat, cp: nat, len: nat) returns (carry: word)
    requires b + len <= mem.Length && cp + len <= mem.Length && Clear(b, len, cp, len)
    modifies mem
    ensures V(mem[..], cp, len) + Mul(carry, BPow(len)) == old(V(mem[..], cp, len) + Mul(x, V(mem[..], b, len)))
    ensures OnlyChanged(old(mem[..]), mem[..], cp, len)
  {
    hide Val, BPow, V;
    carry := MulRow(mem, x, b, cp, len);
  }

  lemma LowRowDone(m0: seq<word>, m1: seq<word>, m2: seq<word>, a: nat, b: nat, c: nat, len: nat, i: nat,
                   q: nat, carry: nat)
    requires i < len && LowInv(m0, m1, a, b, c, len, i + 1, q)
    requires OnlyChanged(m1, m2, c, i + 1)
    requires V(m2, c, i + 1) + Mul(carry, BPow(i + 1))
          == V(m1, c, i + 1) + Mul(m0[a + i], V(m0, b + (len - 1 - i), i + 1))
    ensures LowInv(m0, m2, a, b, c, len, i, q + carry + Mul(m0[a + i], V(m0, b, len - 1 - i)))
  {
    hide Val, BPow, V, Mul;
    var low := len - 1 - i;
    VSplitMul(m1, c, i + 1, low);
    VSplitMul(m2, c, i + 1, low);
    VSame(m1, m2, c + (i + 1), low);
    VSplitMul(m0, b, low, i + 1);
    VStepMul(m0, a + i, low);
    BPowAddMul(i + 1, low);
    LowRowMath(V(m1, c, len), V(m2, c, len), V(m1, c, i + 1), V(m2, c, i + 1), V(m1, c + (i + 1), low),
               m0[a + i], carry, V(m0, b, len), V(m0, b, low), V(m0, b + low, i + 1),
               BPow(low), BPow(i + 1), BPow(len), q, V(m0, a + i + 1, len - i - 1));
  }

  lemma VStepMul(m: seq<word>, at: nat, len: nat)
    requires at + len < |m|
    ensures V(m, at, len + 1) == Mul(m[at], BPow(len)) + V(m, at + 1, len)
  {
    VStep(m, at, len);
  }

  lemma BPowAddMul(m: nat, n: nat)
    ensures BPow(m + n) == Mul(BPow(m), BPow(n))
  {
    BPowAdd(m, n);
  }

  /** The ordinary O(N^2) branch. */
  method MulLowSchoolbook(mem: array<word>, a: nat, b: nat, c: nat, len: nat) returns (ghost q: nat)
    requires a + len <= mem.Length && b + len <= mem.Length && c + len <= mem.Length
    requires Clear(a, len, c, len) && Clear(b, len, c, len)
    modifies mem
    ensures V(mem[..], c, len) + Mul(q, BPow(len)) == old(Mul(V(mem[..], a, len), V(mem[..], b, len)))
    ensures OnlyChanged(old(mem[..]), mem[..], c, len)
  {
    hide Val, BPow, V;
    ghost var m0 := mem[..];
    ZeroFill(mem, c, len);
    var i := len;
    q := 0;
    VZero(mem[..], c, len);
    VZero(m0, a + len, 0);
    while i > 0
      invariant i >= 0 && LowInv(m0, mem[..], a, b, c, len, i, q)
    {
      i := i - 1;
      q := LowRow(mem, m0, a, b, c, len, i, q);
    }
  }

  ghost predicate LowArgs(size: nat, a: nat, b: nat, c: nat, len: nat, scratch: nat) {
    && a + len <= size && b + len <= size && c + len <= size && scratch + Scratch(len) <= size
    && Clear(a, len, c, len) && Clear(b, len, c, len) && Clear(c, len, scratch, Scratch(len))
    && Clear(a, len, scratch, Scratch(len)) && Clear(b, len, scratch, Scratch(len))
  }

  /** Computes c = a * b modulo B^len within internal_mul's scratch bound; q is the part thrown away. */
  method InternalMulLow(mem: array<word>, a: nat, b: nat, c: nat, len: nat, scratch: nat) returns (ghost q: nat)
    requires LowArgs(mem.Length, a, b, c, len, scratch)
    modifies mem
    ensures V(mem[..], c, len) + Mul(q, BPow(len)) == old(Mul(V(mem[..], a, len), V(mem[..], b, len)))
    ensures OnlyChanged2(old(mem[..]), mem[..], c, len, scratch, Scratch(len))
    decreases len, 2
  {
    hide Val, BPow, Scratch, Mul, V, LowParts;
    if len > KARATSUBA_THRESHOLD {
      ghost var m0 := mem[..];
      var toplen := len / 2;
      var botlen := len - toplen;
      ScratchRoom(len);
      ghost var q1, q2 := LowProducts(mem, a, b, toplen, botlen, scratch);
      ghost var m1 := mem[..];
      var k := LowCombine(mem, c, toplen, botlen, scratch);
      q := LowResult(m0, m1, mem[..], a, b, c, toplen, botlen, scratch, q1, q2, k);
    } else {
      q := MulLowSchoolbook(mem, a, b, c, len);
    }
  }

  /** The 2*len words this routine uses itself, and what the calls it makes need above them. */
  lemma ScratchRoom(len: nat)
    requires len > KARATSUBA_THRESHOLD
    ensures 2 * len + Scratch(len - len / 2) <= Scratch(len)
    ensures 2 * len + Scratch(len / 2) <= Scratch(len)
  {
    hide Scratch;
    ScratchStep(len);
    ScratchMono(len - len / 2, len - len / 2 + 1);
    ScratchMono(len / 2, len - len / 2 + 1);
  }

  /** scratch holds a0*b1 low, a1*b0 low and all of a0*b0, where q1 and q2 are the parts thrown away. */
  ghost predicate LowParts(m0: seq<word>, m: seq<word>, a: nat, b: nat, toplen: nat, botlen: nat, scratch: nat,
                           q1: nat, q2: nat)
    requires a + toplen + botlen <= |m0| && b + toplen + botlen <= |m0| && scratch + 2 * (toplen + botlen) <= |m|
  {
    && V(m, scratch + 2 * toplen, 2 * botlen) == Mul(V(m0, a + toplen, botlen), V(m0, b + toplen, botlen))
    && V(m, scratch + toplen, toplen) + Mul(q1, BPow(toplen)) == Mul(V(m0, a, toplen), V(m0, b + botlen, toplen))
    && V(m, scratch, toplen) + Mul(q2, BPow(toplen)) == Mul(V(m0, a + botlen, toplen), V(m0, b, toplen))
  }

  method LowProducts(mem: array<word>, a: nat, b: nat, toplen: nat, botlen: nat, scratch: nat)
    returns (ghost q1: nat, ghost q2: nat)
    requires Halves(toplen, botlen)
    requires a + toplen + botlen <= mem.Length && b + toplen + botlen <= mem.Length
    requires scratch + Scratch(toplen + botlen) <= mem.Length
    requires 2 * (toplen + botlen) + Scratch(botlen) <= Scratch(toplen + botlen)
    requires 2 * (toplen + botlen) + Scratch(toplen) <= Scratch(toplen + botlen)
    requires Clear(a, toplen + botlen, scratch, Scratch(toplen + botlen))
    requires Clear(b, toplen + botlen, scratch, Scratch(toplen + botlen))
    modifies mem
    ensures OnlyChanged(old(mem[..]), mem[..], scratch, Scratch(toplen + botlen))
    ensures LowParts(old(mem[..]), mem[..], a, b, toplen, botlen, scratch, q1, q2)
    decreases toplen + botlen, 1
  {
    hide Val, BPow, Scratch, Mul, V;
    ghost var m0 := mem[..];
    var len := toplen + botlen;
    InternalMul(mem, a + toplen, b + toplen, scratch + 2 * toplen, botlen, scratch + 2 * len);
    ghost var m1 := mem[..];
    VSame(m0, m1, a, toplen);
    VSame(m0, m1, b + botlen, toplen);
    VSame(m0, m1, a + botlen, toplen);
    VSame(m0, m1, b, toplen);
    q1, q2 := CrossProducts(mem, a, b, toplen, botlen, scratch);
    VSame(m1, mem[..], scratch + 2 * toplen, 2 * botlen);
  }

  method CrossProducts(mem: array<word>, a: nat, b: nat, toplen: nat, botlen: nat, scratch: nat)
    returns (ghost q1: nat, ghost q2: nat)
    requires Halves(toplen, botlen)
    requires a + toplen + botlen <= mem.Length && b + toplen + botlen <= mem.Length
    requires scratch + 2 * (toplen + botlen) + Scratch(toplen) <= mem.Length
    requires Clear(a, toplen + botlen, scratch, 2 * (toplen + botlen) + Scratch(toplen))
    requires Clear(b, toplen + botlen, scratch, 2 * (toplen + botlen) + Scratch(toplen))
    modifies mem
    ensures OnlyChanged2(old(mem[..]), mem[..], scratch, 2 * toplen, scratch + 2 * (toplen + botlen), Scratch(toplen))
    ensures V(mem[..], scratch + toplen, toplen) + Mul(q1, BPow(toplen))
         == old(Mul(V(mem[..], a, toplen), V(mem[..], b + botlen, toplen)))
    ensures V(mem[..], scratch, toplen) + Mul(q2, BPow(toplen))
         == old(Mul(V(mem[..], a + botlen, toplen), V(mem[..], b, toplen)))
    decreases toplen + botlen, 0
  {
    hide Val, BPow, Scratch, Mul, V;
    ghost var m1 := mem[..];
    var len := toplen + botlen;
    q1 := InternalMulLow(mem, a, b + botlen, scratch + toplen, toplen, scratch + 2 * len);
    ghost var m2 := mem[..];
    VSame(m1, m2, a + botlen, toplen);
    VSame(m1, m2, b, toplen);
    q2 := InternalMulLow(mem, a + botlen, b, scratch, toplen, scratch + 2 * len);
    VSame(m2, mem[..], scratch + toplen, toplen);
  }

  /** Adds the two small coefficients and the big one into c; k counts the carries thrown away. */
  method LowCombine(mem: array<word>, c: nat, toplen: nat, botlen: nat, scratch: nat) returns (ghost k: nat)
    requires Halves(toplen, botlen) && c + toplen + botlen <= mem.Length
    requires scratch + 2 * (toplen + botlen) <= mem.Length && Clear(c, toplen + botlen, scratch, 2 * (toplen + botlen))
    modifies mem
    ensures OnlyChanged2(old(mem[..]), mem[..], c, toplen + botlen, scratch, 2 * (toplen + botlen))
    ensures V(mem[..], c + toplen, botlen) == old(V(mem[..], scratch + 2 * toplen + botlen, botlen))
    ensures V(mem[..], c, toplen) + Mul(k, BPow(toplen))
         == old(V(mem[..], scratch, toplen) + V(mem[..], scratch + toplen, toplen)
                + V(mem[..], scratch + 2 * toplen + botlen - toplen, toplen))
  {
    hide Val, BPow, V, Mul;
    ghost var m0 := mem[..];
    CopyWords(mem, scratch + 2 * toplen + botlen, c + toplen, botlen);
    ghost var m1 := mem[..];
    VSame(m0, m1, scratch, toplen);
    VSame(m0, m1, scratch + toplen, toplen);
    var k1 := AddM(mem, scratch, scratch + toplen, scratch, toplen);
    ghost var m2 := mem[..];
    VSame(m0, m2, scratch + 2 * toplen + botlen - toplen, toplen);
    var k2 := AddM(mem, scratch, scratch + 2 * toplen + botlen - toplen, c, toplen);
    VSame(m1, mem[..], c + toplen, botlen);
    MulPlus(k1, k2, BPow(toplen));
    k := k1 + k2;
  }

  method AddM(mem: array<word>, a: nat, b: nat, c: nat, len: nat) returns (carry: nat)
    requires a + len <= mem.Length && b + len <= mem.Length && c + len <= mem.Length
    requires Apart(a, c, len) && Apart(b, c, len)
    modifies mem
    ensures carry <= 1
    ensures V(mem[..], c, len) + Mul(carry, BPow(len)) == old(V(mem[..], a, len) + V(mem[..], b, len))
    ensures OnlyChanged(old(mem[..]), mem[..], c, len)
  {
    hide Val, BPow, V;
    carry := InternalAdd(mem, a, b, c, len);
  }

  method CopyWords(mem: array<word>, from: nat, to: nat, n: nat)
    requires from + n <= mem.Length && to + n <= mem.Length && Clear(from, n, to, n)
    modifies mem
    ensures V(mem[..], to, n) == old(V(mem[..], from, n))
    ensures OnlyChanged(old(mem[..]), mem[..], to, n)
  {
    hide Val;
    ghost var m0 := mem[..];
    var i := 0;
    while i < n
      invariant 0 <= i <= n
      invariant OnlyChanged(m0, mem[..], to, n)
      invariant mem[to..to + i] == m0[from..from + i]
    {
      mem[to + i] := mem[from + i];
      i := i + 1;
    }
  }

  /** The factors as values: a = a1*d + a0, and the low t of b0 and a0. The result is s2*d + l0. */
  lemma LowMath(a1: nat, a0: nat, b1: nat, b0: nat, d: nat, t: nat, e: nat, a0hi: nat, a0lo: nat, b0hi: nat, b0lo: nat,
                p: nat, h1: nat, h0: nat, l0: nat, x1: nat, x2: nat, q1: nat, q2: nat, s: nat, k: nat) returns (q: nat)
    requires d == Mul(t, e)
    requires a0 == Mul(a0hi, t) + a0lo && b0 == Mul(b0hi, t) + b0lo
    requires p == Mul(a0, b0) == Mul(Mul(h1, t) + h0, d) + l0
    requires x1 + Mul(q1, t) == Mul(a1, b0lo) && x2 + Mul(q2, t) == Mul(a0lo, b1)
    requires s + Mul(k, t) == x2 + x1 + h0
    ensures Mul(s, d) + l0 + Mul(q, Mul(t, d)) == Mul(Mul(a1, d) + a0, Mul(b1, d) + b0)
  {
    var u1 := Mul(a1, b0hi) + q1;
    assert Mul(a1, b0) == x1 + Mul(u1, t) by {
      Distrib(Mul(b0hi, t), b0lo, a1);
      Assoc(a1, b0hi, t);
      Distrib(Mul(a1, b0hi), q1, t);
    }
    var u2 := Mul(a0hi, b1) + q2;
    assert Mul(a0, b1) == x2 + Mul(u2, t) by {
      Distrib(Mul(a0hi, t), a0lo, b1);
      Mul3(a0hi, t, b1);
      Distrib(Mul(a0hi, b1), q2, t);
    }
    var u := h1 + u1 + u2 + k;
    q := u + Mul(Mul(a1, b1), e);
    LowMath2(Mul(a1, b1), Mul(a1, b0), Mul(a0, b1), p, d, t, e, h1, h0, l0, x1, x2, u1, u2, s, k, q);
    ProductMath(a1, a0, b1, b0, d);
  }

  lemma LowMath2(ab: int, m1: int, m2: int, p: int, d: int, t: int, e: int, h1: int, h0: int, l0: int, x1: int, x2: int,
                 u1: int, u2: int, s: int, k: int, q: int)
    requires d == Mul(t, e) && m1 == x1 + Mul(u1, t) && m2 == x2 + Mul(u2, t)
    requires p == Mul(Mul(h1, t) + h0, d) + l0
    requires s + Mul(k, t) == x2 + x1 + h0
    requires q == h1 + u1 + u2 + k + Mul(ab, e)
    ensures Mul(s, d) + l0 + Mul(q, Mul(t, d)) == Mul(ab, Mul(d, d)) + p + Mul(m1 + m2, d)
  {
    var u := h1 + u1 + u2 + k;
    assert s + Mul(u, t) == m1 + m2 + (Mul(h1, t) + h0) by {
      Distrib(h1 + u1 + u2, k, t);
      Distrib(h1 + u1, u2, t);
      Distrib(h1, u1, t);
    }
    assert Mul(s, d) + Mul(Mul(u, t), d) == Mul(m1 + m2, d) + Mul(Mul(h1, t) + h0, d) by {
      Distrib(s, Mul(u, t), d);
      Distrib(m1 + m2, Mul(h1, t) + h0, d);
    }
    Assoc(u, t, d);
    Distrib(u, Mul(ab, e), Mul(t, d));
    assert Mul(Mul(ab, e), Mul(t, d)) == Mul(ab, Mul(d, d)) by {
      Assoc(ab, e, Mul(t, d));
      Assoc(e, t, d);
    }
  }

  lemma LowResult(m0: seq<word>, m1: seq<word>, m: seq<word>, a: nat, b: nat, c: nat, toplen: nat, botlen: nat,
                  scratch: nat, q1: nat, q2: nat, k: nat) returns (q: nat)
    requires toplen <= botlen && |m0| == |m1| == |m|
    requires a + toplen + botlen <= |m0| && b + toplen + botlen <= |m0| && c + toplen + botlen <= |m0|
    requires scratch + 2 * (toplen + botlen) <= |m0|
    requires LowParts(m0, m1, a, b, toplen, botlen, scratch, q1, q2)
    requires V(m, c + toplen, botlen) == V(m1, scratch + 2 * toplen + botlen, botlen)
    requires V(m, c, toplen) + Mul(k, BPow(toplen))
          == V(m1, scratch, toplen) + V(m1, scratch + toplen, toplen)
             + V(m1, scratch + 2 * toplen + botlen - toplen, toplen)
    ensures V(m, c, toplen + botlen) + Mul(q, BPow(toplen + botlen))
         == Mul(V(m0, a, toplen + botlen), V(m0, b, toplen + botlen))
  {
    hide Val, BPow, V, Mul;
    var z := scratch + 2 * toplen;
    var ex := botlen - toplen;
    VSplitMul(m0, a, toplen, botlen);
    VSplitMul(m0, b, toplen, botlen);
    VSplitMul(m0, a + toplen, ex, toplen);
    VSplitMul(m0, b + toplen, ex, toplen);
    VSplitMul(m1, z, botlen, botlen);
    VSplitMul(m1, z, ex, toplen);
    VSplitMul(m, c, toplen, botlen);
    BPowAddMul(toplen, ex);
    BPowAddMul(toplen, botlen);
    q := LowMath(V(m0, a, toplen), V(m0, a + toplen, botlen), V(m0, b, toplen), V(m0, b + toplen, botlen),
                 BPow(botlen), BPow(toplen), BPow(ex), V(m0, a + toplen, ex), V(m0, a + botlen, toplen),
                 V(m0, b + toplen, ex), V(m0, b + botlen, toplen), V(m1, z, 2 * botlen), V(m1, z, ex),
                 V(m1, z + ex, toplen), V(m1, z + botlen, botlen), V(m1, scratch + toplen, toplen),
                 V(m1, scratch, toplen), q1, q2, V(m, c, toplen), k);
  }
}
