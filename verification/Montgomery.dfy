/** monty_reduce: x := x / r modulo n by multiplication alone. */
module Montgomery {
  import opened Arith
  import opened Words
  import opened AddSub
  import opened Karatsuba
  import opened MulLow
  import opened Modular

  /** mninv is the inverse of -n modulo r. */
  ghost predicate NegInverse(mninv: nat, n: nat, r: nat) {
    exists k: nat :: Mul(mninv, n) + 1 == Mul(k, r)
  }

  ghost predicate MontyArgs(size: nat, x: nat, n: nat, mninv: nat, tmp: nat, len: nat) {
    && x + 2 * len <= size && n + len <= size && mninv + len <= size && tmp + 3 * len + Scratch(len) <= size
    && Clear(n, len, x, 2 * len) && Clear(mninv, len, x, 2 * len) && Clear(x, 2 * len, tmp, 3 * len + Scratch(len))
    && Clear(n, len, tmp, 3 * len + Scratch(len)) && Clear(mninv, len, tmp, 3 * len + Scratch(len))
  }

  /** What the two multiplications and the addition leave: a multiple of r, below 2*n*r when x is below r*n. */
  lemma MontyMath(x: nat, x1: nat, x0: nat, m: nat, q: nat, mninv: nat, n: nat, r: nat, k: nat, sum: nat,
                  y: nat, top: nat, low: nat, carry: nat)
    requires x == Mul(x1, r) + x0 && x0 < r && x1 < r && m < r && n < r
    requires m + Mul(q, r) == Mul(x0, mninv) && Mul(mninv, n) + 1 == Mul(k, r)
    requires sum == x + Mul(m, n) == y + Mul(carry, Mul(r, r))
    requires y == Mul(top, r) + low && low < r && carry <= 1
    ensures low == 0 && sum == Mul(top + Mul(carry, r), r) && top + Mul(carry, r) < r + n
    ensures x < Mul(r, n) ==> top + Mul(carry, r) < 2 * n
  {
    hide Mul;
    var t := x1 + (Mul(x0, k) - Mul(q, n));
    MontySum(x1, x0, m, q, mninv, n, r, k, x);
    var t' := top + Mul(carry, r);
    MulAssoc(carry, r, r);
    MulPlus(top, Mul(carry, r), r);
    SameQuotient(t, 0, t', low, r);
    if n == 0 {
      MulUnit(m);
      MulUnit(r);
    } else {
      MulLt(m, r, n);
    }
    MulComm(n, r);
    MulLe(x1 + 1, r, r);
    MulPlus(x1, 1, r);
    MulUnit(r);
    MulPlus(r, n, r);
    CancelLt(t', r + n, r);
    if x < Mul(r, n) {
      MulAssoc(2, n, r);
      MulUnit(Mul(n, r));
      MulUnit(n);
      CancelLt(t', 2 * n, r);
    }
  }

  lemma MontySum(x1: int, x0: int, m: int, q: int, mninv: int, n: int, r: int, k: int, x: int)
    requires x == Mul(x1, r) + x0
    requires m + Mul(q, r) == Mul(x0, mninv) && Mul(mninv, n) + 1 == Mul(k, r)
    ensures x + Mul(m, n) == Mul(x1 + (Mul(x0, k) - Mul(q, n)), r)
  {
    hide Mul;
    MulPlus(m, Mul(q, r), n);
    Mul3(q, r, n);
    MulAssoc(x0, mninv, n);
    MulMinus(Mul(k, r), 1, x0);
    MulUnit(x0);
    MulAssoc(x0, k, r);
    MulPlus(x1, Mul(x0, k) - Mul(q, n), r);
    MulMinus(Mul(x0, k), Mul(q, n), r);
  }

  /** The comparison before the last subtraction: whether the number at a is at least the one at b. */
  method AtLeast(mem: array<word>, a: nat, b: nat, len: nat) returns (ge: bool)
    requires a + len <= mem.Length && b + len <= mem.Length
    ensures ge <==> V(mem[..], a, len) >= V(mem[..], b, len)
  {
    hide Val, BPow;
    var i := 0;
    while i < len && mem[a + i] == mem[b + i]
      invariant 0 <= i <= len
      invariant mem[a..a + i] == mem[b..b + i]
    {
      i := i + 1;
    }
    ge := i >= len || mem[a + i] > mem[b + i];
    ghost var s, t := mem[a..a + len], mem[b..b + len];
    if i < len {
      assert s[..i] == mem[a..a + i] && t[..i] == mem[b..b + i];
      if mem[a + i] > mem[b + i] {
        ValCompare(t, s, i);
      } else {
        ValCompare(s, t, i);
      }
    } else {
      assert s == t;
    }
  }

  /** x := m*n + x with m = x * mninv mod r; the carry off the top is returned. */
  method MontyAdd(mem: array<word>, x: nat, n: nat, mninv: nat, tmp: nat, len: nat)
    returns (carry: nat, ghost m: nat, ghost q: nat)
    requires MontyArgs(mem.Length, x, n, mninv, tmp, len)
    modifies mem
    ensures OnlyChanged2(old(mem[..]), mem[..], x, 2 * len, tmp, 3 * len + Scratch(len))
    ensures m < BPow(len) && carry <= 1
    ensures m + Mul(q, BPow(len)) == old(Mul(V(mem[..], x + len, len), V(mem[..], mninv, len)))
    ensures V(mem[..], x, 2 * len) + Mul(carry, BPow(2 * len)) == old(V(mem[..], x, 2 * len) + Mul(m, V(mem[..], n, len)))
  {
    hide Val, BPow, Scratch, Mul, V;
    ghost var m0 := mem[..];
    q := InternalMulLow(mem, x + len, mninv, tmp, len, tmp + 3 * len);
    ghost var m1 := mem[..];
    m := V(m1, tmp, len);
    VBound(m1, tmp, len);
    VSame(m0, m1, n, len);
    InternalMul(mem, tmp, n, tmp + len, len, tmp + 3 * len);
    VSame(m0, mem[..], x, 2 * len);
    carry := AddM(mem, x, tmp + len, x, 2 * len);
  }

  /** Moves the upper half of x down and clears it. */
  method ShiftDown(mem: array<word>, x: nat, len: nat)
    requires x + 2 * len <= mem.Length
    modifies mem
    ensures OnlyChanged(old(mem[..]), mem[..], x, 2 * len)
    ensures V(mem[..], x + len, len) == old(V(mem[..], x, len))
    ensures V(mem[..], x, 2 * len) == V(mem[..], x + len, len)
    ensures forall i :: x <= i < x + len ==> mem[i] == 0
  {
    hide Val, V, BPow;
    ghost var m0 := mem[..];
    var i := 0;
    while i < len
      invariant 0 <= i <= len
      invariant OnlyChanged(m0, mem[..], x, 2 * len)
      invariant forall j :: x + i <= j < x + len ==> mem[j] == m0[j]
      invariant forall j :: x + len <= j < x + len + i ==> mem[j] == m0[j - len]
      invariant forall j :: x <= j < x + i ==> mem[j] == 0
    {
      mem[x + len + i], mem[x + i] := mem[x + i], 0;
      i := i + 1;
    }
    VMoved(m0, mem[..], x, x + len, len);
    LeadingZeros(mem[..], x, len, len);
  }

  lemma VMoved(m0: seq<word>, m1: seq<word>, from: nat, to: nat, len: nat)
    requires from + len <= |m0| && to + len <= |m1| && forall j :: to <= j < to + len ==> m1[j] == m0[j - to + from]
    ensures V(m1, to, len) == V(m0, from, len)
  {
    assert m1[to..to + len] == m0[from..from + len];
  }

  /** One subtraction of n, if it fits. */
  function Reduced(t: nat, n: nat): (r: nat)
    ensures t < 2 * n ==> r < n
  {
    if t >= n then t - n else t
  }

  /** Replaces x by t = (x + m*n) / r, less n if it fits: below n, and t * r congruent to x, when x is below r*n. */
  method MontyReduce(mem: array<word>, x: nat, n: nat, mninv: nat, tmp: nat, len: nat) returns (ghost t: nat, ghost m: nat)
    requires MontyArgs(mem.Length, x, n, mninv, tmp, len)
    requires NegInverse(V(mem[..], mninv, len), V(mem[..], n, len), BPow(len))
    modifies mem
    ensures OnlyChanged2(old(mem[..]), mem[..], x, 2 * len, tmp, 3 * len + Scratch(len))
    ensures m < BPow(len) && Mul(t, BPow(len)) == old(V(mem[..], x, 2 * len) + Mul(m, V(mem[..], n, len)))
    ensures V(mem[..], x, 2 * len) == V(mem[..], x + len, len) == Reduced(t, old(V(mem[..], n, len)))
    ensures old(V(mem[..], x, 2 * len) < Mul(BPow(len), V(mem[..], n, len))) ==> t < 2 * old(V(mem[..], n, len))
    ensures Cong(Mul(V(mem[..], x, 2 * len), BPow(len)), old(V(mem[..], x, 2 * len)), old(V(mem[..], n, len)))
  {
    hide Val, BPow, Scratch, Mul, V, Cong, NegInverse;
    ghost var m0 := mem[..];
    var carry;
    ghost var q;
    carry, m, q := MontyAdd(mem, x, n, mninv, tmp, len);
    ghost var m1 := mem[..];
    MontyExact(m0, m1, x, n, mninv, len, carry, m, q);
    ShiftDown(mem, x, len);
    VSame(m0, mem[..], n, len);
    var ge := true;
    if carry == 0 {
      ge := AtLeast(mem, x + len, n, len);
    }
    ghost var m2 := mem[..];
    if ge {
      InternalSub(mem, x + len, n, x + len, len);
      LeadingZeros(mem[..], x, len, len);
    }
    VBound(m0, n, len);
    VBound(m1, x, len);
    t := V(m1, x, len) + Mul(carry, BPow(len));
    MontyDone(V(m0, x, 2 * len), V(m2, x + len, len), carry, V(m0, n, len), BPow(len), m, ge,
              V(mem[..], x + len, len));
  }

  lemma MontyExact(m0: seq<word>, m1: seq<word>, x: nat, n: nat, mninv: nat, len: nat, carry: nat, m: nat, q: nat)
    requires |m0| == |m1| && x + 2 * len <= |m0| && n + len <= |m0| && mninv + len <= |m0|
    requires NegInverse(V(m0, mninv, len), V(m0, n, len), BPow(len))
    requires m < BPow(len) && carry <= 1
    requires m + Mul(q, BPow(len)) == Mul(V(m0, x + len, len), V(m0, mninv, len))
    requires V(m1, x, 2 * len) + Mul(carry, BPow(2 * len)) == V(m0, x, 2 * len) + Mul(m, V(m0, n, len))
    ensures V(m0, x, 2 * len) + Mul(m, V(m0, n, len)) == Mul(V(m1, x, len) + Mul(carry, BPow(len)), BPow(len))
    ensures V(m1, x, len) + Mul(carry, BPow(len)) < BPow(len) + V(m0, n, len)
    ensures V(m0, x, 2 * len) < Mul(BPow(len), V(m0, n, len))
            ==> V(m1, x, len) + Mul(carry, BPow(len)) < 2 * V(m0, n, len)
  {
    hide Val, BPow, Mul, V;
    var k: nat :| Mul(V(m0, mninv, len), V(m0, n, len)) + 1 == Mul(k, BPow(len));
    VSplitMul(m0, x, len, len);
    VSplitMul(m1, x, len, len);
    VBound(m0, x, len);
    VBound(m0, x + len, len);
    VBound(m1, x + len, len);
    VBound(m0, n, len);
    BPowDouble(len);
    MontyMath(V(m0, x, 2 * len), V(m0, x, len), V(m0, x + len, len), m, q, V(m0, mninv, len), V(m0, n, len),
              BPow(len), k, V(m0, x, 2 * len) + Mul(m, V(m0, n, len)), V(m1, x, 2 * len), V(m1, x, len),
              V(m1, x + len, len), carry);
  }

  lemma MontyDone(x: nat, top: nat, carry: nat, n: nat, r: nat, m: nat, ge: bool, res: nat)
    requires x + Mul(m, n) == Mul(top + Mul(carry, r), r) && top + Mul(carry, r) < r + n && n < r && top < r && carry <= 1
    requires ge <==> carry != 0 || top >= n
    requires res == if ge then top - n + (if top < n then r else 0) else top
    ensures res == Reduced(top + Mul(carry, r), n) && Cong(Mul(res, r), x, n)
  {
    var t := top + Mul(carry, r);
    assert carry == 1 ==> Mul(carry, r) == r;
    assert carry == 0 ==> Mul(carry, r) == 0;
    var s := if ge then 1 else 0;
    assert res == t - s * n;
    Distrib(t, -(s * n), r);
    Mul3(s, n, r);
    Distrib(m, -Mul(s, r), n);
    CongBy(Mul(res, r), x, n, m - Mul(s, r));
  }
}
