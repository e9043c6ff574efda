/** internal_add and internal_sub: the carry loops every other routine of sshbn.c rests on. */
module AddSub {
  import opened Arith
  import opened Words

  /** A C pointer into the arena, used as source while [c, c+len) is written: the same array or one clear of it. */
  ghost predicate Apart(a: nat, c: nat, len: nat) {
    a == c || a + len <= c || c + len <= a
  }

  /** Nothing outside [c, c+len) differs between the two memories. */
  ghost predicate OnlyChanged(m0: seq<word>, m1: seq<word>, c: nat, len: nat) {
    |m0| == |m1| && forall i :: 0 <= i < |m0| && !(c <= i < c + len) ==> m1[i] == m0[i]
  }

  /** One word of a carry loop: the low parts agree up to a carry c0, and so do the next words up to c1. */
  lemma CarryStep(x: int, y: int, sign: int, z: int, c0: int, c1: int, p: int, xs: int, ys: int, zs: int)
    requires z + c1 * B == x + sign * y + c0
    requires zs + c0 * p == xs + sign * ys
    ensures z * p + zs + c1 * (B * p) == (x * p + xs) + sign * (y * p + ys)
  {
    Assoc(c1, B, p);
    Distrib(z, c1 * B, p);
    Distrib(x + sign * y, c0, p);
    Distrib(x, sign * y, p);
    Assoc(sign, y, p);
    Distrib(y * p, ys, sign);
  }

  /** The invariant of the carry loops: sign * b is being added to a, and [c+i, c+len) is done. */
  ghost predicate CarryInv(m0: seq<word>, m1: seq<word>, a: nat, b: nat, c: nat, len: nat, sign: int, i: nat, carry: int) {
    && |m0| == |m1| && a + len <= |m0| && b + len <= |m0| && c + len <= |m0| && i <= len
    && V(m1, c + i, len - i) + carry * BPow(len - i) == V(m0, a + i, len - i) + sign * V(m0, b + i, len - i)
  }

  lemma CarryIteration(m0: seq<word>, m1: seq<word>, a: nat, b: nat, c: nat, len: nat, sign: int,
                       i: nat, carry: int, z: word, carry': int)
    requires i < len && CarryInv(m0, m1, a, b, c, len, sign, i + 1, carry)
    requires z + carry' * B == m0[a + i] + sign * m0[b + i] + carry
    ensures CarryInv(m0, m1[c + i := z], a, b, c, len, sign, i, carry')
  {
    hide Val, V;
    var m2 := m1[c + i := z];
    var p := BPow(len - i - 1);
    VStep(m0, a + i, len - i - 1);
    VStep(m0, b + i, len - i - 1);
    VStep(m2, c + i, len - i - 1);
    VSame(m1, m2, c + i + 1, len - i - 1);
    CarryStep(m0[a + i], m0[b + i], sign, z, carry, carry', p, V(m0, a + i + 1, len - i - 1),
              V(m0, b + i + 1, len - i - 1), V(m1, c + i + 1, len - i - 1));
  }

  lemma CarryStart(m: seq<word>, a: nat, b: nat, c: nat, len: nat, sign: int)
    requires a + len <= |m| && b + len <= |m| && c + len <= |m|
    ensures CarryInv(m, m, a, b, c, len, sign, len, 0)
  {
  }

  lemma AddDone(m0: seq<word>, m1: seq<word>, a: nat, b: nat, c: nat, len: nat, carry: int)
    requires CarryInv(m0, m1, a, b, c, len, 1, 0, carry)
    ensures V(m1, c, len) + carry * BPow(len) == V(m0, a, len) + V(m0, b, len)
  {
  }

  /** Sets c = a + b and returns the carry off the top. */
  method InternalAdd(mem: array<word>, a: nat, b: nat, c: nat, len: nat) returns (carry: nat)
    requires a + len <= mem.Length && b + len <= mem.Length && c + len <= mem.Length
    requires Apart(a, c, len) && Apart(b, c, len)
    modifies mem
    ensures carry <= 1
    ensures V(mem[..], c, len) + carry * BPow(len) == old(V(mem[..], a, len) + V(mem[..], b, len))
    ensures OnlyChanged(old(mem[..]), mem[..], c, len)
  {
    hide CarryInv, V, BPow, Adc;
    ghost var m0 := mem[..];
    CarryStart(m0, a, b, c, len, 1);
    carry := 0;
    var i := len;
    while i > 0
      invariant 0 <= i <= len && carry <= 1
      invariant OnlyChanged(m0, mem[..], c + i, len - i)
      invariant CarryInv(m0, mem[..], a, b, c, len, 1, i, carry)
    {
      i := i - 1;
      var r := Adc(mem[a + i], mem[b + i], carry);
      CarryIteration(m0, mem[..], a, b, c, len, 1, i, carry, r.0, r.1);
      mem[c + i], carry := r.0, r.1;
    }
    AddDone(m0, mem[..], a, b, c, len, carry);
  }

  lemma NotVal(x: word, y: word, c: nat, r: (word, nat))
    requires r.0 + r.1 * B == x + Not(y) + c
    ensures r.0 + (r.1 - 1) * B == x + -1 * y + (c - 1)
  {
    Distrib(r.1, -1, B);
  }

  lemma SubDone(m0: seq<word>, m1: seq<word>, a: nat, b: nat, c: nat, len: nat, carry: int)
    requires CarryInv(m0, m1, a, b, c, len, -1, 0, carry) && -1 <= carry <= 0
    ensures V(m1, c, len) == V(m0, a, len) - V(m0, b, len) + Borrow(V(m0, a, len), V(m0, b, len), len)
  {
    VBound(m0, a, len);
    VBound(m0, b, len);
    VBound(m1, c, len);
  }

  /** What a subtraction of y from x on len words wraps around by. */
  function Borrow(x: nat, y: nat, len: nat): nat {
    if x < y then BPow(len) else 0
  }

  /** Sets c = a - b modulo B^len; the borrow off the top is dropped. */
  method InternalSub(mem: array<word>, a: nat, b: nat, c: nat, len: nat)
    requires a + len <= mem.Length && b + len <= mem.Length && c + len <= mem.Length
    requires Apart(a, c, len) && Apart(b, c, len)
    modifies mem
    ensures V(mem[..], c, len)
         == old(V(mem[..], a, len) - V(mem[..], b, len) + Borrow(V(mem[..], a, len), V(mem[..], b, len), len))
    ensures OnlyChanged(old(mem[..]), mem[..], c, len)
  {
    hide CarryInv, V, BPow, Adc, Borrow;
    ghost var m0 := mem[..];
    CarryStart(m0, a, b, c, len, -1);
    var carry: int := 1;
    var i := len;
    while i > 0
      invariant 0 <= i <= len && 0 <= carry <= 1
      invariant OnlyChanged(m0, mem[..], c + i, len - i)
      invariant CarryInv(m0, mem[..], a, b, c, len, -1, i, carry - 1)
    {
      i := i - 1;
      var r := Adc(mem[a + i], Not(mem[b + i]), carry);
      NotVal(mem[a + i], mem[b + i], carry, r);
      CarryIteration(m0, mem[..], a, b, c, len, -1, i, carry - 1, r.0, r.1 as int - 1);
      mem[c + i], carry := r.0, r.1;
    }
    SubDone(m0, mem[..], a, b, c, len, carry - 1);
  }
}
