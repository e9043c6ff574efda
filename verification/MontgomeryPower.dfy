/** modpow: exponentiation by Montgomery multiplication, and its agreement with the pedestrian way. */
module MontgomeryPower {
  import opened Arith
  import opened Words
  import opened AddSub
  import opened Karatsuba
  import opened MulLow
  import opened Montgomery
  import opened Reciprocal
  import opened Bignum
  import opened BigDiv
  import opened BigMul
  import opened Modular
  import opened NumberTheory
  import opened ModularInverse
  import opened Powers
  import opened ModularPower

  // Odd numbers and powers of two.

  lemma {:induction false} OddDivisor(g: nat, e: nat)
    requires Cong(Pow2(e), 0, g) && g % 2 == 1
    ensures g == 1
  {
    if e == 0 {
      OnlyOneDividesOne(g, 1);
    } else {
      var k :| Pow2(e) - 0 == Mul(k, g);
      EvenFactor(k, g, Pow2(e - 1));
      CongBy(Pow2(e - 1), 0, g, k / 2);
      OddDivisor(g, e - 1);
    }
  }

  lemma EvenFactor(k: int, g: nat, x: int)
    requires 2 * x == Mul(k, g) && g % 2 == 1
    ensures x == (k / 2) * g
  {
    DivMod(k, 2);
    DivMod(g, 2);
    var h, r := k / 2, k % 2;
    Distrib(h * 2, r, g);
    Assoc(2, h, g);
    assert 2 * x == 2 * (h * g) + r * g;
  }

  lemma OddMultiple(g: nat, m: nat)
    requires Cong(m, 0, g) && m % 2 == 1
    ensures g % 2 == 1
  {
    var k :| m - 0 == Mul(k, g);
    if g % 2 == 0 {
      DivMod(g, 2);
      assert m == 2 * (k * (g / 2)) by { Assoc(k, g / 2, 2); }
    }
  }

  /** An odd modulus is coprime to the Montgomery base, so the inverse the code asserts does exist. */
  lemma OddCoprime(r: nat, e: nat, m: nat)
    requires r == Pow2(e) && m % 2 == 1
    ensures Gcd(r, m) == 1
  {
    GcdDivides(r, m);
    OddMultiple(Gcd(r, m), m);
    OddDivisor(Gcd(r, m), e);
  }

  // Montgomery representation: p is held as p * r mod n.

  ghost predicate InMonty(v: int, p: int, r: int, n: int) {
    Cong(v, Mul(p, r), n)
  }

  /** The base has an inverse modulo n whenever -n has one modulo the base. */
  lemma BaseInvertible(mninv: nat, n: nat, r: nat)
    requires NegInverse(mninv, n, r)
    ensures exists k: nat :: Cong(Mul(r, k), 1, n)
  {
    var k: nat :| Mul(mninv, n) + 1 == Mul(k, r);
    MulComm(k, r);
    CongBy(Mul(r, k), 1, n, mninv);
  }

  lemma CancelBase(a: int, b: int, mninv: nat, n: nat, r: nat)
    requires NegInverse(mninv, n, r) && Cong(Mul(a, r), Mul(b, r), n)
    ensures Cong(a, b, n)
  {
    BaseInvertible(mninv, n, r);
    var k: nat :| Cong(Mul(r, k), 1, n);
    CongCancel(a, b, r, k, n);
  }

  /** A reduced product of two numbers in Montgomery form is their product in Montgomery form. */
  lemma MontyProduct(u: int, v: int, t: int, p: int, q: int, r: nat, n: nat, mninv: nat)
    requires InMonty(u, p, r, n) && InMonty(v, q, r, n) && Cong(Mul(t, r), Mul(u, v), n) && NegInverse(mninv, n, r)
    ensures InMonty(t, Mul(p, q), r, n)
  {
    hide Mul, Cong, NegInverse;
    CongMul(u, Mul(p, r), v, Mul(q, r), n);
    CongTrans(Mul(t, r), Mul(u, v), Mul(Mul(p, r), Mul(q, r)), n);
    MulAssoc(p, r, Mul(q, r));
    MulComm(r, Mul(q, r));
    MulAssoc(p, Mul(q, r), r);
    MulAssoc(p, q, r);
    CancelBase(t, Mul(Mul(p, q), r), mninv, n, r);
  }

  /** n at 0, mninv at len, the base at 2*len, then two double-length numbers and the scratch space. */
  ghost predicate MontyArena(s: seq<word>, len: nat) {
    && len >= 1 && |s| >= 10 * len + Scratch(len)
    && NegInverse(V(s, len, len), V(s, 0, len), BPow(len))
  }

  lemma SameArena(s: seq<word>, t: seq<word>, len: nat)
    requires MontyArena(s, len) && |t| == |s| && forall i :: 0 <= i < 2 * len ==> t[i] == s[i]
    ensures MontyArena(t, len) && V(t, 0, len) == V(s, 0, len)
  {
    VSame(s, t, 0, len);
    VSame(s, t, len, len);
  }

  lemma ProductBelow(u: nat, v: nat, n: nat, r: nat)
    requires u < n && v < n && n < r
    ensures Mul(u, v) < Mul(r, n)
  {
    hide *;
    MulLe(u, n, v);
    MulLt(v, n, n);
    MulLe(n, r, n);
  }

  /** z := u * v / r mod n. */
  method MontMul(mem: array<word>, u: nat, v: nat, z: nat, len: nat)
    requires MontyArena(mem[..], len) && (z == 3 * len || z == 5 * len)
    requires u + len <= 7 * len && v + len <= 7 * len && Clear(u, len, z, 2 * len) && Clear(v, len, z, 2 * len)
    requires V(mem[..], u, len) < V(mem[..], 0, len) && V(mem[..], v, len) < V(mem[..], 0, len)
    modifies mem
    ensures OnlyChanged2(old(mem[..]), mem[..], z, 2 * len, 7 * len, 3 * len + Scratch(len))
    ensures V(mem[..], z, 2 * len) == V(mem[..], z + len, len) < old(V(mem[..], 0, len))
    ensures Cong(Mul(V(mem[..], z + len, len), BPow(len)), old(Mul(V(mem[..], u, len), V(mem[..], v, len))),
                 old(V(mem[..], 0, len)))
  {
    hide Val, BPow, V, Mul, Scratch, Cong, NegInverse;
    ghost var s := mem[..];
    VBound(s, 0, len);
    ProductBelow(V(s, u, len), V(s, v, len), V(s, 0, len), BPow(len));
    InternalMul(mem, u, v, z, len, 7 * len);
    SameArena(s, mem[..], len);
    ghost var q, m := MontyReduce(mem, z, 0, len, 7 * len, len);
  }

  ghost predicate MontInv(m0: seq<word>, s: seq<word>, len: nat, a: nat, b: nat, base: int, e: nat) {
    && MontyArena(m0, len) && |m0| == |s|
    && ((a == 3 * len && b == 5 * len) || (a == 5 * len && b == 3 * len))
    && OnlyChanged(m0, s, 3 * len, 7 * len + Scratch(len))
    && V(s, a + len, len) < V(m0, 0, len)
    && InMonty(V(s, a + len, len), Exp(base, e), BPow(len), V(m0, 0, len))
  }

  /** One exponent bit, in Montgomery form. */
  method MontStep(mem: array<word>, ghost m0: seq<word>, len: nat, a: nat, b: nat, bit: bool, ghost base: int, ghost e: nat)
    returns (a': nat, b': nat)
    requires MontInv(m0, mem[..], len, a, b, base, e)
    requires V(m0, 2 * len, len) < V(m0, 0, len) && InMonty(V(m0, 2 * len, len), base, BPow(len), V(m0, 0, len))
    modifies mem
    ensures MontInv(m0, mem[..], len, a', b', base, 2 * e + (if bit then 1 else 0))
    ensures V(mem[..], a', 2 * len) == V(mem[..], a' + len, len)
  {
    hide Val, BPow, V, Mul, Scratch, Cong, NegInverse, Exp, InMonty;
    ghost var s := mem[..];
    ghost var n, r, mninv := V(m0, 0, len), BPow(len), V(m0, len, len);
    SameArena(m0, s, len);
    MontMul(mem, a + len, a + len, b, len);
    ghost var t := mem[..];
    ghost var p := Exp(base, e);
    MontyProduct(V(s, a + len, len), V(s, a + len, len), V(t, b + len, len), p, p, r, n, mninv);
    ExpBit(base, e, bit);
    if bit {
      SameArena(m0, t, len);
      VSame(m0, t, 2 * len, len);
      MontMul(mem, b + len, 2 * len, a, len);
      MontyProduct(V(t, b + len, len), V(m0, 2 * len, len), V(mem[..], a + len, len), Mul(p, p), base, r, n, mninv);
      a', b' := a, b;
    } else {
      a', b' := b, a;
    }
  }

  /** The two nested loops. Where no bit of the exponent is set, the upper half of a keeps what it held. */
  method MontLoop(mem: array<word>, exp: array<word>, len: nat, ghost base: int) returns (a: nat)
    requires IsBignum(exp[..]) && exp != mem && MontyArena(mem[..], len)
    requires V(mem[..], 2 * len, len) < V(mem[..], 0, len)
    requires InMonty(V(mem[..], 2 * len, len), base, BPow(len), V(mem[..], 0, len))
    requires V(mem[..], 4 * len, len) < V(mem[..], 0, len)
    requires InMonty(V(mem[..], 4 * len, len), 1, BPow(len), V(mem[..], 0, len))
    modifies mem
    ensures (a == 3 * len || a == 5 * len) && MontyArena(mem[..], len) && V(mem[..], 0, len) == old(V(mem[..], 0, len))
    ensures V(mem[..], a + len, len) < V(mem[..], 0, len)
    ensures InMonty(V(mem[..], a + len, len), Exp(base, BnVal(exp[..])), BPow(len), V(mem[..], 0, len))
    ensures if BnVal(exp[..]) == 0 then a == 3 * len && mem[..] == old(mem[..])
            else V(mem[..], a, 2 * len) == V(mem[..], a + len, len)
  {
    hide Val, BPow, LVal, BnVal, V, Mul, Pow2, Scratch, Cong, NegInverse, Exp, ExpInv, BitSet, InMonty;
    ghost var m0 := mem[..];
    var b: nat;
    a, b := 3 * len, 5 * len;
    ExpZero(base, V(m0, 0, len));
    var i, j0 := SkipLeadingZeros(exp);
    var j: int := j0;
    ghost var e: nat := 0;
    while i < exp[0]
      invariant 0 <= i <= exp[0] && 0 <= j < W && ExpInv(exp[..], i, j, e)
      invariant MontInv(m0, mem[..], len, a, b, base, e)
      invariant BnVal(exp[..]) == 0 ==> i == exp[0] && a == 3 * len && mem[..] == m0
      invariant i < exp[0] || BnVal(exp[..]) == 0 || V(mem[..], a, 2 * len) == V(mem[..], a + len, len)
      decreases exp[0] - i
    {
      while j >= 0
        invariant -1 <= j < W && ExpInv(exp[..], i, j, e)
        invariant MontInv(m0, mem[..], len, a, b, base, e)
        invariant j >= 0 || V(mem[..], a, 2 * len) == V(mem[..], a + len, len)
        decreases j
      {
        var bit := BitSet(exp[exp[0] - i], j);
        ExpBitStep(exp[..], i, j, e);
        a, b := MontStep(mem, m0, len, a, b, bit, base, e);
        e := 2 * e + (if bit then 1 else 0);
        j := j - 1;
      }
      ExpWordStep(exp[..], i, e);
      i := i + 1;
      j := W - 1;
    }
    ExpDone(exp[..], i, j, e);
    SameArena(m0, mem[..], len);
  }

  /** 2^(W*len), the Montgomery base, as a Bignum. */
  method BnPowerOfBase(len: nat) returns (r: array<word>)
    requires len + 1 < B
    ensures fresh(r) && Canonical(r[..]) && r[0] == len + 1 && BnVal(r[..]) == BPow(len)
  {
    hide BPow, LVal, Mul;
    r := NewBn(len + 1);
    r[len + 1] := 1;
    PowerValue(r[..], len);
  }

  lemma PowerValue(s: seq<word>, len: nat)
    requires |s| == len + 2 && s[0] == len + 1 && s[len + 1] == 1 && forall i :: 1 <= i <= len ==> s[i] == 0
    ensures BnVal(s) == BPow(len)
  {
    hide BPow, LVal;
    RawStep(s, len);
    LValZeros(s[1..1 + len]);
    MulUnit(BPow(len));
  }

  lemma NegateInverse(inv: nat, n: nat, r: nat)
    requires Cong(Mul(inv, n), 1, r) && 0 < inv < r && n > 0
    ensures NegInverse(r - inv, n, r)
  {
    var k :| Mul(inv, n) - 1 == Mul(k, r);
    MulMinus(r, inv, n);
    MulMinus(n, k, r);
    MulComm(r, n);
    MulNonNeg(r - inv, n);
    assert Mul(r - inv, n) + 1 == Mul(n - k, r);
    if n - k < 0 {
      MulMono(n - k, 0, r);
    }
    var k': nat := n - k;
    assert Mul(r - inv, n) + 1 == Mul(k', r);
  }

  /** The arena of modpow: modulus, inverse of its negation, base and 1 in Montgomery form. */
  method FillArena(mod: array<word>, inv: array<word>, base2: array<word>, rn: array<word>, leftover: seq<word>,
                   len: nat) returns (mem: array<word>)
    requires IsBignum(mod[..]) && IsBignum(inv[..]) && IsBignum(base2[..]) && IsBignum(rn[..])
    requires len >= 1 && mod[0] <= len && inv[0] <= len && base2[0] <= len && rn[0] <= len && |leftover| == len
    requires BnVal(mod[..]) > 0 && Cong(Mul(BnVal(inv[..]), BnVal(mod[..])), 1, BPow(len)) && 0 < BnVal(inv[..]) < BPow(len)
    ensures fresh(mem) && MontyArena(mem[..], len)
    ensures V(mem[..], 0, len) == BnVal(mod[..]) && V(mem[..], 2 * len, len) == BnVal(base2[..])
    ensures V(mem[..], 4 * len, len) == BnVal(rn[..]) && V(mem[..], 3 * len, len) == Val(leftover)
  {
    hide Val, BPow, LVal, BnVal, V, Mul, Scratch, Cong, NegInverse;
    var scratchlen := MulComputeScratch(len);
    mem := new word[7 * len + (3 * len + scratchlen)];
    LoadNegatedInverse(mem, inv, len, BnVal(mod[..]));
    ghost var s0 := mem[..];
    LoadBigEndian(mod, mem, 0, len);
    ghost var s1 := mem[..];
    LoadBigEndian(base2, mem, 2 * len, len);
    ghost var s2 := mem[..];
    LoadLeftover(mem, 3 * len, leftover);
    ghost var s3 := mem[..];
    LoadBigEndian(rn, mem, 4 * len, len);
    VSame(s0, mem[..], len, len);
    VSame(s1, mem[..], 0, len);
    VSame(s2, mem[..], 2 * len, len);
    VSame(s3, mem[..], 3 * len, len);
  }

  /** mninv := 0 - inv, with the zero held where the base will go. */
  method LoadNegatedInverse(mem: array<word>, inv: array<word>, len: nat, ghost n: nat)
    requires IsBignum(inv[..]) && inv != mem && inv[0] <= len && 3 * len <= mem.Length
    requires Cong(Mul(BnVal(inv[..]), n), 1, BPow(len)) && 0 < BnVal(inv[..]) < BPow(len) && n > 0
    modifies mem
    ensures NegInverse(V(mem[..], len, len), n, BPow(len))
  {
    hide Val, BPow, LVal, BnVal, V, Mul, Cong, NegInverse;
    LoadBigEndian(inv, mem, len, len);
    ghost var s := mem[..];
    ZeroFill(mem, 2 * len, len);
    VSame(s, mem[..], len, len);
    VZero(mem[..], 2 * len, len);
    InternalSub(mem, 2 * len, len, len, len);
    NegateInverse(BnVal(inv[..]), n, BPow(len));
  }

  /** Stands for whatever the freshly allocated words happened to hold. */
  method LoadLeftover(mem: array<word>, at: nat, leftover: seq<word>)
    requires at + |leftover| <= mem.Length
    modifies mem
    ensures OnlyChanged(old(mem[..]), mem[..], at, |leftover|) && V(mem[..], at, |leftover|) == Val(leftover)
  {
    hide Val;
    ghost var m0 := mem[..];
    var i := 0;
    while i < |leftover|
      invariant 0 <= i <= |leftover| && OnlyChanged(m0, mem[..], at, |leftover|)
      invariant mem[at..at + i] == leftover[..i]
    {
      mem[at + i] := leftover[i];
      i := i + 1;
    }
    assert leftover[..i] == leftover;
  }

  /** The last reduction of a number in Montgomery form that has h above it: h is added to what the number stands for. */
  lemma LastReduction(v: nat, h: nat, p: int, r: nat, n: nat, mninv: nat, m: nat, t: nat)
    requires InMonty(v, p, r, n) && v < n < r && NegInverse(mninv, n, r)
    requires m < r && Mul(t, r) == Mul(h, r) + v + Mul(m, n)
    ensures t == h + p % n
  {
    hide Mul, Cong, NegInverse;
    MulMinus(t, h, r);
    CongRefl(v, n);
    ProductIs(m, n);
    CongBy(Mul(m, n), 0, n, m);
    CongAdd(v, v, Mul(m, n), 0, n);
    CongTrans(Mul(t - h, r), v, Mul(p, r), n);
    CancelBase(t - h, p, mninv, n, r);
    BelowModulus(t - h, r, v, m, n);
    CongMod(p, n);
    CongTrans(t - h, p, p % n, n);
    CongUnique(t - h, p % n, n);
  }

  lemma ProductIs(m: int, n: int)
    ensures Mul(m, n) - 0 == m * n
  {
  }

  lemma BelowModulus(x: int, r: nat, v: nat, m: nat, n: nat)
    requires Mul(x, r) == v + Mul(m, n) && v < n && m < r
    ensures 0 <= x < n
  {
    hide Mul;
    MulLe(m + 1, r, n);
    MulPlus(m, 1, n);
    MulUnit(n);
    MulComm(r, n);
    CancelLt(x, n, r);
    MulLe(0, m, n);
    MulUnit(r);
    MulUnit(n);
    CancelLe(0, x, r);
  }

  /** The last reduction takes the result out of Montgomery form, together with what stands above it. */
  method Finish(mem: array<word>, a: nat, len: nat, ghost p: int, ghost h: nat)
    requires MontyArena(mem[..], len) && (a == 3 * len || a == 5 * len)
    requires V(mem[..], a + len, len) < V(mem[..], 0, len) && InMonty(V(mem[..], a + len, len), p, BPow(len), V(mem[..], 0, len))
    requires V(mem[..], a, 2 * len) == Mul(h, BPow(len)) + V(mem[..], a + len, len)
    modifies mem
    ensures old(V(mem[..], 0, len)) > 0
    ensures V(mem[..], a + len, len) == Reduced(h + p % old(V(mem[..], 0, len)), old(V(mem[..], 0, len)))
  {
    hide Val, BPow, V, Mul, Scratch, Cong, NegInverse, InMonty;
    ghost var s := mem[..];
    VBound(s, 0, len);
    ghost var t, m := MontyReduce(mem, a, 0, len, 7 * len, len);
    LastReduction(V(s, a + len, len), h, p, BPow(len), V(s, 0, len), V(s, len, len), m, t);
  }

  /** The odd branch: with a zero exponent, the number h that the unset words hold is added to the result. */
  function MontyPower(base: int, e: nat, m: nat, h: nat): nat
    requires m > 0
  {
    DivMod(Exp(base, e), m);
    Reduced((if e == 0 then h else 0) + Exp(base, e) % m, m)
  }

  /** What modpow returns, where h is what the words hold that it never sets. */
  function PowerOf(base: int, e: nat, m: nat, h: nat): nat
    requires m > 0
  {
    DivMod(Exp(base, e), m);
    if m % 2 == 1 then MontyPower(base, e, m, h) else if e == 0 then 1 else Exp(base, e) % m
  }

  /** The odd branch, from the numbers in Montgomery form on. */
  method MontExp(mod: array<word>, exp: array<word>, inv: array<word>, base2: array<word>, rn: array<word>,
                 leftover: seq<word>, ghost base: int) returns (result: array<word>)
    requires IsBignum(mod[..]) && IsBignum(inv[..]) && IsBignum(base2[..]) && IsBignum(rn[..]) && IsBignum(exp[..])
    requires mod[0] >= 1 && inv[0] <= mod[0] && base2[0] <= mod[0] && rn[0] <= mod[0] && |leftover| == mod[0]
    requires 0 < BnVal(inv[..]) < BPow(mod[0]) && Cong(Mul(BnVal(inv[..]), BnVal(mod[..])), 1, BPow(mod[0]))
    requires BnVal(base2[..]) < BnVal(mod[..]) && InMonty(BnVal(base2[..]), base, BPow(mod[0]), BnVal(mod[..]))
    requires BnVal(rn[..]) < BnVal(mod[..]) && InMonty(BnVal(rn[..]), 1, BPow(mod[0]), BnVal(mod[..]))
    ensures fresh(result) && IsBignum(result[..])
    ensures BnVal(result[..]) == MontyPower(base, BnVal(exp[..]), BnVal(mod[..]), Val(leftover))
  {
    hide Val, BPow, LVal, BnVal, V, Mul, Scratch, Cong, InMonty, Exp, NegInverse;
    var len: nat := mod[0];
    var mem := FillArena(mod, inv, base2, rn, leftover, len);
    ghost var s := mem[..];
    ghost var e := BnVal(exp[..]);
    var a := MontLoop(mem, exp, len, base);
    VSplitMul(mem[..], a, len, len);
    MulUnit(BPow(len));
    ghost var h := if e == 0 then Val(leftover) else 0;
    ExpZero(base, BnVal(mod[..]));
    Finish(mem, a, len, Exp(base, e), h);
    result := ResultBn(mem, a + len, len, V(mem[..], a + len, len));
  }

  /**
   * base^exp mod `mod`. For an odd modulus leftover is what the upper half of a newly allocated array holds: the code
   * never sets it, and reads it when the exponent is zero.
   */
  method ModPow(base_in: array<word>, exp: array<word>, mod: array<word>, leftover: seq<word>)
    returns (result: array<word>)
    requires IsBignum(base_in[..]) && IsBignum(exp[..]) && Canonical(mod[..]) && mod[0] >= 1
    requires 3 * (mod[0] as nat) + 4 < B && |leftover| == mod[0]
    ensures fresh(result) && IsBignum(result[..]) && BnVal(mod[..]) > 0
    ensures BnVal(result[..]) == PowerOf(BnVal(base_in[..]), BnVal(exp[..]), BnVal(mod[..]), Val(leftover))
  {
    hide Val, BPow, LVal, BnVal, Mul, Cong, Exp, InMonty, Gcd, MontyPower;
    LenFacts(mod[..]);
    LowBit(mod[..]);
    if mod[1] % 2 == 0 {
      result := ModPowSimple(base_in, exp, mod);
      SimpleIs(BnVal(result[..]), BnVal(base_in[..]), BnVal(exp[..]), BnVal(mod[..]));
      return;
    }
    var inv, base2, rn := MontSetup(base_in, mod);
    result := MontExp(mod, exp, inv, base2, rn, leftover, BnVal(base_in[..]));
  }

  /** Inverse of the modulus, base and 1 in Montgomery form; the inverse exists, as the code asserts. */
  method MontSetup(base_in: array<word>, mod: array<word>) returns (inv: array<word>, base2: array<word>, rn: array<word>)
    requires IsBignum(base_in[..]) && Canonical(mod[..]) && mod[0] >= 1
    requires IsModulus(mod[..]) && mod[1] % 2 == 1 && 3 * (mod[0] as nat) + 4 < B
    ensures IsBignum(inv[..]) && IsBignum(base2[..]) && IsBignum(rn[..])
    ensures inv[0] <= mod[0] && base2[0] <= mod[0] && rn[0] <= mod[0]
    ensures 0 < BnVal(inv[..]) < BPow(mod[0]) && Cong(Mul(BnVal(inv[..]), BnVal(mod[..])), 1, BPow(mod[0]))
    ensures BnVal(base2[..]) < BnVal(mod[..])
    ensures InMonty(BnVal(base2[..]), BnVal(base_in[..]), BPow(mod[0]), BnVal(mod[..]))
    ensures BnVal(rn[..]) < BnVal(mod[..]) && InMonty(BnVal(rn[..]), 1, BPow(mod[0]), BnVal(mod[..]))
  {
    hide Val, BPow, LVal, BnVal, Mul, Cong, Exp, InMonty, Gcd;
    ghost var m := BnVal(mod[..]);
    var r := BnPowerOfBase(mod[0]);
    LenFacts(mod[..]);
    OddInverse(mod[..], mod[0]);
    var stopped, maybe := ModularInverse.ModInv(mod, r, true);
    inv := maybe;
    CanonicalSize(inv[..], mod[0]);
    base2, rn := MontForms(base_in, r, mod);
  }

  method MontForms(base_in: array<word>, r: array<word>, mod: array<word>) returns (base2: array<word>, rn: array<word>)
    requires IsBignum(base_in[..]) && IsBignum(r[..]) && IsModulus(mod[..])
    ensures IsBignum(base2[..]) && IsBignum(rn[..]) && base2[0] <= mod[0] && rn[0] <= mod[0]
    ensures BnVal(base2[..]) < BnVal(mod[..])
    ensures InMonty(BnVal(base2[..]), BnVal(base_in[..]), BnVal(r[..]), BnVal(mod[..]))
    ensures BnVal(rn[..]) < BnVal(mod[..]) && InMonty(BnVal(rn[..]), 1, BnVal(r[..]), BnVal(mod[..]))
  {
    hide LVal, BnVal, Mul, Cong, InMonty;
    ghost var m := BnVal(mod[..]);
    var base := BigMod(base_in, mod);
    base2 := ModMul(base, r, mod);
    IntoMonty(BnVal(base_in[..]), BnVal(base[..]), BnVal(base2[..]), BnVal(r[..]), m);
    rn := BigMod(r, mod);
    OneInMonty(BnVal(rn[..]), BnVal(r[..]), m);
  }

  lemma LenFacts(mod: seq<word>)
    requires Canonical(mod) && mod[0] >= 1
    ensures BPow(mod[0]) >= 2 && 0 < BnVal(mod) < BPow(mod[0])
  {
    hide LVal, BnVal, BPow, Mul;
    BnBound(mod);
    CanonicalBound(mod);
    BPowMono(1, mod[0]);
    BPowOne();
    BaseFacts();
  }

  /** The word the code tests is the one that decides parity. */
  lemma LowBit(mod: seq<word>)
    requires IsBignum(mod) && mod[0] >= 1
    ensures mod[1] % 2 == BnVal(mod) % 2
  {
    var p := mod[1..1 + mod[0]];
    assert BnVal(mod) == mod[1] + B * LVal(p[1..]);
    BaseFacts();
    Assoc(2, Pow2(W - 1), LVal(p[1..]));
    SameParity(mod[1], Pow2(W - 1) * LVal(p[1..]));
  }

  lemma SameParity(x: nat, y: int)
    ensures (x + 2 * y) % 2 == x % 2
  {
  }

  lemma OddInverse(mod: seq<word>, len: nat)
    requires IsBignum(mod) && mod[0] == len >= 1 && mod[1] % 2 == 1
    ensures Gcd(BPow(len), BnVal(mod)) == 1
  {
    hide BnVal, BPow;
    LowBit(mod);
    BPowIsPow2(len);
    OddCoprime(BPow(len), len * W, BnVal(mod));
  }

  lemma SimpleIs(result: nat, base: int, e: nat, m: nat)
    requires m > 0 && Cong(result, Exp(base, e), m) && (if e == 0 then result == 1 else result < m)
    ensures result == if e == 0 then 1 else Exp(base, e) % m
  {
    hide Cong, Exp;
    CongMod(Exp(base, e), m);
    CongTrans(result, Exp(base, e), Exp(base, e) % m, m);
    if e > 0 {
      CongUnique(result, Exp(base, e) % m, m);
    }
  }

  lemma IntoMonty(base: nat, reduced: nat, base2: nat, r: nat, m: nat)
    requires m > 0 && reduced == base % m && Cong(base2, Mul(reduced, r), m)
    ensures InMonty(base2, base, r, m)
  {
    hide Mul, Cong;
    CongMod(base, m);
    CongScale(reduced, base, r, m);
    CongTrans(base2, Mul(reduced, r), Mul(base, r), m);
  }

  lemma OneInMonty(rn: nat, r: nat, m: nat)
    requires m > 0 && rn == r % m
    ensures InMonty(rn, 1, r, m)
  {
    hide Mul, Cong;
    CongMod(r, m);
    MulUnit(r);
  }

  // When the result is the power that was asked for.

  /** A positive exponent, or an even modulus above 1, gives the power, whatever the unset words hold. */
  lemma PowerRight(base: int, e: nat, m: nat, h: nat)
    requires m > 0 && (e > 0 || (m % 2 == 0 && m > 1))
    ensures PowerOf(base, e, m, h) == Exp(base, e) % m
  {
    DivMod(Exp(base, e), m);
    if e == 0 {
      DivModUnique(1, m, 0, 1);
    }
  }

  /** A zero exponent with an odd modulus above 1 gives 1 exactly when the unset words hold zero or the modulus. */
  lemma ZeroExponentIff(base: int, m: nat, h: nat)
    requires m > 1 && m % 2 == 1
    ensures PowerOf(base, 0, m, h) == 1 <==> h == 0 || h == m
    ensures Cong(PowerOf(base, 0, m, h), 1, m) <==> Cong(h, 0, m)
  {
    DivModUnique(1, m, 0, 1);
    var t := h + 1;
    var r := PowerOf(base, 0, m, h);
    assert r == Reduced(t, m);
    CongBy(r, t, m, if t >= m then -1 else 0);
    hide PowerOf, Cong;
    CongRefl(1, m);
    if Cong(r, 1, m) {
      CongSym(r, t, m);
      CongTrans(t, r, 1, m);
      CongSub(t, 1, 1, 1, m);
    }
    if Cong(h, 0, m) {
      CongAdd(h, 0, 1, 1, m);
      CongTrans(r, t, 1, m);
    }
  }

  /** With 1 in the unset words, the result is not the power. */
  lemma ZeroExponentWrong(base: int, m: nat)
    requires m > 1 && m % 2 == 1
    ensures PowerOf(base, 0, m, 1) == 2 && Exp(base, 0) % m == 1
  {
    DivModUnique(1, m, 0, 1);
  }

  /** modpow can be relied on, whatever memory held before, exactly for a positive exponent or an even modulus. */
  lemma ReliableIff(base: int, e: nat, m: nat, limit: nat)
    requires m > 1 && limit > 1
    ensures (forall h: nat :: h < limit ==> PowerOf(base, e, m, h) == Exp(base, e) % m) <==> e > 0 || m % 2 == 0
  {
    hide PowerOf, Exp;
    if e > 0 || m % 2 == 0 {
      forall h: nat | h < limit ensures PowerOf(base, e, m, h) == Exp(base, e) % m {
        PowerRight(base, e, m, h);
      }
    } else {
      ZeroExponentWrong(base, m);
    }
  }

  /** Where modpow and modpow_simple return the same number. */
  predicate SamePower(e: nat, m: nat, h: nat) {
    e > 0 || m % 2 == 0 || (if m > 1 then h == 0 || h == m else h == 2)
  }

  /** Both exponentiations of the same input agree exactly there. */
  method BothPowers(base_in: array<word>, exp: array<word>, mod: array<word>, leftover: seq<word>)
    returns (simple: array<word>, monty: array<word>)
    requires IsBignum(base_in[..]) && IsBignum(exp[..]) && Canonical(mod[..]) && mod[0] >= 1
    requires 3 * (mod[0] as nat) + 4 < B && |leftover| == mod[0]
    ensures IsBignum(simple[..]) && IsBignum(monty[..])
    ensures BnVal(simple[..]) == BnVal(monty[..]) <==> SamePower(BnVal(exp[..]), BnVal(mod[..]), Val(leftover))
  {
    hide Val, BPow, LVal, BnVal, Mul, Cong, Exp, PowerOf, SamePower;
    monty := ModPow(base_in, exp, mod, leftover);
    simple := ModPowSimple(base_in, exp, mod);
    SimpleIs(BnVal(simple[..]), BnVal(base_in[..]), BnVal(exp[..]), BnVal(mod[..]));
    SameIff(BnVal(base_in[..]), BnVal(exp[..]), BnVal(mod[..]), Val(leftover));
  }

  lemma SameIff(base: int, e: nat, m: nat, h: nat)
    requires m > 0
    ensures PowerOf(base, e, m, h) == (if e == 0 then 1 else Exp(base, e) % m) <==> SamePower(e, m, h)
  {
    DivMod(Exp(base, e), m);
    if e == 0 && m > 1 {
      DivModUnique(1, m, 0, 1);
    }
  }
}
