/** bigmuladd, bigadd and bignum_cmp on whole Bignums. */
module BigMul {
  import opened Arith
  import opened Words
  import opened AddSub
  import opened Karatsuba
  import opened Reciprocal
  import opened Bignum
  import opened ModSubtract
  import opened BigDiv

  /** Word i of a Bignum, counting from 1; 0 beyond the top. */
  function Wd(b: seq<word>, i: nat): word {
    if |b| >= 1 && 1 <= i <= b[0] && i < |b| then b[i] else 0
  }

  /** The number in the low n words of a Bignum. */
  ghost function Low(b: seq<word>, n: nat): (v: nat) {
    if n == 0 then 0 else Low(b, n - 1) + Mul(Wd(b, n), BPow(n - 1))
  }

  lemma {:induction false} LowIsPrefix(b: seq<word>, n: nat)
    requires IsBignum(b) && n <= b[0]
    ensures Low(b, n) == LVal(b[1..1 + n])
  {
    if n > 0 {
      LowIsPrefix(b, n - 1);
      assert b[1..1 + n] == b[1..n] + [b[n]];
      LValConcat(b[1..n], [b[n]]);
      LValOne(b[n]);
      MulComm(b[n], BPow(n - 1));
    }
  }

  lemma LValOne(x: word)
    ensures LVal([x]) == x
  {
    assert [x][1..] == [];
  }

  /** Words beyond the top add nothing. */
  lemma {:induction false} LowIsValue(b: seq<word>, n: nat)
    requires IsBignum(b) && n >= b[0]
    ensures Low(b, n) == BnVal(b)
  {
    if n == b[0] {
      LowIsPrefix(b, n);
    } else {
      LowIsValue(b, n - 1);
      MulUnit(BPow(n - 1));
    }
  }

  /** The number in words 1..n of an array, whatever its count field says. */
  ghost function Raw(b: seq<word>, n: nat): (v: nat)
    requires n < |b|
  {
    LVal(b[1..1 + n])
  }

  lemma RawStep(b: seq<word>, n: nat)
    requires n + 1 < |b|
    ensures Raw(b, n + 1) == Raw(b, n) + Mul(b[n + 1], BPow(n))
  {
    assert b[1..1 + (n + 1)] == b[1..1 + n] + [b[n + 1]];
    LValConcat(b[1..1 + n], [b[n + 1]]);
    LValOne(b[n + 1]);
    MulComm(b[n + 1], BPow(n));
  }

  lemma RawSame(b: seq<word>, c: seq<word>, n: nat)
    requires n < |b| && n < |c| && forall i :: 1 <= i <= n ==> b[i] == c[i]
    ensures Raw(b, n) == Raw(c, n)
  {
    assert b[1..1 + n] == c[1..1 + n];
  }

  /** Dropping zero words from the top keeps the value. */
  lemma {:induction false} RawDrop(b: seq<word>, n: nat, k: nat)
    requires k <= n < |b| && forall i :: k < i <= n ==> b[i] == 0
    ensures Raw(b, n) == Raw(b, k)
    decreases n
  {
    if n > k {
      RawStep(b, n - 1);
      RawDrop(b, n - 1, k);
      MulUnit(BPow(n - 1));
    }
  }

  lemma RawBound(b: seq<word>, n: nat)
    requires n < |b|
    ensures Raw(b, n) < BPow(n)
  {
    LValBound(b[1..1 + n]);
  }

  /** A loop result whose count is set to the topmost nonzero word. */
  ghost predicate Packed(b: seq<word>, n: nat, maxspot: nat) {
    maxspot <= n < |b| && (forall i :: maxspot < i <= n ==> b[i] == 0) && (maxspot > 0 ==> b[maxspot] != 0)
  }

  /** Top word nonzero, or an all-zero number of no words. */
  ghost predicate Canonical(b: seq<word>) {
    IsBignum(b) && (b[0] > 0 ==> b[b[0]] != 0)
  }

  lemma PackedValue(b: seq<word>, n: nat, maxspot: nat)
    requires Packed(b, n, maxspot) && maxspot < B
    ensures Canonical(b[0 := maxspot]) && BnVal(b[0 := maxspot]) == Raw(b, n)
  {
    RawDrop(b, n, maxspot);
    RawSame(b, b[0 := maxspot], maxspot);
  }

  lemma AddLoopStep(x: nat, y: nat, v: nat, c: nat, xw: word, yw: word, z: word, c': nat, p: nat)
    requires v + Mul(c, p) == x + y && z + Mul(c', B) == xw + yw + c
    ensures v + Mul(z, p) + Mul(c', Mul(B, p)) == (x + Mul(xw, p)) + (y + Mul(yw, p))
  {
    hide *;
    MulAssoc(c', B, p);
    MulPlus(z, Mul(c', B), p);
    MulPlus(xw + yw, c, p);
    MulPlus(xw, yw, p);
  }

  /** ret[1..rlen] := src + addend, where src may be ret itself. spot is the topmost nonzero word, found on the way. */
  method AddLoop(src: array<word>, addend: array<word>, ret: array<word>, rlen: nat, maxspot0: nat)
    returns (carry: nat, maxspot: nat, ghost spot: nat)
    requires IsBignum(src[..]) && IsBignum(addend[..]) && rlen < ret.Length && ret != addend
    modifies ret
    ensures ret[0] == old(ret[0]) && carry <= 1 && Packed(ret[..], rlen, spot)
    ensures maxspot == if spot > maxspot0 then spot else maxspot0
    ensures Raw(ret[..], rlen) + Mul(carry, BPow(rlen)) == old(Low(src[..], rlen) + Low(addend[..], rlen))
  {
    hide LVal, BPow, Mul, Low, Raw, BnVal;
    ghost var s, t := src[..], addend[..];
    carry, maxspot, spot := 0, maxspot0, 0;
    var i := 1;
    AddLoopStart(s, t, ret[..]);
    while i <= rlen
      invariant 1 <= i <= rlen + 1 && carry <= 1 && ret[0] == old(ret[0]) && addend[..] == t
      invariant forall k :: i <= k < ret.Length ==> ret[k] == old(ret[k])
      invariant src != ret ==> src[..] == s
      invariant spot < i && (forall k :: spot < k < i ==> ret[k] == 0) && (spot > 0 ==> ret[spot] != 0)
      invariant maxspot == if spot > maxspot0 then spot else maxspot0
      invariant Raw(ret[..], i - 1) + Mul(carry, BPow(i - 1)) == Low(s, i - 1) + Low(t, i - 1)
    {
      ghost var r0 := ret[..];
      var retword := if i <= src[0] then src[i] else 0;
      var addword := if i <= addend[0] then addend[i] else 0;
      var r := AdcM(retword, addword, carry);
      ret[i] := r.0;
      AddLoopIter(s, t, r0, ret[..], i, carry, r.0, r.1, retword, addword);
      carry := r.1;
      if ret[i] != 0 {
        spot := i;
        if i > maxspot { maxspot := i; }
      }
      i := i + 1;
    }
  }

  lemma AddLoopStart(s: seq<word>, t: seq<word>, r: seq<word>)
    requires |r| >= 1
    ensures Raw(r, 0) + Mul(0, BPow(0)) == Low(s, 0) + Low(t, 0)
  {
    MulUnit(BPow(0));
  }

  lemma AddLoopIter(s: seq<word>, t: seq<word>, r0: seq<word>, r1: seq<word>, i: nat, carry: nat, z: word, carry': nat,
                    xw: word, yw: word)
    requires 1 <= i < |r0| && r1 == r0[i := z] && xw == Wd(s, i) && yw == Wd(t, i)
    requires Raw(r0, i - 1) + Mul(carry, BPow(i - 1)) == Low(s, i - 1) + Low(t, i - 1)
    requires z + Mul(carry', B) == xw + yw + carry
    ensures Raw(r1, i) + Mul(carry', BPow(i)) == Low(s, i) + Low(t, i)
  {
    LowStep(s, i);
    LowStep(t, i);
    BPowUp(i - 1);
    hide *;
    RawSame(r0, r1, i - 1);
    RawStep(r1, i - 1);
    AddLoopStep(Low(s, i - 1), Low(t, i - 1), Raw(r0, i - 1), carry, xw, yw, z, carry', BPow(i - 1));
  }

  lemma LowStep(b: seq<word>, n: nat)
    requires n > 0
    ensures Low(b, n) == Low(b, n - 1) + Mul(Wd(b, n), BPow(n - 1))
  {
  }

  /** a + b. */
  method BigAdd(a: array<word>, b: array<word>) returns (ret: array<word>)
    requires IsBignum(a[..]) && IsBignum(b[..]) && a[0] + 1 < B && b[0] + 1 < B
    ensures fresh(ret) && Canonical(ret[..]) && BnVal(ret[..]) == BnVal(a[..]) + BnVal(b[..])
  {
    hide LVal, BPow, Mul, Low, Raw, BnVal;
    var rlen := (if a[0] > b[0] then a[0] else b[0]) + 1;
    ret := NewBn(rlen);
    LowIsValue(a[..], rlen);
    LowIsValue(b[..], rlen);
    var carry, maxspot;
    ghost var spot;
    carry, maxspot, spot := AddLoop(a, b, ret, rlen, 0);
    SumFits(a[..], b[..], rlen, ret[..], carry);
    PackedValue(ret[..], rlen, spot);
    ghost var s := ret[..];
    ret[0] := maxspot;
    assert ret[..] == s[0 := maxspot as word];
  }

  /** The extra word takes the carry. */
  lemma SumFits(a: seq<word>, b: seq<word>, rlen: nat, r: seq<word>, carry: nat)
    requires IsBignum(a) && IsBignum(b) && rlen > a[0] && rlen > b[0] && rlen < |r| && carry <= 1
    requires Raw(r, rlen) + Mul(carry, BPow(rlen)) == BnVal(a) + BnVal(b)
    ensures carry == 0 && Mul(carry, BPow(rlen)) == 0
  {
    hide LVal, Mul, Raw, BnVal, BPow;
    BnBound(a);
    BnBound(b);
    BPowMono(a[0], rlen - 1);
    BPowMono(b[0], rlen - 1);
    BPowUp(rlen - 1);
    BaseFacts();
    MulLe(2, B, BPow(rlen - 1));
    MulUnit(BPow(rlen - 1));
    MulUnit(BPow(rlen));
  }

  /** -1, 0 or +1; the two representations of zero compare as equal. */
  method BnCmp(a: array<word>, b: array<word>) returns (r: int)
    requires Canonical(a[..]) || (IsBignum(a[..]) && a[0] == 1)
    requires Canonical(b[..]) || (IsBignum(b[..]) && b[0] == 1)
    ensures r < 0 <==> BnVal(a[..]) < BnVal(b[..])
    ensures r > 0 <==> BnVal(a[..]) > BnVal(b[..])
  {
    hide LVal, BPow, Mul, Low, BnVal;
    var amax, bmax: nat := a[0], b[0];
    if amax == 1 && a[amax] == 0 {
      amax := 0;
    }
    if bmax == 1 && b[bmax] == 0 {
      bmax := 0;
    }
    var i := if amax > bmax then amax else bmax;
    ghost var n := if a[0] > b[0] then a[0] else b[0];
    LowIsValue(a[..], n);
    LowIsValue(b[..], n);
    LowFrom(a[..], i, n);
    LowFrom(b[..], i, n);
    while i > 0
      invariant 0 <= i <= n
      invariant BnVal(a[..]) - BnVal(b[..]) == Low(a[..], i) - Low(b[..], i)
    {
      var aval := if i > amax then 0 else a[i];
      var bval := if i > bmax then 0 else b[i];
      CompareStep(a[..], b[..], i);
      if aval < bval {
        return -1;
      }
      if aval > bval {
        return 1;
      }
      i := i - 1;
    }
    LowZero(a[..]);
    LowZero(b[..]);
    r := 0;
  }

  lemma LowZero(b: seq<word>)
    ensures Low(b, 0) == 0
  {
  }

  lemma {:induction false} LowFrom(b: seq<word>, i: nat, n: nat)
    requires i <= n && forall k :: i < k <= n ==> Wd(b, k) == 0
    ensures Low(b, n) == Low(b, i)
    decreases n
  {
    if n > i {
      LowFrom(b, i, n - 1);
      MulUnit(BPow(n - 1));
    }
  }

  lemma {:induction false} LowBound(b: seq<word>, n: nat)
    ensures Low(b, n) < BPow(n)
  {
    if n > 0 {
      LowBound(b, n - 1);
      MulLe(Wd(b, n), B - 1, BPow(n - 1));
      MulMinus(B, 1, BPow(n - 1));
      MulUnit(BPow(n - 1));
    }
  }

  /** The top words decide, and equal top words can be set aside. */
  lemma CompareStep(a: seq<word>, b: seq<word>, i: nat)
    requires i > 0
    ensures Wd(a, i) < Wd(b, i) ==> Low(a, i) < Low(b, i)
    ensures Wd(a, i) > Wd(b, i) ==> Low(a, i) > Low(b, i)
    ensures Wd(a, i) == Wd(b, i) ==> Low(a, i) - Low(b, i) == Low(a, i - 1) - Low(b, i - 1)
  {
    LowStep(a, i);
    LowStep(b, i);
    hide Low, BPow, Mul;
    LowBound(a, i - 1);
    LowBound(b, i - 1);
    var p := BPow(i - 1);
    if Wd(a, i) < Wd(b, i) {
      MulLe(Wd(a, i) + 1, Wd(b, i), p);
      MoveBy(Wd(a, i), p);
    } else if Wd(a, i) > Wd(b, i) {
      MulLe(Wd(b, i) + 1, Wd(a, i), p);
      MoveBy(Wd(b, i), p);
    }
  }

  /** The words of a sum's topmost place: adding never lowers it. */
  lemma TopStays(s: seq<word>, r: seq<word>, rlen: nat, spot: nat, add: nat)
    requires Canonical(s) && s[0] <= rlen && Packed(r, rlen, spot) && Raw(r, rlen) == BnVal(s) + add
    ensures spot >= s[0]
  {
    hide LVal, Raw, BnVal, BPow, Mul;
    if spot < s[0] {
      RawDrop(r, rlen, spot);
      RawBound(r, spot);
      BPowMono(spot, s[0] - 1);
      CanonicalBound(s);
    }
  }

  lemma CanonicalBound(s: seq<word>)
    requires Canonical(s) && s[0] > 0
    ensures BnVal(s) >= BPow(s[0] - 1)
  {
    RawStep(s, s[0] - 1);
    MulLe(1, s[s[0]], BPow(s[0] - 1));
    MulUnit(BPow(s[0] - 1));
  }

  /** The words of a product, least significant first, with the topmost nonzero one found on the way. */
  method CopyProduct(mem: array<word>, at: nat, n: nat, ret: array<word>, rlen: nat) returns (maxspot: nat)
    requires IsBignum(ret[..]) && ret[0] == rlen && ret != mem && at + n <= mem.Length
    requires V(mem[..], at, n) < BPow(rlen)
    modifies ret
    ensures ret[0] == old(ret[0]) && Packed(ret[..], rlen, maxspot) && Raw(ret[..], rlen) == V(mem[..], at, n)
  {
    hide Val, BPow, LVal, V, Raw;
    var i := 1;
    maxspot := 0;
    while i <= ret[0]
      invariant 1 <= i <= rlen + 1 && ret[0] == rlen
      invariant forall k :: 1 <= k < i ==> ret[k] == (if k <= n then mem[at + n - k] else 0)
      invariant maxspot < i && (forall k :: maxspot < k < i ==> ret[k] == 0) && (maxspot > 0 ==> ret[maxspot] != 0)
    {
      ret[i] := if i <= n then mem[at + n - i] else 0;
      if ret[i] != 0 {
        maxspot := i;
      }
      i := i + 1;
    }
    Stored(mem[..], at, n, ret[..]);
    RawIs(ret[..]);
  }

  lemma RawIs(b: seq<word>)
    requires IsBignum(b)
    ensures Raw(b, b[0]) == BnVal(b)
  {
  }

  /** mlen words for a, mlen for b, 2*mlen for the product, and scratch space after them. */
  method MultiplyOut(a: array<word>, b: array<word>, mlen: nat) returns (workspace: array<word>)
    requires IsBignum(a[..]) && IsBignum(b[..]) && a[0] <= mlen && b[0] <= mlen
    ensures fresh(workspace) && workspace.Length >= 4 * mlen
    ensures V(workspace[..], 2 * mlen, 2 * mlen) == Mul(BnVal(a[..]), BnVal(b[..]))
  {
    hide Val, V, LVal, BPow, Mul, BnVal, Scratch;
    var scratch := MulComputeScratch(mlen);
    workspace := new word[mlen * 4 + scratch];
    LoadBigEndian(a, workspace, 0, mlen);
    ghost var w := workspace[..];
    LoadBigEndian(b, workspace, mlen, mlen);
    VSame(w, workspace[..], 0, mlen);
    InternalMul(workspace, 0, mlen, 2 * mlen, mlen, 4 * mlen);
  }

  /** a * b, plus addend when there is one. */
  method BigMulAdd(a: array<word>, b: array<word>, addend: array?<word>) returns (ret: array<word>)
    requires IsBignum(a[..]) && IsBignum(b[..]) && a[0] as nat + b[0] as nat + 1 < B
    requires addend != null ==> IsBignum(addend[..]) && addend[0] + 1 < B
    ensures fresh(ret) && Canonical(ret[..])
    ensures BnVal(ret[..]) == Mul(BnVal(a[..]), BnVal(b[..])) + (if addend == null then 0 else BnVal(addend[..]))
  {
    hide Val, V, LVal, BPow, Mul, Low, Raw, BnVal, Scratch, Canonical, Packed;
    var mlen: nat := if a[0] > b[0] then a[0] else b[0];
    var workspace := MultiplyOut(a, b, mlen);
    var rlen: nat := a[0] + b[0] + 1;
    if addend != null && rlen <= addend[0] {
      rlen := addend[0] + 1;
    }
    ret := NewBn(rlen);
    ProductRoom(a[..], b[..], rlen);
    var maxspot := CopyProduct(workspace, 2 * mlen, 2 * mlen, ret, rlen);
    SpotFits(ret[..], rlen, maxspot);
    PackedValue(ret[..], rlen, maxspot);
    ghost var s := ret[..];
    ret[0] := maxspot;
    assert ret[..] == s[0 := maxspot as word];
    CanonicalIs(ret[..]);
    if addend != null {
      AddInto(ret, addend, rlen, Mul(BnVal(a[..]), BnVal(b[..])));
    }
  }

  /** The addition that closes bigmuladd: ret has rlen words, of which its count may claim fewer. */
  method AddInto(ret: array<word>, addend: array<word>, rlen: nat, ghost product: nat)
    requires Canonical(ret[..]) && IsBignum(addend[..]) && ret != addend && ret[0] <= rlen < ret.Length && rlen < B
    requires addend[0] < rlen && BnVal(ret[..]) == product < BPow(rlen - 1)
    modifies ret
    ensures Canonical(ret[..]) && BnVal(ret[..]) == product + BnVal(addend[..])
  {
    hide LVal, BPow, Mul, Low, Raw, BnVal, Packed;
    ghost var r := ret[..];
    LowIsValue(r, rlen);
    LowIsValue(addend[..], rlen);
    var carry, maxspot;
    ghost var spot;
    carry, maxspot, spot := AddLoop(ret, addend, ret, rlen, ret[0]);
    AddendFits(product, addend[..], rlen, ret[..], carry);
    TopStays(r, ret[..], rlen, spot, BnVal(addend[..]));
    SpotFits(ret[..], rlen, spot);
    PackedValue(ret[..], rlen, spot);
    ghost var s := ret[..];
    ret[0] := maxspot;
    assert ret[..] == s[0 := maxspot as word];
  }

  lemma CanonicalIs(b: seq<word>)
    requires Canonical(b)
    ensures IsBignum(b)
  {
  }

  lemma SpotFits(r: seq<word>, rlen: nat, spot: nat)
    requires Packed(r, rlen, spot)
    ensures spot <= rlen < |r|
  {
  }

  lemma ProductRoom(a: seq<word>, b: seq<word>, rlen: nat)
    requires IsBignum(a) && IsBignum(b) && rlen >= a[0] as nat + b[0] as nat + 1
    ensures Mul(BnVal(a), BnVal(b)) < BPow(rlen - 1) <= BPow(rlen)
  {
    hide Mul, BnVal, BPow, LVal;
    BnBound(a);
    BnBound(b);
    MulLe(BnVal(a), BPow(a[0]), BnVal(b));
    MulLt(BnVal(b), BPow(b[0]), BPow(a[0]));
    BPowProduct(a[0], b[0]);
    BPowMono(a[0] as nat + b[0] as nat, rlen - 1);
    BPowMono(rlen - 1, rlen);
  }

  lemma BPowProduct(m: nat, n: nat)
    ensures Mul(BPow(m), BPow(n)) == BPow(m + n)
  {
    BPowAdd(m, n);
  }

  lemma AddendFits(product: nat, addend: seq<word>, rlen: nat, r: seq<word>, carry: nat)
    requires IsBignum(addend) && rlen > addend[0] && product < BPow(rlen - 1)
    requires rlen < |r| && carry <= 1
    requires Raw(r, rlen) + Mul(carry, BPow(rlen)) == product + BnVal(addend)
    ensures carry == 0 && Mul(carry, BPow(rlen)) == 0
  {
    hide LVal, Mul, Raw, BnVal, BPow;
    BnBound(addend);
    BPowMono(addend[0], rlen - 1);
    BPowUp(rlen - 1);
    BaseFacts();
    MulLe(2, B, BPow(rlen - 1));
    MulUnit(BPow(rlen - 1));
    MulUnit(BPow(rlen));
  }
}
