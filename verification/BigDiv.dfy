/** bigdivmod, bigdiv and bigmod: division of Bignums, exact for every modulus. */
module BigDiv {
  import opened Arith
  import opened Words
  import opened AddSub
  import opened Karatsuba
  import opened Reciprocal
  import opened DivisionMath
  import opened Bignum
  import opened ModSubtract
  import opened Division

  /** A number that something can be divided by. */
  ghost predicate IsModulus(b: seq<word>) {
    IsBignum(b) && b[0] >= 1 && b[b[0]] != 0
  }

  lemma TopFits(m: nat, mlen: nat, rshift: nat, d: word)
    requires NormalTop(m, mlen, rshift, d)
    ensures mlen >= 1 && d >= TOP
  {
  }

  method NewBn(length: nat) returns (b: array<word>)
    requires length < B
    ensures fresh(b) && b.Length == length + 1 && IsBignum(b[..]) && b[0] == length
    ensures forall i :: 1 <= i <= length ==> b[i] == 0
    ensures BnVal(b[..]) == 0
  {
    b := new word[length + 1](i => 0);
    b[0] := length;
    LValZeros(b[..][1..1 + b[0]]);
  }

  /** Copies a Bignum into len words at at, most significant first, zeros in front. */
  method LoadBigEndian(b: array<word>, mem: array<word>, at: nat, len: nat)
    requires IsBignum(b[..]) && b != mem && b[0] <= len && at + len <= mem.Length
    modifies mem
    ensures OnlyChanged(old(mem[..]), mem[..], at, len)
    ensures V(mem[..], at, len) == BnVal(b[..])
    ensures len > 0 && b[0] == len ==> mem[at] == b[b[0]]
  {
    hide Val, BPow, LVal;
    ghost var m0 := mem[..];
    var j := 0;
    while j < len
      invariant 0 <= j <= len
      invariant OnlyChanged(m0, mem[..], at, len)
      invariant forall k :: at + len - j <= k < at + len ==> mem[k] == (if at + len - k <= b[0] then b[at + len - k] else 0)
    {
      mem[at + len - 1 - j] := if j < b[0] then b[j + 1] else 0;
      j := j + 1;
    }
    Loaded(b[..], mem[..], at, len);
  }

  lemma Loaded(b: seq<word>, s: seq<word>, at: nat, len: nat)
    requires IsBignum(b) && b[0] <= len && at + len <= |s|
    requires forall k :: at <= k < at + len ==> s[k] == (if at + len - k <= b[0] then b[at + len - k] else 0)
    ensures V(s, at, len) == BnVal(b)
    ensures len > 0 && b[0] == len ==> s[at] == b[b[0]]
  {
    hide Val, BPow, LVal;
    var z := len - b[0];
    LeadingZeros(s, at, z, b[0]);
    BnValBigEndian(b);
    assert s[at + z..at + z + b[0]] == Reverse(b[1..1 + b[0]]);
  }

  /** Copies the low words of the plen-word number at n into a Bignum, zeros beyond its top. */
  method StoreLittleEndian(mem: array<word>, n: nat, plen: nat, result: array<word>)
    requires IsBignum(result[..]) && result != mem && n + plen <= mem.Length
    requires V(mem[..], n, plen) < BPow(result[0])
    modifies result
    ensures IsBignum(result[..]) && result[0] == old(result[0]) && BnVal(result[..]) == V(mem[..], n, plen)
  {
    hide Val, BPow, LVal, BnVal, V;
    ghost var count: nat := result[0];
    var i := 1;
    while i <= result[0]
      invariant 1 <= i <= count + 1 && result[0] == count
      invariant forall k :: 1 <= k < i ==> result[k] == (if k <= plen then mem[n + plen - k] else 0)
    {
      result[i] := if i <= plen then mem[n + plen - i] else 0;
      i := i + 1;
    }
    Stored(mem[..], n, plen, result[..]);
  }

  lemma Stored(s: seq<word>, n: nat, plen: nat, b: seq<word>)
    requires IsBignum(b) && n + plen <= |s| && V(s, n, plen) < BPow(b[0])
    requires forall k :: 1 <= k < b[0] + 1 ==> b[k] == (if k <= plen then s[n + plen - k] else 0)
    ensures BnVal(b) == V(s, n, plen)
  {
    hide Val, BPow, LVal, BnVal;
    BnValBigEndian(b);
    var count: nat := b[0];
    var r := Reverse(b[1..1 + b[0]]);
    forall k | 0 <= k < count ensures r[k] == if k < count - plen then 0 else s[n + plen - (count - k)] {
      assert r[k] == b[count - k];
    }
    if count >= plen {
      ValLeadingZeros(r, count - plen);
      assert r[count - plen..] == s[n..n + plen];
    } else {
      StoredLow(s, n, plen - count, count);
      assert r == s[n + (plen - count)..n + (plen - count) + count];
    }
  }

  /** The high words of a number that fits in the low ones are zero. */
  lemma StoredLow(s: seq<word>, n: nat, hi: nat, count: nat)
    requires n + hi + count <= |s| && V(s, n, hi + count) < BPow(count)
    ensures V(s, n, hi + count) == V(s, n + hi, count)
  {
    hide Val, BPow, V, Mul;
    VSplitMul(s, n, hi, count);
    MulUnit(BPow(count));
    if V(s, n, hi) > 0 {
      MulLe(1, V(s, n, hi), BPow(count));
    }
  }

  /** Writes p mod `mod` to result, and adds p div `mod` to quotient, for whichever of the two is wanted. */
  method BigDivMod(p: array<word>, mod: array<word>, result: array?<word>, quotient: array?<word>) returns (ghost q: nat)
    requires IsBignum(p[..]) && IsModulus(mod[..])
    requires result != null ==> IsBignum(result[..]) && result[0] >= mod[0] && result != p && result != mod
    requires quotient != null ==> IsBignum(quotient[..]) && quotient != p && quotient != mod && quotient != result
                                  && BnVal(quotient[..]) + BnVal(p[..]) < BPow(quotient[0])
    modifies if result == null then {} else {result}, if quotient == null then {} else {quotient}
    ensures result != null ==> IsBignum(result[..]) && result[0] == old(result[0])
    ensures result != null ==> BnVal(result[..]) == BnVal(p[..]) - Mul(q, BnVal(mod[..]))
    ensures quotient != null ==> QuotInv(quotient[..], old(BnVal(quotient[..])), old(quotient[0]), q)
    ensures 0 <= BnVal(p[..]) - Mul(q, BnVal(mod[..])) < BnVal(mod[..])
  {
    hide Val, BPow, LVal, BnVal, V, Mul, Modulus, NormalTop, Corrected, Pow2;
    var mlen: nat := mod[0];
    var plen := if p[0] <= mlen then mlen + 1 else p[0];
    var mem := new word[plen + mlen];
    LoadBigEndian(mod, mem, plen, mlen);
    ghost var s := mem[..];
    LoadBigEndian(p, mem, 0, plen);
    VSame(s, mem[..], plen, mlen);
    var rshift, m0 := TopBits(mem, plen, mlen);
    TopFits(BnVal(mod[..]), mlen, rshift, m0);
    var recip := ReciprocalWord(m0);
    ModulusBy(mem[..], plen, mlen, recip, rshift, m0);
    q := InternalMod(mem, 0, plen, plen, mlen, quotient, recip, rshift, m0);
    if result != null {
      SmallEnough(mem[..], plen, BnVal(mod[..]), mod[..], result[0]);
      StoreLittleEndian(mem, 0, plen, result);
    }
  }

  lemma ModulusBy(s: seq<word>, m: nat, mlen: nat, recip: word, rshift: nat, d: word)
    requires mlen >= 1 && m + mlen <= |s| && s[m] != 0
    requires d >= TOP && NormalTop(V(s, m, mlen), mlen, rshift, d) && Corrected(recip, d)
    ensures Modulus(s, m, mlen, recip, rshift, d)
  {
    hide Val, BPow, V, Mul, Corrected, NormalTop;
  }

  lemma SmallEnough(s: seq<word>, plen: nat, m: nat, mod: seq<word>, count: nat)
    requires plen <= |s| && IsBignum(mod) && m == BnVal(mod) && V(s, 0, plen) < m && mod[0] <= count
    ensures V(s, 0, plen) < BPow(count)
  {
    hide Val, BPow, LVal;
    LValBound(mod[1..1 + mod[0]]);
    BPowMono(mod[0], count);
  }

  lemma QuotientIs(x: nat, m: nat, q: nat)
    requires 0 <= x - Mul(q, m) < m
    ensures x % m == x - Mul(q, m) && x / m == q
  {
    DivModUnique(x, m, q, x - q * m);
  }

  /** a mod b. */
  method BigMod(a: array<word>, b: array<word>) returns (r: array<word>)
    requires IsBignum(a[..]) && IsModulus(b[..])
    ensures fresh(r) && IsBignum(r[..]) && 1 <= r[0] <= b[0] && (r[0] > 1 ==> r[r[0]] != 0)
    ensures BnVal(b[..]) > 0 && BnVal(r[..]) == BnVal(a[..]) % BnVal(b[..])
  {
    hide LVal, BnVal, Mul;
    r := NewBn(b[0]);
    ghost var q := BigDivMod(a, b, r, null);
    QuotientIs(BnVal(a[..]), BnVal(b[..]), q);
    Trim(r);
  }

  /** a div b. */
  method BigDiv(a: array<word>, b: array<word>) returns (q: array<word>)
    requires IsBignum(a[..]) && IsModulus(b[..])
    ensures fresh(q) && IsBignum(q[..]) && q[0] <= a[0]
    ensures BnVal(b[..]) > 0 && BnVal(q[..]) == BnVal(a[..]) / BnVal(b[..])
  {
    hide LVal, BnVal, Mul, BPow;
    q := NewBn(a[0]);
    BnBound(a[..]);
    ghost var k := BigDivMod(a, b, null, q);
    QuotientIs(BnVal(a[..]), BnVal(b[..]), k);
    Trim(q);
  }

  lemma BnBound(b: seq<word>)
    requires IsBignum(b)
    ensures BnVal(b) < BPow(b[0])
  {
    LValBound(b[1..1 + b[0]]);
  }
}
