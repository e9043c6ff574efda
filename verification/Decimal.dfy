/** bignum_decimal and bignum_from_decimal, and the digit count that the former allocates. */
module Decimal {
  import opened Arith
  import opened Words
  import opened AddSub
  import opened Karatsuba
  import opened Reciprocal
  import opened Bignum
  import opened ModSubtract
  import opened BigDiv
  import opened BigMul
  import opened ModularInverse
  import opened NumberTheory
  import opened Powers

  /** What a decimal string stands for, and the string a number is written as. */
  predicate IsDigit(c: char) {
    '0' <= c <= '9'
  }

  function Digit(d: nat): (c: char)
    requires d < 10
    ensures IsDigit(c)
  {
    '0' + d as char
  }

  function DecVal(s: string): nat
    requires forall i :: 0 <= i < |s| ==> IsDigit(s[i])
  {
    if s == [] then 0 else assert IsDigit(s[|s| - 1]); 10 * DecVal(s[..|s| - 1]) + (s[|s| - 1] as int - '0' as int)
  }

  function Decimal(n: nat): (s: string)
    ensures |s| >= 1 && forall i :: 0 <= i < |s| ==> IsDigit(s[i])
  {
    if n < 10 then [Digit(n)] else Decimal(n / 10) + [Digit(n % 10)]
  }

  function Pow10(n: nat): (p: nat)
    ensures p >= 1
  {
    if n == 0 then 1 else 10 * Pow10(n - 1)
  }

  /** The first digit is the most significant one. */
  lemma {:induction false} FirstDigit(s: string)
    requires |s| >= 1 && forall i :: 0 <= i < |s| ==> IsDigit(s[i])
    ensures var d := s[0] as int - '0' as int; d * Pow10(|s| - 1) <= DecVal(s) < (d + 1) * Pow10(|s| - 1)
  {
    var n := |s| - 1;
    if n > 0 {
      FirstDigit(s[..n]);
      DigitStep(s[0] as int - '0' as int, Pow10(n - 1), DecVal(s[..n]), s[n] as int - '0' as int);
    } else {
      assert s[..0] == "";
    }
  }

  lemma DigitStep(d: nat, p: nat, v: nat, c: nat)
    requires d * p <= v < (d + 1) * p && c < 10
    ensures d * (10 * p) <= 10 * v + c < (d + 1) * (10 * p)
  {
    assert d * (10 * p) == 10 * (d * p) && (d + 1) * (10 * p) == 10 * ((d + 1) * p);
  }

  /** A decimal form has no zero in front, except that of zero itself. */
  lemma {:induction false} NoZeroInFront(n: nat)
    ensures Decimal(n)[0] == '0' <==> n == 0
  {
    if n >= 10 {
      NoZeroInFront(n / 10);
    }
  }

  lemma {:induction false} DecimalValue(n: nat)
    ensures DecVal(Decimal(n)) == n
  {
    var s := Decimal(n);
    if n >= 10 {
      DecimalValue(n / 10);
      assert s[..|s| - 1] == Decimal(n / 10);
    } else {
      assert s[..|s| - 1] == [];
    }
  }

  /** A number below 10^k is written with at most k digits. */
  lemma {:induction false} DecimalLength(n: nat, k: nat)
    requires k >= 1 && n < Exp(10, k)
    ensures |Decimal(n)| <= k
  {
    TenTimes(Exp(10, k - 1));
    if n >= 10 && k > 1 {
      DecimalLength(n / 10, k - 1);
    }
  }

  lemma TenTimes(x: int)
    ensures Mul(10, x) == 10 * x
  {
  }

  // The estimate 28/93 for the decimal logarithm of 2.

  lemma {:induction false} ExpPositive(b: int, e: nat)
    requires b > 0
    ensures Exp(b, e) > 0
  {
    if e > 0 {
      ExpPositive(b, e - 1);
      MulLt(0, b, Exp(b, e - 1));
      MulUnit(Exp(b, e - 1));
    }
  }

  lemma {:induction false} ExpMonoBase(a: int, b: int, e: nat)
    requires 0 <= a <= b
    ensures 0 <= Exp(a, e) <= Exp(b, e)
  {
    if e > 0 {
      ExpMonoBase(a, b, e - 1);
      MulLe(a, b, Exp(a, e - 1));
      MulLe(Exp(a, e - 1), Exp(b, e - 1), b);
    }
  }

  lemma {:induction false} ExpStrictBase(a: int, b: int, e: nat)
    requires 0 <= a < b && e > 0
    ensures Exp(a, e) < Exp(b, e)
  {
    ExpMonoBase(a, b, e - 1);
    ExpPositive(b, e - 1);
    MulLe(Exp(a, e - 1), Exp(b, e - 1), a);
    MulLt(a, b, Exp(b, e - 1));
  }

  lemma {:induction false} ExpMonoPower(b: int, e: nat, f: nat)
    requires b >= 1 && e <= f
    ensures Exp(b, e) <= Exp(b, f)
    decreases f - e
  {
    if e < f {
      ExpMonoPower(b, e, f - 1);
      ExpPositive(b, f - 1);
      MulLe(1, b, Exp(b, f - 1));
      MulUnit(Exp(b, f - 1));
    }
  }

  lemma {:induction false} ExpTwo(e: nat)
    ensures Exp(2, e) == Pow2(e)
  {
    if e > 0 {
      ExpTwo(e - 1);
    }
  }

  lemma PowersOfTwo()
    ensures Exp(2, 31) == 2147483648
  {
    assert Exp(2, 4) == 16;
    ExpAdd(2, 4, 4);
    ExpAdd(2, 8, 8);
    assert Exp(2, 3) == 8;
    ExpAdd(2, 4, 3);
    ExpAdd(2, 8, 7);
    ExpAdd(2, 16, 15);
  }

  lemma PowersOfTen()
    ensures Exp(10, 7) == 10000000
  {
    assert Exp(10, 4) == 10000;
    assert Exp(10, 3) == 1000;
    ExpAdd(10, 4, 3);
  }

  /** 2^93 < 10^28: 93/28 lies just below the binary logarithm of 10. */
  lemma LogarithmEstimate()
    ensures Exp(2, 93) < Exp(10, 28)
  {
    hide Exp;
    PowersOfTwo();
    ExpAdd(2, 31, 31);
    ExpAdd(2, 62, 31);
    PowersOfTen();
    ExpAdd(10, 7, 7);
    ExpAdd(10, 14, 14);
  }

  /** Every number of i bits, i positive, fits in (28 * i + 92) / 93 decimal digits. */
  lemma DigitsSuffice(x: nat, i: nat)
    requires i >= 1 && x < Pow2(i)
    ensures x < Exp(10, (28 * i + 92) / 93) && (28 * i + 92) / 93 >= 1
  {
    var nd := (28 * i + 92) / 93;
    if x >= Exp(10, nd) {
      // 10^(93*nd) <= x^93 < 2^(93*i) = (2^93)^i < (10^28)^i = 10^(28*i)
      ExpPositive(10, nd);
      ExpMonoBase(Exp(10, nd), x, 93);
      ExpStrictBase(x, Pow2(i), 93);
      ExpTwo(i);
      ExpMul(10, nd, 93);
      ExpMul(2, i, 93);
      ExpMul(2, 93, i);
      LogarithmEstimate();
      ExpPositive(2, 93);
      ExpStrictBase(Exp(2, 93), Exp(10, 28), i);
      ExpMul(10, 28, i);
      MulComm(i, 93);
      CountOf(nd, i);
      ExpMonoPower(10, Mul(28, i), Mul(nd, 93));
    }
  }

  lemma CountOf(nd: nat, i: nat)
    requires nd == (28 * i + 92) / 93
    ensures Mul(28, i) <= Mul(nd, 93)
  {
  }

  /** bignum_bitcount: one more than the place of the topmost set bit, 0 for zero. */
  method BitCount(bn: array<word>) returns (count: nat)
    requires IsBignum(bn[..])
    ensures BnVal(bn[..]) < Pow2(count) && (count > 0 ==> BnVal(bn[..]) >= Pow2(count - 1))
  {
    hide LVal, BPow, Mul, BnVal, Raw, Pow2, ShiftRight;
    var bitcount: int := bn[0] as int * W - 1;
    // bitcount is bit r of word q
    ghost var q, r: int := bn[0] as int - 1, W - 1;
    Distrib(q, 1, W);
    if q >= 0 {
      FullWord(bn[q + 1]);
    }
    PlaceOf(bitcount, q, r);
    while bitcount >= 0 && ShiftRight(bn[bitcount / W + 1], bitcount % W) == 0
      invariant -1 <= q < bn[0] && 0 <= r < W && bitcount == q * W + r && bitcount >= -1
      invariant bitcount >= 0 ==> q >= 0 && bitcount / W == q && bitcount % W == r && bn[q + 1] < Pow2(r + 1)
      invariant bitcount < 0 ==> q == -1
      invariant forall k :: q + 1 < k <= bn[0] ==> bn[k] == 0
      decreases bitcount
    {
      ShiftBounds2(bn[q + 1], r);
      if r == 0 {
        LastBit(bn[q + 1]);
        q, r := q - 1, W - 1;
        if q >= 0 {
          FullWord(bn[q + 1]);
        }
      } else {
        r := r - 1;
      }
      bitcount := bitcount - 1;
      Distrib(q, 1, W);
      PlaceOf(bitcount, q, r);
    }
    BitsDone(bn[..], q, r);
    count := bitcount + 1;
  }

  lemma FullWord(w: word)
    ensures w < Pow2(W - 1 + 1)
  {
  }

  lemma LastBit(w: word)
    requires w < Pow2(0)
    ensures w == 0
  {
  }

  lemma PlaceOf(p: int, q: int, r: int)
    requires p == q * W + r && 0 <= r < W
    ensures p >= 0 <==> q >= 0
    ensures p / W == q && p % W == r
  {
    DivModUnique(p, W, q, r);
    if q >= 0 {
      MulNonNeg(q, W);
    } else {
      MulMono(q, -1, W);
    }
  }

  lemma BitsDone(bn: seq<word>, q: int, r: nat)
    requires IsBignum(bn) && -1 <= q < bn[0] && r < W
    requires forall k :: q + 1 < k <= bn[0] ==> bn[k] == 0
    requires q >= 0 ==> bn[q + 1] < Pow2(r + 1) && ShiftRight(bn[q + 1], r) != 0
    requires q < 0 ==> r == W - 1
    ensures q * W + r + 1 >= 0 && BnVal(bn) < Pow2(q * W + r + 1)
    ensures q * W + r >= 0 ==> BnVal(bn) >= Pow2(q * W + r)
  {
    hide BPow, LVal, ShiftRight;
    RawIs(bn);
    RawDrop(bn, bn[0], q + 1);
    if q < 0 {
      Distrib(q, 1, W);
      EmptyRaw(bn);
    } else {
      MulNonNeg(q, W);
      RawStep(bn, q);
      RawBound(bn, q);
      ShiftBounds2(bn[q + 1], r);
      BitsMath(bn[q + 1], r, q, Raw(bn, q), q * W + r);
    }
  }

  lemma EmptyRaw(bn: seq<word>)
    requires |bn| >= 1
    ensures Raw(bn, 0) == 0
  {
  }

  lemma BitsMath(w: nat, r: nat, q: nat, low: nat, p: nat)
    requires Pow2(r) <= w < Pow2(r + 1) && low < BPow(q) && p == r + q * W
    ensures Pow2(p) <= low + Mul(w, BPow(q)) < Pow2(p + 1)
  {
    BPowIsPow2(q);
    Pow2Add(r, q * W);
    Pow2Add(r + 1, q * W);
    assert r + 1 + q * W == p + 1;
    MulLe(Pow2(r), w, BPow(q));
    MulLe(w + 1, Pow2(r + 1), BPow(q));
    MulPlus(w, 1, BPow(q));
    MulUnit(BPow(q));
  }

  // One word of the short division, done in pieces that each fit a word.

  function TenQuotient(w: word, carry: nat): nat {
    MulNonNeg(carry, ((B - 1) - 9) / 10 + 1);
    w / 10 + carry * (((B - 1) - 9) / 10 + 1)
  }

  function TenRemainder(w: word, carry: nat): nat {
    MulNonNeg(carry, ((B - 1) - 9) % 10);
    w % 10 + carry * (((B - 1) - 9) % 10)
  }

  lemma TenStep(w: word, carry: nat)
    requires carry < 10
    ensures var q0, r0 := TenQuotient(w, carry), TenRemainder(w, carry);
            && r0 < B && q0 + r0 / 10 < B && r0 % 10 < 10
            && Mul(carry, B) + w == 10 * (q0 + r0 / 10) + r0 % 10
  {
    BaseFacts();
    var bq, br := (B - 10) / 10 + 1, (B - 10) % 10;
    assert B == 10 * bq + br;
    MulMono(carry, 9, br);
    TenMath(w / 10, w % 10, carry, bq, br, B, w);
  }

  lemma TenMath(wq: nat, wr: nat, carry: nat, bq: nat, br: nat, b: nat, w: nat)
    requires b == 10 * bq + br && br < 10 && w == 10 * wq + wr && wr < 10 && carry < 10 && w < b
    ensures var q0, r0 := wq + carry * bq, wr + carry * br;
            carry * b + w == 10 * (q0 + r0 / 10) + r0 % 10 && q0 + r0 / 10 < b && r0 < 100
  {
    Distrib(10 * bq, br, carry);
    Assoc(10, bq, carry);
    MulMono(carry, 9, br);
    MulMono(carry, 9, b);
    var q0, r0 := wq + carry * bq, wr + carry * br;
    assert carry * b + w == 10 * q0 + r0;
  }

  method TenWord(w: word, carry: nat) returns (q: word, r: nat)
    requires carry < 10
    ensures Mul(carry, B) + w == 10 * q as nat + r && r < 10
  {
    hide TenQuotient, TenRemainder, Mul;
    TenStep(w, carry);
    var q0, r0 := TenQuotient(w, carry), TenRemainder(w, carry);
    q, r := q0 + r0 / 10, r0 % 10;
  }

  /** The workspace is divided by ten in place; the remainder and whether anything is left are returned. */
  method DivideByTen(workspace: array<word>, n: nat) returns (carry: nat, iszero: bool)
    requires n <= workspace.Length
    modifies workspace
    ensures carry < 10 && old(V(workspace[..], 0, n)) == 10 * V(workspace[..], 0, n) + carry
    ensures iszero <==> V(workspace[..], 0, n) == 0
  {
    hide Val, BPow, V, Mul;
    ghost var m0 := workspace[..];
    iszero, carry := true, 0;
    var i := 0;
    VZero(m0, 0, 0);
    while i < n
      invariant 0 <= i <= n && carry < 10
      invariant forall k :: i <= k < n ==> workspace[k] == m0[k]
      invariant V(m0, 0, i) == 10 * V(workspace[..], 0, i) + carry
      invariant iszero <==> V(workspace[..], 0, i) == 0
    {
      ghost var m1 := workspace[..];
      var q, r := TenWord(workspace[i], carry);
      workspace[i] := q;
      TenPrefix(m0, m1, workspace[..], i, carry, r);
      carry := r;
      if workspace[i] != 0 {
        iszero := false;
      }
      i := i + 1;
    }
  }

  /** One more word of the quotient, whose prefixes are 10 times smaller but for the carry. */
  lemma TenPrefix(m0: seq<word>, m1: seq<word>, m2: seq<word>, i: nat, carry: nat, carry': nat)
    requires i < |m0| && i < |m1| && |m1| == |m2| && forall k :: 0 <= k < i ==> m1[k] == m2[k]
    requires V(m0, 0, i) == 10 * V(m1, 0, i) + carry && Mul(carry, B) + m0[i] == 10 * m2[i] + carry'
    ensures V(m0, 0, i + 1) == 10 * V(m2, 0, i + 1) + carry'
    ensures V(m2, 0, i + 1) == 0 <==> V(m1, 0, i) == 0 && m2[i] == 0
  {
    hide Val, BPow, V, Mul;
    VSnoc(m0, i);
    VSame(m1, m2, 0, i);
    VSnoc(m2, i);
    SnocMath(V(m0, 0, i), V(m1, 0, i), carry, m0[i], m2[i], carry');
  }

  lemma VSnoc(s: seq<word>, i: nat)
    requires i < |s|
    ensures V(s, 0, i + 1) == Mul(V(s, 0, i), B) + s[i]
  {
    hide Val, BPow;
    assert s[0..i + 1] == s[0..i] + [s[i]];
    ValSnoc(s[0..i], s[i]);
  }

  lemma SnocMath(v0: nat, v1: nat, carry: nat, w: nat, z: nat, carry': nat)
    requires v0 == 10 * v1 + carry && Mul(carry, B) + w == 10 * z + carry'
    ensures Mul(v0, B) + w == 10 * (Mul(v1, B) + z) + carry'
    ensures Mul(v1, B) + z == 0 <==> v1 == 0 && z == 0
  {
    Distrib(10 * v1, carry, B);
    Assoc(10, v1, B);
    BaseFacts();
    MulNonNeg(v1, B);
    if v1 > 0 {
      MulMono(1, v1, B);
    }
  }

  lemma DecimalStep(v: nat, v': nat, carry: nat)
    requires v == 10 * v' + carry && carry < 10
    ensures Decimal(v) == (if v' == 0 then "" else Decimal(v')) + [Digit(carry)]
  {
  }

  /** The decimal form of x as a NUL-terminated string; the estimated space is never overrun. */
  method BignumDecimal(x: array<word>) returns (ret: array<char>, len: nat)
    requires IsBignum(x[..])
    ensures len < ret.Length && ret[len] == '\0' && ret[..len] == Decimal(BnVal(x[..]))
  {
    hide LVal, BPow, BnVal, V, Val, Decimal, Mul, Exp, Pow2, IsDigit;
    var i := BitCount(x);
    var ndigits: nat := if i == 0 then 1 else (28 * i + 92) / 93;
    RoomForDigits(BnVal(x[..]), i, ndigits);
    ndigits := ndigits + 1;
    ret := new char[ndigits](_ => '\0');
    var n: nat := x[0];
    var workspace := new word[n];
    LoadBigEndian(x, workspace, 0, n);
    var ndigit := ndigits - 1;
    ret[ndigit] := '\0';
    ndigit := WriteDigits(workspace, n, ret, BnVal(x[..]));
    len := ndigits - 1 - ndigit;
    ghost var r := ret[..];
    assert r[ndigit..ndigits - 1] == Decimal(BnVal(x[..]));
    if ndigit > 0 {
      MoveDown(ret, ndigit, ndigits - ndigit);
      MovedFront(r, ret[..], ndigit, len);
    }
  }

  /** The loop that divides the workspace by ten and writes each remainder in front of those before it. */
  method WriteDigits(workspace: array<word>, n: nat, ret: array<char>, ghost x: nat) returns (ndigit: nat)
    requires n == workspace.Length && x == V(workspace[..], 0, n) && ret.Length >= 1 && ret[ret.Length - 1] == '\0'
    requires |Decimal(x)| <= ret.Length - 1
    modifies workspace, ret
    ensures ndigit < ret.Length && ret[ret.Length - 1] == '\0' && ret[ndigit..ret.Length - 1] == Decimal(x)
  {
    hide LVal, BPow, BnVal, V, Val, Decimal, Mul, Exp, Pow2, IsDigit;
    var end := ret.Length - 1;
    ndigit := end;
    ghost var v := x;
    assert Decimal(x) == Decimal(v) + ret[ndigit..end];
    var iszero := false;
    while !iszero
      invariant 0 <= ndigit <= end && ret[end] == '\0'
      invariant v == V(workspace[..], 0, n)
      invariant Decimal(x) == (if iszero then "" else Decimal(v)) + ret[ndigit..end]
      invariant !iszero ==> |Decimal(v)| >= 1
      decreases if iszero then 0 else 1, v
    {
      var carry;
      carry, iszero := DivideByTen(workspace, n);
      DecimalStep(v, V(workspace[..], 0, n), carry);
      ndigit := ndigit - 1;
      ghost var r := ret[..];
      ret[ndigit] := Digit(carry);
      InFront(r, ret[..], ndigit, end, Digit(carry));
      v := V(workspace[..], 0, n);
      Decreasing(v);
    }
  }

  lemma InFront(r0: seq<char>, r1: seq<char>, at: nat, end: nat, c: char)
    requires at < end <= |r0| && r1 == r0[at := c]
    ensures r1[at..end] == [c] + r0[at + 1..end]
  {
  }

  lemma MovedFront(r0: seq<char>, r1: seq<char>, from: nat, len: nat)
    requires from + len + 1 == |r0| == |r1| && r1[..len + 1] == r0[from..]
    ensures r1[..len] == r0[from..from + len] && r1[len] == r0[from + len]
  {
    assert r1[..len] == r1[..len + 1][..len] && r0[from..from + len] == r0[from..][..len];
    assert r1[len] == r1[..len + 1][len];
  }

  lemma Decreasing(v: nat)
    ensures |Decimal(v)| >= 1
  {
  }

  lemma RoomForDigits(x: nat, i: nat, nd: nat)
    requires x < Pow2(i) && nd == if i == 0 then 1 else (28 * i + 92) / 93
    ensures nd >= 1 && |Decimal(x)| <= nd
  {
    if i == 0 {
      assert Pow2(0) == 1;
    } else {
      DigitsSuffice(x, i);
      DecimalLength(x, nd);
    }
  }

  /** memmove of the last n characters to the front. */
  method MoveDown(ret: array<char>, from: nat, n: nat)
    requires from + n == ret.Length
    modifies ret
    ensures ret[..n] == old(ret[from..])
  {
    var k := 0;
    while k < n
      invariant 0 <= k <= n
      invariant forall j :: 0 <= j < k ==> ret[j] == old(ret[..])[from + j]
      invariant forall j :: k <= j < ret.Length ==> ret[j] == old(ret[..])[j]
    {
      ret[k] := ret[from + k];
      k := k + 1;
    }
  }

  /** bignum_from_long, for a single digit. */
  method DigitBn(n: word) returns (c: array<word>)
    requires n <= 10
    ensures fresh(c) && Canonical(c[..]) && BnVal(c[..]) == n && c[0] <= 1
  {
    c := new word[2](_ => 0);
    if n != 0 {
      c[0] := 1;
      c[1] := n;
      assert c[..][1..1 + c[0]] == [n];
      LValOne(n);
    } else {
      assert c[..][1..1 + c[0]] == [];
    }
  }

  predicate AllDigits(s: string) {
    forall i :: 0 <= i < |s| ==> IsDigit(s[i])
  }

  /** Reads a decimal string; null when a character is not a digit. */
  method BignumFromDecimal(decimal: string) returns (result: array?<word>)
    requires |decimal| + 4 < B
    ensures result == null <==> !AllDigits(decimal)
    ensures result != null ==> fresh(result) && Canonical(result[..]) && BnVal(result[..]) == DecVal(decimal)
  {
    hide LVal, BPow, BnVal, Mul, DecVal;
    var acc := SmallBn(0);
    EmptyString();
    var i := 0;
    while i < |decimal|
      invariant 0 <= i <= |decimal| && AllDigits(decimal[..i])
      invariant fresh(acc) && Canonical(acc[..]) && BnVal(acc[..]) == DecVal(decimal[..i]) < BPow(i)
    {
      if !IsDigit(decimal[i]) {
        return null;
      }
      var ten := DigitBn(10);
      CanonicalSize(acc[..], i);
      var tmp := BigMulAdd(acc, ten, null);
      var tmp2 := DigitBn((decimal[i] - '0') as int);
      PrefixStep(decimal, i, BnVal(acc[..]), BnVal(tmp[..]));
      CanonicalSize(tmp[..], i + 1);
      acc := BigAdd(tmp, tmp2);
      i := i + 1;
    }
    assert decimal[..i] == decimal;
    result := acc;
  }

  lemma EmptyString()
    ensures DecVal("") == 0 < BPow(0)
  {
  }

  lemma PrefixStep(decimal: string, i: nat, acc: nat, tmp: nat)
    requires i < |decimal| && AllDigits(decimal[..i]) && IsDigit(decimal[i])
    requires acc == DecVal(decimal[..i]) < BPow(i) && tmp == Mul(acc, 10)
    ensures AllDigits(decimal[..i + 1])
    ensures DecVal(decimal[..i + 1]) == tmp + (decimal[i] as int - '0' as int) < BPow(i + 1)
    ensures tmp < BPow(i + 1)
  {
    var s := decimal[..i + 1];
    assert s[..|s| - 1] == decimal[..i];
    BaseFacts();
    BPowUp(i);
    MulLe(10, B, BPow(i));
    MulLe(acc, BPow(i) - 1, 10);
    TenTimes(BPow(i));
    MulMinus(BPow(i), 1, 10);
    MulComm(BPow(i), 10);
    MulUnit(10);
    MulComm(acc, 10);
    TenTimes(acc);
  }
}
