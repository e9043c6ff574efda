/** modinv: Euclid's extended algorithm with unsigned numbers and one sign. */
module ModularInverse {
  import opened Arith
  import opened Words
  import opened Reciprocal
  import opened DivisionMath
  import opened Bignum
  import opened ModSubtract
  import opened Division
  import opened BigDiv
  import opened BigMul
  import opened Modular
  import opened NumberTheory

  /** Bezout's invariants: b = sign*x*number and a = -sign*xp*number modulo the modulus, and a*x + b*xp = modulus. */
  ghost predicate Bezout(a: nat, b: nat, x: nat, xp: nat, sign: int, number: nat, modulus: nat) {
    && (sign == 1 || sign == -1)
    && Mul(a, x) + Mul(b, xp) == modulus
    && Cong(b, Mul(Mul(sign, x), number), modulus)
    && Cong(a, Mul(Mul(-sign, xp), number), modulus)
    && Gcd(a, b) == Gcd(modulus, number)
  }

  lemma BezoutStart(number: nat, modulus: nat)
    ensures Bezout(modulus, number, 1, 0, 1, number, modulus)
  {
    CongRefl(number, modulus);
    CongBy(modulus, 0, modulus, 1);
  }

  lemma BezoutStep(a: nat, b: nat, x: nat, xp: nat, sign: int, number: nat, modulus: nat, q: nat)
    requires Bezout(a, b, x, xp, sign, number, modulus) && b > 0 && 0 <= a - Mul(q, b) < b
    ensures Bezout(b, a - Mul(q, b), Mul(q, x) + xp, x, -sign, number, modulus)
  {
    GcdStep(a, b, q);
    var t := a - Mul(q, b);
    BezoutSum(a, b, x, xp, q, t);
    hide Mul, Cong, Gcd;
    // t = a - q*b = -sign*xp*n - q*sign*x*n
    CongScale(b, Mul(Mul(sign, x), number), q, modulus);
    CongSub(a, Mul(Mul(-sign, xp), number), Mul(q, b), Mul(q, Mul(Mul(sign, x), number)), modulus);
    BezoutCoefficient(sign, x, xp, number, q);
  }

  lemma BezoutSum(a: int, b: int, x: int, xp: int, q: int, t: int)
    requires t == a - Mul(q, b)
    ensures Mul(b, Mul(q, x) + xp) + Mul(t, x) == Mul(a, x) + Mul(b, xp)
  {
    hide Mul;
    MulPlus(Mul(q, x), xp, b);
    MulMinus(a, Mul(q, b), x);
    MulAssoc(q, b, x);
    MulComm(q, Mul(b, x));
    MulAssoc(b, x, q);
    MulComm(x, q);
  }

  lemma BezoutCoefficient(sign: int, x: int, xp: int, number: int, q: int)
    ensures Mul(Mul(-sign, xp), number) - Mul(q, Mul(Mul(sign, x), number)) == Mul(Mul(-sign, Mul(q, x) + xp), number)
    ensures Mul(Mul(sign, x), number) == Mul(Mul(-(-sign), x), number)
  {
    hide Mul;
    MulPlus(Mul(q, x), xp, -sign);
    MulPlus(Mul(-sign, Mul(q, x)), Mul(-sign, xp), number);
    MulMinus(0, sign, Mul(q, x));
    MulUnit(Mul(q, x));
    MulMinus(0, Mul(sign, Mul(q, x)), number);
    MulUnit(number);
    MulComm(sign, Mul(q, x));
    MulAssoc(q, x, sign);
    MulComm(x, sign);
    MulAssoc(q, Mul(sign, x), number);
  }

  /** b has reached 1: x, or modulus - x, is the inverse. */
  lemma BezoutEnd(a: nat, x: nat, xp: nat, sign: int, number: nat, modulus: nat)
    requires Bezout(a, 1, x, xp, sign, number, modulus) && modulus >= 2 && (a >= 2 || x == 1)
    ensures Gcd(modulus, number) == 1 && 0 < x < modulus && (sign == 1 || sign == -1)
    ensures sign == 1 ==> Cong(Mul(x, number), 1, modulus)
    ensures sign == -1 ==> Cong(Mul(modulus - x, number), 1, modulus)
  {
    GcdOne(a);
    hide Mul, Cong, Gcd;
    MulUnit(xp);
    MulUnit(x);
    MulUnit(a);
    CongSym(1, Mul(Mul(sign, x), number), modulus);
    if x == 0 {
      MulUnit(sign);
      MulUnit(number);
      CongUnique(0, 1, modulus);
    }
    if a >= 2 {
      MulLe(2, a, x);
    }
    if sign == -1 {
      MulMinus(modulus, x, number);
      CongBy2(Mul(modulus, number), 0, modulus, number);
      CongAdd(Mul(modulus, number), 0, Mul(Mul(-1, x), number), 1, modulus);
      MulMinus(0, x, number);
      MulUnit(number);
    }
  }

  lemma GcdOne(a: nat)
    ensures Gcd(a, 1) == 1
  {
    DivModUnique(a, 1, a, 0);
    assert Gcd(a, 1) == Gcd(1, 0);
  }

  lemma CongBy2(x: int, y: int, n: int, k: int)
    requires x - y == Mul(n, k)
    ensures Cong(x, y, n)
  {
    CongBy(x, y, n, k);
  }

  method CopyBn(b: array<word>) returns (c: array<word>)
    requires IsBignum(b[..])
    ensures fresh(c) && IsBignum(c[..]) && c[0] == b[0] && BnVal(c[..]) == BnVal(b[..])
    ensures forall i :: 0 <= i <= b[0] ==> c[i] == b[i]
  {
    hide LVal;
    c := new word[b[0] as nat + 1](i requires 0 <= i < b[0] as nat + 1 reads b => if i < b.Length then b[i] else 0);
    assert c[..][1..1 + c[0]] == b[..][1..1 + b[0]];
  }

  /** The constants Zero and One. */
  method SmallBn(n: word) returns (c: array<word>)
    requires n <= 1
    ensures fresh(c) && Canonical(c[..]) && BnVal(c[..]) == n && c[0] == n
  {
    c := new word[n as nat + 1](i => 0);
    c[0] := n;
    if n == 1 {
      c[1] := 1;
      assert c[..][1..1 + c[0]] == [1];
      LValOne(1);
    } else {
      assert c[..][1..1 + c[0]] == [];
    }
  }

  /** One borrow of the final hand-written subtraction: `x >= ~y` and `x > ~y` detect it. */
  lemma BorrowStep(aw: word, bw: word, carry: nat, z: word)
    requires carry <= 1 && z == (aw - bw - carry) % B
    ensures var c := if (if carry != 0 then z >= Not(bw) else z > Not(bw)) then 1 else 0;
            z - c * B == aw - bw - carry
  {
    var v := aw - bw - carry;
    if v >= 0 {
      DivModUnique(v, B, 0, v);
    } else {
      DivModUnique(v, B, -1, v + B);
    }
  }

  /** newx[i] = aword - bword - carry, and the borrow that its comparison with ~bword finds. */
  method BorrowWord(aword: word, bword: word, carry: nat) returns (z: word, borrow: nat)
    requires carry <= 1
    ensures borrow <= 1 && z - borrow * B == aword - bword - carry
  {
    DivMod(aword as int - bword as int - carry, B);
    z := (aword as int - bword as int - carry) % B;
    BorrowStep(aword, bword, carry, z);
    var inverted := Not(bword);
    borrow := if (if carry != 0 then z >= inverted else z > inverted) then 1 else 0;
  }

  /** newx := modulus - x, word by word. */
  method Negate(modulus: array<word>, x: array<word>) returns (newx: array<word>)
    requires IsBignum(modulus[..]) && modulus[0] >= 1 && IsBignum(x[..]) && BnVal(x[..]) < BnVal(modulus[..])
    requires x[0] <= modulus[0]
    ensures fresh(newx) && IsBignum(newx[..]) && BnVal(newx[..]) == BnVal(modulus[..]) - BnVal(x[..])
    ensures newx[0] >= 1 && (newx[0] > 1 ==> newx[newx[0]] != 0)
  {
    hide LVal, BPow, Mul, Low, Raw, BnVal;
    newx := NewBn(modulus[0]);
    var carry: nat := 0;
    var maxspot := 1;
    var i := 1;
    NegateStart(modulus[..], x[..], newx[..]);
    while i <= newx[0]
      invariant 1 <= i <= newx[0] as nat + 1 && carry <= 1 && newx[0] == modulus[0] && newx.Length == newx[0] as nat + 1
      invariant 1 <= maxspot && (maxspot < i || maxspot == 1) && forall k :: maxspot < k < i ==> newx[k] == 0
      invariant maxspot > 1 ==> newx[maxspot] != 0
      invariant Raw(newx[..], i - 1) - Mul(carry, BPow(i - 1)) == Low(modulus[..], i - 1) - Low(x[..], i - 1)
    {
      ghost var r0 := newx[..];
      var aword: word := if i <= modulus[0] then modulus[i] else 0;
      var bword: word := if i <= x[0] then x[i] else 0;
      var z, borrow := BorrowWord(aword, bword, carry);
      newx[i] := z;
      NegateStep(modulus[..], x[..], r0, newx[..], i, carry, z, borrow);
      carry := borrow;
      if newx[i] != 0 {
        maxspot := i;
      }
      i := i + 1;
    }
    LowIsValue(modulus[..], newx[0]);
    LowIsValue(x[..], newx[0]);
    NoBorrow(newx[..], newx[0], carry, BnVal(modulus[..]), BnVal(x[..]));
    RawDrop(newx[..], newx[0], maxspot);
    ghost var s := newx[..];
    newx[0] := maxspot;
    assert newx[..] == s[0 := maxspot as word];
    RawSame(s, newx[..], maxspot);
    RawIs(newx[..]);
  }

  lemma NegateStart(m: seq<word>, x: seq<word>, r: seq<word>)
    requires |r| >= 1
    ensures Raw(r, 0) - Mul(0, BPow(0)) == Low(m, 0) - Low(x, 0)
  {
    MulUnit(BPow(0));
  }

  lemma NegateStep(m: seq<word>, x: seq<word>, r0: seq<word>, r1: seq<word>, i: nat, c0: nat, z: word, c1: nat)
    requires 1 <= i < |r0| && r1 == r0[i := z]
    requires Raw(r0, i - 1) - Mul(c0, BPow(i - 1)) == Low(m, i - 1) - Low(x, i - 1)
    requires z - c1 * B == Wd(m, i) - Wd(x, i) - c0
    ensures Raw(r1, i) - Mul(c1, BPow(i)) == Low(m, i) - Low(x, i)
  {
    LowStep(m, i);
    LowStep(x, i);
    BPowUp(i - 1);
    hide Low, Raw, BPow;
    RawSame(r0, r1, i - 1);
    RawStep(r1, i - 1);
    NegateMath(z, Wd(m, i), Wd(x, i), c0, c1, BPow(i - 1));
  }

  lemma NegateMath(z: int, a: int, b: int, c0: int, c1: int, p: int)
    requires z - c1 * B == a - b - c0
    ensures Mul(z, p) - Mul(c1, Mul(B, p)) == Mul(a, p) - Mul(b, p) - Mul(c0, p)
  {
    MulAssoc(c1, B, p);
    MulMinus(z, Mul(c1, B), p);
    MulMinus(a - b, c0, p);
    MulMinus(a, b, p);
  }

  lemma NoBorrow(r: seq<word>, n: nat, carry: nat, m: nat, x: nat)
    requires n < |r| && carry <= 1 && x < m && Raw(r, n) - Mul(carry, BPow(n)) == m - x
    ensures Raw(r, n) == m - x
  {
    hide Raw, BPow, LVal;
    RawBound(r, n);
    MulUnit(BPow(n));
  }

  /** What the loop knows of its four numbers besides their values. */
  ghost predicate Shapes(a: seq<word>, b: seq<word>, x: seq<word>, xp: seq<word>, limit: nat, mlen: nat) {
    && IsBignum(a) && IsBignum(b) && Canonical(x) && Canonical(xp)
    && 1 <= a[0] <= limit && b[0] <= limit && (b[0] > 1 ==> b[b[0]] != 0)
    && limit + mlen + 1 < B
  }

  /** Remainder and quotient, trimmed. */
  method Divide(a: array<word>, b: array<word>) returns (t: array<word>, q: array<word>)
    requires IsBignum(a[..]) && IsBignum(b[..]) && a[0] >= 1 && (b[0] > 1 ==> b[b[0]] != 0) && BnVal(b[..]) > 0
    ensures fresh(t) && IsBignum(t[..]) && t[0] <= b[0] && (t[0] > 1 ==> t[t[0]] != 0)
    ensures fresh(q) && IsBignum(q[..]) && q[0] <= a[0]
    ensures BnVal(t[..]) == BnVal(a[..]) - Mul(BnVal(q[..]), BnVal(b[..])) < BnVal(b[..])
  {
    hide LVal, BPow, Mul, BnVal;
    CountPositive(b[..]);
    TopNonzero(b[..]);
    t := NewBn(b[0]);
    q := NewBn(a[0]);
    BnBound(a[..]);
    ghost var k := BigDivMod(a, b, t, q);
    Trim(t);
    Trim(q);
  }

  /** One division step: remainder and the next coefficient. */
  method EuclidStep(a: array<word>, b: array<word>, x: array<word>, xp: array<word>, ghost sign: int, ghost number: nat,
                    ghost modulus: nat, ghost limit: nat, ghost mlen: nat)
    returns (t: array<word>, newx: array<word>)
    requires Shapes(a[..], b[..], x[..], xp[..], limit, mlen) && modulus < BPow(mlen)
    requires Bezout(BnVal(a[..]), BnVal(b[..]), BnVal(x[..]), BnVal(xp[..]), sign, number, modulus)
    requires BnVal(a[..]) > 0 && BnVal(b[..]) > 0
    ensures fresh(t) && fresh(newx) && Shapes(b[..], t[..], newx[..], x[..], limit, mlen)
    ensures Bezout(BnVal(b[..]), BnVal(t[..]), BnVal(newx[..]), BnVal(x[..]), -sign, number, modulus)
    ensures BnVal(t[..]) < BnVal(b[..])
  {
    hide LVal, BPow, Mul, BnVal, Bezout;
    var q;
    CountPositive(b[..]);
    t, q := Divide(a, b);
    CoefficientSize(BnVal(a[..]), BnVal(b[..]), x[..], xp[..], sign, number, modulus, mlen);
    newx := BigMulAdd(q, x, xp);
    BezoutStep(BnVal(a[..]), BnVal(b[..]), BnVal(x[..]), BnVal(xp[..]), sign, number, modulus, BnVal(q[..]));
  }

  lemma TopNonzero(b: seq<word>)
    requires IsBignum(b) && b[0] >= 1 && (b[0] > 1 ==> b[b[0]] != 0) && BnVal(b) > 0
    ensures b[b[0]] != 0
  {
    if b[0] == 1 && b[1] == 0 {
      LValZeros(b[1..1 + b[0]]);
    }
  }

  /** The coefficients never outgrow the modulus. */
  lemma CoefficientSize(a: nat, b: nat, x: seq<word>, xp: seq<word>, sign: int, number: nat, modulus: nat, mlen: nat)
    requires Canonical(x) && Canonical(xp) && modulus < BPow(mlen) && a > 0 && b > 0
    requires Bezout(a, b, BnVal(x), BnVal(xp), sign, number, modulus)
    ensures x[0] <= mlen && xp[0] <= mlen
  {
    hide LVal, BPow, BnVal, Mul, Cong;
    MulLe(1, a, BnVal(x));
    MulLe(1, b, BnVal(xp));
    MulUnit(BnVal(x));
    MulUnit(BnVal(xp));
    CanonicalSize(x, mlen);
    CanonicalSize(xp, mlen);
  }

  lemma CanonicalSize(x: seq<word>, mlen: nat)
    requires Canonical(x) && BnVal(x) < BPow(mlen)
    ensures x[0] <= mlen
  {
    hide LVal, BPow, BnVal;
    if x[0] > mlen {
      CanonicalBound(x);
      BPowMono(mlen, x[0] - 1);
    }
  }

  /** bignum_cmp against one of the constants Zero and One. */
  method EqualsSmall(b: array<word>, n: word) returns (eq: bool)
    requires IsBignum(b[..]) && (b[0] > 1 ==> b[b[0]] != 0) && n <= 1
    ensures eq <==> BnVal(b[..]) == n
  {
    hide LVal, BnVal;
    var c := SmallBn(n);
    var r := BnCmp(b, c);
    eq := r == 0;
  }

  /** Euclid's algorithm, behind the assertions. */
  method Euclid(number: array<word>, modulus: array<word>) returns (res: array?<word>)
    requires IsBignum(number[..]) && (number[0] > 1 ==> number[number[0]] != 0)
    requires Canonical(modulus[..]) && BnVal(modulus[..]) >= 2
    requires 2 * (modulus[0] as nat) + number[0] as nat + 2 < B
    ensures res == null <==> Gcd(BnVal(modulus[..]), BnVal(number[..])) != 1
    ensures res != null ==> fresh(res) && Canonical(res[..]) && 0 < BnVal(res[..]) < BnVal(modulus[..])
    ensures res != null ==> Cong(Mul(BnVal(res[..]), BnVal(number[..])), 1, BnVal(modulus[..]))
  {
    hide LVal, BPow, Mul, BnVal, Bezout, Gcd, Cong;
    ghost var n, m := BnVal(number[..]), BnVal(modulus[..]);
    ghost var mlen, limit: nat := modulus[0], modulus[0] as nat + number[0] as nat;
    BnBound(modulus[..]);
    CountPositive(modulus[..]);
    var a := CopyBn(modulus);
    var b := CopyBn(number);
    var xp := SmallBn(0);
    var x := SmallBn(1);
    var sign := 1;
    BezoutStart(n, m);
    var isOne := EqualsSmall(b, 1);
    while !isOne
      invariant Shapes(a[..], b[..], x[..], xp[..], limit, mlen)
      invariant Bezout(BnVal(a[..]), BnVal(b[..]), BnVal(x[..]), BnVal(xp[..]), sign, n, m)
      invariant BnVal(a[..]) > BnVal(b[..]) || BnVal(x[..]) == 1
      invariant BnVal(a[..]) >= 2 && (isOne <==> BnVal(b[..]) == 1)
      invariant fresh(a) && fresh(b) && fresh(x) && fresh(xp)
      decreases BnVal(b[..])
    {
      var isZero := EqualsSmall(b, 0);
      if isZero {
        GcdZero(BnVal(a[..]), BnVal(x[..]), BnVal(xp[..]), sign, n, m);
        return null;
      }
      var t, newx := EuclidStep(a, b, x, xp, sign, n, m, limit, mlen);
      a, b, xp, x, sign := b, t, x, newx, -sign;
      isOne := EqualsSmall(b, 1);
    }
    BezoutEnd(BnVal(a[..]), BnVal(x[..]), BnVal(xp[..]), sign, n, m);
    if sign < 0 {
      CoefficientSize(BnVal(a[..]), BnVal(b[..]), x[..], xp[..], sign, n, m, mlen);
      x := Negate(modulus, x);
      TopNonzero(x[..]);
    }
    res := x;
  }

  /**
   * The inverse of number modulo modulus, or null when there is none. Zero has none, but where assertions are compiled in
   * it does not come to that: the first of them stops the program.
   */
  method ModInv(number: array<word>, modulus: array<word>, asserts: bool) returns (stopped: bool, res: array?<word>)
    requires IsBignum(number[..]) && (number[0] > 1 ==> number[number[0]] != 0)
    requires Canonical(modulus[..]) && BnVal(modulus[..]) >= 2
    requires 2 * (modulus[0] as nat) + number[0] as nat + 2 < B
    ensures stopped <==> asserts && BnVal(number[..]) == 0
    ensures res == null <==> Gcd(BnVal(modulus[..]), BnVal(number[..])) != 1
    ensures res != null ==> fresh(res) && Canonical(res[..]) && 0 < BnVal(res[..]) < BnVal(modulus[..])
    ensures res != null ==> Cong(Mul(BnVal(res[..]), BnVal(number[..])), 1, BnVal(modulus[..]))
  {
    hide LVal, BPow, Mul, BnVal, Gcd, Cong;
    ZeroIff(number[..]);
    stopped := asserts && number[number[0]] == 0;
    if stopped {
      GcdOfZero(BnVal(number[..]), BnVal(modulus[..]));
      return true, null;
    }
    res := Euclid(number, modulus);
  }

  /** The assertion at the start of modinv fails exactly for zero, in either of its forms. */
  lemma ZeroIff(b: seq<word>)
    requires IsBignum(b) && (b[0] > 1 ==> b[b[0]] != 0)
    ensures b[b[0]] == 0 <==> BnVal(b) == 0
  {
    if BnVal(b) > 0 {
      CountPositive(b);
      TopNonzero(b);
    } else if b[0] >= 1 && b[b[0]] != 0 {
      TopPositive(b);
    }
  }

  lemma TopPositive(b: seq<word>)
    requires IsBignum(b) && b[0] >= 1 && b[b[0]] != 0
    ensures BnVal(b) > 0
  {
    CanonicalBound(b);
  }

  lemma GcdOfZero(n: nat, m: nat)
    requires n == 0 && m >= 2
    ensures Gcd(m, n) != 1
  {
  }

  lemma CountPositive(b: seq<word>)
    requires IsBignum(b) && BnVal(b) > 0
    ensures b[0] >= 1
  {
    EmptyIsZero(b[1..1 + b[0]]);
  }

  lemma EmptyIsZero(s: seq<word>)
    ensures |s| == 0 ==> LVal(s) == 0
  {
  }

  lemma GcdZero(a: nat, x: nat, xp: nat, sign: int, number: nat, modulus: nat)
    requires Bezout(a, 0, x, xp, sign, number, modulus) && a >= 2
    ensures Gcd(modulus, number) != 1
  {
  }
}
