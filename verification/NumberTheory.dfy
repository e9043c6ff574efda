/** Greatest common divisors, inverses and powers, as far as the modular routines need them. */
module NumberTheory {
  import opened Arith
  import opened Modular

  function Gcd(a: nat, b: nat): nat
    decreases b
  {
    if b == 0 then a else DivMod(a, b); Gcd(b, a % b)
  }

  lemma GcdStep(a: nat, b: nat, q: int)
    requires b > 0 && 0 <= a - Mul(q, b) < b
    ensures Gcd(a, b) == Gcd(b, a - Mul(q, b))
  {
    DivModUnique(a, b, q, a - q * b);
  }

  lemma CongZeroPlus(x: int, y: int, k: int, c: int)
    requires Cong(x, 0, c) && Cong(y, 0, c)
    ensures Cong(x + Mul(k, y), 0, c)
  {
    hide *;
    CongScale(y, 0, k, c);
    MulUnit(k);
    CongAdd(x, 0, Mul(k, y), 0, c);
  }

  /** The greatest common divisor divides both numbers ... */
  lemma {:induction false} GcdDivides(a: nat, b: nat)
    ensures Cong(a, 0, Gcd(a, b)) && Cong(b, 0, Gcd(a, b))
    decreases b
  {
    hide Cong;
    if b == 0 {
      CongBy(a, 0, a, 1);
      CongBy(0, 0, a, 0);
    } else {
      DivMod(a, b);
      GcdDivides(b, a % b);
      CongZeroPlus(a % b, b, a / b, Gcd(a, b));
      DivIs(a, b);
    }
  }

  lemma DivIs(a: int, b: int)
    requires b > 0
    ensures a == a % b + Mul(a / b, b)
  {
    DivMod(a, b);
  }

  /** ... and is a multiple of every common divisor. */
  lemma {:induction false} GcdGreatest(a: nat, b: nat, c: int)
    requires Cong(a, 0, c) && Cong(b, 0, c)
    ensures Cong(Gcd(a, b), 0, c)
    decreases b
  {
    hide Cong;
    if b != 0 {
      DivMod(a, b);
      DivIs(a, b);
      MulMinus(0, a / b, b);
      MulUnit(b);
      CongZeroPlus(a, b, -(a / b), c);
      GcdGreatest(b, a % b, c);
    }
  }

  /** Only numbers coprime to the modulus have inverses. */
  lemma InverseMeansCoprime(x: int, number: nat, modulus: nat)
    requires Cong(Mul(x, number), 1, modulus) && modulus >= 2
    ensures Gcd(modulus, number) == 1
  {
    var g := Gcd(modulus, number);
    GcdDivides(modulus, number);
    CongDown(Mul(x, number), 1, modulus, g);
    hide Cong;
    CongScale(number, 0, x, g);
    MulUnit(x);
    CongSym(Mul(x, number), 1, g);
    CongTrans(1, Mul(x, number), 0, g);
    OnlyOneDividesOne(g, modulus);
  }

  lemma CongDown(a: int, b: int, m: int, g: int)
    requires Cong(a, b, m) && Cong(m, 0, g)
    ensures Cong(a, b, g)
  {
    var k :| a - b == Mul(k, m);
    var l :| m - 0 == Mul(l, g);
    MulAssoc(k, l, g);
    CongBy(a, b, g, Mul(k, l));
  }

  lemma OnlyOneDividesOne(g: nat, m: nat)
    requires Cong(1, 0, g) && Cong(m, 0, g) && m > 0
    ensures g == 1
  {
    var k :| 1 - 0 == Mul(k, g);
    if g == 0 {
      MulUnit(k);
    } else if g > 1 {
      if k >= 1 {
        MulMono(1, k, g);
      } else {
        MulMono(k, 0, g);
      }
    }
  }

  // Units.

  /** x has an inverse modulo p. */
  ghost predicate Unit(x: int, p: nat) {
    exists y: int :: Cong(Mul(x, y), 1, p)
  }

  lemma UnitBy(v: int, b: int, p: nat)
    requires Cong(Mul(v, b), 1, p)
    ensures Unit(v, p)
  {
  }

  lemma UnitMul(x: int, y: int, p: nat)
    requires Unit(x, p) && Unit(y, p)
    ensures Unit(Mul(x, y), p)
  {
    var i :| Cong(Mul(x, i), 1, p);
    var j :| Cong(Mul(y, j), 1, p);
    CongMul(Mul(x, i), 1, Mul(y, j), 1, p);
    FourFactors(x, y, i, j);
    MulUnit(1);
  }

  lemma FourFactors(x: int, y: int, i: int, j: int)
    ensures Mul(Mul(x, y), Mul(i, j)) == Mul(Mul(x, i), Mul(y, j))
  {
    MulAssoc(x, y, Mul(i, j));
    MulAssoc(x, i, Mul(y, j));
    MulAssoc(y, i, j);
    MulAssoc(i, y, j);
    MulComm(y, i);
  }

  lemma UnitCong(x: int, y: int, p: nat)
    requires Unit(x, p) && Cong(x, y, p)
    ensures Unit(y, p)
  {
    var i :| Cong(Mul(x, i), 1, p);
    CongSym(x, y, p);
    CongScale(y, x, i, p);
    CongTrans(Mul(y, i), Mul(x, i), 1, p);
  }

  /** A unit is not zero modulo p. */
  lemma UnitNonZero(x: int, p: nat)
    requires Unit(x, p) && p > 1
    ensures !Cong(x, 0, p)
  {
    if Cong(x, 0, p) {
      var i :| Cong(Mul(x, i), 1, p);
      CongScale(x, 0, i, p);
      MulUnit(i);
      CongSym(Mul(x, i), 0, p);
      CongTrans(0, Mul(x, i), 1, p);
      CongUnique(0, 1, p);
    }
  }

  /** A unit factor cancels. */
  lemma UnitCancel(a: int, b: int, z: int, p: nat)
    requires Unit(z, p) && Cong(Mul(a, z), Mul(b, z), p)
    ensures Cong(a, b, p)
  {
    var i :| Cong(Mul(z, i), 1, p);
    CongCancel(a, b, z, i, p);
  }

  // Powers.

  function Exp(b: int, e: nat): int {
    if e == 0 then 1 else Mul(b, Exp(b, e - 1))
  }

  lemma ExpZero(base: int, m: int)
    ensures Exp(base, 0) == 1 && Cong(1, Exp(base, 0), m) && Cong(Exp(base, 0), 1, m)
  {
    CongRefl(1, m);
  }

  lemma {:induction false} ExpAdd(b: int, e: nat, f: nat)
    ensures Exp(b, e + f) == Mul(Exp(b, e), Exp(b, f))
  {
    hide Mul;
    if e == 0 {
      MulUnit(Exp(b, f));
    } else {
      ExpAdd(b, e - 1, f);
      assert Exp(b, e + f) == Mul(b, Exp(b, e - 1 + f));
      MulAssoc(b, Exp(b, e - 1), Exp(b, f));
    }
  }

  lemma {:induction false} ExpMul(b: int, e: nat, f: nat)
    ensures Mul(e, f) >= 0 && Exp(b, Mul(e, f)) == Exp(Exp(b, e), f)
  {
    if f == 0 {
      MulUnit(e);
    } else {
      ExpMul(b, e, f - 1);
      MulMinus(f, 1, e);
      MulUnit(e);
      ExpAdd(b, e, Mul(e, f - 1));
    }
  }

  lemma {:induction false} ExpProduct(b: int, c: int, e: nat)
    ensures Exp(Mul(b, c), e) == Mul(Exp(b, e), Exp(c, e))
  {
    if e == 0 {
      MulUnit(1);
    } else {
      ExpProduct(b, c, e - 1);
      hide Mul;
      var x, y := Exp(b, e - 1), Exp(c, e - 1);
      MulAssoc(b, c, Mul(x, y));
      MulAssoc(c, x, y);
      MulComm(c, x);
      MulAssoc(x, c, y);
      MulAssoc(b, x, Mul(c, y));
    }
  }

  lemma {:induction false} ExpCong(a: int, b: int, e: nat, n: int)
    requires Cong(a, b, n)
    ensures Cong(Exp(a, e), Exp(b, e), n)
  {
    hide Cong, Mul;
    if e == 0 {
      CongRefl(1, n);
    } else {
      ExpCong(a, b, e - 1, n);
      CongMul(a, b, Exp(a, e - 1), Exp(b, e - 1), n);
    }
  }
}
