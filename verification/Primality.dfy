/**
 * Primes, and a way to recognise large ones: an element of prime order r forces every divisor of n to be 1 modulo r,
 * because multiplication by it splits the nonzero residues of each divisor into orbits of r elements.
 */
module Primality {
  import opened Arith
  import opened Modular
  import opened NumberTheory

  ghost predicate Prime(p: nat) {
    p > 1 && forall x: nat, y: nat :: Mul(x, y) == p ==> x == 1 || y == 1
  }

  lemma PrimeAt(p: nat, x: nat, y: nat)
    requires Prime(p) && Mul(x, y) == p
    ensures p > 1 && (x == 1 || y == 1)
  {
  }

  lemma CongZero(x: int, n: int) returns (k: int)
    requires Cong(x, 0, n)
    ensures x == Mul(k, n)
  {
    k :| x - 0 == Mul(k, n);
  }

  lemma ZeroBy(x: int, k: int, n: int)
    requires x == Mul(k, n)
    ensures Cong(x, 0, n)
  {
    CongBy(x, 0, n, k);
  }

  /** Whatever a prime does not divide has an inverse modulo it. */
  lemma PrimeUnit(x: int, p: nat)
    requires Prime(p) && !Cong(x, 0, p)
    ensures Unit(x, p)
  {
    hide Mul, Cong, Gcd;
    CongMod(x, p);
    var a: nat := x % p;
    var g := Gcd(p, a);
    GcdDivides(p, a);
    var k := CongZero(p, g);
    GcdPositive(p, a);
    FactorSign(k, g, p);
    PrimeAt(p, k, g);
    if g != 1 {
      MulUnit(g);
      CongTrans(x, a, 0, p);
    } else {
      var u, v := GcdCombination(p, a);
      MulComm(v, a);
      CongBy2(Mul(a, v), 1, u, p);
      UnitBy(a, v, p);
      UnitCong(a, x, p);
    }
  }

  lemma CongBy2(x: int, y: int, u: int, p: int)
    requires Mul(u, p) + x == y
    ensures Cong(x, y, p)
  {
    OppositeMul(u, p);
    CongBy(x, y, p, -u);
  }

  lemma FactorSign(k: int, g: nat, p: nat)
    requires p == Mul(k, g) && p > 0
    ensures k > 0
  {
    if k <= 0 {
      MulLe(k, 0, g);
      MulUnit(g);
    }
  }

  lemma GcdPositive(a: nat, b: nat)
    requires a > 0
    ensures Gcd(a, b) > 0
    decreases b
  {
    if b != 0 {
      DivMod(a, b);
      GcdPositive(b, a % b);
    }
  }

  /** Bezout: the greatest common divisor as a combination of the two numbers. */
  lemma {:induction false} GcdCombination(a: nat, b: nat) returns (u: int, v: int)
    ensures Mul(u, a) + Mul(v, b) == Gcd(a, b)
    decreases b
  {
    if b == 0 {
      u, v := 1, 0;
    } else {
      DivMod(a, b);
      var s, t := GcdCombination(b, a % b);
      DivIs(a, b);
      hide Mul;
      MulMinus(a, Mul(a / b, b), t);
      MulAssoc(t, a / b, b);
      MulMinus(s, Mul(t, a / b), b);
      u, v := t, s - Mul(t, a / b);
    }
  }

  /** Euclid: a prime that divides a product divides a factor. */
  lemma Euclid(p: nat, x: int, y: int)
    requires Prime(p) && Cong(Mul(x, y), 0, p)
    ensures Cong(x, 0, p) || Cong(y, 0, p)
  {
    hide Mul, Cong, Prime, Unit;
    if !Cong(x, 0, p) {
      PrimeUnit(x, p);
      MulComm(x, y);
      MulUnit(x);
      UnitCancel(y, 0, x, p);
    }
  }

  // The orbits of multiplication by b on the nonzero residues modulo d.

  /** b has order r, and no smaller power of it is 1 modulo any divisor of d but 1. */
  ghost predicate IsRoot(b: int, r: nat, d: nat) {
    d > 1 && r > 0 && Cong(Exp(b, r), 1, d) && forall i: nat :: 0 < i < r ==> Unit(Exp(b, i) - 1, d)
  }

  lemma RootAt(b: int, r: nat, d: nat, i: nat)
    requires IsRoot(b, r, d) && 0 < i < r
    ensures Unit(Exp(b, i) - 1, d)
  {
  }

  /** x * b^i. */
  function At(x: nat, b: int, i: nat, d: nat): (y: nat)
    requires d > 0
    ensures y < d
  {
    DivMod(Mul(x, Exp(b, i)), d);
    Mul(x, Exp(b, i)) % d
  }

  lemma AtIs(x: nat, b: int, i: nat, d: nat)
    requires d > 0
    ensures Cong(At(x, b, i, d), Mul(x, Exp(b, i)), d)
  {
    CongMod(Mul(x, Exp(b, i)), d);
  }

  /** b is a unit, and so are its powers. */
  lemma RootUnit(b: int, r: nat, d: nat, i: nat)
    requires IsRoot(b, r, d) && i <= r
    ensures Unit(Exp(b, i), d)
  {
    hide Mul, Cong, Exp;
    ExpAdd(b, i, r - i);
    UnitBy(Exp(b, i), Exp(b, r - i), d);
  }

  /** Places of an orbit are different. */
  lemma OrbitDistinct(x: nat, b: int, r: nat, d: nat, i: nat, j: nat)
    requires IsRoot(b, r, d) && 0 < x < d && i < j < r
    ensures At(x, b, i, d) != At(x, b, j, d)
  {
    hide Mul, Cong, Exp, Unit, IsRoot, At;
    if At(x, b, i, d) == At(x, b, j, d) {
      RootAt(b, r, d, j - i);
      RootUnit(b, r, d, i);
      AtIs(x, b, i, d);
      AtIs(x, b, j, d);
      var y, z := Mul(x, Exp(b, i)), Mul(x, Exp(b, j));
      CongSym(At(x, b, j, d), z, d);
      CongTrans(z, At(x, b, j, d), y, d);
      ExpAdd(b, i, j - i);
      MulAssoc(x, Exp(b, i), Exp(b, j - i));
      CongRefl(y, d);
      CongSub(z, y, y, y, d);
      MulMinus(Exp(b, j - i), 1, y);
      MulUnit(y);
      MulUnit(Exp(b, j - i) - 1);
      UnitCancel(y, 0, Exp(b, j - i) - 1, d);
      MulUnit(Exp(b, i));
      UnitCancel(x, 0, Exp(b, i), d);
      CongUnique(x, 0, d);
    }
  }

  /** The first n places of the orbit of x. */
  ghost function Orbit(x: nat, b: int, n: nat, d: nat): set<nat>
    requires d > 0
  {
    if n == 0 then {} else Orbit(x, b, n - 1, d) + {At(x, b, n - 1, d)}
  }

  lemma {:induction false} OrbitHas(x: nat, b: int, n: nat, d: nat, y: nat)
    requires d > 0
    ensures y in Orbit(x, b, n, d) <==> exists i: nat :: i < n && y == At(x, b, i, d)
  {
    hide At;
    if n > 0 {
      OrbitHas(x, b, n - 1, d, y);
    }
  }

  lemma {:induction false} OrbitSize(x: nat, b: int, r: nat, d: nat, n: nat)
    requires IsRoot(b, r, d) && 0 < x < d && n <= r
    ensures |Orbit(x, b, n, d)| == n
  {
    hide At, IsRoot;
    if n > 0 {
      OrbitSize(x, b, r, d, n - 1);
      OrbitHas(x, b, n - 1, d, At(x, b, n - 1, d));
      if At(x, b, n - 1, d) in Orbit(x, b, n - 1, d) {
        var i: nat :| i < n - 1 && At(x, b, n - 1, d) == At(x, b, i, d);
        OrbitDistinct(x, b, r, d, i, n - 1);
      }
    }
  }

  /** A set of nonzero residues that multiplication by b maps into itself. */
  ghost predicate Stable(s: set<nat>, b: int, d: nat)
    requires d > 0
  {
    forall x :: x in s ==> 0 < x < d && At(x, b, 1, d) in s
  }

  /** One place further. */
  lemma AtNext(x: nat, b: int, i: nat, d: nat)
    requires d > 0
    ensures At(At(x, b, i, d), b, 1, d) == At(x, b, i + 1, d)
  {
    hide Mul, Cong, Exp, At;
    var y := At(x, b, i, d);
    AtIs(x, b, i, d);
    AtIs(y, b, 1, d);
    AtIs(x, b, i + 1, d);
    ExpAdd(b, i, 1);
    CongScale(y, Mul(x, Exp(b, i)), Exp(b, 1), d);
    MulAssoc(x, Exp(b, i), Exp(b, 1));
    CongTrans(At(y, b, 1, d), Mul(y, Exp(b, 1)), Mul(x, Exp(b, i + 1)), d);
    CongSym(At(x, b, i + 1, d), Mul(x, Exp(b, i + 1)), d);
    CongTrans(At(y, b, 1, d), Mul(x, Exp(b, i + 1)), At(x, b, i + 1, d), d);
    CongUnique(At(y, b, 1, d), At(x, b, i + 1, d), d);
  }

  /** After r places the orbit closes. */
  lemma AtCloses(x: nat, b: int, r: nat, d: nat)
    requires IsRoot(b, r, d) && x < d
    ensures At(x, b, r, d) == x
  {
    hide Mul, Cong, Exp, At;
    AtIs(x, b, r, d);
    CongScale(Exp(b, r), 1, x, d);
    MulUnit(x);
    CongTrans(At(x, b, r, d), Mul(x, Exp(b, r)), x, d);
    CongUnique(At(x, b, r, d), x, d);
  }

  lemma AtStart(x: nat, b: int, d: nat)
    requires x < d
    ensures At(x, b, 0, d) == x
  {
    MulUnit(x);
    DivModUnique(x, d, 0, x);
  }

  /** Multiplication by b is one to one. */
  lemma AtCancel(x: nat, y: nat, b: int, r: nat, d: nat)
    requires IsRoot(b, r, d) && x < d && y < d && At(x, b, 1, d) == At(y, b, 1, d)
    ensures x == y
  {
    hide Mul, Cong, Exp, At, Unit, IsRoot;
    OrderPositive(b, r, d);
    RootUnit(b, r, d, 1);
    AtIs(x, b, 1, d);
    AtIs(y, b, 1, d);
    CongSym(At(x, b, 1, d), Mul(x, Exp(b, 1)), d);
    CongTrans(Mul(x, Exp(b, 1)), At(x, b, 1, d), Mul(y, Exp(b, 1)), d);
    UnitCancel(x, y, Exp(b, 1), d);
    CongUnique(x, y, d);
  }

  lemma {:induction false} OrbitInside(s: set<nat>, x: nat, b: int, i: nat, d: nat)
    requires d > 0 && Stable(s, b, d) && x in s
    ensures At(x, b, i, d) in s
  {
    hide At;
    if i == 0 {
      AtStart(x, b, d);
    } else {
      OrbitInside(s, x, b, i - 1, d);
      AtNext(x, b, i - 1, d);
    }
  }

  /** Without an orbit, a stable set is still stable. */
  lemma StableRest(s: set<nat>, x: nat, b: int, r: nat, d: nat)
    requires IsRoot(b, r, d) && Stable(s, b, d) && x in s
    ensures Orbit(x, b, r, d) <= s && Stable(s - Orbit(x, b, r, d), b, d)
  {
    hide At, Orbit, IsRoot, Stable;
    OrderPositive(b, r, d);
    var o := Orbit(x, b, r, d);
    StableBound(s, x, b, d);
    forall y | y in o ensures y in s {
      OrbitHas(x, b, r, d, y);
      var i: nat :| i < r && y == At(x, b, i, d);
      OrbitInside(s, x, b, i, d);
    }
    forall y | y in s - o ensures 0 < y < d && At(y, b, 1, d) in s - o {
      StableBound(s, y, b, d);
      var z := At(y, b, 1, d);
      OrbitHas(x, b, r, d, z);
      if z in o {
        var i: nat :| i < r && z == At(x, b, i, d);
        BeforePlace(x, y, b, r, d, i);
      }
    }
    StableBy(s - o, b, d);
  }

  lemma StableBound(s: set<nat>, x: nat, b: int, d: nat)
    requires d > 0 && Stable(s, b, d) && x in s
    ensures 0 < x < d && At(x, b, 1, d) in s
  {
  }

  lemma StableBy(s: set<nat>, b: int, d: nat)
    requires d > 0 && forall x :: x in s ==> 0 < x < d && At(x, b, 1, d) in s
    ensures Stable(s, b, d)
  {
  }

  /** What b maps into an orbit lies in it. */
  lemma BeforePlace(x: nat, y: nat, b: int, r: nat, d: nat, i: nat)
    requires IsRoot(b, r, d) && x < d && y < d && i < r && At(y, b, 1, d) == At(x, b, i, d)
    ensures y in Orbit(x, b, r, d)
  {
    hide At, Orbit;
    var j := if i == 0 then r - 1 else i - 1;
    AtNext(x, b, j, d);
    if i == 0 {
      AtCloses(x, b, r, d);
      AtStart(x, b, d);
    }
    AtCancel(y, At(x, b, j, d), b, r, d);
    OrbitHas(x, b, r, d, y);
  }

  lemma {:induction false} StableCount(s: set<nat>, b: int, r: nat, d: nat)
    requires IsRoot(b, r, d) && Stable(s, b, d)
    ensures Cong(|s|, 0, r)
    decreases |s|
  {
    hide Cong, IsRoot, Orbit, Stable;
    OrderPositive(b, r, d);
    if s == {} {
      CongRefl(0, r);
    } else {
      var x :| x in s;
      StableBound(s, x, b, d);
      StableRest(s, x, b, r, d);
      OrbitSize(x, b, r, d, r);
      var o := Orbit(x, b, r, d);
      assert |s| == |s - o| + |o|;
      StableCount(s - o, b, r, d);
      MulUnit(r);
      ZeroBy(r, 1, r);
      CongAdd(|s - o|, 0, r, 0, r);
    }
  }

  lemma OrderPositive(b: int, r: nat, d: nat)
    requires IsRoot(b, r, d)
    ensures r > 0 && d > 1
  {
  }

  function Below(d: nat): (s: set<nat>)
    ensures forall x :: x in s <==> 0 < x < d
    ensures |s| == if d == 0 then 0 else d - 1
  {
    if d <= 1 then {} else Below(d - 1) + {d - 1}
  }

  /** The order divides d - 1. */
  lemma OrderDivides(b: int, r: nat, d: nat)
    requires IsRoot(b, r, d)
    ensures Cong(d, 1, r)
  {
    hide At, Cong, Exp, Unit, IsRoot, Stable;
    OrderPositive(b, r, d);
    var s := Below(d);
    forall x | x in s ensures 0 < x < d && At(x, b, 1, d) in s {
      var y := At(x, b, 1, d);
      if y == 0 {
        AtZero(b, d);
        AtCancel(x, 0, b, r, d);
      }
    }
    StableBy(s, b, d);
    StableCount(s, b, r, d);
    CongRefl(1, r);
    CongAdd(d - 1, 0, 1, 1, r);
  }

  lemma AtZero(b: int, d: nat)
    requires d > 0
    ensures At(0, b, 1, d) == 0
  {
    MulUnit(Exp(b, 1));
    DivModUnique(0, d, 0, 0);
  }

  // Divisors of n.

  /** Every divisor of n is 1 modulo f. */
  ghost predicate Residual(n: nat, f: nat) {
    n > 0 && forall d: nat, e: nat :: Mul(d, e) == n ==> Cong(d, 1, f)
  }

  lemma ResidualAt(n: nat, f: nat, d: nat, e: nat)
    requires Residual(n, f) && Mul(d, e) == n
    ensures Cong(d, 1, f) && Cong(e, 1, f)
  {
    MulComm(d, e);
  }

  /** x - 1 divides x^j - 1. */
  lemma {:induction false} Geometric(x: int, j: nat) returns (g: int)
    ensures Exp(x, j) - 1 == Mul(x - 1, g)
  {
    if j == 0 {
      g := 0;
    } else {
      var h := Geometric(x, j - 1);
      g := h + Exp(x, j - 1);
      GeometricStep(x, Exp(x, j - 1), h);
    }
  }

  lemma GeometricStep(x: int, y: int, h: int)
    requires y - 1 == Mul(x - 1, h)
    ensures Mul(x, y) - 1 == Mul(x - 1, h + y)
  {
    MulPlus(h, y, x - 1);
    MulMinus(x, 1, y);
    MulUnit(y);
  }

  /** If b has prime order, then each smaller power of it is as far from 1 as b is. */
  lemma PowerUnit(b: int, r: nat, n: nat, i: nat)
    requires Prime(r) && n > 1 && Cong(Exp(b, r), 1, n) && Unit(b - 1, n) && 0 < i < r
    ensures Unit(Exp(b, i) - 1, n)
  {
    hide Mul, Cong, Exp, Prime, Unit;
    if Cong(i, 0, r) {
      CongUnique(i, 0, r);
    }
    PrimeUnit(i, r);
    var j, k := InverseNat(i, r);
    ExpMul(b, i, j);
    ExpMul(b, r, k);
    MulComm(r, k);
    ExpAdd(b, 1, Mul(k, r));
    ExpCong(Exp(b, r), 1, k, n);
    OneExp(k);
    CongScale(Exp(b, Mul(k, r)), 1, b, n);
    MulUnit(b);
    ExpFirst(b);
    // b^(ij) = b modulo n
    var g := Geometric(Exp(b, i), j);
    CongRefl(1, n);
    CongSub(Exp(b, Mul(i, j)), b, 1, 1, n);
    FactorUnit(Exp(b, i) - 1, g, b - 1, n);
  }

  lemma ExpFirst(b: int)
    ensures Exp(b, 1) == b
  {
    MulUnit(b);
    assert Exp(b, 1) == Mul(b, Exp(b, 0));
  }

  lemma {:induction false} OneExp(k: nat)
    ensures Exp(1, k) == 1
  {
    if k > 0 {
      OneExp(k - 1);
      MulUnit(1);
    }
  }

  lemma InverseNat(i: nat, r: nat) returns (j: nat, k: nat)
    requires Unit(i, r) && r > 1 && i > 0
    ensures Mul(k, r) >= 0 && Mul(i, j) == 1 + Mul(k, r)
  {
    hide Mul;
    var y :| Cong(Mul(i, y), 1, r);
    CongMod(y, r);
    j := y % r;
    CongScale(j, y, i, r);
    CongTrans(Mul(i, j), Mul(i, y), 1, r);
    var l :| Mul(i, j) - 1 == Mul(l, r);
    if l < 0 {
      MulLe(l, -1, r);
      MulNonNeg(i, j);
      OppositeMul(1, r);
      MulUnit(r);
    }
    k := l;
    MulNonNeg(k, r);
  }

  lemma FactorUnit(x: int, g: int, u: int, n: nat)
    requires Cong(Mul(x, g), u, n) && Unit(u, n)
    ensures Unit(x, n)
  {
    hide Mul, Cong;
    CongSym(Mul(x, g), u, n);
    UnitCong(u, Mul(x, g), n);
    var v :| Cong(Mul(Mul(x, g), v), 1, n);
    MulAssoc(x, g, v);
    UnitBy(x, Mul(g, v), n);
  }

  /** An element of prime order r, with an inverse of b - 1. */
  ghost predicate IsWitness(b: int, r: nat, n: nat) {
    n > 1 && Prime(r) && Cong(Exp(b, r), 1, n) && Unit(b - 1, n)
  }

  lemma ResidualByRoot(b: int, r: nat, n: nat)
    requires IsWitness(b, r, n)
    ensures Residual(n, r)
  {
    hide Mul, Cong, Exp, Prime, Unit;
    forall d: nat, e: nat | Mul(d, e) == n ensures Cong(d, 1, r) {
      PositiveFactors(d, e);
      if d == 1 {
        CongRefl(1, r);
      } else {
        MulComm(d, e);
        ZeroBy(n, e, d);
        DividesRoot(b, r, n, d);
        OrderDivides(b, r, d);
      }
    }
  }

  lemma PositiveFactors(d: nat, e: nat)
    requires Mul(d, e) > 0
    ensures d > 0 && e > 0
  {
  }

  lemma DividesRoot(b: int, r: nat, n: nat, d: nat)
    requires IsWitness(b, r, n) && d > 1 && Cong(n, 0, d)
    ensures IsRoot(b, r, d)
  {
    hide Mul, Cong, Exp, Prime, Unit;
    CongDown(Exp(b, r), 1, n, d);
    forall i: nat | 0 < i < r ensures Unit(Exp(b, i) - 1, d) {
      PowerUnit(b, r, n, i);
      UnitDown(Exp(b, i) - 1, n, d);
    }
    PrimePositive(r);
  }

  lemma PrimePositive(r: nat)
    requires Prime(r)
    ensures r > 1
  {
  }

  lemma UnitDown(x: int, n: nat, d: nat)
    requires Unit(x, n) && Cong(n, 0, d)
    ensures Unit(x, d)
  {
    hide Cong, Mul;
    var y :| Cong(Mul(x, y), 1, n);
    CongDown(Mul(x, y), 1, n, d);
    UnitBy(x, y, d);
  }

  lemma ResidualOdd(n: nat)
    requires n % 2 == 1
    ensures Residual(n, 2)
  {
    forall d: nat, e: nat | Mul(d, e) == n ensures Cong(d, 1, 2) {
      OddFactor(d, e);
      CongBy(d, 1, 2, (d - 1) / 2);
    }
  }

  lemma OddFactor(d: nat, e: nat)
    requires Mul(d, e) % 2 == 1
    ensures d % 2 == 1
  {
    if d % 2 == 0 {
      MulAssoc(2, d / 2, e);
    }
  }

  /** Residues modulo f and modulo a prime that does not divide f combine. */
  lemma ResidualTimes(n: nat, f: nat, r: nat)
    requires Residual(n, f) && Residual(n, r) && Prime(r) && !Cong(f, 0, r)
    ensures Mul(f, r) >= 0 && Residual(n, Mul(f, r))
  {
    hide Mul, Cong, Prime;
    MulNonNeg(f, r);
    forall d: nat, e: nat | Mul(d, e) == n ensures Cong(d, 1, Mul(f, r)) {
      ResidualAt(n, f, d, e);
      ResidualAt(n, r, d, e);
      CongRefl(1, f);
      CongSub(d, 1, 1, 1, f);
      CongRefl(1, r);
      CongSub(d, 1, 1, 1, r);
      var u := CongZero(d - 1, f);
      Euclid(r, u, f);
      var w := CongZero(u, r);
      MulAssoc(w, r, f);
      MulComm(f, r);
      ZeroBy(d - 1, w, Mul(f, r));
      CongRefl(1, Mul(f, r));
      CongAdd(d - 1, 0, 1, 1, Mul(f, r));
    }
  }

  /** A divisor other than 1 is at least f + 1. */
  lemma ResidualSize(n: nat, f: nat, d: nat, e: nat) returns (k: nat)
    requires Residual(n, f) && f > 0 && Mul(d, e) == n
    ensures d == Mul(k, f) + 1 && (d != 1 ==> k >= 1)
  {
    hide Mul;
    ResidualAt(n, f, d, e);
    PositiveFactors(d, e);
    var l :| d - 1 == Mul(l, f);
    if l < 0 {
      MulLe(l, -1, f);
      OppositeMul(1, f);
      MulUnit(f);
    }
    k := l;
    MulUnit(f);
  }

  lemma PrimeBy(n: nat)
    requires n > 1 && forall d: nat, e: nat :: Mul(d, e) == n && d != 1 && e != 1 ==> false
    ensures Prime(n)
  {
  }

  /** With f + 1 beyond the square root of n, there is no room for two factors. */
  lemma PrimeBySize(n: nat, f: nat)
    requires n > 1 && f > 0 && Residual(n, f) && Mul(f + 1, f + 1) > n
    ensures Prime(n)
  {
    hide Mul, Residual;
    forall d: nat, e: nat | Mul(d, e) == n && d != 1 && e != 1 ensures false {
      var a := ResidualSize(n, f, d, e);
      MulComm(d, e);
      var b := ResidualSize(n, f, e, d);
      MulUnit(f);
      MulLe(1, a, f);
      MulLe(1, b, f);
      MulLe(f + 1, d, f + 1);
      MulLe(f + 1, e, d);
      MulComm(d, f + 1);
      MulComm(e, d);
    }
    PrimeBy(n);
  }

  /** With f beyond the cube root, two factors would show in the digits of n to the base f. */
  lemma PrimeByDigits(n: nat, f: nat, c1: nat, c0: nat)
    requires f > 0 && Residual(n, f) && n == Mul(Mul(c1, f) + c0, f) + 1 && c0 < f
    requires 1 < c1 + 1 < f && c0 > c1 + 1
    ensures Prime(n)
  {
    hide Mul, Residual;
    MulNonNeg(c1, f);
    forall d: nat, e: nat | Mul(d, e) == n && d != 1 && e != 1 ensures false {
      var a := ResidualSize(n, f, d, e);
      MulComm(d, e);
      var b := ResidualSize(n, f, e, d);
      DigitsClash(a, b, f, c1, c0);
    }
    MulUnit(f);
    MulLe(1, Mul(c1, f) + c0, f);
    PrimeBy(n);
  }

  lemma DigitsClash(a: nat, b: nat, f: nat, c1: nat, c0: nat)
    requires a >= 1 && b >= 1 && f > 0 && c0 < f && c1 + 1 < f && c0 > c1 + 1
    ensures Mul(Mul(a, f) + 1, Mul(b, f) + 1) != Mul(Mul(c1, f) + c0, f) + 1
  {
    ProductDigits(a, b, f);
    hide Mul;
    SumBelow(a, b);
    if Mul(Mul(Mul(a, b), f) + (a + b), f) == Mul(Mul(c1, f) + c0, f) {
      CancelProduct(Mul(Mul(a, b), f) + (a + b), Mul(c1, f) + c0, f);
      if Mul(a, b) > c1 {
        MulLe(c1 + 1, Mul(a, b), f);
        MulPlus(c1, 1, f);
        MulUnit(f);
      } else if Mul(a, b) < c1 {
        MulLe(Mul(a, b) + 1, c1, f);
        MulPlus(Mul(a, b), 1, f);
        MulUnit(f);
      }
    }
  }

  lemma ProductDigits(a: nat, b: nat, f: nat)
    ensures Mul(Mul(a, f) + 1, Mul(b, f) + 1) == Mul(Mul(Mul(a, b), f) + (a + b), f) + 1
  {
    hide Mul;
    var x, y := Mul(a, f), Mul(b, f);
    MulPlus(x, 1, y + 1);
    MulPlus(y, 1, x);
    MulUnit(x);
    MulUnit(y + 1);
    MulComm(x, y + 1);
    MulComm(x, y);
    MulPlus(Mul(Mul(a, b), f), a + b, f);
    MulPlus(a, b, f);
    // x*y = a*b*f*f
    MulAssoc(a, f, y);
    MulComm(f, y);
    MulAssoc(b, f, f);
    MulAssoc(a, b, Mul(f, f));
    MulAssoc(Mul(a, b), f, f);
  }

  lemma CancelProduct(x: int, y: int, f: nat)
    requires Mul(x, f) == Mul(y, f) && f > 0
    ensures x == y
  {
    if x < y {
      MulStrict(x, y, f);
    } else if x > y {
      MulStrict(y, x, f);
    }
  }

  lemma SumBelow(a: nat, b: nat)
    requires a >= 1 && b >= 1
    ensures a + b <= Mul(a, b) + 1
  {
    assert (a - 1) * (b - 1) >= 0;
  }

  // Certificates: the same facts with all their arithmetic on given numbers.

  /** Primes below 41^2, by division by the primes below 41. */
  lemma SmallPrime(n: nat)
    requires 1 < n < 1681
    requires n % 2 != 0 || n == 2
    requires n % 3 != 0 || n == 3
    requires n % 5 != 0 || n == 5
    requires n % 7 != 0 || n == 7
    requires n % 11 != 0 || n == 11
    requires n % 13 != 0 || n == 13
    requires n % 17 != 0 || n == 17
    requires n % 19 != 0 || n == 19
    requires n % 23 != 0 || n == 23
    requires n % 29 != 0 || n == 29
    requires n % 31 != 0 || n == 31
    requires n % 37 != 0 || n == 37
    ensures Prime(n)
  {
    hide Mul;
    forall d: nat, e: nat | Mul(d, e) == n && d != 1 && e != 1 ensures false {
      PositiveFactors(d, e);
      MulComm(d, e);
      var x, y := if d <= e then d else e, if d <= e then e else d;
      if x >= 41 {
        MulLe(41, x, y);
        FortyOne(y);
      }
      var p, k := SmallFactor(x);
      MulAssoc(p, k, y);
      MulNonNeg(k, y);
      Divisible(n, p, Mul(k, y));
      Proper(p, k, x, y, n);
    }
    PrimeBy(n);
  }

  lemma FortyOne(y: nat)
    ensures Mul(41, y) == 41 * y
  {
  }

  lemma Divisible(n: nat, p: nat, k: nat)
    requires p > 0 && n == Mul(p, k)
    ensures n % p == 0
  {
    MulComm(p, k);
    DivModUnique(n, p, k, 0);
  }

  /** With a cofactor y other than 1, n is not p itself. */
  lemma Proper(p: nat, k: nat, x: nat, y: nat, n: nat)
    requires x == Mul(p, k) && n == Mul(x, y) && x > 0 && y > 1
    ensures n > p
  {
    hide Mul;
    PositiveFactors(p, k);
    MulLe(1, k, p);
    MulUnit(p);
    MulLt(1, y, x);
    MulUnit(x);
  }

  lemma SmallFactor(x: nat) returns (p: nat, k: nat)
    requires 1 < x < 41
    ensures x == Mul(p, k)
    ensures p == 2 || p == 3 || p == 5 || p == 7 || p == 11 || p == 13 || p == 17 || p == 19 || p == 23 || p == 29
            || p == 31 || p == 37
  {
    if x % 2 == 0 {
      p, k := 2, x / 2;
    } else if x % 3 == 0 {
      p, k := 3, x / 3;
    } else if x % 5 == 0 {
      p, k := 5, x / 5;
    } else {
      p, k := x, 1;
    }
  }

  /** The power b^e is x modulo n. */
  ghost predicate Reaches(n: nat, b: nat, e: nat, x: nat) {
    n > 0 && Cong(Exp(b, e), x, n)
  }

  lemma Start(n: nat, b: nat)
    requires n > 0
    ensures Reaches(n, b, 1, b)
  {
    ExpFirst(b);
    CongRefl(b, n);
  }

  /** b^c, for the two bits that a step takes in. */
  function Digit(b: nat, c: nat): nat {
    if c == 0 then 1 else if c == 1 then b else if c == 2 then b * b else b * b * b
  }

  lemma DigitIs(b: nat, c: nat)
    requires c < 4
    ensures Exp(b, c) == Digit(b, c)
  {
    ExpFirst(b);
    assert Exp(b, 2) == Mul(b, Exp(b, 1));
    assert Exp(b, 3) == Mul(b, Exp(b, 2));
    MulAssoc(b, b, b);
  }

  /** One more bit of the exponent; q is the quotient of the reduction. */
  lemma Climb2(n: nat, b: nat, e: nat, x: nat, c: nat, q: nat, y: nat)
    requires Reaches(n, b, e, x) && c < 2 && x * x * Digit(b, c) == q * n + y
    ensures Reaches(n, b, 2 * e + c, y)
  {
    hide Exp, Digit;
    CongMul(Exp(b, e), x, Exp(b, e), x, n);
    ExpAdd(b, e, e);
    ExpAdd(b, 2 * e, c);
    DigitIs(b, c);
    CongScale(Exp(b, 2 * e), x * x, Digit(b, c), n);
    CongBy(x * x * Digit(b, c), y, n, q);
    CongTrans(Exp(b, 2 * e + c), x * x * Digit(b, c), y, n);
  }

  /** Two more bits. */
  lemma Climb4(n: nat, b: nat, e: nat, x: nat, c: nat, q: nat, y: nat)
    requires Reaches(n, b, e, x) && c < 4 && x * x * x * x * Digit(b, c) == q * n + y
    ensures Reaches(n, b, 4 * e + c, y)
  {
    hide Exp, Digit;
    CongMul(Exp(b, e), x, Exp(b, e), x, n);
    ExpAdd(b, e, e);
    CongMul(Exp(b, 2 * e), x * x, Exp(b, 2 * e), x * x, n);
    ExpAdd(b, 2 * e, 2 * e);
    Assoc(x * x, x, x);
    ExpAdd(b, 4 * e, c);
    DigitIs(b, c);
    CongScale(Exp(b, 4 * e), x * x * x * x, Digit(b, c), n);
    CongBy(x * x * x * x * Digit(b, c), y, n, q);
    CongTrans(Exp(b, 4 * e + c), x * x * x * x * Digit(b, c), y, n);
  }

  /** b has order r, and inv is the inverse of b - 1. */
  lemma ByRoot(n: nat, b: nat, r: nat, inv: nat)
    requires n > 1 && Prime(r) && Reaches(n, b, r, 1) && (b - 1) * inv % n == 1
    ensures Residual(n, r)
  {
    CongMod((b - 1) * inv, n);
    CongBy(Mul(b - 1, inv), (b - 1) * inv, n, 0);
    UnitBy(b - 1, inv, n);
    ResidualByRoot(b, r, n);
  }

  lemma Joint(n: nat, f: nat, r: nat, g: nat)
    requires Residual(n, f) && Residual(n, r) && Prime(r) && f % r != 0 && g == f * r
    ensures Residual(n, g)
  {
    hide Residual;
    CongIffMod(f, 0, r);
    DivModUnique(0, r, 0, 0);
    ResidualTimes(n, f, r);
  }

  lemma BySize(n: nat, f: nat)
    requires n > 1 && f > 0 && Residual(n, f) && (f + 1) * (f + 1) > n
    ensures Prime(n)
  {
    PrimeBySize(n, f);
  }

  lemma ByDigits(n: nat, f: nat, c1: nat, c0: nat)
    requires Residual(n, f) && n == (c1 * f + c0) * f + 1 && c0 < f && c1 > 0 && c1 + 1 < f && c0 > c1 + 1
    ensures Prime(n)
  {
    hide Residual;
    assert Mul(Mul(c1, f) + c0, f) == (c1 * f + c0) * f;
    PrimeByDigits(n, f, c1, c0);
  }
}
