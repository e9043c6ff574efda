/** Points on y^2 = x^3 + ax + b: section 2.2.1 of SEC 1, and the Jacobian formulas of sshecc.c that refine it. */
module Weierstrass {
  import opened Arith
  import opened Machine
  import opened Modular
  import opened NumberTheory
  import opened EcField

  datatype Curve = Curve(p: nat, a: nat, b: nat)

  ghost predicate IsCurve(c: Curve) {
    IsField(c.p) && c.a < c.p && c.b < c.p
  }

  datatype Affine = Infinity | Affine(x: nat, y: nat)

  ghost predicate IsPoint(c: Curve, P: Affine) {
    P.Affine? ==> P.x < c.p && P.y < c.p && OnCurve(c, P.x, P.y)
  }

  ghost predicate OnCurve(c: Curve, x: int, y: int) {
    Cong(Mul(y, y), Mul(Mul(x, x), x) + Mul(c.a, x) + c.b, c.p)
  }

  /** The residue num / den. */
  ghost function Quotient(num: int, den: int, p: nat): (q: nat)
    requires Unit(den, p) && p > 1
    ensures q < p && Cong(Mul(den, q), num, p)
  {
    var i: int :| Cong(Mul(den, i), 1, p);
    QuotientIs(num, den, i, p);
    Mul(i, num) % p
  }

  lemma QuotientIs(num: int, den: int, i: int, p: nat)
    requires Cong(Mul(den, i), 1, p) && p > 1
    ensures Cong(Mul(den, Mul(i, num) % p), num, p)
  {
    var q := Mul(i, num);
    CongMod(q, p);
    CongScale(q % p, q, den, p);
    MulAssoc(den, i, num);
    CongScale(Mul(den, i), 1, num, p);
    MulUnit(num);
    CongTrans(Mul(den, q % p), Mul(den, q), num, p);
  }

  /** The reflection of the third point of the line of slope l through (x1, y1) and the point with x coordinate x2. */
  ghost function Third(l: int, x1: int, y1: int, x2: int, p: nat): (R: Affine)
    requires p > 0
    ensures R.Affine? && Is(R.x, Mul(l, l) - x1 - x2, p) && Is(R.y, Mul(l, x1 - R.x) - y1, p)
  {
    var x3 := (Mul(l, l) - x1 - x2) % p;
    IsMod(Mul(l, l) - x1 - x2, p);
    IsMod(Mul(l, x1 - x3) - y1, p);
    Affine(x3, (Mul(l, x1 - x3) - y1) % p)
  }

  ghost function AffineDouble(c: Curve, P: Affine): Affine
    requires IsCurve(c) && IsPoint(c, P)
  {
    if P.Infinity? || P.y == 0 then Infinity
    else
      TwiceUnit(P.y, c.p);
      Third(Quotient(3 * Mul(P.x, P.x) + c.a, 2 * P.y, c.p), P.x, P.y, P.x, c.p)
  }

  ghost function AffineAdd(c: Curve, P: Affine, Q: Affine): Affine
    requires IsCurve(c) && IsPoint(c, P) && IsPoint(c, Q)
  {
    if P.Infinity? then Q
    else if Q.Infinity? then P
    else if P.x == Q.x then if P.y == Q.y then AffineDouble(c, P) else Infinity
    else
      DifferenceUnit(Q.x, P.x, c.p);
      Third(Quotient(Q.y - P.y, Q.x - P.x, c.p), P.x, P.y, Q.x, c.p)
  }

  /**
   * The line through two points, or along the tangent of one, of slope num / den, meets the curve in the reflection of a
   * third: its slope from the first point is the same, and the three x coordinates add up to its square.
   */
  ghost predicate OnLine(den: int, num: int, x1: int, y1: int, x2: int, x3: int, y3: int, p: nat) {
    && Cong(Mul(den, -y3 - y1), Mul(num, x3 - x1), p)
    && Cong(Mul(Mul(den, den), x1 + x2 + x3), Mul(num, num), p)
  }

  lemma ThirdOnLine(den: int, num: int, l: int, x1: int, y1: int, x2: int, x3: nat, y3: nat, p: nat)
    requires Cong(Mul(den, l), num, p) && Is(x3, Mul(l, l) - x1 - x2, p) && Is(y3, Mul(l, x1 - x3) - y1, p)
    ensures OnLine(den, num, x1, y1, x2, x3, y3, p)
  {
    hide Mul, Cong;
    IsParts(x3, Mul(l, l) - x1 - x2, p);
    IsParts(y3, Mul(l, x1 - x3) - y1, p);
    // -y3 - y1 = l (x3 - x1)
    Negation(y3, l, x1, x3, y1, p);
    CongScale(-(y3 as int) - y1, Mul(l, x3 - x1), den, p);
    MulAssoc(den, l, x3 - x1);
    CongScale(Mul(den, l), num, x3 - x1, p);
    CongTrans(Mul(den, -(y3 as int) - y1), Mul(Mul(den, l), x3 - x1), Mul(num, x3 - x1), p);
    // x1 + x2 + x3 = l^2
    ShiftBoth(x3, Mul(l, l) - x1 - x2, x1 + x2, p);
    CongScale(x1 + x2 + x3, Mul(l, l), Mul(den, den), p);
    FourFactors(den, den, l, l);
    CongMul(Mul(den, l), num, Mul(den, l), num, p);
    CongTrans(Mul(Mul(den, den), x1 + x2 + x3), Mul(Mul(den, l), Mul(den, l)), Mul(num, num), p);
  }

  lemma IsParts(r: nat, x: int, p: nat)
    requires Is(r, x, p)
    ensures Cong(r, x, p)
  {
  }

  lemma Negation(y3: int, l: int, x1: int, x3: int, y1: int, p: nat)
    requires Cong(y3, Mul(l, x1 - x3) - y1, p)
    ensures Cong(-y3 - y1, Mul(l, x3 - x1), p)
  {
    var k :| y3 - (Mul(l, x1 - x3) - y1) == Mul(k, p);
    MulMinus(x1, x3, l);
    MulMinus(x3, x1, l);
    MulMinus(0, k, p);
    MulUnit(p);
    CongBy(-y3 - y1, Mul(l, x3 - x1), p, -k);
  }

  lemma ShiftBoth(a: int, b: int, c: int, p: nat)
    requires Cong(a, b, p)
    ensures Cong(c + a, c + b, p)
  {
    CongRefl(c, p);
    CongAdd(c, c, a, b, p);
  }

  /** The sum of two points with different x, and the double of a point with y not zero, are where those lines lead. */
  lemma SumOnLine(c: Curve, P: Affine, Q: Affine)
    requires IsCurve(c) && IsPoint(c, P) && IsPoint(c, Q) && P.Affine? && Q.Affine? && P.x != Q.x
    ensures var R := AffineAdd(c, P, Q); R.Affine? && OnLine(Q.x - P.x, Q.y - P.y, P.x, P.y, Q.x, R.x, R.y, c.p)
  {
    hide Mul, Cong, IsField, Unit, Quotient, Third, OnLine;
    FieldSize(c.p);
    DifferenceUnit(Q.x, P.x, c.p);
    var l := Quotient(Q.y - P.y, Q.x - P.x, c.p);
    var R := AffineAdd(c, P, Q);
    ThirdOnLine(Q.x - P.x, Q.y - P.y, l, P.x, P.y, Q.x, R.x, R.y, c.p);
  }

  lemma DoubleOnLine(c: Curve, P: Affine)
    requires IsCurve(c) && IsPoint(c, P) && P.Affine? && P.y != 0
    ensures var R := AffineAdd(c, P, P);
            R.Affine? && OnLine(2 * P.y, 3 * Mul(P.x, P.x) + c.a, P.x, P.y, P.x, R.x, R.y, c.p)
  {
    hide Mul, Cong, IsField, Unit, Quotient, Third, OnLine;
    FieldSize(c.p);
    TwiceUnit(P.y, c.p);
    var l := Quotient(3 * Mul(P.x, P.x) + c.a, 2 * P.y, c.p);
    var R := AffineAdd(c, P, P);
    ThirdOnLine(2 * P.y, 3 * Mul(P.x, P.x) + c.a, l, P.x, P.y, P.x, R.x, R.y, c.p);
  }

  lemma NonZeroUnit(x: int, p: nat)
    requires IsField(p) && 0 < x < p
    ensures Unit(x, p)
  {
    if Cong(x, 0, p) {
      CongUnique(x, 0, p);
    }
  }

  lemma TwiceUnit(y: int, p: nat)
    requires IsField(p) && 0 < y < p
    ensures Unit(2 * y, p)
  {
    NonZeroUnit(2, p);
    NonZeroUnit(y, p);
    UnitMul(2, y, p);
    MulUnit(y);
  }

  lemma DifferenceUnit(x: int, y: int, p: nat)
    requires IsField(p) && 0 <= x < p && 0 <= y < p && x != y
    ensures Unit(x - y, p)
  {
    if Cong(x - y, 0, p) {
      CongRefl(y, p);
      CongAdd(x - y, 0, y, y, p);
      CongUnique(x, y, p);
    }
  }

  // Sums stay on the curve.

  lemma ZeroSum(e: int, f: int, p: nat)
    requires Cong(e, 0, p) && Cong(f, 0, p)
    ensures Cong(e + f, 0, p) && Cong(e - f, 0, p)
  {
    CongAdd(e, 0, f, 0, p);
    CongSub(e, 0, f, 0, p);
  }

  lemma ZeroScale(e: int, k: int, p: nat)
    requires Cong(e, 0, p)
    ensures Cong(Mul(k, e), 0, p)
  {
    CongScale(e, 0, k, p);
    MulUnit(k);
  }

  lemma ZeroDiff(e: int, f: int, p: nat)
    ensures Cong(e, f, p) <==> Cong(e - f, 0, p)
  {
    CongRefl(f, p);
    if Cong(e, f, p) {
      CongSub(e, f, f, f, p);
    }
    if Cong(e - f, 0, p) {
      CongAdd(e - f, 0, f, f, p);
    }
  }

  /** The linear coefficient of the cubic that the line cuts out, less what two roots and their sum make it. */
  function Excess(a: int, l: int, x1: int, y1: int, x2: int): int {
    a + Mul(Mul(l, l), x1 - x2) - 2 * Mul(l, y1) + Mul(x1, x1) + Mul(x1, x2) + Mul(x2, x2)
  }

  lemma CubicPoly(a: int, b: int, l: int, x1: int, y1: int, x2: int, x3: int)
    ensures var y3 := Mul(l, x1 - x3) - y1;
            Mul(Mul(x3, x3), x3) + Mul(a, x3) + b - Mul(y3, y3)
            == (Mul(Mul(x1, x1), x1) + Mul(a, x1) + b - Mul(y1, y1))
               + Mul(x3 - x1, Excess(a, l, x1, y1, x2)) + Mul(x3 - x1, Mul(x2 - x3, Mul(l, l) - x1 - x2 - x3))
  {
    hide Mul, Excess;
    var L, m, d := Mul(l, l), Mul(l, y1), x3 - x1;
    var quad := Mul(x3, x3) + Mul(x3, x1) + Mul(x1, x1);
    CubePoly(x1, x3);
    LineSquare(l, x1, y1, x3);
    MulMinus(x3, x1, a);
    BracketPoly(a, l, y1, x1, x2, x3);
    MulPlus(Excess(a, l, x1, y1, x2), Mul(x2 - x3, L - x1 - x2 - x3), d);
    MulPlus(quad, a - Mul(L, d) - 2 * m, d);
    MulPlus(a, -Mul(L, d) - 2 * m, d);
    MulComm(a, d);
  }

  lemma CubePoly(x1: int, x3: int)
    ensures Mul(Mul(x3, x3), x3) - Mul(Mul(x1, x1), x1) == Mul(x3 - x1, Mul(x3, x3) + Mul(x3, x1) + Mul(x1, x1))
  {
  }

  lemma LineSquare(l: int, x1: int, y1: int, x3: int)
    ensures var y3, d := Mul(l, x1 - x3) - y1, x3 - x1;
            Mul(y3, y3) - Mul(y1, y1) == -Mul(d, -Mul(Mul(l, l), d) - 2 * Mul(l, y1))
  {
    var d := x3 - x1;
    var t := l * d;
    assert l * (x1 - x3) == -t;
    assert (-t - y1) * (-t - y1) == t * t + 2 * (t * y1) + y1 * y1;
    assert t * t == d * (l * l * d) && t * y1 == d * (l * y1);
  }

  lemma BracketPoly(a: int, l: int, y1: int, x1: int, x2: int, x3: int)
    ensures Excess(a, l, x1, y1, x2) + Mul(x2 - x3, Mul(l, l) - x1 - x2 - x3)
            == (Mul(x3, x3) + Mul(x3, x1) + Mul(x1, x1)) + (a - Mul(Mul(l, l), x3 - x1) - 2 * Mul(l, y1))
  {
    var L := l * l;
    assert (x2 - x3) * (L - x1 - x2 - x3) == x2 * L - x3 * L - x1 * x2 - x2 * x2 + x1 * x3 + x3 * x3;
    assert L * (x1 - x2) == x1 * L - x2 * L && L * (x3 - x1) == x3 * L - x1 * L;
  }

  lemma ThirdOnCurve(c: Curve, l: int, x1: int, y1: int, x2: int)
    requires IsCurve(c) && OnCurve(c, x1, y1) && Cong(Excess(c.a, l, x1, y1, x2), 0, c.p)
    ensures IsPoint(c, Third(l, x1, y1, x2, c.p))
  {
    hide Mul, Cong, Third, Excess;
    var p, a := c.p, c.a;
    var R := Third(l, x1, y1, x2, p);
    var x3 := R.x;
    var y3 := Mul(l, x1 - x3) - y1;
    var rhs := Mul(Mul(x3, x3), x3) + Mul(a, x3) + c.b;
    CongSym(x3, Mul(l, l) - x1 - x2, p);
    ZeroDiff(Mul(l, l) - x1 - x2, x3, p);
    ZeroScale(Mul(l, l) - x1 - x2 - x3, x2 - x3, p);
    ZeroScale(Mul(x2 - x3, Mul(l, l) - x1 - x2 - x3), x3 - x1, p);
    ZeroScale(Excess(a, l, x1, y1, x2), x3 - x1, p);
    var cubic1 := Mul(Mul(x1, x1), x1) + Mul(a, x1) + c.b;
    CongSym(Mul(y1, y1), cubic1, p);
    ZeroDiff(cubic1, Mul(y1, y1), p);
    ZeroSum(cubic1 - Mul(y1, y1), Mul(x3 - x1, Excess(a, l, x1, y1, x2)), p);
    ZeroSum(cubic1 - Mul(y1, y1) + Mul(x3 - x1, Excess(a, l, x1, y1, x2)),
            Mul(x3 - x1, Mul(x2 - x3, Mul(l, l) - x1 - x2 - x3)), p);
    CubicPoly(a, c.b, l, x1, y1, x2, x3);
    ZeroDiff(rhs, Mul(y3, y3), p);
    CongMul(R.y, y3, R.y, y3, p);
    CongSym(rhs, Mul(y3, y3), p);
    CongTrans(Mul(R.y, R.y), Mul(y3, y3), rhs, p);
  }

  lemma DoubleOnCurve(c: Curve, P: Affine)
    requires IsCurve(c) && IsPoint(c, P)
    ensures IsPoint(c, AffineDouble(c, P))
  {
    hide Mul, Cong, Third, Excess, Unit, Quotient, OnCurve;
    if P.Affine? && P.y != 0 {
      TwiceUnit(P.y, c.p);
      var l := Quotient(3 * Mul(P.x, P.x) + c.a, 2 * P.y, c.p);
      CongSym(Mul(2 * P.y, l), 3 * Mul(P.x, P.x) + c.a, c.p);
      ZeroDiff(3 * Mul(P.x, P.x) + c.a, Mul(2 * P.y, l), c.p);
      TangentPoly(c.a, l, P.x, P.y);
      ThirdOnCurve(c, l, P.x, P.y, P.x);
    }
  }

  lemma TangentPoly(a: int, l: int, x: int, y: int)
    ensures Excess(a, l, x, y, x) == 3 * Mul(x, x) + a - Mul(2 * y, l)
  {
  }

  lemma AddOnCurve(c: Curve, P: Affine, Q: Affine)
    requires IsCurve(c) && IsPoint(c, P) && IsPoint(c, Q)
    ensures IsPoint(c, AffineAdd(c, P, Q))
  {
    hide Mul, Cong, Third, Excess, Unit, Quotient, OnCurve;
    if P.Affine? && Q.Affine? && P.x == Q.x && P.y == Q.y {
      DoubleOnCurve(c, P);
    } else if P.Affine? && Q.Affine? && P.x != Q.x {
      DifferenceUnit(Q.x, P.x, c.p);
      var l := Quotient(Q.y - P.y, Q.x - P.x, c.p);
      ChordExcess(c, l, P.x, P.y, Q.x, Q.y);
      ThirdOnCurve(c, l, P.x, P.y, Q.x);
    }
  }

  lemma ChordExcess(c: Curve, l: int, x1: int, y1: int, x2: int, y2: int)
    requires IsCurve(c) && OnCurve(c, x1, y1) && OnCurve(c, x2, y2) && Unit(x2 - x1, c.p)
    requires Cong(Mul(x2 - x1, l), y2 - y1, c.p)
    ensures Cong(Excess(c.a, l, x1, y1, x2), 0, c.p)
  {
    hide Mul, Cong, Excess, Unit;
    var p, a := c.p, c.a;
    var s := Mul(x2 - x1, l);
    var r1, r2 := Mul(Mul(x1, x1), x1) + Mul(a, x1) + c.b, Mul(Mul(x2, x2), x2) + Mul(a, x2) + c.b;
    CongSub(Mul(y2, y2), r2, Mul(y1, y1), r1, p);
    CongSym(Mul(y2, y2) - Mul(y1, y1), r2 - r1, p);
    ZeroDiff(r2 - r1, Mul(y2, y2) - Mul(y1, y1), p);
    ZeroDiff(s, y2 - y1, p);
    ZeroScale(s - (y2 - y1), s + y1 + y2, p);
    ZeroSum(r2 - r1 - (Mul(y2, y2) - Mul(y1, y1)), Mul(s + y1 + y2, s - (y2 - y1)), p);
    ChordPoly(a, c.b, l, x1, y1, x2, y2);
    MulUnit(x2 - x1);
    UnitCancel(Excess(a, l, x1, y1, x2), 0, x2 - x1, p);
  }

  lemma ChordPoly(a: int, b: int, l: int, x1: int, y1: int, x2: int, y2: int)
    ensures var s := Mul(x2 - x1, l);
            Mul(Excess(a, l, x1, y1, x2), x2 - x1)
            == (Mul(Mul(x2, x2), x2) + Mul(a, x2) + b) - (Mul(Mul(x1, x1), x1) + Mul(a, x1) + b)
               - (Mul(y2, y2) - Mul(y1, y1)) - Mul(s + y1 + y2, s - (y2 - y1))
  {
  }

  /** Points with the same x are the same or each other's negatives. */
  lemma SameX(c: Curve, P: Affine, Q: Affine)
    requires IsCurve(c) && IsPoint(c, P) && IsPoint(c, Q) && P.Affine? && Q.Affine? && P.x == Q.x
    ensures P.y == Q.y || Cong(P.y + Q.y, 0, c.p)
  {
    hide Mul, Cong;
    var rhs := Mul(Mul(P.x, P.x), P.x) + Mul(c.a, P.x) + c.b;
    CongSym(Mul(Q.y, Q.y), rhs, c.p);
    CongTrans(Mul(P.y, P.y), rhs, Mul(Q.y, Q.y), c.p);
    ZeroDiff(Mul(P.y, P.y), Mul(Q.y, Q.y), c.p);
    if P.y != Q.y {
      DifferenceUnit(P.y, Q.y, c.p);
      SquaresPoly(P.y, Q.y);
      MulUnit(P.y - Q.y);
      UnitCancel(P.y + Q.y, 0, P.y - Q.y, c.p);
    }
  }

  lemma SquaresPoly(y: int, z: int)
    ensures Mul(y, y) - Mul(z, z) == Mul(y + z, y - z)
  {
  }

  /** A sum is the point at infinity exactly when one point is the other's negative. */
  lemma InfinityIff(c: Curve, P: Affine, Q: Affine)
    requires IsCurve(c) && IsPoint(c, P) && IsPoint(c, Q) && P.Affine? && Q.Affine?
    ensures AffineAdd(c, P, Q) == Infinity <==> P.x == Q.x && Cong(P.y + Q.y, 0, c.p)
  {
    hide Mul, Third, Quotient, OnCurve;
    if P.x == Q.x {
      SameX(c, P, Q);
      if P.y == Q.y && P.y != 0 {
        TwiceUnit(P.y, c.p);
        UnitNonZero(2 * P.y, c.p);
      } else if P.y == Q.y {
        CongRefl(0, c.p);
      }
    }
  }

  lemma QuotientUnique(num: int, den: int, l: nat, p: nat)
    requires p > 1 && Unit(den, p) && l < p && Cong(Mul(den, l), num, p)
    ensures l == Quotient(num, den, p)
  {
    hide Mul, Cong;
    var q := Quotient(num, den, p);
    CongSym(Mul(den, q), num, p);
    CongTrans(Mul(den, l), num, Mul(den, q), p);
    MulComm(den, l);
    MulComm(den, q);
    UnitCancel(l, q, den, p);
    CongUnique(l, q, p);
  }

  /** Addition commutes. */
  lemma AddCommutes(c: Curve, P: Affine, Q: Affine)
    requires IsCurve(c) && IsPoint(c, P) && IsPoint(c, Q)
    ensures AffineAdd(c, P, Q) == AffineAdd(c, Q, P)
  {
    hide Mul, Cong, Third, Quotient, OnCurve, Is;
    if P.Affine? && Q.Affine? && P.x != Q.x {
      var p := c.p;
      DifferenceUnit(Q.x, P.x, p);
      DifferenceUnit(P.x, Q.x, p);
      var l := Quotient(Q.y - P.y, Q.x - P.x, p);
      CongScale(Mul(Q.x - P.x, l), Q.y - P.y, -1, p);
      OppositePoly(P.x, Q.x, P.y, Q.y, l);
      QuotientUnique(P.y - Q.y, P.x - Q.x, l, p);
      var R, S := Third(l, P.x, P.y, Q.x, p), Third(l, Q.x, Q.y, P.x, p);
      IsUnique(R.x, S.x, Mul(l, l) - P.x - Q.x, p);
      ZeroDiff(Mul(Q.x - P.x, l), Q.y - P.y, p);
      OtherEndPoly(P.x, Q.x, P.y, Q.y, R.x, l);
      ZeroDiff(Mul(l, Q.x - R.x) - Q.y, Mul(l, P.x - R.x) - P.y, p);
      IsCong(S.y, Mul(l, Q.x - R.x) - Q.y, Mul(l, P.x - R.x) - P.y, p);
      IsUnique(R.y, S.y, Mul(l, P.x - R.x) - P.y, p);
    }
  }

  lemma OppositePoly(x1: int, x2: int, y1: int, y2: int, l: int)
    ensures Mul(-1, Mul(x2 - x1, l)) == Mul(x1 - x2, l) && Mul(-1, y2 - y1) == y1 - y2
  {
  }

  lemma OtherEndPoly(x1: int, x2: int, y1: int, y2: int, x3: int, l: int)
    ensures Mul(l, x2 - x3) - y2 - (Mul(l, x1 - x3) - y1) == Mul(x2 - x1, l) - (y2 - y1)
  {
  }

  // Jacobian coordinates.

  function P2(z: int): int { Mul(z, z) }

  function P3(z: int): int { Mul(Mul(z, z), z) }

  /** struct ec_point of a Weierstrass curve. */
  class EcPoint {
    const curve: Curve
    const infinity: bool
    var x: nat
    var y: nat
    var z: Option<nat>

    /** (x / z^2, y / z^3) is the point A. */
    ghost predicate Represents(A: Affine)
      reads this
    {
      IsCurve(curve) && IsPoint(curve, A) && (infinity <==> A.Infinity?) && (!infinity ==> Scaled(A.x, A.y, Z()))
    }

    ghost function Z(): (z1: int)
      reads this
      ensures z1 >= 0
    {
      if z.None? then 1 else z.value
    }

    ghost predicate Scaled(ax: int, ay: int, z1: int)
      reads this
    {
      Is(x, Mul(ax, P2(z1)), curve.p) && Is(y, Mul(ay, P3(z1)), curve.p) && z1 < curve.p && Unit(z1, curve.p)
    }

    constructor (curve: Curve, x: nat, y: nat, z: Option<nat>, infinity: bool)
      ensures this.curve == curve && this.x == x && this.y == y && this.z == z && this.infinity == infinity
    {
      this.curve, this.x, this.y, this.z, this.infinity := curve, x, y, z, infinity;
    }

    /** ec_point_copy. */
    method Copy(ghost A: Affine) returns (r: EcPoint)
      requires Represents(A)
      ensures fresh(r) && r.curve == curve && r.Represents(A)
    {
      r := new EcPoint(curve, x, y, z, infinity);
    }

    /** The two forms of M in ecp_doublew: 3 (X + Z^2) (X - Z^2) when a = -3, and 3 X^2 + a Z^4. */
    method TangentSlope(aminus3: bool, ghost A: Affine, ghost l: int) returns (m: nat)
      requires Represents(A) && A.Affine? && (aminus3 ==> curve.a + 3 == curve.p)
      requires Cong(Mul(2 * A.y, l), 3 * Mul(A.x, A.x) + curve.a, curve.p)
      ensures Is(m, 2 * Mul(l, Mul(A.y, Mul(P2(Z()), P2(Z())))), curve.p)
    {
      hide Mul, P2, P3, Unit, Is;
      var p := curve.p;
      ghost var X, z2 := Mul(A.x, P2(Z())), P2(Z());
      IsOne(p);
      if aminus3 {
        var zz := 1;
        if z.Some? {
          IsSelf(z.value, p);
          zz := Square(z.value, p, z.value);
        }
        ZSquare(Z());
        IsIs(zz, z2, p);
        IsIs(x, X, p);
        var plus := Add(x, zz, p, X, z2);
        var minus := Subtract(x, zz, p, X, z2);
        var second := Multiply(plus, minus, p, X + z2, X - z2);
        m := Treble(second, p, Mul(X + z2, X - z2));
        SlopeMinus3(A.x, A.y, Z(), curve.a, l, p);
        IsCong(m, 3 * Mul(X + z2, X - z2), 2 * Mul(l, Mul(A.y, Mul(z2, z2))), p);
      } else {
        var az4 := curve.a;
        IsSelf(curve.a, p);
        if z.Some? {
          IsSelf(z.value, p);
          var zz := Square(z.value, p, z.value);
          var z4 := Square(zz, p, Mul(z.value, z.value));
          az4 := Multiply(curve.a, z4, p, curve.a, Mul(Mul(z.value, z.value), Mul(z.value, z.value)));
        }
        ZFourth(Z(), curve.a);
        var xx := Multiply(x, x, p, X, X);
        var xx3 := Treble(xx, p, Mul(X, X));
        IsIs(xx3, 3 * Mul(X, X), p);
        IsIs(az4, Mul(curve.a, Mul(z2, z2)), p);
        m := Add(xx3, az4, p, 3 * Mul(X, X), Mul(curve.a, Mul(z2, z2)));
        SlopeGeneral(A.x, A.y, Z(), curve.a, l, p);
        IsCong(m, 3 * Mul(X, X) + Mul(curve.a, Mul(z2, z2)), 2 * Mul(l, Mul(A.y, Mul(z2, z2))), p);
      }
    }

    /** ecp_doublew. */
    method DoubleW(aminus3: bool, ghost A: Affine) returns (r: EcPoint)
      requires Represents(A) && A.Affine? && (aminus3 ==> curve.a + 3 == curve.p)
      ensures fresh(r) && r.curve == curve && r.Represents(AffineDouble(curve, A))
    {
      hide Mul, P2, P3, Unit, Is, Quotient, Third, OnCurve, IsField;
      var p := curve.p;
      ZeroY(y, A.y, Z(), p);
      if y == 0 {
        r := new EcPoint(curve, 0, 0, None, true);
        return;
      }
      TwiceUnit(A.y, p);
      DoubleOnCurve(curve, A);
      ghost var l := Quotient(3 * Mul(A.x, A.x) + curve.a, 2 * A.y, p);
      ghost var R := AffineDouble(curve, A);
      ghost var u := Mul(A.y, Mul(P2(Z()), P2(Z())));
      var s := SValue(A);
      var m := TangentSlope(aminus3, A, l);
      IsIs(R.x, Mul(l, l) - A.x - A.x, p);
      IsIs(R.y, Mul(l, A.x - R.x) - A.y, p);
      var outx := DoubleX(s, m, p, A.x, u, l, R.x);
      var outy := DoubleY(s, m, outx, A, u, l, R.x, R.y);
      var yz := y;
      if z.Some? {
        IsSelf(z.value, p);
        yz := Multiply(y, z.value, p, Mul(A.y, P3(Z())), z.value);
      }
      YzIs(A.y, Z());
      var outz := Double(yz, p, u);
      UMeans(A.y, Z(), p, outz);
      r := new EcPoint(curve, outx, outy, Some(outz), false);
      IsScale(outx, R.x, outy, R.y, 2 * u, outz, p);
    }

    /** S = 4 X Y^2. */
    method SValue(ghost A: Affine) returns (s: nat)
      requires Represents(A) && A.Affine?
      ensures var u := Mul(A.y, Mul(P2(Z()), P2(Z()))); Is(s, 4 * Mul(A.x, Mul(u, u)), curve.p)
    {
      hide Mul, P2, P3, Unit, Is, OnCurve, IsField;
      var p := curve.p;
      ghost var X, Y := Mul(A.x, P2(Z())), Mul(A.y, P3(Z()));
      var y2 := Square(y, p, Y);
      var xy2 := Multiply(x, y2, p, X, Mul(Y, Y));
      s := Double(xy2, p, Mul(X, Mul(Y, Y)));
      s := Double(s, p, 2 * Mul(X, Mul(Y, Y)));
      SPoly(A.x, A.y, Z());
    }

    /** Y' = M (S - X') - 8 Y^4. */
    method DoubleY(s: nat, m: nat, outx: nat, ghost A: Affine, ghost u: int, ghost l: int, ghost x3: int, ghost y3: int)
      returns (outy: nat)
      requires Represents(A) && A.Affine? && u == Mul(A.y, Mul(P2(Z()), P2(Z())))
      requires Is(s, 4 * Mul(A.x, Mul(u, u)), curve.p) && Is(m, 2 * Mul(l, u), curve.p)
      requires Is(outx, Mul(x3, P2(2 * u)), curve.p) && Cong(y3, Mul(l, A.x - x3) - A.y, curve.p)
      ensures Is(outy, Mul(y3, P3(2 * u)), curve.p)
    {
      hide Mul, P2, P3, Unit, Is, OnCurve, IsField;
      var p := curve.p;
      ghost var Y, S, X3 := Mul(A.y, P3(Z())), 4 * Mul(A.x, Mul(u, u)), Mul(x3, P2(2 * u));
      IsIs(s, S, p);
      IsIs(outx, X3, p);
      var sx := Subtract(s, outx, p, S, X3);
      var msx := Multiply(m, sx, p, 2 * Mul(l, u), S - X3);
      var y2 := Square(y, p, Y);
      var y4 := Square(y2, p, Mul(Y, Y));
      IsMod(8, p);
      var y8 := ModMul(8, y4, p);
      EightTimes(y4, Mul(Mul(Y, Y), Mul(Y, Y)), y8, p);
      FourthPoly(A.y, Z());
      IsIs(msx, Mul(2 * Mul(l, u), S - X3), p);
      IsIs(y8, 8 * Mul(A.y, P3(u)), p);
      outy := Subtract(msx, y8, p, Mul(2 * Mul(l, u), S - X3), 8 * Mul(A.y, P3(u)));
      DoubleYPoly(l, u, A.x, x3, A.y);
      CongSym(y3, Mul(l, A.x - x3) - A.y, p);
      CongScale(Mul(l, A.x - x3) - A.y, y3, P3(2 * u), p);
      IsCong(outy, Mul(Mul(l, A.x - x3) - A.y, P3(2 * u)), Mul(y3, P3(2 * u)), p);
    }

    /** X * z2^2 and Y * z2^3 for the other point's z2, which is not there when that is 1. */
    method Rescale(z2: Option<nat>, ghost A: Affine, ghost w: int) returns (u: nat, v: nat)
      requires Represents(A) && A.Affine?
      requires (z2.Some? ==> z2.value < curve.p) && w == Mul(Z(), if z2.None? then 1 else z2.value)
      ensures Is(u, Mul(A.x, P2(w)), curve.p) && Is(v, Mul(A.y, P3(w)), curve.p)
    {
      hide Mul, P2, P3, Unit, Is, OnCurve, IsField;
      var p := curve.p;
      u, v := x, y;
      if z2.Some? {
        IsSelf(z2.value, p);
        var zz := Square(z2.value, p, z2.value);
        u := Multiply(x, zz, p, Mul(A.x, P2(Z())), Mul(z2.value, z2.value));
        var zzz := Multiply(zz, z2.value, p, Mul(z2.value, z2.value), z2.value);
        v := Multiply(y, zzz, p, Mul(A.y, P3(Z())), Mul(Mul(z2.value, z2.value), z2.value));
      }
      RescalePoly(A.x, A.y, Z(), if z2.None? then 1 else z2.value);
      MulUnit(Z());
    }

    /** ecp_addw, for two points that are not at infinity. */
    method AddW(b: EcPoint, aminus3: bool, ghost A: Affine, ghost B: Affine) returns (r: EcPoint)
      requires Represents(A) && b.Represents(B) && A.Affine? && B.Affine? && b.curve == curve
      requires aminus3 ==> curve.a + 3 == curve.p
      ensures fresh(r) && r.curve == curve && r.Represents(AffineAdd(curve, A, B))
    {
      hide Mul, P2, P3, Unit, Is, Quotient, Third, OnCurve, IsField, AffineDouble, Cong;
      var p := curve.p;
      ghost var w := Mul(Z(), b.Z());
      MulComm(Z(), b.Z());
      var u1, s1 := Rescale(b.z, A, w);
      var u2, s2 := b.Rescale(z, B, w);
      UnitMul(Z(), b.Z(), p);
      Same(u1, u2, A.x, B.x, P2(w), p, w);
      Same(s1, s2, A.y, B.y, P3(w), p, w);
      AddOnCurve(curve, A, B);
      if u1 == u2 {
        if s1 == s2 {
          r := DoublePoint(aminus3, A);
        } else {
          r := new EcPoint(curve, 0, 0, None, true);
        }
        return;
      }
      DifferenceUnit(B.x, A.x, p);
      ghost var l := Quotient(B.y - A.y, B.x - A.x, p);
      ghost var R := AffineAdd(curve, A, B);
      assert R == Third(l, A.x, A.y, B.x, p);
      var outx, outy, h := Chord(p, u1, u2, s1, s2, A, B, w, l, R);
      var outz := h;
      if z.Some? && b.z.Some? {
        IsSelf(z.value, p);
        IsSelf(b.z.value, p);
        var zz := Multiply(z.value, b.z.value, p, z.value, b.z.value);
        outz := Multiply(h, zz, p, Mul(B.x - A.x, P2(w)), Mul(z.value, b.z.value));
      } else if z.Some? {
        IsSelf(z.value, p);
        outz := Multiply(h, z.value, p, Mul(B.x - A.x, P2(w)), z.value);
      } else if b.z.Some? {
        IsSelf(b.z.value, p);
        outz := Multiply(h, b.z.value, p, Mul(B.x - A.x, P2(w)), b.z.value);
      }
      MulUnit(Z());
      MulUnit(b.Z());
      MulUnit(1);
      MulUnit(Mul(B.x - A.x, P2(w)));
      ghost var z3 := Mul(Mul(B.x - A.x, P2(w)), w);
      IsIs(outz, z3, p);
      ZUnit(B.x - A.x, w, p, outz);
      r := new EcPoint(curve, outx, outy, Some(outz), false);
      IsScale(outx, R.x, outy, R.y, z3, outz, p);
    }

    /** ecp_double on a Weierstrass curve. */
    method DoublePoint(aminus3: bool, ghost A: Affine) returns (r: EcPoint)
      requires Represents(A) && (aminus3 ==> curve.a + 3 == curve.p)
      ensures fresh(r) && r.curve == curve && r.Represents(AffineDouble(curve, A))
    {
      if infinity {
        r := new EcPoint(curve, 0, 0, None, true);
      } else {
        r := DoubleW(aminus3, A);
      }
    }

    /** ecp_add on a Weierstrass curve. */
    method AddPoint(b: EcPoint, aminus3: bool, ghost A: Affine, ghost B: Affine) returns (r: EcPoint)
      requires Represents(A) && b.Represents(B) && b.curve == curve && (aminus3 ==> curve.a + 3 == curve.p)
      ensures fresh(r) && r.curve == curve && r.Represents(AffineAdd(curve, A, B))
    {
      if infinity {
        r := b.Copy(B);
      } else if b.infinity {
        r := Copy(A);
      } else {
        r := AddW(b, aminus3, A, B);
      }
    }

    /** ecp_normalise. */
    method Normalise(ghost A: Affine) returns (ok: bool)
      requires Represents(A)
      modifies this
      ensures ok && Represents(A) && (!infinity ==> z == None && A == Affine(x, y))
    {
      hide Mul, P2, P3, Unit, Is, OnCurve, IsField;
      if infinity {
        return true;
      }
      NormalZ(A.x, A.y, curve.p);
      if z.None? {
        IsUnique(x, A.x, A.x, curve.p);
        IsUnique(y, A.y, A.y, curve.p);
        return true;
      }
      FieldSize(curve.p);
      var tx, ty := DivideOut(x, y, z.value, curve.p, A.x, A.y);
      x, y, z := tx, ty, None;
      return true;
    }
  }

  /** x / z^2 and y / z^3. */
  method DivideOut(x: nat, y: nat, z: nat, p: nat, ghost ax: nat, ghost ay: nat) returns (tx: nat, ty: nat)
    requires p > 1 && z < p && Unit(z, p) && ax < p && ay < p
    requires Is(x, Mul(ax, P2(z)), p) && Is(y, Mul(ay, P3(z)), p)
    ensures tx == ax && ty == ay
  {
    hide Mul, P2, P3, Unit, Is, Cong;
    IsSelf(z, p);
    PowerUnits(z, p);
    var z2 := Square(z, p, z);
    StandsForUnit(z2, P2(z), p);
    var z2inv := ModInverse(z2, p);
    tx := ModMul(x, z2inv.value, p);
    var z3 := ModMul(z2, z, p);
    CubeIs(z2, z, z3, p);
    StandsForUnit(z3, P3(z), p);
    var z3inv := ModInverse(z3, p);
    ty := ModMul(y, z3inv.value, p);
    Divided(x, ax, P2(z), z2, z2inv.value, tx, p);
    Divided(y, ay, P3(z), z3, z3inv.value, ty, p);
  }

  /** H = U2 - U1, R = S2 - S1, X3 = R^2 - H^3 - 2 U1 H^2, Y3 = R (U1 H^2 - X3) - S1 H^3. */
  method Chord(p: nat, u1: nat, u2: nat, s1: nat, s2: nat, ghost A: Affine, ghost B: Affine, ghost w: int, ghost l: int,
               ghost R: Affine)
    returns (outx: nat, outy: nat, h: nat)
    requires A.Affine? && B.Affine? && R.Affine? && Cong(Mul(B.x - A.x, l), B.y - A.y, p)
    requires Is(u1, Mul(A.x, P2(w)), p) && Is(u2, Mul(B.x, P2(w)), p)
    requires Is(s1, Mul(A.y, P3(w)), p) && Is(s2, Mul(B.y, P3(w)), p)
    requires Is(R.x, Mul(l, l) - A.x - B.x, p) && Is(R.y, Mul(l, A.x - R.x) - A.y, p)
    ensures Is(h, Mul(B.x - A.x, P2(w)), p)
    ensures var z3 := Mul(Mul(B.x - A.x, P2(w)), w); Is(outx, Mul(R.x, P2(z3)), p) && Is(outy, Mul(R.y, P3(z3)), p)
  {
    hide Mul, P2, P3, Is, Cong;
    ghost var d, U1, S1 := B.x - A.x, Mul(A.x, P2(w)), Mul(A.y, P3(w));
    ghost var H, V := Mul(d, P2(w)), Mul(Mul(d, l), P3(w));
    ghost var z3 := Mul(H, w);
    h := DifferenceOf(u2, u1, p, B.x, A.x, P2(w));
    var r := DifferenceOf(s2, s1, p, B.y, A.y, P3(w));
    SlopeTimes(Mul(d, l), B.y - A.y, P3(w), r, p);
    var h2 := Square(h, p, H);
    var uh2 := Multiply(u1, h2, p, U1, Mul(H, H));
    var h3 := Multiply(h2, h, p, Mul(H, H), H);
    var r2 := Square(r, p, V);
    var twice := Double(uh2, p, Mul(U1, Mul(H, H)));
    var first := Minus(r2, h3, p, Mul(V, V), Mul(Mul(H, H), H));
    outx := Minus(first, twice, p, Mul(V, V) - Mul(Mul(H, H), H), 2 * Mul(U1, Mul(H, H)));
    ChordXPoly(d, w, l, A.x, B.x);
    ScaleTo(outx, Mul(l, l) - A.x - B.x, R.x, P2(z3), p);
    var x3 := Minus(uh2, outx, p, Mul(U1, Mul(H, H)), Mul(R.x, P2(z3)));
    var rx := Multiply(r, x3, p, V, Mul(U1, Mul(H, H)) - Mul(R.x, P2(z3)));
    var sh3 := Multiply(s1, h3, p, S1, Mul(Mul(H, H), H));
    outy := Minus(rx, sh3, p, Mul(V, Mul(U1, Mul(H, H)) - Mul(R.x, P2(z3))), Mul(S1, Mul(Mul(H, H), H)));
    ChordYPoly(d, w, l, A.x, A.y, R.x);
    ScaleTo(outy, Mul(l, A.x - R.x) - A.y, R.y, P3(z3), p);
  }

  /** modsub of two residues. */
  method Minus(a: nat, b: nat, p: nat, ghost x: int, ghost y: int) returns (r: nat)
    requires Is(a, x, p) && Is(b, y, p)
    ensures Is(r, x - y, p)
  {
    hide Cong;
    r := Subtract(a, b, p, x, y);
  }

  method DifferenceOf(a: nat, b: nat, p: nat, ghost x: int, ghost y: int, ghost k: int) returns (r: nat)
    requires Is(a, Mul(x, k), p) && Is(b, Mul(y, k), p)
    ensures Is(r, Mul(x - y, k), p)
  {
    MulMinus(x, y, k);
    r := Minus(a, b, p, Mul(x, k), Mul(y, k));
  }

  lemma SlopeTimes(dl: int, dy: int, k: int, r: nat, p: nat)
    requires Cong(dl, dy, p) && Is(r, Mul(dy, k), p)
    ensures Is(r, Mul(dl, k), p)
  {
    CongSym(dl, dy, p);
    CongScale(dy, dl, k, p);
    IsCong(r, Mul(dy, k), Mul(dl, k), p);
  }

  lemma ScaleTo(r: nat, x: int, x3: nat, k: int, p: nat)
    requires Is(r, Mul(x, k), p) && Is(x3, x, p)
    ensures Is(r, Mul(x3, k), p)
  {
    CongSym(x3, x, p);
    CongScale(x, x3, k, p);
    IsCong(r, Mul(x, k), Mul(x3, k), p);
  }

  /** Everything in the chord formulas scales with powers of z3 = d w^3. */
  lemma ChordPowers(d: int, w: int, l: int)
    ensures var H, z3 := Mul(d, P2(w)), Mul(Mul(d, P2(w)), w);
            && Mul(Mul(d, l), P3(w)) == Mul(l, z3)
            && Mul(P2(w), Mul(H, H)) == P2(z3)
            && Mul(Mul(H, H), H) == Mul(d, P2(z3))
            && Mul(P3(w), Mul(Mul(H, H), H)) == P3(z3)
  {
    var H, k := d * (w * w), w * w;
    assert k * (H * H) == (H * w) * (H * w) && (H * H) * H == d * (k * (H * H));
    assert w * w * w == k * w && (k * w) * ((H * H) * H) == ((H * w) * (H * w)) * (H * w);
    assert (d * l) * (k * w) == l * ((d * k) * w);
  }

  lemma ChordXPoly(d: int, w: int, l: int, x1: int, x2: int)
    requires d == x2 - x1
    ensures var H, V := Mul(d, P2(w)), Mul(Mul(d, l), P3(w));
            Mul(V, V) - Mul(Mul(H, H), H) - 2 * Mul(Mul(x1, P2(w)), Mul(H, H)) == Mul(Mul(l, l) - x1 - x2, P2(Mul(H, w)))
  {
    ChordPowers(d, w, l);
    ChordXScaled(Mul(Mul(d, P2(w)), w), l, x1, x2, P2(w), Mul(Mul(d, P2(w)), Mul(d, P2(w))));
  }

  lemma ChordXScaled(z: int, l: int, x1: int, x2: int, k: int, h2: int)
    requires Mul(k, h2) == P2(z)
    ensures Mul(Mul(l, z), Mul(l, z)) - Mul(x2 - x1, P2(z)) - 2 * Mul(Mul(x1, k), h2) == Mul(Mul(l, l) - x1 - x2, P2(z))
  {
    MulAssoc(x1, k, h2);
  }

  lemma ChordYPoly(d: int, w: int, l: int, x1: int, y1: int, x3: int)
    ensures var H, V := Mul(d, P2(w)), Mul(Mul(d, l), P3(w));
            Mul(V, Mul(Mul(x1, P2(w)), Mul(H, H)) - Mul(x3, P2(Mul(H, w)))) - Mul(Mul(y1, P3(w)), Mul(Mul(H, H), H))
            == Mul(Mul(l, x1 - x3) - y1, P3(Mul(H, w)))
  {
    var H := Mul(d, P2(w));
    ChordPowers(d, w, l);
    ChordYScaled(Mul(H, w), l, x1, y1, x3, P2(w), Mul(H, H), P3(w), Mul(Mul(H, H), H));
  }

  lemma ChordYScaled(z: int, l: int, x1: int, y1: int, x3: int, k: int, h2: int, c: int, h3: int)
    requires Mul(k, h2) == P2(z) && Mul(c, h3) == P3(z)
    ensures Mul(Mul(l, z), Mul(Mul(x1, k), h2) - Mul(x3, P2(z))) - Mul(Mul(y1, c), h3) == Mul(Mul(l, x1 - x3) - y1, P3(z))
  {
    MulAssoc(x1, k, h2);
    MulAssoc(y1, c, h3);
    MulMinus(x1, x3, P2(z));
    LinePoly(l, z, x1 - x3, y1);
  }

  lemma LinePoly(l: int, z: int, e: int, y1: int)
    ensures Mul(Mul(l, z), Mul(e, P2(z))) - Mul(y1, P3(z)) == Mul(Mul(l, e) - y1, P3(z))
  {
  }

  lemma RescalePoly(x: int, y: int, z1: int, z2: int)
    ensures Mul(Mul(x, P2(z1)), Mul(z2, z2)) == Mul(x, P2(Mul(z1, z2)))
    ensures Mul(Mul(y, P3(z1)), Mul(Mul(z2, z2), z2)) == Mul(y, P3(Mul(z1, z2)))
  {
  }

  /** Scaled coordinates agree exactly when the coordinates do. */
  lemma Same(r: nat, s: nat, x: nat, y: nat, k: int, p: nat, w: int)
    requires Is(r, Mul(x, k), p) && Is(s, Mul(y, k), p) && x < p && y < p && Unit(w, p) && (k == P2(w) || k == P3(w))
    ensures r == s <==> x == y
  {
    UnitMul(w, w, p);
    UnitMul(Mul(w, w), w, p);
    if r == s {
      CongSym(r, Mul(x, k), p);
      CongTrans(Mul(x, k), r, Mul(y, k), p);
      UnitCancel(x, y, k, p);
      CongUnique(x, y, p);
    }
    if x == y {
      IsUnique(r, s, Mul(x, k), p);
    }
  }

  lemma ZUnit(d: int, w: int, p: nat, outz: nat)
    requires Unit(d, p) && Unit(w, p) && Is(outz, Mul(Mul(d, P2(w)), w), p)
    ensures Unit(outz, p)
  {
    UnitMul(w, w, p);
    UnitMul(d, P2(w), p);
    UnitMul(Mul(d, P2(w)), w, p);
    CongSym(outz, Mul(Mul(d, P2(w)), w), p);
    UnitCong(Mul(Mul(d, P2(w)), w), outz, p);
  }

  // Normalising.

  lemma FieldSize(p: nat)
    requires IsField(p)
    ensures p > 3
  {
  }

  lemma PowerUnits(w: int, p: nat)
    requires Unit(w, p)
    ensures Unit(P2(w), p) && Unit(P3(w), p) && P2(w) == Mul(w, w)
  {
    UnitMul(w, w, p);
    UnitMul(Mul(w, w), w, p);
  }

  /** A residue that stands for a unit is one. */
  lemma StandsForUnit(r: nat, x: int, p: nat)
    requires Is(r, x, p) && Unit(x, p)
    ensures Unit(r, p) && (p > 1 ==> r > 0)
  {
    CongSym(r, x, p);
    UnitCong(x, r, p);
    if p > 1 {
      UnitNonZero(r, p);
      CongRefl(0, p);
    }
  }

  lemma CubeIs(z2: nat, w: nat, z3: nat, p: nat)
    requires Is(z2, Mul(w, w), p) && Is(z3, Mul(z2, w), p)
    ensures Is(z3, P3(w), p)
  {
    CongScale(z2, Mul(w, w), w, p);
    IsCong(z3, Mul(z2, w), P3(w), p);
  }

  /** (a k) / k is a. */
  lemma Divided(x: nat, a: nat, k: int, zk: nat, inv: nat, t: nat, p: nat)
    requires a < p && Is(x, Mul(a, k), p) && Is(zk, k, p) && Cong(Mul(zk, inv), 1, p) && Is(t, Mul(x, inv), p)
    ensures t == a
  {
    CongScale(x, Mul(a, k), inv, p);
    CongTrans(t, Mul(x, inv), Mul(Mul(a, k), inv), p);
    MulAssoc(a, k, inv);
    CongSym(zk, k, p);
    CongScale(k, zk, inv, p);
    CongTrans(Mul(k, inv), Mul(zk, inv), 1, p);
    CongScale(Mul(k, inv), 1, a, p);
    MulUnit(a);
    CongTrans(t, Mul(a, Mul(k, inv)), a, p);
    CongUnique(t, a, p);
  }

  lemma NormalZ(x: nat, y: nat, p: nat)
    requires IsField(p) && x < p && y < p
    ensures Mul(x, P2(1)) == x && Mul(y, P3(1)) == y && Is(x, Mul(x, P2(1)), p) && Is(y, Mul(y, P3(1)), p) && Unit(1, p)
    ensures Is(x, x, p) && Is(y, y, p)
  {
    IsSelf(x, p);
    IsSelf(y, p);
    NonZeroUnit(1, p);
  }

  /** X' = M^2 - 2 S. */
  method DoubleX(s: nat, m: nat, p: nat, ghost x: int, ghost u: int, ghost l: int, ghost x3: int) returns (outx: nat)
    requires Is(s, 4 * Mul(x, Mul(u, u)), p) && Is(m, 2 * Mul(l, u), p) && Cong(x3, Mul(l, l) - x - x, p)
    ensures Is(outx, Mul(x3, P2(2 * u)), p)
  {
    hide Mul, P2, Is;
    ghost var S, M := 4 * Mul(x, Mul(u, u)), 2 * Mul(l, u);
    var m2 := Square(m, p, M);
    var s2 := Double(s, p, S);
    IsIs(m2, Mul(M, M), p);
    IsIs(s2, 2 * S, p);
    outx := Subtract(m2, s2, p, Mul(M, M), 2 * S);
    DoubleXPoly(l, u, x);
    CongSym(x3, Mul(l, l) - x - x, p);
    CongScale(Mul(l, l) - x - x, x3, P2(2 * u), p);
    IsCong(outx, Mul(Mul(l, l) - x - x, P2(2 * u)), Mul(x3, P2(2 * u)), p);
  }

  lemma SPoly(x: int, y: int, z: int)
    ensures var X, Y, u := Mul(x, P2(z)), Mul(y, P3(z)), Mul(y, Mul(P2(z), P2(z)));
            2 * (2 * Mul(X, Mul(Y, Y))) == 4 * Mul(x, Mul(u, u))
  {
  }

  lemma DoubleXPoly(l: int, u: int, x: int)
    ensures Mul(2 * Mul(l, u), 2 * Mul(l, u)) - 2 * (4 * Mul(x, Mul(u, u))) == Mul(Mul(l, l) - x - x, P2(2 * u))
  {
  }

  lemma DoubleYPoly(l: int, u: int, x: int, x3: int, y: int)
    ensures Mul(2 * Mul(l, u), 4 * Mul(x, Mul(u, u)) - Mul(x3, P2(2 * u))) - 8 * Mul(y, P3(u))
            == Mul(Mul(l, x - x3) - y, P3(2 * u))
  {
  }

  lemma FourthPoly(y: int, z: int)
    ensures var Y, u := Mul(y, P3(z)), Mul(y, Mul(P2(z), P2(z))); 8 * Mul(Mul(Y, Y), Mul(Y, Y)) == 8 * Mul(y, P3(u))
  {
  }

  lemma YzIs(y: int, z: int)
    ensures Mul(Mul(y, P3(z)), z) == Mul(y, Mul(P2(z), P2(z)))
    ensures Mul(y, P3(1)) == Mul(y, Mul(P2(1), P2(1)))
  {
  }

  lemma EightTimes(r: nat, x: int, r8: nat, p: nat)
    requires Is(r, x, p) && Is(r8, Mul(8, r), p)
    ensures Is(r8, 8 * x, p)
  {
    CongScale(r, x, 8, p);
    assert Mul(8, x) == 8 * x;
    IsCong(r8, Mul(8, r), 8 * x, p);
  }

  /** y = 0 exactly when Y = y z^3 is. */
  lemma ZeroY(r: nat, y: nat, z: int, p: nat)
    requires Is(r, Mul(y, P3(z)), p) && y < p && Unit(z, p)
    ensures r == 0 <==> y == 0
  {
    UnitMul(z, z, p);
    UnitMul(Mul(z, z), z, p);
    MulUnit(P3(z));
    if r == 0 {
      CongSym(0, Mul(y, P3(z)), p);
      UnitCancel(y, 0, P3(z), p);
      CongUnique(y, 0, p);
    }
    if y == 0 {
      CongUnique(r, 0, p);
    }
  }

  /** Z' = 2 Y Z is a unit. */
  lemma UMeans(y: nat, z: int, p: nat, outz: nat)
    requires Unit(2 * y, p) && Unit(z, p) && Is(outz, 2 * Mul(y, Mul(P2(z), P2(z))), p)
    ensures Unit(2 * Mul(y, Mul(P2(z), P2(z))), p) && Unit(outz, p)
  {
    UnitMul(z, z, p);
    UnitMul(P2(z), P2(z), p);
    UnitMul(2 * y, Mul(P2(z), P2(z)), p);
    TwicePoly(y, Mul(P2(z), P2(z)));
    CongSym(outz, 2 * Mul(y, Mul(P2(z), P2(z))), p);
    UnitCong(2 * Mul(y, Mul(P2(z), P2(z))), outz, p);
  }

  lemma TwicePoly(y: int, w: int)
    ensures Mul(2 * y, w) == 2 * Mul(y, w)
  {
  }

  /** The residue of z can stand for z. */
  lemma IsScale(outx: nat, x: int, outy: nat, y: int, z: int, outz: nat, p: nat)
    requires Is(outx, Mul(x, P2(z)), p) && Is(outy, Mul(y, P3(z)), p) && Is(outz, z, p)
    ensures Is(outx, Mul(x, P2(outz)), p) && Is(outy, Mul(y, P3(outz)), p)
  {
    CongSym(outz, z, p);
    CongMul(z, outz, z, outz, p);
    CongMul(P2(z), P2(outz), z, outz, p);
    CongScale(P2(z), P2(outz), x, p);
    CongScale(P3(z), P3(outz), y, p);
    IsCong(outx, Mul(x, P2(z)), Mul(x, P2(outz)), p);
    IsCong(outy, Mul(y, P3(z)), Mul(y, P3(outz)), p);
  }

  lemma IsIs(r: nat, x: int, p: nat)
    requires Is(r, x, p)
    ensures r < p && Cong(r, x, p) && p > 0
  {
  }

  lemma IsOne(p: nat)
    requires IsField(p)
    ensures Is(1, 1, p)
  {
    IsSelf(1, p);
  }

  lemma ZSquare(z: int)
    ensures P2(z) == Mul(z, z) && P2(1) == 1
  {
  }

  lemma ZFourth(z: int, a: int)
    ensures Mul(a, Mul(Mul(z, z), Mul(z, z))) == Mul(a, Mul(P2(z), P2(z)))
    ensures Mul(a, Mul(P2(1), P2(1))) == a
  {
  }

  lemma SlopeMinus3(x: int, y: int, z: int, a: nat, l: int, p: nat)
    requires a + 3 == p && Cong(Mul(2 * y, l), 3 * Mul(x, x) + a, p)
    ensures var X := Mul(x, P2(z));
            Cong(3 * Mul(X + P2(z), X - P2(z)), 2 * Mul(l, Mul(y, Mul(P2(z), P2(z)))), p)
  {
    CongBy(3 * Mul(x, x) + a, 3 * Mul(x, x) - 3, p, 1);
    CongTrans(Mul(2 * y, l), 3 * Mul(x, x) + a, 3 * Mul(x, x) - 3, p);
    CongScale(Mul(2 * y, l), 3 * Mul(x, x) - 3, Mul(P2(z), P2(z)), p);
    Minus3Poly(x, y, z, l);
    CongSym(Mul(Mul(2 * y, l), Mul(P2(z), P2(z))), Mul(3 * Mul(x, x) - 3, Mul(P2(z), P2(z))), p);
  }

  lemma Minus3Poly(x: int, y: int, z: int, l: int)
    ensures Mul(3 * Mul(x, x) - 3, Mul(P2(z), P2(z))) == 3 * Mul(Mul(x, P2(z)) + P2(z), Mul(x, P2(z)) - P2(z))
    ensures Mul(Mul(2 * y, l), Mul(P2(z), P2(z))) == 2 * Mul(l, Mul(y, Mul(P2(z), P2(z))))
  {
    hide Mul, P2;
    var q := P2(z);
    var X, r := Mul(x, q), Mul(q, q);
    MulPlus(X, q, X - q);
    MulMinus(X, q, X);
    MulMinus(X, q, q);
    MulComm(q, X);
    FourFactors(x, q, x, q);
    ThreeOut(Mul(x, x), r);
    MulAssoc(2 * y, l, r);
    TwiceOut(y, Mul(l, r));
    MulAssoc(y, l, r);
    MulComm(y, l);
    MulAssoc(l, y, r);
  }

  lemma ThreeOut(m: int, r: int)
    ensures Mul(3 * m - 3, r) == 3 * Mul(m, r) - 3 * r
  {
  }

  lemma TwiceOut(y: int, v: int)
    ensures Mul(2 * y, v) == 2 * Mul(y, v)
  {
  }

  lemma SlopeGeneral(x: int, y: int, z: int, a: int, l: int, p: nat)
    requires Cong(Mul(2 * y, l), 3 * Mul(x, x) + a, p)
    ensures var X := Mul(x, P2(z));
            Cong(3 * Mul(X, X) + Mul(a, Mul(P2(z), P2(z))), 2 * Mul(l, Mul(y, Mul(P2(z), P2(z)))), p)
  {
    CongScale(Mul(2 * y, l), 3 * Mul(x, x) + a, Mul(P2(z), P2(z)), p);
    GeneralPoly(x, y, z, a, l);
    CongSym(Mul(Mul(2 * y, l), Mul(P2(z), P2(z))), Mul(3 * Mul(x, x) + a, Mul(P2(z), P2(z))), p);
  }

  lemma GeneralPoly(x: int, y: int, z: int, a: int, l: int)
    ensures Mul(3 * Mul(x, x) + a, Mul(P2(z), P2(z))) == 3 * Mul(Mul(x, P2(z)), Mul(x, P2(z))) + Mul(a, Mul(P2(z), P2(z)))
    ensures Mul(Mul(2 * y, l), Mul(P2(z), P2(z))) == 2 * Mul(l, Mul(y, Mul(P2(z), P2(z))))
  {
  }
}
