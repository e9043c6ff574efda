/** Points on by^2 = x^3 + ax^2 + x, and the x-only formulas and ladder of sshecc.c. */
module MontgomeryCurve {
  import opened Arith
  import opened Binary
  import opened Machine
  import opened Modular
  import opened NumberTheory
  import opened EcField
  import opened ScalarMul
  import W = Weierstrass
  import Words

  datatype Curve = Curve(p: nat, a: nat, b: nat)

  /** p is prime, b is not zero, and the cubic has no double root. */
  ghost predicate IsCurve(c: Curve) {
    IsField(c.p) && c.a < c.p && c.b < c.p && Unit(c.b, c.p) && !Cong(Mul(c.a, c.a), 4, c.p)
  }

  datatype Point = Infinity | Finite(x: nat, y: nat)

  /** x^3 + ax^2 + x. */
  function Cubic(a: int, x: int): int {
    Mul(Mul(x, x), x) + Mul(a, Mul(x, x)) + x
  }

  ghost predicate OnCurve(c: Curve, x: int, y: int) {
    Cong(Mul(c.b, Mul(y, y)), Cubic(c.a, x), c.p)
  }

  ghost predicate IsPoint(c: Curve, P: Point) {
    P.Finite? ==> P.x < c.p && P.y < c.p && OnCurve(c, P.x, P.y)
  }

  /** The x coordinate of a sum, from the slope. */
  function SumX(c: Curve, l: int, x1: int, x2: int): int {
    Mul(c.b, Mul(l, l)) - c.a - x1 - x2
  }

  ghost function Third(c: Curve, l: int, x1: int, y1: int, x2: int): (R: Point)
    requires c.p > 0
    ensures R.Finite? && Is(R.x, SumX(c, l, x1, x2), c.p) && Is(R.y, Mul(l, x1 - R.x) - y1, c.p)
  {
    var x3 := SumX(c, l, x1, x2) % c.p;
    IsMod(SumX(c, l, x1, x2), c.p);
    IsMod(Mul(l, x1 - x3) - y1, c.p);
    Finite(x3, (Mul(l, x1 - x3) - y1) % c.p)
  }

  lemma TwiceUnit(c: Curve, y: int)
    requires IsCurve(c) && 0 < y < c.p
    ensures Unit(2 * Mul(c.b, y), c.p)
  {
    W.TwiceUnit(y, c.p);
    UnitMul(c.b, 2 * y, c.p);
    TwoOut(c.b, y);
  }

  lemma TwoOut(b: int, y: int)
    ensures Mul(b, 2 * y) == 2 * Mul(b, y)
  {
  }

  ghost function Doubled(c: Curve, P: Point): Point
    requires IsCurve(c) && IsPoint(c, P)
  {
    if P.Infinity? || P.y == 0 then Infinity
    else
      TwiceUnit(c, P.y);
      Third(c, W.Quotient(3 * Mul(P.x, P.x) + 2 * Mul(c.a, P.x) + 1, 2 * Mul(c.b, P.y), c.p), P.x, P.y, P.x)
  }

  ghost function Sum(c: Curve, P: Point, Q: Point): Point
    requires IsCurve(c) && IsPoint(c, P) && IsPoint(c, Q)
  {
    if P.Infinity? then Q
    else if Q.Infinity? then P
    else if P.x == Q.x then if P.y == Q.y then Doubled(c, P) else Infinity
    else
      W.DifferenceUnit(Q.x, P.x, c.p);
      Third(c, W.Quotient(Q.y - P.y, Q.x - P.x, c.p), P.x, P.y, Q.x)
  }

  /**
   * The line through two points, or along the tangent of one, of slope num / den, meets the curve in the reflection of a
   * third: its slope from the first point is the same, and b times its square is a and the three x coordinates together.
   */
  ghost predicate OnLine(c: Curve, den: int, num: int, x1: int, y1: int, x2: int, R: Point) {
    && R.Finite?
    && Cong(Mul(den, -(R.y as int) - y1), Mul(num, R.x - x1), c.p)
    && Cong(Mul(Mul(den, den), c.a + x1 + x2 + R.x), Mul(c.b, Mul(num, num)), c.p)
  }

  lemma ThirdOnLine(c: Curve, den: int, num: int, l: int, x1: int, y1: int, x2: int, R: Point)
    requires Cong(Mul(den, l), num, c.p) && R.Finite?
    requires Is(R.x, SumX(c, l, x1, x2), c.p) && Is(R.y, Mul(l, x1 - R.x) - y1, c.p)
    ensures OnLine(c, den, num, x1, y1, x2, R)
  {
    hide Mul, Cong;
    var p, b, x3, y3 := c.p, c.b, R.x, R.y;
    W.IsParts(x3, SumX(c, l, x1, x2), p);
    W.IsParts(y3, Mul(l, x1 - x3) - y1, p);
    W.Negation(y3, l, x1, x3, y1, p);
    CongScale(-(y3 as int) - y1, Mul(l, x3 - x1), den, p);
    MulAssoc(den, l, x3 - x1);
    CongScale(Mul(den, l), num, x3 - x1, p);
    CongTrans(Mul(den, -(y3 as int) - y1), Mul(Mul(den, l), x3 - x1), Mul(num, x3 - x1), p);
    W.ShiftBoth(x3, SumX(c, l, x1, x2), c.a + x1 + x2, p);
    var sum := c.a + x1 + x2 + x3;
    CongScale(sum, Mul(b, Mul(l, l)), Mul(den, den), p);
    // d^2 b l^2 = b (d l)^2
    MulAssoc(Mul(den, den), b, Mul(l, l));
    MulComm(Mul(den, den), b);
    MulAssoc(b, Mul(den, den), Mul(l, l));
    FourFactors(den, den, l, l);
    CongMul(Mul(den, l), num, Mul(den, l), num, p);
    CongScale(Mul(Mul(den, l), Mul(den, l)), Mul(num, num), b, p);
    CongTrans(Mul(Mul(den, den), sum), Mul(b, Mul(Mul(den, l), Mul(den, l))), Mul(b, Mul(num, num)), p);
  }

  /** The sum of two points with different x, and the double of a point with y not zero, are where those lines lead. */
  lemma SumOnLine(c: Curve, P: Point, Q: Point)
    requires IsCurve(c) && IsPoint(c, P) && IsPoint(c, Q) && P.Finite? && Q.Finite? && P.x != Q.x
    ensures OnLine(c, Q.x - P.x, Q.y - P.y, P.x, P.y, Q.x, Sum(c, P, Q))
  {
    hide Mul, Cong, IsField, Unit, W.Quotient, Third, OnLine, OnCurve;
    FieldSize(c);
    W.DifferenceUnit(Q.x, P.x, c.p);
    var l := W.Quotient(Q.y - P.y, Q.x - P.x, c.p);
    ThirdOnLine(c, Q.x - P.x, Q.y - P.y, l, P.x, P.y, Q.x, Sum(c, P, Q));
  }

  lemma DoubleOnLine(c: Curve, P: Point)
    requires IsCurve(c) && IsPoint(c, P) && P.Finite? && P.y != 0
    ensures OnLine(c, 2 * Mul(c.b, P.y), 3 * Mul(P.x, P.x) + 2 * Mul(c.a, P.x) + 1, P.x, P.y, P.x, Sum(c, P, P))
  {
    hide Mul, Cong, IsField, Unit, W.Quotient, Third, OnLine, OnCurve;
    FieldSize(c);
    TwiceUnit(c, P.y);
    var l := W.Quotient(3 * Mul(P.x, P.x) + 2 * Mul(c.a, P.x) + 1, 2 * Mul(c.b, P.y), c.p);
    ThirdOnLine(c, 2 * Mul(c.b, P.y), 3 * Mul(P.x, P.x) + 2 * Mul(c.a, P.x) + 1, l, P.x, P.y, P.x, Sum(c, P, P));
  }

  ghost function Negated(c: Curve, P: Point): Point
    requires c.p > 0
  {
    if P.Infinity? then P else Finite(P.x, (-(P.y as int)) % c.p)
  }

  // Sums stay on the curve.

  /** What the linear coefficient of the cut-out cubic exceeds the one that the three roots give. */
  function Excess(a: int, b: int, l: int, x1: int, y1: int, x2: int): int {
    Mul(x1, x1) + Mul(x1, x2) + Mul(x2, x2) + Mul(a, x1 + x2) + 1 - Mul(Mul(b, Mul(l, l)), x2 - x1) - 2 * Mul(Mul(b, l), y1)
  }

  lemma CubicPoly(a: int, b: int, l: int, x1: int, y1: int, x2: int, x3: int)
    ensures var y3, d := Mul(l, x1 - x3) - y1, x3 - x1;
            Cubic(a, x3) - Mul(b, Mul(y3, y3))
            == (Cubic(a, x1) - Mul(b, Mul(y1, y1)))
               + Mul(d, Excess(a, b, l, x1, y1, x2)) + Mul(d, Mul(x2 - x3, Mul(b, Mul(l, l)) - a - x1 - x2 - x3))
  {
    hide Mul, Excess, Cubic;
    var d, L, m := x3 - x1, Mul(b, Mul(l, l)), Mul(Mul(b, l), y1);
    var quad := Mul(x3, x3) + Mul(x3, x1) + Mul(x1, x1) + Mul(a, x3 + x1) + 1;
    CubeDifference(a, x1, x3);
    LineSquare(b, l, x1, y1, x3);
    BracketPoly(a, b, l, y1, x1, x2, x3);
    MulPlus(Excess(a, b, l, x1, y1, x2), Mul(x2 - x3, L - a - x1 - x2 - x3), d);
    MulPlus(quad, -Mul(L, d) - 2 * m, d);
  }

  lemma CubeDifference(a: int, x1: int, x3: int)
    ensures Cubic(a, x3) - Cubic(a, x1)
            == Mul(x3 - x1, Mul(x3, x3) + Mul(x3, x1) + Mul(x1, x1) + Mul(a, x3 + x1) + 1)
  {
    W.CubePoly(x1, x3);
    SquareDifference(a, x1, x3);
    MulPlus(Mul(x3, x3) + Mul(x3, x1) + Mul(x1, x1), Mul(a, x3 + x1) + 1, x3 - x1);
    MulPlus(Mul(a, x3 + x1), 1, x3 - x1);
    MulUnit(x3 - x1);
    hide Mul;
  }

  lemma SquareDifference(a: int, x1: int, x3: int)
    ensures Mul(a, Mul(x3, x3)) - Mul(a, Mul(x1, x1)) == Mul(x3 - x1, Mul(a, x3 + x1))
  {
  }

  lemma LineSquare(b: int, l: int, x1: int, y1: int, x3: int)
    ensures var y3, d := Mul(l, x1 - x3) - y1, x3 - x1;
            Mul(b, Mul(y3, y3)) - Mul(b, Mul(y1, y1)) == -Mul(d, -Mul(Mul(b, Mul(l, l)), d) - 2 * Mul(Mul(b, l), y1))
  {
    hide *;
    var d := x3 - x1;
    var y3 := Mul(l, x1 - x3) - y1;
    W.LineSquare(l, x1, y1, x3);
    MulMinus(Mul(y3, y3), Mul(y1, y1), b);
    LineScale(b, l, d, y1);
  }

  lemma LineScale(b: int, l: int, d: int, y1: int)
    ensures Mul(b, -Mul(d, -Mul(Mul(l, l), d) - 2 * Mul(l, y1)))
            == -Mul(d, -Mul(Mul(b, Mul(l, l)), d) - 2 * Mul(Mul(b, l), y1))
  {
    var u, v := l * l * d, l * y1;
    assert b * -(d * (-u - 2 * v)) == -(d * (-(b * u) - 2 * (b * v)));
    assert b * u == b * (l * l) * d && b * v == b * l * y1;
  }

  lemma BracketPoly(a: int, b: int, l: int, y1: int, x1: int, x2: int, x3: int)
    ensures Excess(a, b, l, x1, y1, x2) + Mul(x2 - x3, Mul(b, Mul(l, l)) - a - x1 - x2 - x3)
            == (Mul(x3, x3) + Mul(x3, x1) + Mul(x1, x1) + Mul(a, x3 + x1) + 1)
               + (-Mul(Mul(b, Mul(l, l)), x3 - x1) - 2 * Mul(Mul(b, l), y1))
  {
    var L := b * (l * l);
    assert (x2 - x3) * (L - a - x1 - x2 - x3) == (x2 * L - x3 * L) - (a * x2 - a * x3) - (x1 * x2 + x2 * x2 - x1 * x3 - x3 * x3);
    assert L * (x2 - x1) == x2 * L - x1 * L && L * (x3 - x1) == x3 * L - x1 * L;
    assert a * (x1 + x2) == a * x1 + a * x2 && a * (x3 + x1) == a * x3 + a * x1;
  }

  lemma ThirdOnCurve(c: Curve, l: int, x1: int, y1: int, x2: int)
    requires IsCurve(c) && OnCurve(c, x1, y1) && Cong(Excess(c.a, c.b, l, x1, y1, x2), 0, c.p)
    ensures IsPoint(c, Third(c, l, x1, y1, x2))
  {
    hide Mul, Cong, Third, Excess, Cubic, SumX;
    var p, a, b := c.p, c.a, c.b;
    var R := Third(c, l, x1, y1, x2);
    var x3 := R.x;
    var y3 := Mul(l, x1 - x3) - y1;
    SumXIs(c, l, x1, x2);
    CongSym(x3, SumX(c, l, x1, x2), p);
    W.ZeroDiff(SumX(c, l, x1, x2), x3, p);
    W.ZeroScale(SumX(c, l, x1, x2) - x3, x2 - x3, p);
    W.ZeroScale(Mul(x2 - x3, SumX(c, l, x1, x2) - x3), x3 - x1, p);
    W.ZeroScale(Excess(a, b, l, x1, y1, x2), x3 - x1, p);
    CongSym(Mul(b, Mul(y1, y1)), Cubic(a, x1), p);
    W.ZeroDiff(Cubic(a, x1), Mul(b, Mul(y1, y1)), p);
    W.ZeroSum(Cubic(a, x1) - Mul(b, Mul(y1, y1)), Mul(x3 - x1, Excess(a, b, l, x1, y1, x2)), p);
    W.ZeroSum(Cubic(a, x1) - Mul(b, Mul(y1, y1)) + Mul(x3 - x1, Excess(a, b, l, x1, y1, x2)),
              Mul(x3 - x1, Mul(x2 - x3, SumX(c, l, x1, x2) - x3)), p);
    CubicPoly(a, b, l, x1, y1, x2, x3);
    W.ZeroDiff(Cubic(a, x3), Mul(b, Mul(y3, y3)), p);
    CongSym(Cubic(a, x3), Mul(b, Mul(y3, y3)), p);
    CongMul(R.y, y3, R.y, y3, p);
    CongScale(Mul(R.y, R.y), Mul(y3, y3), b, p);
    CongTrans(Mul(b, Mul(R.y, R.y)), Mul(b, Mul(y3, y3)), Cubic(a, x3), p);
  }

  lemma SumXIs(c: Curve, l: int, x1: int, x2: int)
    ensures SumX(c, l, x1, x2) == Mul(c.b, Mul(l, l)) - c.a - x1 - x2
  {
  }

  lemma DoubledOnCurve(c: Curve, P: Point)
    requires IsCurve(c) && IsPoint(c, P)
    ensures IsPoint(c, Doubled(c, P))
  {
    hide Mul, Cong, Third, Excess, Unit, W.Quotient, OnCurve;
    if P.Finite? && P.y != 0 {
      TwiceUnit(c, P.y);
      var num := 3 * Mul(P.x, P.x) + 2 * Mul(c.a, P.x) + 1;
      var l := W.Quotient(num, 2 * Mul(c.b, P.y), c.p);
      CongSym(Mul(2 * Mul(c.b, P.y), l), num, c.p);
      W.ZeroDiff(num, Mul(2 * Mul(c.b, P.y), l), c.p);
      TangentPoly(c.a, c.b, l, P.x, P.y);
      ThirdOnCurve(c, l, P.x, P.y, P.x);
    }
  }

  lemma TangentPoly(a: int, b: int, l: int, x: int, y: int)
    ensures Excess(a, b, l, x, y, x) == 3 * Mul(x, x) + 2 * Mul(a, x) + 1 - Mul(2 * Mul(b, y), l)
  {
    assert b * (l * l) * (x - x) == 0;
  }

  lemma SumOnCurve(c: Curve, P: Point, Q: Point)
    requires IsCurve(c) && IsPoint(c, P) && IsPoint(c, Q)
    ensures IsPoint(c, Sum(c, P, Q))
  {
    hide Mul, Cong, Third, Excess, Unit, W.Quotient, OnCurve;
    if P.Finite? && Q.Finite? && P.x == Q.x && P.y == Q.y {
      DoubledOnCurve(c, P);
    } else if P.Finite? && Q.Finite? && P.x != Q.x {
      W.DifferenceUnit(Q.x, P.x, c.p);
      var l := W.Quotient(Q.y - P.y, Q.x - P.x, c.p);
      ChordExcess(c, l, P.x, P.y, Q.x, Q.y);
      ThirdOnCurve(c, l, P.x, P.y, Q.x);
    }
  }

  lemma ChordExcess(c: Curve, l: int, x1: int, y1: int, x2: int, y2: int)
    requires IsCurve(c) && OnCurve(c, x1, y1) && OnCurve(c, x2, y2) && Unit(x2 - x1, c.p)
    requires Cong(Mul(x2 - x1, l), y2 - y1, c.p)
    ensures Cong(Excess(c.a, c.b, l, x1, y1, x2), 0, c.p)
  {
    hide Mul, Cong, Excess, Unit, Cubic;
    var p, a, b := c.p, c.a, c.b;
    var s := Mul(x2 - x1, l);
    CongSub(Mul(b, Mul(y2, y2)), Cubic(a, x2), Mul(b, Mul(y1, y1)), Cubic(a, x1), p);
    CongSym(Mul(b, Mul(y2, y2)) - Mul(b, Mul(y1, y1)), Cubic(a, x2) - Cubic(a, x1), p);
    W.ZeroDiff(Cubic(a, x2) - Cubic(a, x1), Mul(b, Mul(y2, y2)) - Mul(b, Mul(y1, y1)), p);
    W.ZeroDiff(s, y2 - y1, p);
    W.ZeroScale(s - (y2 - y1), Mul(b, s + y1 + y2), p);
    W.ZeroSum(Cubic(a, x2) - Cubic(a, x1) - (Mul(b, Mul(y2, y2)) - Mul(b, Mul(y1, y1))),
              Mul(Mul(b, s + y1 + y2), s - (y2 - y1)), p);
    ChordPoly(a, b, l, x1, y1, x2, y2);
    MulUnit(x2 - x1);
    UnitCancel(Excess(a, b, l, x1, y1, x2), 0, x2 - x1, p);
  }

  lemma ChordPoly(a: int, b: int, l: int, x1: int, y1: int, x2: int, y2: int)
    ensures var s := Mul(x2 - x1, l);
            Mul(Excess(a, b, l, x1, y1, x2), x2 - x1)
            == Cubic(a, x2) - Cubic(a, x1) - (Mul(b, Mul(y2, y2)) - Mul(b, Mul(y1, y1)))
               - Mul(Mul(b, s + y1 + y2), s - (y2 - y1))
  {
    hide *;
    var d := x2 - x1;
    var s := Mul(d, l);
    var quad := Mul(x2, x2) + Mul(x2, x1) + Mul(x1, x1) + Mul(a, x2 + x1) + 1;
    CubeDifference(a, x1, x2);
    ExcessIs(a, b, l, x1, y1, x2);
    ExcessTimes(quad, Mul(Mul(b, Mul(l, l)), d), Mul(Mul(b, l), y1), d);
    SlopeSquares(b, l, d, y1);
    ScaleSum(b, s, y1, y2);
    MulComm(quad, d);
  }

  lemma ExcessIs(a: int, b: int, l: int, x1: int, y1: int, x2: int)
    ensures Excess(a, b, l, x1, y1, x2)
            == Mul(x2, x2) + Mul(x2, x1) + Mul(x1, x1) + Mul(a, x2 + x1) + 1
               - Mul(Mul(b, Mul(l, l)), x2 - x1) - 2 * Mul(Mul(b, l), y1)
  {
    MulComm(x1, x2);
    hide Mul;
  }

  lemma SlopeSquares(b: int, l: int, d: int, y1: int)
    ensures Mul(Mul(Mul(b, Mul(l, l)), d), d) == Mul(b, Mul(Mul(d, l), Mul(d, l)))
    ensures Mul(Mul(Mul(b, l), y1), d) == Mul(b, Mul(Mul(d, l), y1))
  {
    hide Mul;
    var q := Mul(l, l);
    MulAssoc(b, q, d);
    MulAssoc(b, Mul(q, d), d);
    MulAssoc(q, d, d);
    FourFactors(l, l, d, d);
    MulComm(l, d);
    MulAssoc(b, l, y1);
    MulAssoc(b, Mul(l, y1), d);
    Mul3(l, y1, d);
  }

  lemma ScaleSum(b: int, s: int, y1: int, y2: int)
    ensures Mul(Mul(b, s + y1 + y2), s - (y2 - y1))
            == Mul(b, Mul(s, s)) + 2 * Mul(b, Mul(s, y1)) - (Mul(b, Mul(y2, y2)) - Mul(b, Mul(y1, y1)))
  {
    assert (s + y1 + y2) * (s - (y2 - y1)) == s * s + 2 * (s * y1) - y2 * y2 + y1 * y1;
    assert b * (s + y1 + y2) * (s - (y2 - y1)) == b * ((s + y1 + y2) * (s - (y2 - y1)));
  }

  lemma ExcessTimes(q: int, u: int, v: int, d: int)
    ensures Mul(q - u - 2 * v, d) == Mul(q, d) - Mul(u, d) - 2 * Mul(v, d)
  {
  }

  // The group.

  ghost function Points(c: Curve): Group<Point>
    requires IsCurve(c)
  {
    Group(Infinity, (P, Q) => if IsPoint(c, P) && IsPoint(c, Q) then Sum(c, P, Q) else Infinity, P => IsPoint(c, P))
  }

  lemma PointsClosed(c: Curve)
    requires IsCurve(c)
    ensures Closed(Points(c))
  {
    hide OnCurve, Third, W.Quotient;
    var g := Points(c);
    forall P, Q | g.carrier(P) && g.carrier(Q) ensures g.carrier(g.add(P, Q)) {
      SumOnCurve(c, P, Q);
    }
  }

  lemma PointsAdd(c: Curve, P: Point, Q: Point)
    requires IsCurve(c) && IsPoint(c, P) && IsPoint(c, Q)
    ensures Points(c).add(P, Q) == Sum(c, P, Q) && Points(c).carrier(P) && Points(c).carrier(Q)
  {
    hide OnCurve, Third, W.Quotient;
  }

  lemma SumCommutes(c: Curve, P: Point, Q: Point)
    requires IsCurve(c) && IsPoint(c, P) && IsPoint(c, Q)
    ensures Sum(c, P, Q) == Sum(c, Q, P)
  {
    hide Mul, Cong, Third, W.Quotient, OnCurve, Is, Doubled, SumX;
    if P.Finite? && Q.Finite? && P.x != Q.x {
      var p := c.p;
      W.DifferenceUnit(Q.x, P.x, p);
      W.DifferenceUnit(P.x, Q.x, p);
      var l := W.Quotient(Q.y - P.y, Q.x - P.x, p);
      CongScale(Mul(Q.x - P.x, l), Q.y - P.y, -1, p);
      W.OppositePoly(P.x, Q.x, P.y, Q.y, l);
      W.QuotientUnique(P.y - Q.y, P.x - Q.x, l, p);
      var R, S := Third(c, l, P.x, P.y, Q.x), Third(c, l, Q.x, Q.y, P.x);
      SumXIs(c, l, P.x, Q.x);
      SumXIs(c, l, Q.x, P.x);
      IsUnique(R.x, S.x, SumX(c, l, P.x, Q.x), p);
      W.ZeroDiff(Mul(Q.x - P.x, l), Q.y - P.y, p);
      W.OtherEndPoly(P.x, Q.x, P.y, Q.y, R.x, l);
      W.ZeroDiff(Mul(l, Q.x - R.x) - Q.y, Mul(l, P.x - R.x) - P.y, p);
      IsCong(S.y, Mul(l, Q.x - R.x) - Q.y, Mul(l, P.x - R.x) - P.y, p);
      IsUnique(R.y, S.y, Mul(l, P.x - R.x) - P.y, p);
    }
  }

  lemma NegatedWorks(c: Curve, P: Point)
    requires IsCurve(c) && IsPoint(c, P)
    ensures IsPoint(c, Negated(c, P)) && Sum(c, P, Negated(c, P)) == Infinity
    ensures P.Finite? ==> Is(Negated(c, P).y, 0 - P.y as int, c.p)
  {
    hide Mul, Cong, Third, W.Quotient, IsField, Cubic, Unit, Is;
    FieldSize(c);
    if P.Finite? {
      var n := Negated(c, P);
      var minus: int := 0 - P.y as int;
      IsMod(minus, c.p);
      NegatedOnCurve(c, P.x, P.y, n.y);
      if P.y == n.y {
        SelfNegative(P.y, c.p);
      }
    }
  }

  lemma FieldSize(c: Curve)
    requires IsCurve(c)
    ensures c.p > 3 && IsField(c.p) && Unit(c.b, c.p) && !Cong(Mul(c.a, c.a), 4, c.p)
  {
  }

  lemma NegatedOnCurve(c: Curve, x: nat, y: nat, n: nat)
    requires OnCurve(c, x, y) && Is(n, 0 - y as int, c.p)
    ensures OnCurve(c, x, n) && n < c.p
  {
    hide Mul, Cong, Cubic;
    CongMul(n, 0 - y as int, n, 0 - y as int, c.p);
    SignSquare(y);
    CongScale(Mul(n, n), Mul(y, y), c.b, c.p);
    CongTrans(Mul(c.b, Mul(n, n)), Mul(c.b, Mul(y, y)), Cubic(c.a, x), c.p);
  }

  lemma SignSquare(y: int)
    ensures Mul(0 - y, 0 - y) == Mul(y, y)
  {
  }

  lemma SelfNegative(y: nat, p: nat)
    requires IsField(p) && y < p && Is(y, 0 - y as int, p)
    ensures y == 0
  {
    hide IsField, Cong, Unit;
    if y != 0 {
      W.TwiceUnit(y, p);
      W.ZeroDiff(y, 0 - y as int, p);
      UnitNonZero(2 * y, p);
    }
  }

  /** If u = t + p then u - t = p, in any group. */
  lemma Difference(c: Curve, t: Point, p: Point)
    requires IsCurve(c) && IsPoint(c, t) && IsPoint(c, p) && Associative(Points(c))
    ensures IsPoint(c, Sum(c, t, p)) && IsPoint(c, Negated(c, t)) && Sum(c, Sum(c, t, p), Negated(c, t)) == p
  {
    hide Third, W.Quotient, OnCurve, Doubled, Points, Associative, Negated, Closed, IsPoint;
    var n := Negated(c, t);
    NegatedWorks(c, t);
    SumOnCurve(c, t, p);
    SumOnCurve(c, p, t);
    SumOnCurve(c, t, n);
    SumCommutes(c, t, p);
    PointsAdd(c, p, t);
    PointsAdd(c, t, n);
    PointsAdd(c, Sum(c, p, t), n);
    PointsAdd(c, p, Infinity);
    AssociativeAt(Points(c), p, t, n);
  }

  // Points by their x coordinate, as X / Z.

  /** The x and z of struct ec_point; a z that is not there is 1. */
  datatype XZ = XZ(x: nat, z: nat)

  /** X = xZ for a point (x, y); Z = 0 and X not 0 for the point at infinity. */
  ghost predicate Represents(c: Curve, e: XZ, P: Point) {
    && e.x < c.p && e.z < c.p
    && match P
       case Infinity => e.z == 0 && e.x != 0
       case Finite(x, _) => e.z != 0 && Cong(e.x, Mul(x, e.z), c.p)
  }

  /** ecp_doublem: X' = (X^2 - Z^2)^2, Z' = 4XZ (X^2 + aXZ + Z^2). */
  method DoubleXZ(c: Curve, e: XZ) returns (r: XZ)
    requires IsCurve(c) && e.x < c.p && e.z < c.p
    ensures Is(r.x, DoubledX(e.x, e.z), c.p) && Is(r.z, DoubledZ(c.a, e.x, e.z), c.p)
  {
    hide Mul, Cong, Is, IsField, Unit, DoubledX, DoubledZ;
    FieldSize(c);
    var p := c.p;
    ghost var x: int, z: int := e.x, e.z;
    IsSelf(e.x, p);
    IsSelf(e.z, p);
    IsSelf(c.a, p);
    IsSelf(2, p);
    IsSelf(4 % p, p);
    var tmp := AddIs(e.x, e.z, p, x, z);
    var xpz := Square(tmp, p, x + z);
    tmp := W.Minus(e.x, e.z, p, x, z);
    var xmz := Square(tmp, p, x - z);
    var outx := Multiply(xpz, xmz, p, Mul(x + z, x + z), Mul(x - z, x - z));
    var a2 := AddIs(c.a, 2, p, c.a, 2);
    var xz4 := W.Minus(xpz, xmz, p, Mul(x + z, x + z), Mul(x - z, x - z));
    ghost var four := Mul(x + z, x + z) - Mul(x - z, x - z);
    tmp := Multiply(a2, xz4, p, c.a + 2, four);
    FourUnit(p);
    var inv4 := ModInverse(4, p);
    var quarter := ModMul(tmp, inv4.value, p);
    DivideByFour(tmp, inv4.value, quarter, c.a, x, z, p);
    tmp := AddIs(xmz, quarter, p, Mul(x - z, x - z), Mul(c.a + 2, Mul(x, z)));
    var outz := Multiply(xz4, tmp, p, four, Mul(x - z, x - z) + Mul(c.a + 2, Mul(x, z)));
    DoublePoly(c.a, x, z);
    r := XZ(outx, outz);
  }

  method AddIs(a: nat, b: nat, p: nat, ghost x: int, ghost y: int) returns (r: nat)
    requires Is(a, x, p) && Is(b, y, p)
    ensures Is(r, x + y, p)
  {
    hide Cong;
    r := Add(a, b, p, x, y);
  }

  function DoubledX(x: int, z: int): int {
    Mul(Mul(x, x) - Mul(z, z), Mul(x, x) - Mul(z, z))
  }

  function DoubledZ(a: int, x: int, z: int): int {
    Mul(4 * Mul(x, z), Mul(x, x) + Mul(a, Mul(x, z)) + Mul(z, z))
  }

  lemma FourUnit(p: nat)
    requires IsField(p)
    ensures Unit(4, p)
  {
    W.TwiceUnit(2, p);
  }

  /** (a + 2) 4xz / 4. */
  lemma DivideByFour(t: nat, inv: nat, q: nat, a: int, x: int, z: int, p: nat)
    requires Is(t, Mul(a + 2, Mul(x + z, x + z) - Mul(x - z, x - z)), p) && Cong(Mul(4, inv), 1, p) && Is(q, Mul(t, inv), p)
    ensures Is(q, Mul(a + 2, Mul(x, z)), p)
  {
    hide Cong;
    var m := Mul(a + 2, Mul(x, z));
    FourOut(a, x, z);
    CongScale(t, Mul(m, 4), inv, p);
    hide Mul;
    MulAssoc(m, 4, inv);
    CongScale(Mul(4, inv), 1, m, p);
    MulUnit(m);
    CongTrans(q, Mul(t, inv), Mul(m, Mul(4, inv)), p);
    CongTrans(q, Mul(m, Mul(4, inv)), m, p);
  }

  lemma FourOut(a: int, x: int, z: int)
    ensures Mul(a + 2, Mul(x + z, x + z) - Mul(x - z, x - z)) == Mul(Mul(a + 2, Mul(x, z)), 4)
  {
    assert (x + z) * (x + z) - (x - z) * (x - z) == 4 * (x * z);
  }

  lemma DoublePoly(a: int, x: int, z: int)
    ensures Mul(Mul(x + z, x + z), Mul(x - z, x - z)) == DoubledX(x, z)
    ensures Mul(Mul(x + z, x + z) - Mul(x - z, x - z), Mul(x - z, x - z) + Mul(a + 2, Mul(x, z))) == DoubledZ(a, x, z)
  {
    assert (x + z) * (x - z) == x * x - z * z;
    FourFactors(x + z, x + z, x - z, x - z);
    assert (x + z) * (x + z) - (x - z) * (x - z) == 4 * (x * z);
    assert (x - z) * (x - z) + (a + 2) * (x * z) == x * x + a * (x * z) + z * z;
  }

  /** Doubling represented points. */
  lemma DoubleRepresents(c: Curve, e: XZ, P: Point, r: XZ)
    requires IsCurve(c) && IsPoint(c, P) && Represents(c, e, P)
    requires Is(r.x, DoubledX(e.x, e.z), c.p) && Is(r.z, DoubledZ(c.a, e.x, e.z), c.p)
    ensures Represents(c, r, Doubled(c, P))
  {
    hide Mul, Cong, Is, IsField, Unit, DoubledX, DoubledZ, Cubic, SumX, W.Quotient;
    var p := c.p;
    FieldSize(c);
    IsBounds(r.x, DoubledX(e.x, e.z), p);
    IsBounds(r.z, DoubledZ(c.a, e.x, e.z), p);
    match P
    case Infinity =>
      DoubledInfinity(c.a, e.x);
      ZeroResidue(r.z, p);
      NonZero(e.x, p);
      UnitFourth(e.x, p);
      UnitResidue(r.x, DoubledX(e.x, 0), p);
    case Finite(x, y) =>
      NonZero(e.z, p);
      DoubledMeaning(c, e, x, r);
      var z4 := Mul(Mul(e.z, e.z), Mul(e.z, e.z));
      UnitMul(e.z, e.z, p);
      UnitMul(Mul(e.z, e.z), Mul(e.z, e.z), p);
      if y == 0 {
        DoubledTwoTorsion(c, x, z4, r);
      } else {
        DoubledFinite(c, P, z4, r);
      }
  }

  lemma IsBounds(r: nat, x: int, p: nat)
    requires Is(r, x, p)
    ensures r < p && Cong(r, x, p)
  {
  }

  lemma NonZero(x: nat, p: nat)
    requires IsField(p) && 0 < x < p
    ensures Unit(x, p)
  {
    W.NonZeroUnit(x, p);
  }

  lemma ZeroResidue(r: nat, p: nat)
    requires r < p && Cong(r, 0, p)
    ensures r == 0
  {
    CongUnique(r, 0, p);
  }

  lemma UnitResidue(r: nat, x: int, p: nat)
    requires Cong(r, x, p) && Unit(x, p) && p > 1
    ensures r != 0 && Unit(r, p)
  {
    CongSym(r, x, p);
    UnitCong(x, r, p);
    UnitNonZero(r, p);
    CongRefl(0, p);
  }

  lemma DoubledInfinity(a: int, x: int)
    ensures DoubledZ(a, x, 0) == 0 && DoubledX(x, 0) == Mul(Mul(x, x), Mul(x, x))
  {
    MulUnit(x);
    MulUnit(0);
  }

  lemma UnitFourth(x: int, p: nat)
    requires Unit(x, p)
    ensures Unit(Mul(Mul(x, x), Mul(x, x)), p)
  {
    UnitMul(x, x, p);
    UnitMul(Mul(x, x), Mul(x, x), p);
  }

  /** For X = xZ: X' = Z^4 (x^2 - 1)^2 and Z' = 4 Z^4 (x^3 + ax^2 + x). */
  lemma DoubledMeaning(c: Curve, e: XZ, x: nat, r: XZ)
    requires Cong(e.x, Mul(x, e.z), c.p)
    requires Cong(r.x, DoubledX(e.x, e.z), c.p) && Cong(r.z, DoubledZ(c.a, e.x, e.z), c.p)
    ensures var z4 := Mul(Mul(e.z, e.z), Mul(e.z, e.z));
            && Cong(r.x, Mul(z4, Mul(Mul(x, x) - 1, Mul(x, x) - 1)), c.p)
            && Cong(r.z, Mul(z4, 4 * Cubic(c.a, x)), c.p)
  {
    DoubledCong(c.a, e.x, Mul(x, e.z), e.z, c.p);
    hide Mul, Cong, DoubledX, DoubledZ, Cubic;
    DoubledScaled(c.a, x, e.z);
    CongTrans(r.x, DoubledX(e.x, e.z), DoubledX(Mul(x, e.z), e.z), c.p);
    CongTrans(r.z, DoubledZ(c.a, e.x, e.z), DoubledZ(c.a, Mul(x, e.z), e.z), c.p);
  }

  lemma DoubledCong(a: int, x: int, y: int, z: int, p: nat)
    requires Cong(x, y, p)
    ensures Cong(DoubledX(x, z), DoubledX(y, z), p) && Cong(DoubledZ(a, x, z), DoubledZ(a, y, z), p)
  {
    hide Mul, Cong;
    CongMul(x, y, x, y, p);
    CongRefl(Mul(z, z), p);
    CongSub(Mul(x, x), Mul(y, y), Mul(z, z), Mul(z, z), p);
    CongMul(Mul(x, x) - Mul(z, z), Mul(y, y) - Mul(z, z), Mul(x, x) - Mul(z, z), Mul(y, y) - Mul(z, z), p);
    CongScale(x, y, z, p);
    CongScale(Mul(x, z), Mul(y, z), a, p);
    CongAdd(Mul(x, x), Mul(y, y), Mul(a, Mul(x, z)), Mul(a, Mul(y, z)), p);
    CongAdd(Mul(x, x) + Mul(a, Mul(x, z)), Mul(y, y) + Mul(a, Mul(y, z)), Mul(z, z), Mul(z, z), p);
    CongAdd(Mul(x, z), Mul(y, z), Mul(x, z), Mul(y, z), p);
    CongAdd(2 * Mul(x, z), 2 * Mul(y, z), 2 * Mul(x, z), 2 * Mul(y, z), p);
    CongMul(4 * Mul(x, z), 4 * Mul(y, z), Mul(x, x) + Mul(a, Mul(x, z)) + Mul(z, z), Mul(y, y) + Mul(a, Mul(y, z)) + Mul(z, z), p);
  }

  lemma DoubledScaled(a: int, x: int, z: int)
    ensures var z4 := Mul(Mul(z, z), Mul(z, z));
            && DoubledX(Mul(x, z), z) == Mul(z4, Mul(Mul(x, x) - 1, Mul(x, x) - 1))
            && DoubledZ(a, Mul(x, z), z) == Mul(z4, 4 * Cubic(a, x))
  {
    hide Mul, Cubic;
    var w, q := Mul(z, z), Mul(x, x) + Mul(a, x) + 1;
    ScaledSquare(x, z);
    FourFactors(w, Mul(x, x) - 1, w, Mul(x, x) - 1);
    ScaledQuadratic(a, x, z);
    FourFactors(w, 4 * x, w, q);
    CubicFactors(a, x);
  }

  lemma ScaledSquare(x: int, z: int)
    ensures Mul(Mul(x, z), Mul(x, z)) - Mul(z, z) == Mul(Mul(z, z), Mul(x, x) - 1)
    ensures 4 * Mul(Mul(x, z), z) == Mul(Mul(z, z), 4 * x)
  {
    FourFactors(x, z, x, z);
    MulMinus(Mul(x, x), 1, Mul(z, z));
    MulUnit(Mul(z, z));
    MulComm(Mul(x, x), Mul(z, z));
    MulAssoc(x, z, z);
  }

  lemma ScaledQuadratic(a: int, x: int, z: int)
    ensures Mul(Mul(x, z), Mul(x, z)) + Mul(a, Mul(Mul(x, z), z)) + Mul(z, z)
            == Mul(Mul(z, z), Mul(x, x) + Mul(a, x) + 1)
  {
    hide Mul;
    var w := Mul(z, z);
    FourFactors(x, z, x, z);
    MulComm(Mul(x, x), w);
    MulAssoc(x, z, z);
    MulAssoc(a, x, w);
    MulComm(Mul(a, x), w);
    MulPlus(Mul(x, x) + Mul(a, x), 1, w);
    MulPlus(Mul(x, x), Mul(a, x), w);
    MulUnit(w);
  }

  lemma CubicFactors(a: int, x: int)
    ensures Mul(4 * x, Mul(x, x) + Mul(a, x) + 1) == 4 * Cubic(a, x)
  {
  }

  /** A point with y = 0 doubles to infinity: Z' = 0, and X' is not, because the cubic has no double root. */
  lemma DoubledTwoTorsion(c: Curve, x: nat, z4: int, r: XZ)
    requires IsCurve(c) && OnCurve(c, x, 0) && Unit(z4, c.p) && r.x < c.p && r.z < c.p
    requires Cong(r.x, Mul(z4, Mul(Mul(x, x) - 1, Mul(x, x) - 1)), c.p) && Cong(r.z, Mul(z4, 4 * Cubic(c.a, x)), c.p)
    ensures r.z == 0 && r.x != 0
  {
    hide Mul, Cong, IsField, Unit, Cubic;
    var p, v := c.p, Mul(x, x) - 1;
    FieldSize(c);
    MulUnit(0);
    MulUnit(c.b);
    CongSym(Mul(c.b, Mul(0, 0)), Cubic(c.a, x), p);
    W.ZeroScale(Cubic(c.a, x), 4, p);
    FourTimes(Cubic(c.a, x));
    W.ZeroScale(4 * Cubic(c.a, x), z4, p);
    CongTrans(r.z, Mul(z4, 4 * Cubic(c.a, x)), 0, p);
    ZeroResidue(r.z, p);
    NoDoubleRoot(c, x);
    FieldUnit(v, p);
    UnitMul(v, v, p);
    UnitMul(z4, Mul(v, v), p);
    UnitResidue(r.x, Mul(z4, Mul(v, v)), p);
  }

  lemma FieldUnit(v: int, p: nat)
    requires IsField(p) && !Cong(v, 0, p)
    ensures Unit(v, p)
  {
  }

  lemma FourTimes(x: int)
    ensures Mul(4, x) == 4 * x
  {
  }

  lemma NoDoubleRoot(c: Curve, x: nat)
    requires IsCurve(c) && Cong(Cubic(c.a, x), 0, c.p)
    ensures !Cong(Mul(x, x) - 1, 0, c.p)
  {
    hide Mul, Cong, IsField, Unit, Cubic;
    var p, v := c.p, Mul(x, x) - 1;
    FieldSize(c);
    if Cong(v, 0, p) {
      // a + 2x = (cubic) - (a + x) v, so a = -2x and a^2 = 4x^2 = 4.
      W.ZeroScale(v, c.a + x, p);
      W.ZeroSum(Cubic(c.a, x), Mul(c.a + x, v), p);
      CubicAtOne(c.a, x);
      W.ZeroScale(c.a + 2 * x, c.a - 2 * x, p);
      W.ZeroScale(v, 4, p);
      FourTimes(v);
      W.ZeroSum(Mul(c.a - 2 * x, c.a + 2 * x), 4 * v, p);
      SquareIsFour(c.a, x);
      W.ZeroDiff(Mul(c.a, c.a), 4, p);
    }
  }

  lemma CubicAtOne(a: int, x: int)
    ensures Cubic(a, x) - Mul(a + x, Mul(x, x) - 1) == a + 2 * x
  {
  }

  lemma SquareIsFour(a: int, x: int)
    ensures Mul(a - 2 * x, a + 2 * x) + 4 * (Mul(x, x) - 1) == Mul(a, a) - 4
  {
  }

  /** Any other point: X' / Z' is the x coordinate of the double. */
  lemma DoubledFinite(c: Curve, P: Point, z4: int, r: XZ)
    requires IsCurve(c) && IsPoint(c, P) && P.Finite? && P.y != 0 && Unit(z4, c.p) && r.x < c.p && r.z < c.p
    requires Cong(r.x, Mul(z4, Mul(Mul(P.x, P.x) - 1, Mul(P.x, P.x) - 1)), c.p)
    requires Cong(r.z, Mul(z4, 4 * Cubic(c.a, P.x)), c.p)
    ensures Represents(c, r, Doubled(c, P))
  {
    hide Mul, Cong, IsField, Unit, Cubic, SumX, W.Quotient, Is, Third;
    var p, x, y, b := c.p, P.x, P.y, c.b;
    FieldSize(c);
    TwiceUnit(c, y);
    var n := 3 * Mul(x, x) + 2 * Mul(c.a, x) + 1;
    var l := W.Quotient(n, 2 * Mul(b, y), p);
    var D := Doubled(c, P);
    IsBounds(D.x, SumX(c, l, x, x), p);
    DoubledCubic(c, x, y, l, D.x);
    // X' = z4 (x^2 - 1)^2 = x' z4 4 cubic = x' Z'
    var f := 4 * Cubic(c.a, x);
    CongScale(Mul(D.x, f), Mul(Mul(x, x) - 1, Mul(x, x) - 1), z4, p);
    CongSym(Mul(z4, Mul(D.x, f)), Mul(z4, Mul(Mul(x, x) - 1, Mul(x, x) - 1)), p);
    CongTrans(r.x, Mul(z4, Mul(Mul(x, x) - 1, Mul(x, x) - 1)), Mul(z4, Mul(D.x, f)), p);
    CongSym(r.z, Mul(z4, f), p);
    CongScale(Mul(z4, f), r.z, D.x, p);
    Outward(z4, D.x, f);
    CongTrans(r.x, Mul(D.x, Mul(z4, f)), Mul(D.x, r.z), p);
    CubicUnit(c, x, y);
    UnitMul(z4, f, p);
    CongSym(Mul(z4, f), r.z, p);
    UnitResidue(r.z, Mul(z4, f), p);
  }

  lemma Outward(x: int, y: int, z: int)
    ensures Mul(x, Mul(y, z)) == Mul(y, Mul(x, z))
  {
    hide Mul;
    MulAssoc(x, y, z);
    MulComm(x, y);
    MulAssoc(y, x, z);
  }

  lemma CubicUnit(c: Curve, x: nat, y: nat)
    requires IsCurve(c) && OnCurve(c, x, y) && 0 < y < c.p
    ensures Unit(4 * Cubic(c.a, x), c.p)
  {
    hide Mul, Cong, IsField, Unit, Cubic;
    FieldSize(c);
    NonZero(y, c.p);
    UnitMul(y, y, c.p);
    UnitMul(c.b, Mul(y, y), c.p);
    UnitCong(Mul(c.b, Mul(y, y)), Cubic(c.a, x), c.p);
    FourUnit(c.p);
    UnitMul(4, Cubic(c.a, x), c.p);
    FourTimes(Cubic(c.a, x));
  }

  /** x' 4 cubic = (2byl)^2 - 4 (a + 2x) cubic = (x^2 - 1)^2. */
  lemma DoubledCubic(c: Curve, x: nat, y: nat, l: int, x3: int)
    requires IsCurve(c) && OnCurve(c, x, y) && Cong(x3, SumX(c, l, x, x), c.p)
    requires Cong(Mul(2 * Mul(c.b, y), l), 3 * Mul(x, x) + 2 * Mul(c.a, x) + 1, c.p)
    ensures Cong(Mul(x3, 4 * Cubic(c.a, x)), Mul(Mul(x, x) - 1, Mul(x, x) - 1), c.p)
  {
    hide Mul, Cong, IsField, Unit, Cubic, SumX;
    var p, b := c.p, c.b;
    var n, f, s := 3 * Mul(x, x) + 2 * Mul(c.a, x) + 1, Cubic(c.a, x), Mul(2 * Mul(b, y), l);
    var byy := Mul(b, Mul(y, y));
    // x3 4f = (b l^2) 4f - (a + 2x) 4f, and (b l^2) 4byy = s^2
    SumXIs(c, l, x, x);
    CongScale(x3, SumX(c, l, x, x), 4 * f, p);
    MulMinus(Mul(b, Mul(l, l)), c.a + 2 * x, 4 * f);
    CongSym(byy, f, p);
    CongScale(f, byy, 4, p);
    FourTimes(f);
    FourTimes(byy);
    CongScale(4 * f, 4 * byy, Mul(b, Mul(l, l)), p);
    SlopeSquared(b, l, y);
    CongMul(s, n, s, n, p);
    CongTrans(Mul(Mul(b, Mul(l, l)), 4 * f), Mul(s, s), Mul(n, n), p);
    CongRefl(Mul(c.a + 2 * x, 4 * f), p);
    CongSub(Mul(Mul(b, Mul(l, l)), 4 * f), Mul(n, n), Mul(c.a + 2 * x, 4 * f), Mul(c.a + 2 * x, 4 * f), p);
    CongTrans(Mul(x3, 4 * f), Mul(SumX(c, l, x, x), 4 * f), Mul(n, n) - Mul(c.a + 2 * x, 4 * f), p);
    TangentSquare(c.a, x);
  }

  lemma SlopeSquared(b: int, l: int, y: int)
    ensures Mul(Mul(b, Mul(l, l)), 4 * Mul(b, Mul(y, y))) == Mul(Mul(2 * Mul(b, y), l), Mul(2 * Mul(b, y), l))
  {
    var t := b * y * l;
    assert 2 * (b * y) * l == 2 * t;
    FourFactors(b * y, l, b * y, l);
    FourFactors(b, y, b, y);
    FourFactors(b, l * l, b, y * y);
    FourTerms(b, l, y, t);
  }

  lemma FourTerms(b: int, l: int, y: int, t: int)
    requires t == b * y * l
    ensures (b * (l * l)) * (4 * (b * (y * y))) == 4 * (t * t)
  {
    assert (b * (l * l)) * (b * (y * y)) == t * t;
    assert (b * (l * l)) * (4 * (b * (y * y))) == 4 * ((b * (l * l)) * (b * (y * y)));
  }

  lemma TangentSquare(a: int, x: int)
    ensures Mul(3 * Mul(x, x) + 2 * Mul(a, x) + 1, 3 * Mul(x, x) + 2 * Mul(a, x) + 1) - Mul(a + 2 * x, 4 * Cubic(a, x))
            == Mul(Mul(x, x) - 1, Mul(x, x) - 1)
  {
  }

  // Differential addition.

  /** ecp_addm: X' = 4 (XX - ZZ)^2, Z' = x 4 (X Z - X Z)^2 for the x coordinate of the difference. */
  method AddXZ(c: Curve, e: XZ, f: XZ, base: nat) returns (r: XZ)
    requires IsCurve(c) && e.x < c.p && e.z < c.p && f.x < c.p && f.z < c.p && base < c.p
    ensures Is(r.x, AddedX(e.x, e.z, f.x, f.z), c.p) && Is(r.z, AddedZ(base, e.x, e.z, f.x, f.z), c.p)
  {
    hide Mul, Cong, Is, IsField, Unit, AddedX, AddedZ;
    FieldSize(c);
    var p := c.p;
    ghost var x1: int, z1: int, x2: int, z2: int := e.x, e.z, f.x, f.z;
    IsSelf(e.x, p);
    IsSelf(e.z, p);
    IsSelf(f.x, p);
    IsSelf(f.z, p);
    IsSelf(base, p);
    var tmp := AddIs(e.x, e.z, p, x1, z1);
    var tmp2 := W.Minus(f.x, f.z, p, x2, z2);
    var tmp3 := Multiply(tmp, tmp2, p, x1 + z1, x2 - z2);
    tmp := W.Minus(e.x, e.z, p, x1, z1);
    tmp2 := AddIs(f.x, f.z, p, x2, z2);
    var tmp4 := Multiply(tmp, tmp2, p, x1 - z1, x2 + z2);
    ghost var t3, t4 := Mul(x1 + z1, x2 - z2), Mul(x1 - z1, x2 + z2);
    tmp := AddIs(tmp3, tmp4, p, t3, t4);
    var outx := Square(tmp, p, t3 + t4);
    tmp := W.Minus(tmp3, tmp4, p, t3, t4);
    tmp2 := Square(tmp, p, t3 - t4);
    var outz := Multiply(base, tmp2, p, base, Mul(t3 - t4, t3 - t4));
    AddPoly(x1, z1, x2, z2);
    AddedAre(base, x1, z1, x2, z2);
    r := XZ(outx, outz);
  }

  function AddedX(x1: int, z1: int, x2: int, z2: int): int {
    4 * Mul(Mul(x1, x2) - Mul(z1, z2), Mul(x1, x2) - Mul(z1, z2))
  }

  function AddedZ(base: int, x1: int, z1: int, x2: int, z2: int): int {
    Mul(base, 4 * Mul(Mul(x1, z2) - Mul(x2, z1), Mul(x1, z2) - Mul(x2, z1)))
  }

  lemma AddedAre(base: int, x1: int, z1: int, x2: int, z2: int)
    ensures AddedX(x1, z1, x2, z2) == 4 * Mul(Mul(x1, x2) - Mul(z1, z2), Mul(x1, x2) - Mul(z1, z2))
    ensures AddedZ(base, x1, z1, x2, z2) == Mul(base, 4 * Mul(Mul(x1, z2) - Mul(x2, z1), Mul(x1, z2) - Mul(x2, z1)))
  {
  }

  lemma AddPoly(x1: int, z1: int, x2: int, z2: int)
    ensures var t3, t4 := Mul(x1 + z1, x2 - z2), Mul(x1 - z1, x2 + z2);
            && Mul(t3 + t4, t3 + t4) == 4 * Mul(Mul(x1, x2) - Mul(z1, z2), Mul(x1, x2) - Mul(z1, z2))
            && Mul(t3 - t4, t3 - t4) == 4 * Mul(Mul(x1, z2) - Mul(x2, z1), Mul(x1, z2) - Mul(x2, z1))
  {
    var t3, t4 := Mul(x1 + z1, x2 - z2), Mul(x1 - z1, x2 + z2);
    assert t3 + t4 == 2 * (x1 * x2 - z1 * z2);
    assert t3 - t4 == -2 * (x1 * z2 - x2 * z1);
    TwiceSquare(x1 * x2 - z1 * z2);
    TwiceSquare(x1 * z2 - x2 * z1);
  }

  lemma TwiceSquare(v: int)
    ensures Mul(2 * v, 2 * v) == 4 * Mul(v, v) && Mul(-2 * v, -2 * v) == 4 * Mul(v, v)
  {
  }

  /** When the base has x = 0, the sum always comes out as infinite. */
  lemma ZeroBase(c: Curve, e: XZ, f: XZ, r: XZ)
    requires IsCurve(c) && Is(r.z, AddedZ(0, e.x, e.z, f.x, f.z), c.p)
    ensures r.z == 0
  {
    hide Mul, Cong;
    MulUnit(4 * Mul(Mul(e.x, f.z) - Mul(f.x, e.z), Mul(e.x, f.z) - Mul(f.x, e.z)));
    CongUnique(r.z, 0, c.p);
  }

  /** Adding represented points whose difference is base: right unless its x is zero, when the sum comes out as infinite. */
  lemma AddRepresents(c: Curve, e: XZ, f: XZ, P: Point, Q: Point, base: Point, r: XZ)
    requires IsCurve(c) && IsPoint(c, P) && IsPoint(c, base) && Associative(Points(c)) && Q == Sum(c, P, base)
    requires base.Finite? && Represents(c, e, P) && Represents(c, f, Q)
    requires Is(r.x, AddedX(e.x, e.z, f.x, f.z), c.p) && Is(r.z, AddedZ(base.x, e.x, e.z, f.x, f.z), c.p)
    ensures IsPoint(c, Q) && (if base.x != 0 then Represents(c, r, Sum(c, P, Q)) else r.z == 0)
  {
    hide Mul, Cong, Is, IsField, Unit, AddedX, AddedZ, Doubled, OnCurve, Associative, Points;
    if base.x != 0 {
      SumRepresents(c, e, f, P, Q, base, r);
    } else {
      ZeroBase(c, e, f, r);
      SumOnCurve(c, P, base);
    }
  }

  lemma SumRepresents(c: Curve, e: XZ, f: XZ, P: Point, Q: Point, base: Point, r: XZ)
    requires IsCurve(c) && IsPoint(c, P) && IsPoint(c, base) && Associative(Points(c)) && Q == Sum(c, P, base)
    requires base.Finite? && base.x != 0 && Represents(c, e, P) && Represents(c, f, Q)
    requires Is(r.x, AddedX(e.x, e.z, f.x, f.z), c.p) && Is(r.z, AddedZ(base.x, e.x, e.z, f.x, f.z), c.p)
    ensures IsPoint(c, Q) && Represents(c, r, Sum(c, P, Q))
  {
    hide Mul, Cong, Is, IsField, Unit, AddedX, AddedZ, Cubic, SumX, W.Quotient, Third, Doubled, Points, Associative, OnCurve;
    var p := c.p;
    FieldSize(c);
    SumOnCurve(c, P, base);
    IsBounds(r.x, AddedX(e.x, e.z, f.x, f.z), p);
    IsBounds(r.z, AddedZ(base.x, e.x, e.z, f.x, f.z), p);
    NonZero(base.x, p);
    if P.Infinity? {
      AddToInfinity(c, e, f, base.x, r);
    } else if Q.Infinity? {
      SumInfinity(c, P, base);
      AddInfinity(c, e, f, base.x, r);
    } else {
      AddedMeaning(c, e, f, P.x, Q.x, base.x, r);
      NonZero(e.z, p);
      NonZero(f.z, p);
      UnitMul(e.z, f.z, p);
      Difference(c, P, base);
      NegatedWorks(c, P);
      if P.x == Q.x {
        AddOpposite(c, P, Q, base, Mul(e.z, f.z), r);
      } else {
        AddFinite(c, P, Q, base, Mul(e.z, f.z), r);
      }
    }
  }

  lemma SumInfinity(c: Curve, P: Point, Q: Point)
    requires IsCurve(c) && IsPoint(c, P) && IsPoint(c, Q) && P.Finite? && Q.Finite? && Sum(c, P, Q) == Infinity
    ensures P.x == Q.x
  {
    hide Third, W.Quotient, OnCurve;
  }

  /** X' = 4 X X' and Z' = base 4 (X Z')^2 when the first is infinite, and the other way round. */
  lemma AddedInfinity(base: int, x1: int, x2: int, z2: int)
    ensures AddedX(x1, 0, x2, z2) == 4 * Mul(Mul(x1, x2), Mul(x1, x2))
    ensures AddedX(x2, z2, x1, 0) == 4 * Mul(Mul(x1, x2), Mul(x1, x2))
    ensures AddedZ(base, x1, 0, x2, z2) == Mul(base, 4 * Mul(Mul(x1, z2), Mul(x1, z2)))
    ensures AddedZ(base, x2, z2, x1, 0) == Mul(base, 4 * Mul(Mul(x1, z2), Mul(x1, z2)))
  {
    MulUnit(x2);
    MulUnit(z2);
    MulComm(x1, x2);
    SignSquare(Mul(x1, z2));
  }

  /** One point infinite with numerator x1, the other base = X / Z. */
  lemma InfiniteSum(c: Curve, x1: nat, x2: nat, z2: nat, base: nat, r: XZ)
    requires IsCurve(c) && Unit(x1, c.p) && Unit(z2, c.p) && Unit(base, c.p) && Cong(x2, Mul(base, z2), c.p)
    requires r.x < c.p && r.z < c.p && Cong(r.x, 4 * Mul(Mul(x1, x2), Mul(x1, x2)), c.p)
    requires Cong(r.z, Mul(base, 4 * Mul(Mul(x1, z2), Mul(x1, z2))), c.p)
    ensures r.z != 0 && Cong(r.x, Mul(base, r.z), c.p)
  {
    hide Mul, Cong, IsField, Unit;
    var p := c.p;
    FieldSize(c);
    var k := Mul(x1, z2);
    CongScale(x2, Mul(base, z2), x1, p);
    CongMul(Mul(x1, x2), Mul(x1, Mul(base, z2)), Mul(x1, x2), Mul(x1, Mul(base, z2)), p);
    CongScale(Mul(Mul(x1, x2), Mul(x1, x2)), Mul(Mul(x1, Mul(base, z2)), Mul(x1, Mul(base, z2))), 4, p);
    FourTimes(Mul(Mul(x1, x2), Mul(x1, x2)));
    FourTimes(Mul(Mul(x1, Mul(base, z2)), Mul(x1, Mul(base, z2))));
    Outward(x1, base, z2);
    BaseSquare(base, k);
    CongSym(r.z, Mul(base, 4 * Mul(k, k)), p);
    CongScale(Mul(base, 4 * Mul(k, k)), r.z, base, p);
    CongTrans(r.x, 4 * Mul(Mul(x1, x2), Mul(x1, x2)), Mul(base, Mul(base, 4 * Mul(k, k))), p);
    CongTrans(r.x, Mul(base, Mul(base, 4 * Mul(k, k))), Mul(base, r.z), p);
    FourUnit(p);
    UnitMul(x1, z2, p);
    UnitMul(k, k, p);
    UnitMul(4, Mul(k, k), p);
    FourTimes(Mul(k, k));
    UnitMul(base, 4 * Mul(k, k), p);
    CongSym(Mul(base, 4 * Mul(k, k)), r.z, p);
    UnitResidue(r.z, Mul(base, 4 * Mul(k, k)), p);
  }

  lemma BaseSquare(base: int, k: int)
    ensures 4 * Mul(Mul(base, k), Mul(base, k)) == Mul(base, Mul(base, 4 * Mul(k, k)))
  {
    FourFactors(base, k, base, k);
    MulAssoc(base, base, 4 * Mul(k, k));
    FourTimes(Mul(k, k));
    Outward(Mul(base, base), 4, Mul(k, k));
    FourTimes(Mul(Mul(base, base), Mul(k, k)));
  }

  lemma AddToInfinity(c: Curve, e: XZ, f: XZ, base: nat, r: XZ)
    requires IsCurve(c) && e.z == 0 && 0 < e.x < c.p && 0 < f.z < c.p && Cong(f.x, Mul(base, f.z), c.p) && Unit(base, c.p)
    requires r.x < c.p && r.z < c.p
    requires Cong(r.x, AddedX(e.x, e.z, f.x, f.z), c.p) && Cong(r.z, AddedZ(base, e.x, e.z, f.x, f.z), c.p)
    ensures r.z != 0 && Cong(r.x, Mul(base, r.z), c.p)
  {
    hide Mul, Cong, IsField, Unit, AddedX, AddedZ;
    FieldSize(c);
    AddedInfinity(base, e.x, f.x, f.z);
    NonZero(e.x, c.p);
    NonZero(f.z, c.p);
    InfiniteSum(c, e.x, f.x, f.z, base, r);
  }

  lemma AddInfinity(c: Curve, e: XZ, f: XZ, base: nat, r: XZ)
    requires IsCurve(c) && f.z == 0 && 0 < f.x < c.p && 0 < e.z < c.p && Cong(e.x, Mul(base, e.z), c.p) && Unit(base, c.p)
    requires r.x < c.p && r.z < c.p
    requires Cong(r.x, AddedX(e.x, e.z, f.x, f.z), c.p) && Cong(r.z, AddedZ(base, e.x, e.z, f.x, f.z), c.p)
    ensures r.z != 0 && Cong(r.x, Mul(base, r.z), c.p)
  {
    hide Mul, Cong, IsField, Unit, AddedX, AddedZ;
    FieldSize(c);
    AddedInfinity(base, f.x, e.x, e.z);
    NonZero(f.x, c.p);
    NonZero(e.z, c.p);
    InfiniteSum(c, f.x, e.x, e.z, base, r);
  }

  /** For X = xZ: X' = k^2 4 (x1 x2 - 1)^2 and Z' = k^2 base 4 (x1 - x2)^2, where k is the product of the Zs. */
  lemma AddedMeaning(c: Curve, e: XZ, f: XZ, x1: nat, x2: nat, base: nat, r: XZ)
    requires Cong(e.x, Mul(x1, e.z), c.p) && Cong(f.x, Mul(x2, f.z), c.p)
    requires Cong(r.x, AddedX(e.x, e.z, f.x, f.z), c.p) && Cong(r.z, AddedZ(base, e.x, e.z, f.x, f.z), c.p)
    ensures var kk := Mul(Mul(e.z, f.z), Mul(e.z, f.z));
            && Cong(r.x, Mul(kk, 4 * Mul(Mul(x1, x2) - 1, Mul(x1, x2) - 1)), c.p)
            && Cong(r.z, Mul(kk, Mul(base, 4 * Mul(x1 - x2, x1 - x2))), c.p)
  {
    hide Mul, Cong, AddedX, AddedZ;
    AddedCong(e, f, Mul(x1, e.z), Mul(x2, f.z), base, c.p);
    AddedScaled(base, x1, e.z, x2, f.z);
    CongTrans(r.x, AddedX(e.x, e.z, f.x, f.z), AddedX(Mul(x1, e.z), e.z, Mul(x2, f.z), f.z), c.p);
    CongTrans(r.z, AddedZ(base, e.x, e.z, f.x, f.z), AddedZ(base, Mul(x1, e.z), e.z, Mul(x2, f.z), f.z), c.p);
  }

  lemma AddedCong(e: XZ, f: XZ, x: int, y: int, base: int, p: nat)
    requires Cong(e.x, x, p) && Cong(f.x, y, p)
    ensures Cong(AddedX(e.x, e.z, f.x, f.z), AddedX(x, e.z, y, f.z), p)
    ensures Cong(AddedZ(base, e.x, e.z, f.x, f.z), AddedZ(base, x, e.z, y, f.z), p)
  {
    hide Mul, Cong;
    var u, v := Mul(e.x, f.x) - Mul(e.z, f.z), Mul(x, y) - Mul(e.z, f.z);
    CongMul(e.x, x, f.x, y, p);
    CongRefl(Mul(e.z, f.z), p);
    CongSub(Mul(e.x, f.x), Mul(x, y), Mul(e.z, f.z), Mul(e.z, f.z), p);
    FourSquares(u, v, p);
    var s, t := Mul(e.x, f.z) - Mul(f.x, e.z), Mul(x, f.z) - Mul(y, e.z);
    CongScale(e.x, x, f.z, p);
    CongScale(f.x, y, e.z, p);
    CongSub(Mul(e.x, f.z), Mul(x, f.z), Mul(f.x, e.z), Mul(y, e.z), p);
    FourSquares(s, t, p);
    CongScale(4 * Mul(s, s), 4 * Mul(t, t), base, p);
  }

  lemma FourSquares(u: int, v: int, p: nat)
    requires Cong(u, v, p)
    ensures Cong(4 * Mul(u, u), 4 * Mul(v, v), p)
  {
    hide Mul, Cong;
    CongMul(u, v, u, v, p);
    CongScale(Mul(u, u), Mul(v, v), 4, p);
    FourTimes(Mul(u, u));
    FourTimes(Mul(v, v));
  }

  lemma AddedScaled(base: int, x1: int, z1: int, x2: int, z2: int)
    ensures var kk := Mul(Mul(z1, z2), Mul(z1, z2));
            && AddedX(Mul(x1, z1), z1, Mul(x2, z2), z2) == Mul(kk, 4 * Mul(Mul(x1, x2) - 1, Mul(x1, x2) - 1))
            && AddedZ(base, Mul(x1, z1), z1, Mul(x2, z2), z2) == Mul(kk, Mul(base, 4 * Mul(x1 - x2, x1 - x2)))
  {
    hide Mul;
    var k := Mul(z1, z2);
    FourFactors(x1, z1, x2, z2);
    MulMinus(Mul(x1, x2), 1, k);
    MulUnit(k);
    MulComm(Mul(x1, x2), k);
    ScaleFour(k, Mul(x1, x2) - 1);
    MulAssoc(x1, z1, z2);
    MulAssoc(x2, z2, z1);
    MulComm(z2, z1);
    MulMinus(x1, x2, k);
    MulComm(x1, k);
    MulComm(x2, k);
    ScaleFour(k, x1 - x2);
    Outward(base, Mul(k, k), 4 * Mul(x1 - x2, x1 - x2));
  }

  lemma ScaleFour(k: int, v: int)
    ensures 4 * Mul(Mul(k, v), Mul(k, v)) == Mul(Mul(k, k), 4 * Mul(v, v))
  {
    hide Mul;
    FourFactors(k, v, k, v);
    FourTimes(Mul(v, v));
    Outward(Mul(k, k), 4, Mul(v, v));
    FourTimes(Mul(Mul(k, k), Mul(v, v)));
  }

  /** Points with the same x are the same or opposite. */
  lemma SameX(c: Curve, P: Point, Q: Point)
    requires IsCurve(c) && IsPoint(c, P) && IsPoint(c, Q) && P.Finite? && Q.Finite? && P.x == Q.x && P.y != Q.y
    ensures Cong(P.y + Q.y, 0, c.p)
  {
    hide Mul, Cong, Cubic, IsField, Unit;
    var p, b := c.p, c.b;
    FieldSize(c);
    CongSym(Mul(b, Mul(Q.y, Q.y)), Cubic(c.a, P.x), p);
    CongTrans(Mul(b, Mul(P.y, P.y)), Cubic(c.a, P.x), Mul(b, Mul(Q.y, Q.y)), p);
    MulComm(b, Mul(P.y, P.y));
    MulComm(b, Mul(Q.y, Q.y));
    UnitCancel(Mul(P.y, P.y), Mul(Q.y, Q.y), b, p);
    W.ZeroDiff(Mul(P.y, P.y), Mul(Q.y, Q.y), p);
    W.DifferenceUnit(P.y, Q.y, p);
    W.SquaresPoly(P.y, Q.y);
    MulUnit(P.y - Q.y);
    UnitCancel(P.y + Q.y, 0, P.y - Q.y, p);
  }

  /** Opposite points: their difference is the double of one, so its x keeps X' from vanishing. */
  lemma AddOpposite(c: Curve, P: Point, Q: Point, base: Point, k: int, r: XZ)
    requires IsCurve(c) && IsPoint(c, P) && IsPoint(c, Q) && IsPoint(c, base) && P.Finite? && Q.Finite? && base.Finite?
    requires P.x == Q.x && IsPoint(c, Negated(c, P)) && Sum(c, Q, Negated(c, P)) == base && base.x != 0
    requires r.x < c.p && r.z < c.p && Unit(k, c.p)
    requires Cong(r.x, Mul(Mul(k, k), 4 * Mul(Mul(P.x, Q.x) - 1, Mul(P.x, Q.x) - 1)), c.p)
    requires Cong(r.z, Mul(Mul(k, k), Mul(base.x, 4 * Mul(P.x - Q.x, P.x - Q.x))), c.p)
    ensures Sum(c, P, Q) == Infinity && r.z == 0 && r.x != 0
  {
    hide Mul, Cong, Cubic, IsField, Unit, Third, W.Quotient, OnCurve, Is, SumX;
    var p := c.p;
    FieldSize(c);
    NegatedWorks(c, P);
    OppositeIs(c, P, Q);
    MulUnit(0);
    MulUnit(base.x);
    MulUnit(Mul(k, k));
    ZeroResidue(r.z, p);
    NonZero(base.x, p);
    BaseDoubled(c, Q, base);
    var v := Mul(Q.x, Q.x) - 1;
    FourUnit(p);
    UnitMul(4, Mul(v, v), p);
    FourTimes(Mul(v, v));
    UnitMul(k, k, p);
    UnitMul(Mul(k, k), 4 * Mul(v, v), p);
    UnitResidue(r.x, Mul(Mul(k, k), 4 * Mul(v, v)), p);
  }

  lemma OppositeIs(c: Curve, P: Point, Q: Point)
    requires IsCurve(c) && IsPoint(c, P) && IsPoint(c, Q) && P.Finite? && Q.Finite? && P.x == Q.x
    requires IsPoint(c, Negated(c, P)) && Sum(c, Q, Negated(c, P)).Finite?
    ensures P.y != Q.y && Negated(c, P) == Q
  {
    hide Mul, Cong, Cubic, IsField, Unit, Third, W.Quotient, OnCurve, Is, Doubled;
    FieldSize(c);
    NegatedWorks(c, P);
    if P.y != Q.y {
      SameX(c, P, Q);
      NegativeUnique(P.y, Q.y, Negated(c, P).y, c.p);
    }
  }

  lemma NegativeUnique(y: nat, z: nat, n: nat, p: nat)
    requires Cong(y + z, 0, p) && Is(n, 0 - y as int, p) && z < p
    ensures z == n
  {
    hide Cong;
    W.ZeroDiff(z, 0 - y as int, p);
    CongSym(n, 0 - y as int, p);
    CongTrans(z, 0 - y as int, n, p);
    CongUnique(z, n, p);
  }

  lemma BaseDoubled(c: Curve, Q: Point, base: Point)
    requires IsCurve(c) && IsPoint(c, Q) && Q.Finite? && Doubled(c, Q) == base && base.Finite? && Unit(base.x, c.p)
    ensures Unit(Mul(Mul(Q.x, Q.x) - 1, Mul(Q.x, Q.x) - 1), c.p)
  {
    hide Mul, Cong, Cubic, IsField, Unit, Third, W.Quotient, Is, SumX;
    FieldSize(c);
    TwiceUnit(c, Q.y);
    var l := W.Quotient(3 * Mul(Q.x, Q.x) + 2 * Mul(c.a, Q.x) + 1, 2 * Mul(c.b, Q.y), c.p);
    IsBounds(base.x, SumX(c, l, Q.x, Q.x), c.p);
    DoubledCubic(c, Q.x, Q.y, l, base.x);
    CubicUnit(c, Q.x, Q.y);
    UnitMul(base.x, 4 * Cubic(c.a, Q.x), c.p);
    UnitCong(Mul(base.x, 4 * Cubic(c.a, Q.x)), Mul(Mul(Q.x, Q.x) - 1, Mul(Q.x, Q.x) - 1), c.p);
  }

  /** Any other points: X' / Z' is the x coordinate of the sum. */
  lemma AddFinite(c: Curve, P: Point, Q: Point, base: Point, k: int, r: XZ)
    requires IsCurve(c) && IsPoint(c, P) && IsPoint(c, Q) && P.Finite? && Q.Finite? && base.Finite? && base.x < c.p
    requires P.x != Q.x && IsPoint(c, Negated(c, P)) && Sum(c, Q, Negated(c, P)) == base && base.x != 0
    requires r.x < c.p && r.z < c.p && Unit(k, c.p)
    requires Cong(r.x, Mul(Mul(k, k), 4 * Mul(Mul(P.x, Q.x) - 1, Mul(P.x, Q.x) - 1)), c.p)
    requires Cong(r.z, Mul(Mul(k, k), Mul(base.x, 4 * Mul(P.x - Q.x, P.x - Q.x))), c.p)
    ensures Represents(c, r, Sum(c, P, Q))
  {
    hide Mul, Cong, Cubic, IsField, Unit, Third, W.Quotient, OnCurve, Is, SumX;
    var p, N := c.p, Negated(c, P);
    FieldSize(c);
    NegatedWorks(c, P);
    W.DifferenceUnit(Q.x, P.x, p);
    W.DifferenceUnit(P.x, Q.x, p);
    var l := W.Quotient(Q.y - P.y, Q.x - P.x, p);
    var m := W.Quotient(N.y - Q.y, P.x - Q.x, p);
    var R := Sum(c, P, Q);
    IsBounds(R.x, SumX(c, l, P.x, Q.x), p);
    IsBounds(base.x, SumX(c, m, Q.x, P.x), p);
    IsBounds(N.y, 0 - P.y as int, p);
    SumTimesDifference(c, P.x, P.y, Q.x, Q.y, N.y, l, m, R.x, base.x);
    NonZero(base.x, p);
    RatioIs(c, R.x, base.x, P.x, Q.x, Mul(k, k), r, k);
  }

  /** X' = x3 Z', once x3 base (x1 - x2)^2 = (x1 x2 - 1)^2. */
  lemma RatioIs(c: Curve, x3: nat, base: nat, x1: nat, x2: nat, kk: int, r: XZ, k: int)
    requires IsCurve(c) && Unit(base, c.p) && Unit(x1 - x2, c.p) && Unit(k, c.p) && kk == Mul(k, k)
    requires Cong(Mul(Mul(x3, base), Mul(x1 - x2, x1 - x2)), Mul(Mul(x1, x2) - 1, Mul(x1, x2) - 1), c.p)
    requires r.x < c.p && r.z < c.p && Cong(r.x, Mul(kk, 4 * Mul(Mul(x1, x2) - 1, Mul(x1, x2) - 1)), c.p)
    requires Cong(r.z, Mul(kk, Mul(base, 4 * Mul(x1 - x2, x1 - x2))), c.p)
    ensures r.z != 0 && Cong(r.x, Mul(x3, r.z), c.p)
  {
    hide Mul, Cong, IsField, Unit;
    var p := c.p;
    FieldSize(c);
    var d2, v2 := Mul(x1 - x2, x1 - x2), Mul(Mul(x1, x2) - 1, Mul(x1, x2) - 1);
    var z := Mul(kk, Mul(base, 4 * d2));
    CongScale(Mul(Mul(x3, base), d2), v2, 4, p);
    FourTimes(v2);
    CongScale(Mul(4, Mul(Mul(x3, base), d2)), 4 * v2, kk, p);
    Regrouped(x3, base, d2, kk);
    CongSym(Mul(kk, Mul(4, Mul(Mul(x3, base), d2))), Mul(kk, 4 * v2), p);
    CongTrans(r.x, Mul(kk, 4 * v2), Mul(x3, z), p);
    CongSym(r.z, z, p);
    CongScale(z, r.z, x3, p);
    CongTrans(r.x, Mul(x3, z), Mul(x3, r.z), p);
    UnitMul(x1 - x2, x1 - x2, p);
    FourUnit(p);
    UnitMul(4, d2, p);
    FourTimes(d2);
    UnitMul(base, 4 * d2, p);
    UnitMul(k, k, p);
    UnitMul(kk, Mul(base, 4 * d2), p);
    UnitResidue(r.z, z, p);
  }

  lemma Regrouped(x3: int, base: int, d2: int, kk: int)
    ensures Mul(kk, Mul(4, Mul(Mul(x3, base), d2))) == Mul(x3, Mul(kk, Mul(base, 4 * d2)))
  {
    hide Mul;
    MulAssoc(x3, base, d2);
    Outward(4, x3, Mul(base, d2));
    Outward(4, base, d2);
    FourTimes(d2);
    Outward(kk, x3, Mul(base, 4 * d2));
  }

  /** x(P + Q) x(P - Q) (x1 - x2)^2 = (x1 x2 - 1)^2. */
  lemma SumTimesDifference(c: Curve, x1: nat, y1: nat, x2: nat, y2: nat, n: nat, l: int, m: int, x3: nat, base: nat)
    requires IsCurve(c) && OnCurve(c, x1, y1) && OnCurve(c, x2, y2) && Unit(x1 - x2, c.p)
    requires Cong(Mul(x2 - x1, l), y2 - y1, c.p) && Cong(Mul(x1 - x2, m), n - y2, c.p) && Cong(n, 0 - y1 as int, c.p)
    requires Cong(x3, SumX(c, l, x1, x2), c.p) && Cong(base, SumX(c, m, x2, x1), c.p)
    ensures Cong(Mul(Mul(x3, base), Mul(x1 - x2, x1 - x2)), Mul(Mul(x1, x2) - 1, Mul(x1, x2) - 1), c.p)
  {
    hide Mul, Cong, IsField, Unit, Cubic, SumX;
    var p, a, b := c.p, c.a, c.b;
    var d2, f1, f2 := Mul(x1 - x2, x1 - x2), Cubic(a, x1), Cubic(a, x2);
    var alpha, beta := f1 + f2 - Mul(a + x1 + x2, d2), 2 * Mul(b, Mul(y1, y2));
    SignSquare(x1 - x2);
    SumXIs(c, l, x1, x2);
    SumXIs(c, m, x2, x1);
    SumScaled(c, x1, y1, x2, y2, x2 - x1, l, y2 - y1, d2, x3);
    CongRefl(y2, p);
    CongSub(n, 0 - y1 as int, y2, y2, p);
    CongTrans(Mul(x1 - x2, m), n - y2, 0 - y1 as int - y2, p);
    SumScaled(c, x1, y1, x2, y2, x1 - x2, m, 0 - y1 as int - y2, d2, base);
    SquaresOfY(b, y1, y2);
    CongMul(Mul(x3, d2), alpha - beta, Mul(base, d2), alpha + beta, p);
    FourFactors(x3, d2, base, d2);
    BetaSquared(c, x1, y1, x2, y2);
    SumDifference(alpha, beta);
    CongRefl(Mul(alpha, alpha), p);
    CongSub(Mul(alpha, alpha), Mul(alpha, alpha), Mul(beta, beta), 4 * Mul(f1, f2), p);
    CongTrans(Mul(Mul(x3, base), Mul(d2, d2)), Mul(alpha, alpha) - Mul(beta, beta), Mul(alpha, alpha) - 4 * Mul(f1, f2), p);
    AlphaSquared(a, x1, x2);
    UnitMul(x1 - x2, x1 - x2, p);
    MulAssoc(Mul(x3, base), d2, d2);
    UnitCancel(Mul(Mul(x3, base), d2), Mul(Mul(x1, x2) - 1, Mul(x1, x2) - 1), d2, p);
  }

  /** x d^2 = b (dl)^2 - (a + x1 + x2) d^2 for a slope l with dl = t. */
  lemma SumScaled(c: Curve, x1: nat, y1: nat, x2: nat, y2: nat, d: int, l: int, t: int, d2: int, x: nat)
    requires d2 == Mul(d, d) && Cong(Mul(d, l), t, c.p) && Cong(x, Mul(c.b, Mul(l, l)) - c.a - x1 - x2, c.p)
    requires OnCurve(c, x1, y1) && OnCurve(c, x2, y2) && c.p > 0
    ensures t == y2 - y1 ==>
              Cong(Mul(x, d2), Cubic(c.a, x1) + Cubic(c.a, x2) - Mul(c.a + x1 + x2, d2) - 2 * Mul(c.b, Mul(y1, y2)), c.p)
    ensures t == 0 - y1 as int - y2 ==>
              Cong(Mul(x, d2), Cubic(c.a, x1) + Cubic(c.a, x2) - Mul(c.a + x1 + x2, d2) + 2 * Mul(c.b, Mul(y1, y2)), c.p)
  {
    hide Mul, Cong, Cubic;
    var p, b := c.p, c.b;
    var w := Mul(c.a + x1 + x2, d2);
    CongScale(x, Mul(b, Mul(l, l)) - c.a - x1 - x2, d2, p);
    MulMinus(Mul(b, Mul(l, l)), c.a + x1 + x2, d2);
    MulAssoc(b, Mul(l, l), d2);
    FourFactors(l, l, d, d);
    MulComm(l, d);
    CongMul(Mul(d, l), t, Mul(d, l), t, p);
    CongScale(Mul(Mul(d, l), Mul(d, l)), Mul(t, t), b, p);
    CongRefl(w, p);
    CongSub(Mul(b, Mul(Mul(d, l), Mul(d, l))), Mul(b, Mul(t, t)), w, w, p);
    CongTrans(Mul(x, d2), Mul(Mul(b, Mul(l, l)), d2) - w, Mul(b, Mul(t, t)) - w, p);
    SquaresOfY(b, y1, y2);
    var byy := Mul(b, Mul(y1, y1)) + Mul(b, Mul(y2, y2));
    CongAdd(Mul(b, Mul(y1, y1)), Cubic(c.a, x1), Mul(b, Mul(y2, y2)), Cubic(c.a, x2), p);
    var beta := 2 * Mul(b, Mul(y1, y2));
    CongRefl(-w - beta, p);
    CongRefl(-w + beta, p);
    CongAdd(byy, Cubic(c.a, x1) + Cubic(c.a, x2), -w - beta, -w - beta, p);
    CongAdd(byy, Cubic(c.a, x1) + Cubic(c.a, x2), -w + beta, -w + beta, p);
    if t == y2 - y1 {
      CongTrans(Mul(x, d2), Mul(b, Mul(t, t)) - w, Cubic(c.a, x1) + Cubic(c.a, x2) + (-w - beta), p);
    }
    if t == 0 - y1 as int - y2 {
      CongTrans(Mul(x, d2), Mul(b, Mul(t, t)) - w, Cubic(c.a, x1) + Cubic(c.a, x2) + (-w + beta), p);
    }
  }

  lemma SquaresOfY(b: int, y1: int, y2: int)
    ensures Mul(b, Mul(y2 - y1, y2 - y1)) == Mul(b, Mul(y1, y1)) + Mul(b, Mul(y2, y2)) - 2 * Mul(b, Mul(y1, y2))
    ensures Mul(b, Mul(0 - y1 - y2, 0 - y1 - y2)) == Mul(b, Mul(y1, y1)) + Mul(b, Mul(y2, y2)) + 2 * Mul(b, Mul(y1, y2))
  {
    assert (y2 - y1) * (y2 - y1) == y1 * y1 + y2 * y2 - 2 * (y1 * y2);
    assert (0 - y1 - y2) * (0 - y1 - y2) == y1 * y1 + y2 * y2 + 2 * (y1 * y2);
  }

  lemma BetaSquared(c: Curve, x1: nat, y1: nat, x2: nat, y2: nat)
    requires OnCurve(c, x1, y1) && OnCurve(c, x2, y2)
    ensures var beta := 2 * Mul(c.b, Mul(y1, y2)); Cong(Mul(beta, beta), 4 * Mul(Cubic(c.a, x1), Cubic(c.a, x2)), c.p)
  {
    hide Mul, Cong, Cubic;
    var b, f1, f2 := c.b, Cubic(c.a, x1), Cubic(c.a, x2);
    var u, v := Mul(b, Mul(y1, y1)), Mul(b, Mul(y2, y2));
    CongMul(u, f1, v, f2, c.p);
    CongScale(Mul(u, v), Mul(f1, f2), 4, c.p);
    FourTimes(Mul(f1, f2));
    FourTimes(Mul(u, v));
    TwiceSquare(Mul(b, Mul(y1, y2)));
    FourFactors(b, Mul(y1, y2), b, Mul(y1, y2));
    FourFactors(y1, y2, y1, y2);
    FourFactors(b, Mul(y1, y1), b, Mul(y2, y2));
  }

  lemma SumDifference(u: int, v: int)
    ensures Mul(u - v, u + v) == Mul(u, u) - Mul(v, v)
  {
  }

  /** The identity behind the formula. */
  lemma AlphaSquared(a: int, x1: int, x2: int)
    ensures var d2 := Mul(x1 - x2, x1 - x2);
            var alpha := Cubic(a, x1) + Cubic(a, x2) - Mul(a + x1 + x2, d2);
            Mul(alpha, alpha) - 4 * Mul(Cubic(a, x1), Cubic(a, x2)) == Mul(Mul(Mul(x1, x2) - 1, Mul(x1, x2) - 1), d2)
  {
    hide Mul, Cubic;
    var m, s := Mul(x1, x2), x1 + x2;
    AlphaIs(a, x1, x2);
    CubicsProduct(a, x1, x2);
    SquareOfDifference(x1, x2);
    Discriminant(a, m, s);
  }

  lemma AlphaIs(a: int, x1: int, x2: int)
    ensures Cubic(a, x1) + Cubic(a, x2) - Mul(a + x1 + x2, Mul(x1 - x2, x1 - x2))
            == Mul(Mul(x1, x2), x1 + x2 + 2 * a) + x1 + x2
  {
    SumsOfPowers(x1, x2);
    SquareOfDifference(x1, x2);
    MulPlus(Mul(x1, x1), Mul(x2, x2), a);
    hide Mul;
    AlphaInSums(a, Mul(x1, x2), x1 + x2);
  }

  lemma SumsOfPowers(x1: int, x2: int)
    ensures Mul(x1, x1) + Mul(x2, x2) == Mul(x1 + x2, x1 + x2) - 2 * Mul(x1, x2)
    ensures Mul(Mul(x1, x1), x1) + Mul(Mul(x2, x2), x2) == Mul(Mul(x1 + x2, x1 + x2), x1 + x2) - 3 * Mul(Mul(x1, x2), x1 + x2)
  {
  }

  lemma AlphaInSums(a: int, m: int, s: int)
    ensures Mul(Mul(s, s), s) - 3 * Mul(m, s) + Mul(a, Mul(s, s) - 2 * m) + s - Mul(a + s, Mul(s, s) - 4 * m)
            == Mul(m, s + 2 * a) + s
  {
  }

  lemma SquareOfDifference(x1: int, x2: int)
    ensures Mul(x1 - x2, x1 - x2) == Mul(x1 + x2, x1 + x2) - 4 * Mul(x1, x2)
  {
  }

  lemma CubicsProduct(a: int, x1: int, x2: int)
    ensures var m, s := Mul(x1, x2), x1 + x2;
            Mul(Cubic(a, x1), Cubic(a, x2))
            == Mul(m, Mul(m, m) + Mul(a, Mul(m, s)) + Mul(s, s) - 2 * m + Mul(Mul(a, a), m) + Mul(a, s) + 1)
  {
    var q1, q2 := x1 * x1 + a * x1 + 1, x2 * x2 + a * x2 + 1;
    var m := x1 * x2;
    assert Cubic(a, x1) == x1 * q1 && Cubic(a, x2) == x2 * q2;
    FourFactors(x1, q1, x2, q2);
    QuadraticsProduct(a, x1, x2);
  }

  lemma QuadraticsProduct(a: int, x1: int, x2: int)
    ensures var m, s := x1 * x2, x1 + x2;
            (x1 * x1 + a * x1 + 1) * (x2 * x2 + a * x2 + 1)
            == m * m + a * (m * s) + s * s - 2 * m + (a * a) * m + a * s + 1
  {
  }

  lemma Discriminant(a: int, m: int, s: int)
    ensures var alpha := Mul(m, s + 2 * a) + s;
            Mul(alpha, alpha) - 4 * Mul(m, Mul(m, m) + Mul(a, Mul(m, s)) + Mul(s, s) - 2 * m + Mul(Mul(a, a), m) + Mul(a, s) + 1)
            == Mul(Mul(m - 1, m - 1), Mul(s, s) - 4 * m)
  {
    hide Mul;
    var u, v, q := Mul(m + 1, s), Mul(a, m), Mul(m - 1, m - 1);
    AlphaParts(a, m, s);
    SquareOfSum(u, v);
    QuarterParts(a, m, s);
    CrossTerms(a, m, s);
    MulMinus(Mul(s, s), 4 * m, q);
  }

  lemma AlphaParts(a: int, m: int, s: int)
    ensures Mul(m, s + 2 * a) + s == Mul(m + 1, s) + 2 * Mul(a, m)
  {
  }

  lemma SquareOfSum(u: int, v: int)
    ensures Mul(u + 2 * v, u + 2 * v) == Mul(u, u) + 4 * Mul(u, v) + 4 * Mul(v, v)
  {
  }

  lemma QuarterParts(a: int, m: int, s: int)
    ensures Mul(m, Mul(m, m) + Mul(a, Mul(m, s)) + Mul(s, s) - 2 * m + Mul(Mul(a, a), m) + Mul(a, s) + 1)
            == Mul(m, Mul(m - 1, m - 1)) + Mul(Mul(a, m), Mul(m, s)) + Mul(m, Mul(s, s)) + Mul(Mul(a, m), Mul(a, m))
               + Mul(Mul(a, m), s)
  {
    hide Mul;
    var square, rest := Mul(m - 1, m - 1), Mul(a, Mul(m, s)) + Mul(s, s) + Mul(Mul(a, a), m) + Mul(a, s);
    LessOne(m);
    MulPlus(square, rest, m);
    MulPlus(Mul(a, Mul(m, s)) + Mul(s, s) + Mul(Mul(a, a), m), Mul(a, s), m);
    MulPlus(Mul(a, Mul(m, s)) + Mul(s, s), Mul(Mul(a, a), m), m);
    MulPlus(Mul(a, Mul(m, s)), Mul(s, s), m);
    Outward(m, a, Mul(m, s));
    MulAssoc(a, m, Mul(m, s));
    MulComm(m, Mul(Mul(a, a), m));
    MulAssoc(Mul(a, a), m, m);
    FourFactors(a, m, a, m);
    Outward(m, a, s);
    MulAssoc(a, m, s);
  }

  lemma LessOne(m: int)
    ensures Mul(m - 1, m - 1) == Mul(m, m) - 2 * m + 1
  {
  }

  lemma CrossTerms(a: int, m: int, s: int)
    ensures Mul(Mul(m + 1, s), Mul(m + 1, s)) - 4 * Mul(m, Mul(s, s)) == Mul(Mul(m - 1, m - 1), Mul(s, s))
    ensures Mul(Mul(m + 1, s), Mul(a, m)) == Mul(Mul(a, m), Mul(m, s)) + Mul(Mul(a, m), s)
    ensures Mul(Mul(m - 1, m - 1), 4 * m) == 4 * Mul(m, Mul(m - 1, m - 1))
  {
    hide Mul;
    FourFactors(m + 1, s, m + 1, s);
    LessOne(m);
    LessOne(m + 2);
    MulPlus(m, 2, m + 2);
    MulPlus(m, 2, m);
    MulUnit(m);
    MulUnit(m + 2);
    MulPlus(Mul(m - 1, m - 1), 4 * m, Mul(s, s));
    FourthOut(m, Mul(s, s));
    MulPlus(m, 1, s);
    MulUnit(s);
    MulPlus(Mul(m, s), s, Mul(a, m));
    MulComm(Mul(m, s), Mul(a, m));
    MulComm(s, Mul(a, m));
    FourthOut(m, Mul(m - 1, m - 1));
    MulComm(Mul(m - 1, m - 1), 4 * m);
  }

  lemma FourthOut(m: int, q: int)
    ensures Mul(4 * m, q) == 4 * Mul(m, q)
  {
  }

  // The ladder.

  /** How the code ends: an assertion stops it, or it returns a number or NULL. */
  datatype Ending = Stopped | Returned(x: Option<nat>)

  /** modinv of zero: its assertion stops the program where assertions are compiled in, else it returns NULL. */
  function AtZero(asserts: bool): Ending {
    if asserts then Stopped else Returned(None)
  }

  /** How the code ends for the x coordinate of P. */
  function EndsWith(P: Point, asserts: bool): Ending {
    match P
    case Infinity => AtZero(asserts)
    case Finite(x, _) => Returned(Some(x))
  }

  /** ecp_normalise: X / Z. */
  method Normalise(c: Curve, e: XZ, asserts: bool) returns (r: Ending)
    requires IsCurve(c) && e.x < c.p && e.z < c.p
    ensures e.z == 0 ==> r == AtZero(asserts)
    ensures e.z != 0 ==> r.Returned? && r.x.Some? && r.x.value < c.p && Cong(Mul(r.x.value, e.z), e.x, c.p)
  {
    hide Mul, Cong, IsField, Unit, Is;
    if e.z == 0 {
      return AtZero(asserts);
    }
    FieldSize(c);
    NonZero(e.z, c.p);
    var inv := ModInverse(e.z, c.p);
    var x := ModMul(e.x, inv.value, c.p);
    r := Returned(Some(x));
    Divided(e.x, e.z, inv.value, x, c.p);
  }

  lemma Divided(x: nat, z: nat, inv: nat, q: nat, p: nat)
    requires Cong(Mul(z, inv), 1, p) && Is(q, Mul(x, inv), p)
    ensures q < p && Cong(Mul(q, z), x, p)
  {
    hide Mul, Cong;
    IsBounds(q, Mul(x, inv), p);
    CongScale(q, Mul(x, inv), z, p);
    MulComm(z, q);
    MulComm(z, Mul(x, inv));
    MulAssoc(x, inv, z);
    MulComm(inv, z);
    CongScale(Mul(z, inv), 1, x, p);
    MulUnit(x);
    CongTrans(Mul(q, z), Mul(x, Mul(z, inv)), x, p);
  }

  /** Where X and Z represent a point, that is its x coordinate. */
  lemma NormalisedIs(c: Curve, e: XZ, P: Point, r: Ending, asserts: bool)
    requires IsCurve(c) && IsPoint(c, P) && Represents(c, e, P)
    requires e.z == 0 ==> r == AtZero(asserts)
    requires e.z != 0 ==> r.Returned? && r.x.Some? && r.x.value < c.p && Cong(Mul(r.x.value, e.z), e.x, c.p)
    ensures r == EndsWith(P, asserts)
  {
    hide Mul, Cong, IsField, Unit, OnCurve;
    FieldSize(c);
    if P.Finite? {
      NonZero(e.z, c.p);
      CongTrans(Mul(r.x.value, e.z), e.x, Mul(P.x, e.z), c.p);
      UnitCancel(r.x.value, P.x, e.z, c.p);
      CongUnique(r.x.value, P.x, c.p);
    }
  }

  lemma InCurve(c: Curve, n: nat, P: Point)
    requires IsCurve(c) && IsPoint(c, P)
    ensures IsPoint(c, Times(Points(c), n, P))
  {
    hide OnCurve, Sum, Closed, Times;
    PointsClosed(c);
    InCarrier(c, P);
    TimesIn(Points(c), n, P);
    FromCarrier(c, Times(Points(c), n, P));
  }

  lemma InCarrier(c: Curve, P: Point)
    requires IsCurve(c) && IsPoint(c, P)
    ensures Points(c).carrier(P)
  {
    hide OnCurve, Sum;
  }

  lemma FromCarrier(c: Curve, P: Point)
    requires IsCurve(c) && Points(c).carrier(P)
    ensures IsPoint(c, P)
  {
    hide OnCurve, Sum;
  }

  /** Multiples k and k + 1 of P add up and double. */
  lemma Multiples(c: Curve, k: nat, P: Point)
    requires IsCurve(c) && IsPoint(c, P) && Associative(Points(c))
    ensures var g := Points(c);
            && IsPoint(c, Times(g, k, P)) && IsPoint(c, Times(g, k + 1, P))
            && Times(g, k + 1, P) == Sum(c, Times(g, k, P), P)
            && Times(g, 2 * k, P) == Sum(c, Times(g, k, P), Times(g, k, P))
            && Times(g, 2 * k + 1, P) == Sum(c, Times(g, k, P), Times(g, k + 1, P))
  {
    hide OnCurve, Sum, Closed, Times, Associative, Points, IsPoint, IsCurve;
    var g := Points(c);
    PointsClosed(c);
    InCarrier(c, P);
    InCurve(c, k, P);
    InCurve(c, k + 1, P);
    TimesStep(g, k, P);
    TimesAdd(g, k, k, P);
    TimesAdd(g, k, k + 1, P);
    assert k + k == 2 * k && k + (k + 1) == 2 * k + 1;
    PointsAdd(c, Times(g, k, P), P);
    PointsAdd(c, Times(g, k, P), Times(g, k, P));
    PointsAdd(c, Times(g, k, P), Times(g, k + 1, P));
  }

  lemma SumSelf(c: Curve, P: Point)
    requires IsCurve(c) && IsPoint(c, P)
    ensures Sum(c, P, P) == Doubled(c, P)
  {
    hide OnCurve, Third, W.Quotient;
  }

  /** P1 and P2 hold the k-th and the next multiple of P. */
  ghost predicate Rungs(c: Curve, p1: XZ, p2: XZ, k: nat, P: Point)
    requires IsCurve(c)
  {
    Represents(c, p1, Times(Points(c), k, P)) && Represents(c, p2, Times(Points(c), k + 1, P))
  }

  /** One bit of the ladder, on the residues alone. */
  method Step(c: Curve, p1: XZ, p2: XZ, base: nat, bit: bool) returns (q1: XZ, q2: XZ)
    requires IsCurve(c) && p1.x < c.p && p1.z < c.p && p2.x < c.p && p2.z < c.p && base < c.p
    ensures Stepped(c, p1, p2, base, bit, q1, q2)
  {
    hide Doubled, DoubledX, DoubledZ, AddedX, AddedZ, Is, Cong, Mul, IsField;
    var sum := AddXZ(c, p1, p2, base);
    if !bit {
      q2 := sum;
      q1 := DoubleXZ(c, p1);
    } else {
      q1 := sum;
      q2 := DoubleXZ(c, p2);
    }
  }

  /** What a step leaves: the sum, and the double of one of the two. */
  ghost predicate Stepped(c: Curve, p1: XZ, p2: XZ, base: nat, bit: bool, q1: XZ, q2: XZ) {
    var sum, e, d := if bit then q1 else q2, if bit then p2 else p1, if bit then q2 else q1;
    && Is(sum.x, AddedX(p1.x, p1.z, p2.x, p2.z), c.p) && Is(sum.z, AddedZ(base, p1.x, p1.z, p2.x, p2.z), c.p)
    && Is(d.x, DoubledX(e.x, e.z), c.p) && Is(d.z, DoubledZ(c.a, e.x, e.z), c.p)
  }

  lemma SteppedBounds(c: Curve, p1: XZ, p2: XZ, base: nat, bit: bool, q1: XZ, q2: XZ)
    requires Stepped(c, p1, p2, base, bit, q1, q2)
    ensures q1.x < c.p && q1.z < c.p && q2.x < c.p && q2.z < c.p
  {
    hide DoubledX, DoubledZ, AddedX, AddedZ, Cong;
  }

  /** For a base point with x not zero, a step doubles and adds multiples of the base point. */
  lemma StepRungs(c: Curve, p1: XZ, p2: XZ, bit: bool, q1: XZ, q2: XZ, k: nat, P: Point)
    requires IsCurve(c) && IsPoint(c, P) && P.Finite? && P.x != 0 && Associative(Points(c)) && Rungs(c, p1, p2, k, P)
    requires Stepped(c, p1, p2, P.x, bit, q1, q2)
    ensures Rungs(c, q1, q2, if bit then 2 * k + 1 else 2 * k, P)
  {
    hide OnCurve, Sum, Times, Associative, Points, IsField, Unit, Doubled, DoubledX, DoubledZ, AddedX, AddedZ, Is, Cong, Mul;
    var g := Points(c);
    Multiples(c, k, P);
    Multiples(c, k + 1, P);
    SumSelf(c, Times(g, k, P));
    SumSelf(c, Times(g, k + 1, P));
    SumRepresents(c, p1, p2, Times(g, k, P), Times(g, k + 1, P), P, if bit then q1 else q2);
    if !bit {
      DoubleRepresents(c, p1, Times(g, k, P), q1);
    } else {
      DoubleRepresents(c, p2, Times(g, k + 1, P), q2);
      assert 2 * (k + 1) == 2 * k + 1 + 1;
    }
  }

  // A base point with x = 0.

  /** Its ladder starts at (0 : 1) and (Z : 0), and then both stay without a Z. */
  ghost predicate ZeroRungs(p1: XZ, p2: XZ, k: nat) {
    p2.z == 0 && (if k == 1 then p1 == XZ(0, 1) else p1.z == 0)
  }

  /** The double of a pair without an X or without a Z is without a Z. */
  lemma ZeroDoubled(c: Curve, e: XZ, r: XZ)
    requires IsCurve(c) && (e.x == 0 || e.z == 0) && Is(r.z, DoubledZ(c.a, e.x, e.z), c.p)
    ensures r.z == 0
  {
    DoubledVanishes(c.a, e.x, e.z);
    hide Mul, Cong, DoubledZ;
    CongUnique(r.z, 0, c.p);
  }

  lemma DoubledVanishes(a: int, x: int, z: int)
    requires x == 0 || z == 0
    ensures DoubledZ(a, x, z) == 0
  {
    hide Mul;
    MulUnit(x);
    MulUnit(z);
    assert Mul(x, z) == 0;
    MulUnit(Mul(x, x) + Mul(a, Mul(x, z)) + Mul(z, z));
  }

  lemma StepZero(c: Curve, p1: XZ, p2: XZ, bit: bool, q1: XZ, q2: XZ, k: nat)
    requires IsCurve(c) && ZeroRungs(p1, p2, k) && Stepped(c, p1, p2, 0, bit, q1, q2) && k >= 1
    ensures ZeroRungs(q1, q2, if bit then 2 * k + 1 else 2 * k)
  {
    hide Mul, Cong, DoubledX, DoubledZ, AddedX, AddedZ, IsField, Is;
    ZeroBase(c, p1, p2, if bit then q1 else q2);
    if bit {
      ZeroDoubled(c, p2, q2);
    } else {
      ZeroDoubled(c, p1, q1);
    }
  }

  /** The point with x = 0 is (0, 0), of order two. */
  lemma ZeroPoint(c: Curve, P: Point)
    requires IsCurve(c) && IsPoint(c, P) && P.Finite? && P.x == 0
    ensures P.y == 0 && Doubled(c, P) == Infinity
  {
    ZeroCubic(c, P.y);
    hide Mul, Cong, OnCurve, IsField, Unit, Cubic;
    FieldSize(c);
    if P.y != 0 {
      NonZero(P.y, c.p);
      UnitMul(P.y, P.y, c.p);
      UnitMul(c.b, Mul(P.y, P.y), c.p);
      UnitNonZero(Mul(c.b, Mul(P.y, P.y)), c.p);
    }
  }

  lemma ZeroCubic(c: Curve, y: int)
    requires OnCurve(c, 0, y)
    ensures Cong(Mul(c.b, Mul(y, y)), 0, c.p)
  {
  }

  /** Its odd multiples are the point itself, its even ones infinity. */
  lemma {:induction false} ZeroMultiples(c: Curve, n: nat, P: Point)
    requires IsCurve(c) && IsPoint(c, P) && P.Finite? && P.x == 0 && Associative(Points(c))
    ensures Times(Points(c), n, P) == if n % 2 == 0 then Infinity else P
  {
    hide Doubled, OnCurve, Associative, Points, IsField, IsCurve, Times, Closed;
    ZeroTimes(c, P);
    if n > 0 {
      ZeroMultiples(c, n - 1, P);
      ZeroPoint(c, P);
      Multiples(c, n - 1, P);
    }
  }

  lemma ZeroTimes(c: Curve, P: Point)
    requires IsCurve(c)
    ensures Times(Points(c), 0, P) == Infinity
  {
  }

  /** The multiple that ecp_mulm goes for: it treats the scalar zero as one. */
  function Scalar(n: nat): nat {
    if n == 0 then 1 else n
  }

  /**
   * ecp_mulm, for any point (x, y): the x coordinate of the n-fold sum, unless x is zero, when from n = 2 on nothing
   * comes out.
   */
  method MulM(c: Curve, x: nat, n: nat, asserts: bool, ghost P: Point) returns (r: Ending)
    requires IsCurve(c) && IsPoint(c, P) && P.Finite? && P.x == x && Associative(Points(c))
    ensures x != 0 ==> r == EndsWith(Times(Points(c), Scalar(n), P), asserts)
    ensures x == 0 ==> r == if n >= 2 then AtZero(asserts) else Returned(Some(0))
    ensures r == EndsWith(Times(Points(c), Scalar(n), P), asserts) <==> x != 0 || n <= 1 || n % 2 == 0
  {
    hide OnCurve, Sum, Times, Associative, Points, IsField, Unit, Doubled, DoubledX, DoubledZ, Is, Cong, Mul, Rungs,
         Bit, Words.Pow2, BitCount, Stepped, ZeroRungs, EndsWith, AtZero;
    Coordinate(c, P);
    var p1 := XZ(x, 1);
    var p2 := DoubleXZ(c, p1);
    LadderStart(c, p1, p2, P);
    var bits := BitCount(n);
    ghost var done := 1;
    BitCountBound(n);
    BitCountZero(n);
    TopBit(n, bits);
    var i: int := bits as int - 2;
    while i >= 0
      invariant -1 <= i || n == 0
      invariant i + 2 <= bits + (if n == 0 then 2 else 0) && (bits == 0 ==> i < 0)
      invariant done == if n == 0 then 1 else n / Words.Pow2(i + 1)
      invariant done >= 1 && p1.x < c.p && p1.z < c.p && p2.x < c.p && p2.z < c.p
      invariant if x != 0 then Rungs(c, p1, p2, done, P) else ZeroRungs(p1, p2, done)
    {
      BitSplit(n, i);
      var q1, q2 := Step(c, p1, p2, x, Bit(n, i));
      SteppedBounds(c, p1, p2, x, Bit(n, i), q1, q2);
      if x != 0 {
        StepRungs(c, p1, p2, Bit(n, i), q1, q2, done, P);
      } else {
        StepZero(c, p1, p2, Bit(n, i), q1, q2, done);
      }
      p1, p2 := q1, q2;
      done := if Bit(n, i) then 2 * done + 1 else 2 * done;
      i := i - 1;
    }
    WholeNumber(n, bits);
    r := Normalise(c, p1, asserts);
    if x != 0 {
      InCurve(c, done, P);
      FirstRung(c, p1, p2, done, P);
      NormalisedIs(c, p1, Times(Points(c), done, P), r, asserts);
    } else {
      ZeroEnd(c, p1, p2, done, r, asserts);
    }
    RightIff(c, n, asserts, P, r);
  }

  lemma Coordinate(c: Curve, P: Point)
    requires IsCurve(c) && IsPoint(c, P) && P.Finite?
    ensures P.x < c.p && 1 < c.p
  {
    hide OnCurve, Cong;
  }

  lemma ZeroEnd(c: Curve, p1: XZ, p2: XZ, k: nat, r: Ending, asserts: bool)
    requires IsCurve(c) && ZeroRungs(p1, p2, k)
    requires p1.z == 0 ==> r == AtZero(asserts)
    requires p1.z != 0 ==> r.Returned? && r.x.Some? && r.x.value < c.p && Cong(Mul(r.x.value, p1.z), p1.x, c.p)
    ensures r == if k == 1 then Returned(Some(0)) else AtZero(asserts)
  {
    hide Cong, AtZero, Mul;
    FieldSize(c);
    if k == 1 {
      MulUnit(r.x.value);
      CongUnique(r.x.value, 0, c.p);
    }
  }

  /** The ladder answers with the n-fold sum exactly when x is not zero, or n is at most one, or n is even. */
  lemma RightIff(c: Curve, n: nat, asserts: bool, P: Point, r: Ending)
    requires IsCurve(c) && IsPoint(c, P) && P.Finite? && Associative(Points(c))
    requires P.x != 0 ==> r == EndsWith(Times(Points(c), Scalar(n), P), asserts)
    requires P.x == 0 ==> r == if n >= 2 then AtZero(asserts) else Returned(Some(0))
    ensures r == EndsWith(Times(Points(c), Scalar(n), P), asserts) <==> P.x != 0 || n <= 1 || n % 2 == 0
  {
    hide OnCurve, Associative, Points, IsField, Times, IsCurve;
    if P.x == 0 {
      ZeroMultiples(c, Scalar(n), P);
    }
  }

  /** On every curve (0, 0) is a point, and three times it is itself; the ladder comes to nothing. */
  method ThriceZero(c: Curve, asserts: bool) returns (r: Ending)
    requires IsCurve(c) && Associative(Points(c))
    ensures IsPoint(c, Finite(0, 0)) && Times(Points(c), 3, Finite(0, 0)) == Finite(0, 0)
    ensures r == AtZero(asserts) != EndsWith(Times(Points(c), 3, Finite(0, 0)), asserts)
  {
    hide Associative, Points, IsField, Times;
    Origin(c);
    r := MulM(c, 0, 3, asserts, Finite(0, 0));
    ZeroMultiples(c, 3, Finite(0, 0));
  }

  lemma Origin(c: Curve)
    requires IsCurve(c)
    ensures IsPoint(c, Finite(0, 0))
  {
    CongRefl(0, c.p);
    hide Cong;
    assert Mul(c.b, Mul(0, 0)) == 0 == Cubic(c.a, 0);
  }

  lemma FirstRung(c: Curve, p1: XZ, p2: XZ, k: nat, P: Point)
    requires IsCurve(c) && Rungs(c, p1, p2, k, P)
    ensures Represents(c, p1, Times(Points(c), k, P))
  {
    hide Points, Times, Represents;
  }

  lemma LadderStart(c: Curve, p1: XZ, p2: XZ, P: Point)
    requires IsCurve(c) && IsPoint(c, P) && P.Finite? && p1 == XZ(P.x, 1) && Associative(Points(c))
    requires Is(p2.x, DoubledX(p1.x, p1.z), c.p) && Is(p2.z, DoubledZ(c.a, p1.x, p1.z), c.p)
    ensures if P.x != 0 then Rungs(c, p1, p2, 1, P) else ZeroRungs(p1, p2, 1)
    ensures p2.x < c.p && p2.z < c.p
  {
    hide OnCurve, Sum, Times, Associative, Points, IsField, Unit, Doubled, DoubledX, DoubledZ, Is, Cong, Mul, Closed;
    FieldSize(c);
    IsBounds(p2.x, DoubledX(p1.x, p1.z), c.p);
    IsBounds(p2.z, DoubledZ(c.a, p1.x, p1.z), c.p);
    if P.x == 0 {
      ZeroDoubled(c, p1, p2);
      return;
    }
    MulUnit(P.x);
    CongRefl(P.x, c.p);
    DoubleRepresents(c, p1, P, p2);
    SumSelf(c, P);
    PointsClosed(c);
    InCarrier(c, P);
    TimesOne(Points(c), P);
    Multiples(c, 1, P);
  }
}
