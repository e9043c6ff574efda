/** Points on -x^2 + y^2 = 1 + d x^2 y^2, and the addition and scalar multiplication of sshecc.c on them. */
module EdwardsCurve {
  import opened Arith
  import opened Binary
  import opened Machine
  import opened Modular
  import opened NumberTheory
  import opened EcField
  import opened ScalarMul
  import W = Weierstrass
  import Words

  datatype Curve = Curve(p: nat, d: nat)

  /** A point, or the mark of infinity that the multiplication starts from. */
  datatype Point = Infinity | Finite(x: nat, y: nat)

  ghost predicate OnCurve(c: Curve, x: int, y: int) {
    Cong(Mul(y, y) - Mul(x, x), 1 + Mul(c.d, Mul(Mul(x, y), Mul(x, y))), c.p)
  }

  ghost predicate IsPoint(c: Curve, P: Point) {
    P.Finite? ==> P.x < c.p && P.y < c.p && OnCurve(c, P.x, P.y)
  }

  /** d x1 x2 y1 y2. */
  function Cross(c: Curve, P: Point, Q: Point): int
    requires P.Finite? && Q.Finite?
  {
    Mul(c.d, Mul(Mul(P.x, P.y), Mul(Q.x, Q.y)))
  }

  /** p is prime, and addition has no exceptions: its denominators always have inverses. */
  ghost predicate IsCurve(c: Curve) {
    && IsField(c.p) && c.d < c.p
    && forall P, Q :: IsPoint(c, P) && IsPoint(c, Q) && P.Finite? && Q.Finite?
                      ==> Unit(1 + Cross(c, P, Q), c.p) && Unit(1 - Cross(c, P, Q), c.p)
  }

  lemma CurveAt(c: Curve, P: Point, Q: Point)
    requires IsCurve(c) && IsPoint(c, P) && IsPoint(c, Q) && P.Finite? && Q.Finite?
    ensures c.p > 3 && Unit(1 + Cross(c, P, Q), c.p) && Unit(1 - Cross(c, P, Q), c.p)
  {
  }

  ghost function Sum(c: Curve, P: Point, Q: Point): (R: Point)
    requires IsCurve(c) && IsPoint(c, P) && IsPoint(c, Q)
  {
    if P.Infinity? then Q
    else if Q.Infinity? then P
    else
      CurveAt(c, P, Q);
      Finite(W.Quotient(Mul(P.x, Q.y) + Mul(Q.x, P.y), 1 + Cross(c, P, Q), c.p),
             W.Quotient(Mul(P.y, Q.y) + Mul(P.x, Q.x), 1 - Cross(c, P, Q), c.p))
  }

  /** The twisted Edwards addition law with a = -1, cleared of its denominators. */
  lemma SumLaw(c: Curve, P: Point, Q: Point)
    requires IsCurve(c) && IsPoint(c, P) && IsPoint(c, Q) && P.Finite? && Q.Finite?
    ensures var R, t := Sum(c, P, Q), Mul(c.d, Mul(Mul(P.x, P.y), Mul(Q.x, Q.y)));
            && R.Finite? && R.x < c.p && R.y < c.p
            && Cong(Mul(1 + t, R.x), Mul(P.x, Q.y) + Mul(Q.x, P.y), c.p)
            && Cong(Mul(1 - t, R.y), Mul(P.y, Q.y) + Mul(P.x, Q.x), c.p)
  {
    hide Mul, Cong, W.Quotient, OnCurve, IsCurve;
    CurveAt(c, P, Q);
  }

  // Sums stay on the curve.

  /** The equation of the sum, cleared of its denominators, follows from the two equations of the points. */
  lemma ClearedEquation(d: int, x1: int, y1: int, x2: int, y2: int, p: nat)
    requires Cong(Mul(y1, y1) - Mul(x1, x1), 1 + Mul(d, Mul(Mul(x1, y1), Mul(x1, y1))), p)
    requires Cong(Mul(y2, y2) - Mul(x2, x2), 1 + Mul(d, Mul(Mul(x2, y2), Mul(x2, y2))), p)
    ensures var t := Mul(d, Mul(Mul(x1, y1), Mul(x2, y2)));
            var A, B := Mul(x1, y2) + Mul(x2, y1), Mul(y1, y2) + Mul(x1, x2);
            Cong(Mul(Mul(B, B), Mul(1 + t, 1 + t)) - Mul(Mul(A, A), Mul(1 - t, 1 - t)),
                 Mul(Mul(1 + t, 1 + t), Mul(1 - t, 1 - t)) + Mul(d, Mul(Mul(A, B), Mul(A, B))), p)
  {
    hide Mul, Cong;
    var m1, m2, s1, s2 := Mul(x1, y1), Mul(x2, y2), Mul(x1, x1) + Mul(y1, y1), Mul(x2, x2) + Mul(y2, y2);
    var e1, e2 := Mul(y1, y1) - Mul(x1, x1), Mul(y2, y2) - Mul(x2, x2);
    var g1, g2 := 1 + Mul(d, Mul(m1, m1)), 1 + Mul(d, Mul(m2, m2));
    var t := Mul(d, Mul(m1, m2));
    var A, B := Mul(x1, y2) + Mul(x2, y1), Mul(y1, y2) + Mul(x1, x2);
    Numerators(x1, y1, x2, y2);
    Expanded(Mul(A, A), Mul(B, B), t);
    ProductSquared(d, m1, m2, s1, s2, t);
    NormSquared(x1, y1);
    NormSquared(x2, y2);
    // what is left after the common terms: e1 e2 (1 + t^2) against (1 - t^2)^2 + (g1 - 1) e2^2 + (g2 - 1) e1^2
    CongMul(e1, g1, e2, g2, p);
    CongScale(Mul(e1, e2), Mul(g1, g2), 1 + Mul(t, t), p);
    CongMul(e1, g1, e1, g1, p);
    CongMul(e2, g2, e2, g2, p);
    CongScale(Mul(e2, e2), Mul(g2, g2), g1 - 1, p);
    CongScale(Mul(e1, e1), Mul(g1, g1), g2 - 1, p);
    CongAdd(Mul(g1 - 1, Mul(e2, e2)), Mul(g1 - 1, Mul(g2, g2)), Mul(g2 - 1, Mul(e1, e1)), Mul(g2 - 1, Mul(g1, g1)), p);
    TSquared(d, m1, m2);
    CoreIdentity(g1, g2, t);
    var left, right := Mul(1 + Mul(t, t), Mul(e1, e2)), Mul(g1 - 1, Mul(e2, e2)) + Mul(g2 - 1, Mul(e1, e1));
    var gl, gr := Mul(1 + Mul(t, t), Mul(g1, g2)), Mul(g1 - 1, Mul(g2, g2)) + Mul(g2 - 1, Mul(g1, g1));
    var sq := Mul(Mul(1 + t, 1 + t), Mul(1 - t, 1 - t));
    CongRefl(sq, p);
    CongAdd(sq, sq, right, gr, p);
    CongSym(sq + right, sq + gr, p);
    CongTrans(left, gl, sq + right, p);
    var common := 2 * Mul(t, Mul(s1, s2)) + 8 * Mul(t, Mul(m1, m2));
    CongRefl(common, p);
    CongAdd(left, sq + right, common, common, p);
    Collected(d, m1, m2, s1, s2, e1, e2, g1, g2, t);
  }

  /** A^2 and B^2 through the products and norms of the points. */
  lemma Numerators(x1: int, y1: int, x2: int, y2: int)
    ensures var A, B := Mul(x1, y2) + Mul(x2, y1), Mul(y1, y2) + Mul(x1, x2);
            var m1, m2, s1, s2 := Mul(x1, y1), Mul(x2, y2), Mul(x1, x1) + Mul(y1, y1), Mul(x2, x2) + Mul(y2, y2);
            && Mul(B, B) - Mul(A, A) == Mul(Mul(y1, y1) - Mul(x1, x1), Mul(y2, y2) - Mul(x2, x2))
            && Mul(A, A) + Mul(B, B) == Mul(s1, s2) + 4 * Mul(m1, m2)
            && Mul(A, B) == Mul(m1, s2) + Mul(m2, s1)
  {
    hide Mul;
    var a1, a2, b1, b2 := Mul(x1, y2), Mul(x2, y1), Mul(y1, y2), Mul(x1, x2);
    var X1, Y1, X2, Y2 := Mul(x1, x1), Mul(y1, y1), Mul(x2, x2), Mul(y2, y2);
    SquareSum(a1, a2);
    SquareSum(b1, b2);
    FourFactors(x1, y2, x1, y2);
    FourFactors(x2, y1, x2, y1);
    FourFactors(y1, y2, y1, y2);
    FourFactors(x1, x2, x1, x2);
    CrossOrder(x1, y1, x2, y2);
    FourFactors(y1, y2, x1, x2);
    MulComm(y1, x1);
    MulComm(y2, x2);
    Foil(Y1, X1, Y2, X2);
    FourProducts(a1, a2, b1, b2);
    Shared(x1, y1, x2, y2);
    MulPlus(X2, Y2, Mul(x1, y1));
    MulPlus(X1, Y1, Mul(x2, y2));
  }

  lemma SquareSum(u: int, v: int)
    ensures Mul(u + v, u + v) == Mul(u, u) + 2 * Mul(u, v) + Mul(v, v)
  {
  }

  lemma Foil(y1: int, x1: int, y2: int, x2: int)
    ensures Mul(y1 - x1, y2 - x2) == Mul(y1, y2) + Mul(x1, x2) - Mul(x1, y2) - Mul(x2, y1)
    ensures Mul(x1 + y1, x2 + y2) == Mul(x1, x2) + Mul(x1, y2) + Mul(x2, y1) + Mul(y1, y2)
  {
  }

  lemma FourProducts(a1: int, a2: int, b1: int, b2: int)
    ensures Mul(a1 + a2, b1 + b2) == Mul(a1, b1) + Mul(a1, b2) + Mul(a2, b1) + Mul(a2, b2)
  {
  }

  /** The four products of numerators. */
  lemma Shared(x1: int, y1: int, x2: int, y2: int)
    ensures Mul(Mul(x1, y2), Mul(y1, y2)) == Mul(Mul(x1, y1), Mul(y2, y2))
    ensures Mul(Mul(x1, y2), Mul(x1, x2)) == Mul(Mul(x2, y2), Mul(x1, x1))
    ensures Mul(Mul(x2, y1), Mul(y1, y2)) == Mul(Mul(x2, y2), Mul(y1, y1))
    ensures Mul(Mul(x2, y1), Mul(x1, x2)) == Mul(Mul(x1, y1), Mul(x2, x2))
  {
    hide Mul;
    FourFactors(x1, y2, y1, y2);
    FourFactors(x1, y2, x1, x2);
    MulComm(y2, x2);
    MulComm(Mul(x1, x1), Mul(x2, y2));
    MulComm(y1, y2);
    FourFactors(x2, y1, y2, y1);
    MulComm(x1, x2);
    FourFactors(x2, y1, x2, x1);
    MulComm(y1, x1);
    MulComm(Mul(x2, x2), Mul(x1, y1));
  }

  lemma Expanded(a2: int, b2: int, t: int)
    ensures Mul(b2, Mul(1 + t, 1 + t)) - Mul(a2, Mul(1 - t, 1 - t)) == Mul(1 + Mul(t, t), b2 - a2) + 2 * Mul(t, a2 + b2)
  {
  }

  lemma ProductSquared(d: int, m1: int, m2: int, s1: int, s2: int, t: int)
    requires t == Mul(d, Mul(m1, m2))
    ensures var q := Mul(m1, s2) + Mul(m2, s1);
            Mul(d, Mul(q, q)) == Mul(Mul(d, Mul(m1, m1)), Mul(s2, s2)) + 2 * Mul(t, Mul(s1, s2))
                                 + Mul(Mul(d, Mul(m2, m2)), Mul(s1, s1))
  {
    hide Mul;
    var u, v := Mul(m1, s2), Mul(m2, s1);
    SquareSum(u, v);
    FourFactors(m1, s2, m1, s2);
    FourFactors(m2, s1, m2, s1);
    FourFactors(m1, s2, m2, s1);
    MulComm(s2, s1);
    MulPlus(Mul(u, u) + 2 * Mul(u, v), Mul(v, v), d);
    MulPlus(Mul(u, u), 2 * Mul(u, v), d);
    TwiceRight(d, Mul(u, v));
    MulAssoc(d, Mul(m1, m1), Mul(s2, s2));
    MulAssoc(d, Mul(m2, m2), Mul(s1, s1));
    MulAssoc(d, Mul(m1, m2), Mul(s1, s2));
  }

  lemma TwiceRight(x: int, y: int)
    ensures Mul(x, 2 * y) == 2 * Mul(x, y)
  {
  }

  /** (y^2 - x^2)^2 = (x^2 + y^2)^2 - 4 (xy)^2. */
  lemma NormSquared(x: int, y: int)
    ensures var s, e := Mul(x, x) + Mul(y, y), Mul(y, y) - Mul(x, x); Mul(s, s) == Mul(e, e) + 4 * Mul(Mul(x, y), Mul(x, y))
  {
  }

  lemma TSquared(d: int, m1: int, m2: int)
    ensures var t := Mul(d, Mul(m1, m2)); Mul(t, t) == Mul(Mul(d, Mul(m1, m1)), Mul(d, Mul(m2, m2)))
  {
    hide Mul;
    FourFactors(d, Mul(m1, m2), d, Mul(m1, m2));
    FourFactors(m1, m2, m1, m2);
    FourFactors(d, Mul(m1, m1), d, Mul(m2, m2));
  }

  lemma CoreIdentity(g1: int, g2: int, t: int)
    requires Mul(t, t) == Mul(g1 - 1, g2 - 1)
    ensures Mul(1 + Mul(t, t), Mul(g1, g2))
            == Mul(Mul(1 + t, 1 + t), Mul(1 - t, 1 - t)) + (Mul(g1 - 1, Mul(g2, g2)) + Mul(g2 - 1, Mul(g1, g1)))
  {
    var u := t * t;
    FourFactors(1 + t, 1 + t, 1 - t, 1 - t);
    assert (1 + t) * (1 - t) == 1 - u;
    assert u == g1 * g2 - g1 - g2 + 1;
    var h := g1 * g2;
    assert (1 + u) * h == (2 + h - g1 - g2) * h;
    assert (1 - u) * (1 - u) == (g1 + g2 - h) * (g1 + g2 - h);
    CorePoly(g1, g2);
  }

  lemma CorePoly(g1: int, g2: int)
    ensures var h := g1 * g2; (2 + h - g1 - g2) * h == (g1 + g2 - h) * (g1 + g2 - h) + (g1 - 1) * (g2 * g2) + (g2 - 1) * (g1 * g1)
  {
  }

  lemma Collected(d: int, m1: int, m2: int, s1: int, s2: int, e1: int, e2: int, g1: int, g2: int, t: int)
    requires g1 == 1 + Mul(d, Mul(m1, m1)) && g2 == 1 + Mul(d, Mul(m2, m2)) && t == Mul(d, Mul(m1, m2))
    requires Mul(s1, s1) == Mul(e1, e1) + 4 * Mul(m1, m1) && Mul(s2, s2) == Mul(e2, e2) + 4 * Mul(m2, m2)
    ensures Mul(Mul(d, Mul(m1, m1)), Mul(s2, s2)) + 2 * Mul(t, Mul(s1, s2)) + Mul(Mul(d, Mul(m2, m2)), Mul(s1, s1))
            == Mul(g1 - 1, Mul(e2, e2)) + Mul(g2 - 1, Mul(e1, e1)) + 2 * Mul(t, Mul(s1, s2)) + 8 * Mul(t, Mul(m1, m2))
    ensures Mul(t, Mul(s1, s2) + 4 * Mul(m1, m2)) == Mul(t, Mul(s1, s2)) + 4 * Mul(t, Mul(m1, m2))
  {
    hide Mul;
    MulPlus(Mul(e2, e2), 4 * Mul(m2, m2), g1 - 1);
    MulPlus(Mul(e1, e1), 4 * Mul(m1, m1), g2 - 1);
    FourOf(d, m1, m2);
    FourOf(d, m2, m1);
    MulComm(m1, m2);
    MulPlus(Mul(s1, s2), 4 * Mul(m1, m2), t);
    FourRight(t, Mul(m1, m2));
  }

  lemma FourOf(d: int, m1: int, m2: int)
    ensures Mul(Mul(d, Mul(m1, m1)), 4 * Mul(m2, m2)) == 4 * Mul(Mul(d, Mul(m1, m2)), Mul(m1, m2))
  {
    hide Mul;
    FourRight(Mul(d, Mul(m1, m1)), Mul(m2, m2));
    MulAssoc(d, Mul(m1, m1), Mul(m2, m2));
    MulAssoc(d, Mul(m1, m2), Mul(m1, m2));
    FourFactors(m1, m1, m2, m2);
  }

  lemma FourRight(x: int, y: int)
    ensures Mul(x, 4 * y) == 4 * Mul(x, y)
  {
  }

  lemma SumOnCurve(c: Curve, P: Point, Q: Point)
    requires IsCurve(c) && IsPoint(c, P) && IsPoint(c, Q)
    ensures IsPoint(c, Sum(c, P, Q))
  {
    hide Mul, Cong, Unit, IsField, IsCurve, Cross;
    if P.Finite? && Q.Finite? {
      var t := Cross(c, P, Q);
      var A, B := Mul(P.x, Q.y) + Mul(Q.x, P.y), Mul(P.y, Q.y) + Mul(P.x, Q.x);
      CurveAt(c, P, Q);
      CrossIs(c, P, Q);
      var R := Sum(c, P, Q);
      ClearedEquation(c.d, P.x, P.y, Q.x, Q.y, c.p);
      Divided(c, R.x, R.y, A, B, 1 + t, 1 - t);
    }
  }

  lemma CrossIs(c: Curve, P: Point, Q: Point)
    requires P.Finite? && Q.Finite?
    ensures Cross(c, P, Q) == Mul(c.d, Mul(Mul(P.x, P.y), Mul(Q.x, Q.y)))
  {
  }

  /** Dividing the cleared equation by the squares of both denominators. */
  lemma Divided(c: Curve, x: nat, y: nat, A: int, B: int, u: int, v: int)
    requires Unit(u, c.p) && Unit(v, c.p) && Cong(Mul(u, x), A, c.p) && Cong(Mul(v, y), B, c.p)
    requires Cong(Mul(Mul(B, B), Mul(u, u)) - Mul(Mul(A, A), Mul(v, v)),
                  Mul(Mul(u, u), Mul(v, v)) + Mul(c.d, Mul(Mul(A, B), Mul(A, B))), c.p)
    ensures OnCurve(c, x, y)
  {
    hide Mul, Cong, Unit;
    var p, d := c.p, c.d;
    var ux, vy, uu, vv := Mul(u, x), Mul(v, y), Mul(u, u), Mul(v, v);
    var k := Mul(uu, vv);
    CongMul(vy, B, vy, B, p);
    CongMul(ux, A, ux, A, p);
    CongScale(Mul(vy, vy), Mul(B, B), uu, p);
    CongScale(Mul(ux, ux), Mul(A, A), vv, p);
    CongSub(Mul(Mul(vy, vy), uu), Mul(Mul(B, B), uu), Mul(Mul(ux, ux), vv), Mul(Mul(A, A), vv), p);
    CongMul(ux, A, vy, B, p);
    CongMul(Mul(ux, vy), Mul(A, B), Mul(ux, vy), Mul(A, B), p);
    CongScale(Mul(Mul(ux, vy), Mul(ux, vy)), Mul(Mul(A, B), Mul(A, B)), d, p);
    CongRefl(k, p);
    CongAdd(k, k, Mul(d, Mul(Mul(ux, vy), Mul(ux, vy))), Mul(d, Mul(Mul(A, B), Mul(A, B))), p);
    CongSym(k + Mul(d, Mul(Mul(ux, vy), Mul(ux, vy))), k + Mul(d, Mul(Mul(A, B), Mul(A, B))), p);
    CongTrans(Mul(Mul(vy, vy), uu) - Mul(Mul(ux, ux), vv), Mul(Mul(B, B), uu) - Mul(Mul(A, A), vv),
              k + Mul(d, Mul(Mul(A, B), Mul(A, B))), p);
    CongTrans(Mul(Mul(vy, vy), uu) - Mul(Mul(ux, ux), vv), k + Mul(d, Mul(Mul(A, B), Mul(A, B))),
              k + Mul(d, Mul(Mul(ux, vy), Mul(ux, vy))), p);
    CommonFactor(d, x, y, u, v);
    UnitMul(u, u, p);
    UnitMul(v, v, p);
    UnitMul(uu, vv, p);
    UnitCancel(Mul(y, y) - Mul(x, x), 1 + Mul(d, Mul(Mul(x, y), Mul(x, y))), k, p);
  }

  lemma CommonFactor(d: int, x: int, y: int, u: int, v: int)
    ensures var ux, vy, uu, vv := Mul(u, x), Mul(v, y), Mul(u, u), Mul(v, v);
            && Mul(Mul(vy, vy), uu) - Mul(Mul(ux, ux), vv) == Mul(Mul(y, y) - Mul(x, x), Mul(uu, vv))
            && Mul(uu, vv) + Mul(d, Mul(Mul(ux, vy), Mul(ux, vy)))
               == Mul(1 + Mul(d, Mul(Mul(x, y), Mul(x, y))), Mul(uu, vv))
  {
    hide Mul;
    var uu, vv := Mul(u, u), Mul(v, v);
    var k := Mul(uu, vv);
    FourFactors(v, y, v, y);
    FourFactors(u, x, u, x);
    Mul3(vv, Mul(y, y), uu);
    MulComm(vv, uu);
    MulComm(k, Mul(y, y));
    Mul3(uu, Mul(x, x), vv);
    MulComm(k, Mul(x, x));
    MulMinus(Mul(y, y), Mul(x, x), k);
    var q := Mul(Mul(x, y), Mul(x, y));
    FourFactors(u, x, v, y);
    FourFactors(Mul(u, v), Mul(x, y), Mul(u, v), Mul(x, y));
    FourFactors(u, v, u, v);
    MulComm(k, q);
    MulAssoc(d, q, k);
    MulPlus(1, Mul(d, q), k);
    MulUnit(k);
  }

  // The group, and the code.

  ghost function Points(c: Curve): Group<Point>
    requires IsCurve(c)
  {
    Group(Infinity, (P, Q) => if IsPoint(c, P) && IsPoint(c, Q) then Sum(c, P, Q) else Infinity, P => IsPoint(c, P))
  }

  lemma PointsClosed(c: Curve)
    requires IsCurve(c)
    ensures Closed(Points(c))
  {
    hide OnCurve, W.Quotient, IsCurve, Cross;
    var g := Points(c);
    forall P, Q | g.carrier(P) && g.carrier(Q) ensures g.carrier(g.add(P, Q)) {
      SumOnCurve(c, P, Q);
    }
  }

  lemma PointsAdd(c: Curve, P: Point, Q: Point)
    requires IsCurve(c) && IsPoint(c, P) && IsPoint(c, Q)
    ensures Points(c).add(P, Q) == Sum(c, P, Q) && Points(c).carrier(P) && Points(c).zero == Infinity
  {
    hide OnCurve, W.Quotient, IsCurve, Cross;
  }

  lemma InCarrier(c: Curve, P: Point)
    requires IsCurve(c)
    ensures Points(c).carrier(P) <==> IsPoint(c, P)
  {
    hide OnCurve, W.Quotient, IsCurve, Cross;
  }

  /** ecp_adde. */
  method AddE(c: Curve, P: Point, Q: Point) returns (R: Point)
    requires IsCurve(c) && IsPoint(c, P) && IsPoint(c, Q) && P.Finite? && Q.Finite?
    ensures R == Sum(c, P, Q)
  {
    hide Mul, Cong, Unit, IsField, Cross, OnCurve, Is, IsCurve, W.Quotient;
    CurveAt(c, P, Q);
    var p := c.p;
    ghost var t := Cross(c, P, Q);
    IsSelf(P.x, p);
    IsSelf(P.y, p);
    IsSelf(Q.x, p);
    IsSelf(Q.y, p);
    IsSelf(1, p);
    DIs(c);
    IsSelf(c.d, p);
    var tmp := Multiply(P.x, Q.y, p, P.x, Q.y);
    var tmp2 := Multiply(Q.x, P.y, p, Q.x, P.y);
    var numx := AddIs(tmp, tmp2, p, Mul(P.x, Q.y), Mul(Q.x, P.y));
    var tmp4 := Multiply(tmp, tmp2, p, Mul(P.x, Q.y), Mul(Q.x, P.y));
    var dmul := Multiply(c.d, tmp4, p, c.d, Mul(Mul(P.x, Q.y), Mul(Q.x, P.y)));
    CrossIs(c, P, Q);
    CrossOrder(P.x, P.y, Q.x, Q.y);
    tmp := AddIs(1, dmul, p, 1, t);
    W.StandsForUnit(tmp, 1 + t, p);
    var inv := ModInverse(tmp, p);
    var outx := ModMul(numx, inv.value, p);
    QuotientIs(outx, numx, inv.value, tmp, Mul(P.x, Q.y) + Mul(Q.x, P.y), 1 + t, p);
    tmp := W.Minus(1, dmul, p, 1, t);
    W.StandsForUnit(tmp, 1 - t, p);
    inv := ModInverse(tmp, p);
    tmp2 := Multiply(P.y, Q.y, p, P.y, Q.y);
    var tmp3 := Multiply(P.x, Q.x, p, P.x, Q.x);
    var numy := AddIs(tmp2, tmp3, p, Mul(P.y, Q.y), Mul(P.x, Q.x));
    var outy := ModMul(numy, inv.value, p);
    QuotientIs(outy, numy, inv.value, tmp, Mul(P.y, Q.y) + Mul(P.x, Q.x), 1 - t, p);
    R := Finite(outx, outy);
  }

  method AddIs(a: nat, b: nat, p: nat, ghost x: int, ghost y: int) returns (r: nat)
    requires Is(a, x, p) && Is(b, y, p)
    ensures Is(r, x + y, p)
  {
    hide Cong;
    r := Add(a, b, p, x, y);
  }

  lemma DIs(c: Curve)
    requires IsCurve(c)
    ensures c.d < c.p
  {
  }

  lemma CrossOrder(x1: int, y1: int, x2: int, y2: int)
    ensures Mul(Mul(x1, y2), Mul(x2, y1)) == Mul(Mul(x1, y1), Mul(x2, y2))
  {
    hide Mul;
    FourFactors(x1, y2, x2, y1);
    FourFactors(x1, y1, x2, y2);
    MulComm(y1, y2);
  }

  /** A residue divided by one that stands for a unit. */
  lemma QuotientIs(q: nat, num: nat, inv: nat, den: nat, A: int, u: int, p: nat)
    requires p > 1 && Is(num, A, p) && Is(den, u, p) && Cong(Mul(den, inv), 1, p) && Is(q, Mul(num, inv), p) && Unit(u, p)
    ensures q == W.Quotient(A, u, p)
  {
    hide Cong, Unit, W.Quotient;
    CongSym(den, u, p);
    CongScale(u, den, q, p);
    CongScale(q, Mul(num, inv), den, p);
    hide Mul;
    MulComm(num, inv);
    MulAssoc(den, inv, num);
    CongScale(Mul(den, inv), 1, num, p);
    MulUnit(num);
    CongTrans(Mul(den, q), Mul(den, Mul(num, inv)), num, p);
    CongTrans(Mul(den, q), num, A, p);
    CongTrans(Mul(u, q), Mul(den, q), A, p);
    W.QuotientUnique(A, u, q, p);
  }

  /** ecp_add on an Edwards curve, which ecp_double uses too. */
  method AddPoint(c: Curve, P: Point, Q: Point) returns (R: Point)
    requires IsCurve(c) && IsPoint(c, P) && IsPoint(c, Q)
    ensures R == Sum(c, P, Q)
  {
    if P.Infinity? {
      R := Q;
    } else if Q.Infinity? {
      R := P;
    } else {
      R := AddE(c, P, Q);
    }
  }

  /** ecp_mule: high bit first from infinity, starting above the top bit. */
  method MulE(c: Curve, P: Point, b: nat) returns (ret: Point)
    requires IsCurve(c) && IsPoint(c, P) && Associative(Points(c))
    ensures ret == Times(Points(c), b, P)
  {
    hide Bit, Words.Pow2, BitCount, Times, Closed, Associative, Points, OnCurve, Sum, IsCurve;
    ghost var g := Points(c);
    ret := Infinity;
    PointsClosed(c);
    InCarrier(c, P);
    PointsAdd(c, P, P);
    TimesOne(g, P);
    BitCountBound(b);
    BitSplit(b, BitCount(b));
    WholeNumber(b, BitCount(b));
    var i := BitCount(b) as int;
    while i >= 0
      invariant -1 <= i <= BitCount(b) && ret == Times(g, b / Words.Pow2(i + 1), P)
    {
      BitSplit(b, i);
      ghost var high := b / Words.Pow2(i + 1);
      Multiple(c, high, P);
      Multiple(c, 2 * high, P);
      ret := AddPoint(c, ret, ret);
      if Bit(b, i) {
        ret := AddPoint(c, ret, P);
      }
      i := i - 1;
    }
  }

  lemma Multiple(c: Curve, k: nat, P: Point)
    requires IsCurve(c) && IsPoint(c, P) && Associative(Points(c))
    ensures var g := Points(c);
            && IsPoint(c, Times(g, k, P)) && Times(g, k + 1, P) == Sum(c, Times(g, k, P), P)
            && Times(g, 2 * k, P) == Sum(c, Times(g, k, P), Times(g, k, P))
  {
    hide OnCurve, Sum, Closed, Times, Associative, Points, IsPoint, IsCurve;
    var g := Points(c);
    PointsClosed(c);
    InCarrier(c, P);
    TimesIn(g, k, P);
    InCarrier(c, Times(g, k, P));
    TimesStep(g, k, P);
    TimesAdd(g, k, k, P);
    assert k + k == 2 * k;
    PointsAdd(c, Times(g, k, P), P);
    PointsAdd(c, Times(g, k, P), Times(g, k, P));
  }
}
