/** Multiples in a group, and the scalar multiplications ecp_mul_, ecp_mulw and ecp_summul of sshecc.c. */
module ScalarMul {
  import opened Arith
  import opened Binary
  import opened Machine
  import opened EcField
  import opened Modular
  import opened Weierstrass
  import opened Words

  /** An addition with a zero on a carrier set. */
  datatype Group<!T(!new)> = Group(zero: T, add: (T, T) -> T, carrier: T -> bool)

  /** What the loops need of it: associativity, which for a curve is the group law. */
  ghost predicate Associative<T(!new)>(g: Group<T>) {
    forall a, b, c :: g.carrier(a) && g.carrier(b) && g.carrier(c) ==> g.add(g.add(a, b), c) == g.add(a, g.add(b, c))
  }

  ghost predicate Closed<T(!new)>(g: Group<T>) {
    && g.carrier(g.zero)
    && (forall a :: g.carrier(a) ==> g.add(g.zero, a) == a && g.add(a, g.zero) == a)
    && forall a, b :: g.carrier(a) && g.carrier(b) ==> g.carrier(g.add(a, b))
  }

  ghost predicate IsGroup<T(!new)>(g: Group<T>) {
    Closed(g) && Associative(g)
  }

  /** The n-fold sum of a. */
  ghost function Times<T(!new)>(g: Group<T>, n: nat, a: T): T {
    if n == 0 then g.zero else g.add(Times(g, n - 1, a), a)
  }

  lemma AssociativeAt<T(!new)>(g: Group<T>, a: T, b: T, c: T)
    requires Associative(g) && g.carrier(a) && g.carrier(b) && g.carrier(c)
    ensures g.add(g.add(a, b), c) == g.add(a, g.add(b, c))
  {
  }

  lemma ClosedAt<T(!new)>(g: Group<T>, a: T, b: T)
    requires Closed(g) && g.carrier(a) && g.carrier(b)
    ensures g.carrier(g.zero) && g.carrier(g.add(a, b)) && g.add(g.zero, a) == a && g.add(a, g.zero) == a
  {
  }

  lemma {:induction false} TimesIn<T(!new)>(g: Group<T>, n: nat, a: T)
    requires Closed(g) && g.carrier(a)
    ensures g.carrier(Times(g, n, a))
  {
    hide Closed;
    ClosedAt(g, a, a);
    if n > 0 {
      TimesIn(g, n - 1, a);
      ClosedAt(g, Times(g, n - 1, a), a);
    }
  }

  lemma {:induction false} TimesAdd<T(!new)>(g: Group<T>, m: nat, n: nat, a: T)
    requires IsGroup(g) && g.carrier(a)
    ensures Times(g, m + n, a) == g.add(Times(g, m, a), Times(g, n, a))
  {
    hide Closed, Associative;
    TimesIn(g, m, a);
    if n == 0 {
      ClosedAt(g, Times(g, m, a), a);
    } else {
      TimesAdd(g, m, n - 1, a);
      TimesIn(g, n - 1, a);
      AssociativeAt(g, Times(g, m, a), Times(g, n - 1, a), a);
      assert Times(g, m + n, a) == g.add(Times(g, m + (n - 1), a), a);
    }
  }

  lemma TimesOne<T(!new)>(g: Group<T>, a: T)
    requires Closed(g) && g.carrier(a)
    ensures Times(g, 1, a) == a && Times(g, 0, a) == g.zero
  {
    assert Times(g, 0, a) == g.zero;
  }

  /** Multiples of multiples. */
  lemma {:induction false} TimesTimes<T(!new)>(g: Group<T>, m: nat, n: nat, a: T)
    requires IsGroup(g) && g.carrier(a)
    ensures Mul(m, n) >= 0 && Times(g, Mul(m, n), a) == Times(g, m, Times(g, n, a))
  {
    hide Closed, Associative;
    if m == 0 {
      MulUnit(n);
    } else {
      TimesTimes(g, m - 1, n, a);
      MulMinus(m, 1, n);
      MulUnit(n);
      TimesAdd(g, Mul(m - 1, n), n, a);
      assert Mul(m, n) == Mul(m - 1, n) + n;
    }
  }

  lemma {:induction false} TimesZero<T(!new)>(g: Group<T>, n: nat)
    requires Closed(g)
    ensures Times(g, n, g.zero) == g.zero
  {
    hide Closed;
    ZeroIn(g);
    if n > 0 {
      TimesZero(g, n - 1);
      ClosedAt(g, g.zero, g.zero);
    }
  }

  lemma ZeroIn<T(!new)>(g: Group<T>)
    requires Closed(g)
    ensures g.carrier(g.zero)
  {
  }

  /** Multiples of an element of order n count modulo n. */
  lemma TimesPeriod<T(!new)>(g: Group<T>, e: nat, n: nat, k: nat, a: T)
    requires IsGroup(g) && g.carrier(a) && Times(g, n, a) == g.zero
    ensures Mul(k, n) >= 0 && Times(g, e + Mul(k, n), a) == Times(g, e, a)
  {
    hide Closed, Associative, Times;
    TimesTimes(g, k, n, a);
    TimesZero(g, k);
    TimesAdd(g, e, Mul(k, n), a);
    TimesIn(g, e, a);
    ClosedAt(g, Times(g, e, a), a);
  }

  lemma TimesModOrder<T(!new)>(g: Group<T>, e: nat, f: nat, n: nat, a: T)
    requires IsGroup(g) && g.carrier(a) && Times(g, n, a) == g.zero && Cong(e, f, n)
    ensures Times(g, e, a) == Times(g, f, a)
  {
    hide Closed, Associative, Times, Cong;
    var k := Steps(e, f, n);
    if k >= 0 {
      TimesPeriod(g, f, n, k, a);
    } else {
      TimesPeriod(g, e, n, -k, a);
      OppositeMul(k, n);
    }
  }

  // ecp_mul_ over Jacobian points.

  /** The points of a curve under AffineAdd. */
  ghost function Points(c: Curve): Group<Affine>
    requires IsCurve(c)
  {
    Group(Infinity, (P, Q) => if IsPoint(c, P) && IsPoint(c, Q) then AffineAdd(c, P, Q) else Infinity, P => IsPoint(c, P))
  }

  /** Closure and zero are facts; only associativity has to be assumed. */
  lemma PointsClosed(c: Curve)
    requires IsCurve(c)
    ensures Closed(Points(c))
  {
    hide OnCurve, Third, Quotient;
    var g := Points(c);
    forall P, Q | g.carrier(P) && g.carrier(Q) ensures g.carrier(g.add(P, Q)) {
      AddOnCurve(c, P, Q);
    }
  }

  lemma PointsAdd(c: Curve, P: Affine, Q: Affine)
    requires IsCurve(c) && IsPoint(c, P) && IsPoint(c, Q)
    ensures Points(c).add(P, Q) == AffineAdd(c, P, Q) && Points(c).carrier(P)
    ensures Points(c).add(P, P) == AffineDouble(c, P)
  {
    hide OnCurve, Third, Quotient;
  }

  /** Low bit first: ret is the sum for the bits done, sum is the point for the next one. */
  method Mul_(a: EcPoint, b: nat, aminus3: bool, ghost A: Affine) returns (ret: EcPoint)
    requires a.Represents(A) && (aminus3 ==> a.curve.a + 3 == a.curve.p) && Associative(Points(a.curve))
    ensures fresh(ret) && ret.curve == a.curve && ret.Represents(Times(Points(a.curve), b, A))
  {
    hide AffineAdd, AffineDouble, IsPoint, OnCurve, Bit, Pow2, BitCount, Associative, Times, Points, Closed,
         EcPoint.Represents, IsCurve;
    var c := a.curve;
    InCurve(a, A);
    ghost var g := Points(c);
    PointsClosed(c);
    var sum := a.Copy(A);
    ret := new EcPoint(c, 0, 0, None, true);
    ZeroPoint(ret);
    var bits := BitCount(b);
    BitCountBound(b);
    WholeNumber(b, bits);
    StartSum(c, A);
    var i := 0;
    while i < bits
      invariant 0 <= i <= bits && sum.curve == c && ret.curve == c && fresh(sum) && fresh(ret)
      invariant ret.Represents(Times(g, b % Pow2(i), A))
      invariant i < bits ==> sum.Represents(Times(g, Pow2(i), A))
    {
      BitSplit(b, i);
      SumStep(c, b % Pow2(i), Pow2(i), A);
      if Bit(b, i) {
        ret := ret.AddPoint(sum, aminus3, Times(g, b % Pow2(i), A), Times(g, Pow2(i), A));
      }
      if i + 1 != bits {
        sum := sum.DoublePoint(aminus3, Times(g, Pow2(i), A));
        DoublePow(i);
      }
      i := i + 1;
    }
  }

  lemma DoublePow(i: nat)
    ensures Pow2(i + 1) == Pow2(i) + Pow2(i)
  {
  }

  lemma InCurve(a: EcPoint, A: Affine)
    requires a.Represents(A)
    ensures IsCurve(a.curve) && IsPoint(a.curve, A)
  {
  }

  lemma ZeroPoint(r: EcPoint)
    requires IsCurve(r.curve) && r.infinity
    ensures r.Represents(Infinity)
  {
  }

  lemma StartSum(c: Curve, A: Affine)
    requires IsCurve(c) && IsPoint(c, A)
    ensures Times(Points(c), 0, A) == Infinity && Times(Points(c), Pow2(0), A) == A
  {
    hide AffineAdd, AffineDouble, IsPoint, OnCurve;
    PointsClosed(c);
    PointsAdd(c, A, A);
    TimesOne(Points(c), A);
  }

  lemma SumStep(c: Curve, m: nat, n: nat, A: Affine)
    requires IsCurve(c) && IsPoint(c, A) && Associative(Points(c))
    ensures var g := Points(c);
            IsPoint(c, Times(g, m, A)) && IsPoint(c, Times(g, n, A))
            && Times(g, m + n, A) == AffineAdd(c, Times(g, m, A), Times(g, n, A))
            && Times(g, n + n, A) == AffineDouble(c, Times(g, n, A))
  {
    hide AffineAdd, AffineDouble, IsPoint, OnCurve, Associative, Closed;
    var g := Points(c);
    PointsClosed(c);
    TimesIn(g, m, A);
    TimesIn(g, n, A);
    TimesAdd(g, m, n, A);
    TimesAdd(g, n, n, A);
    PointsAdd(c, Times(g, m, A), Times(g, n, A));
    PointsAdd(c, Times(g, n, A), Times(g, n, A));
  }

  /** ec_aminus3. */
  method AMinus3(c: Curve) returns (r: bool)
    ensures r ==> c.a + 3 == c.p
    ensures IsCurve(c) ==> (r <==> Cong(c.a, -3, c.p))
  {
    r := c.a + 3 == c.p;
    AMinus3Iff(c);
  }

  lemma AMinus3Iff(c: Curve)
    ensures IsCurve(c) ==> (c.a + 3 == c.p <==> Cong(c.a, -3, c.p))
  {
    if IsCurve(c) {
      if c.a + 3 == c.p {
        CongBy(c.a, -3, c.p, 1);
      }
      if Cong(c.a, -3, c.p) {
        CongBy(-3, c.p - 3, c.p, -1);
        CongTrans(c.a, -3, c.p - 3, c.p);
        CongUnique(c.a, c.p - 3, c.p);
      }
    }
  }

  /** ecp_mulw: the affine coordinates of the b-fold sum. */
  method MulW(a: EcPoint, b: nat, ghost A: Affine) returns (ret: EcPoint)
    requires a.Represents(A) && Associative(Points(a.curve))
    ensures var P := Times(Points(a.curve), b, A);
            fresh(ret) && (if ret.infinity then P == Infinity else ret.z == None && P == Affine(ret.x, ret.y))
  {
    hide Associative, Times, Points, IsPoint, IsCurve;
    InCurve(a, A);
    var minus3 := AMinus3(a.curve);
    ret := Mul_(a, b, minus3, A);
    var ok := ret.Normalise(Times(Points(a.curve), b, A));
  }

  /** ecp_summul: aG + bP. */
  method SumMul(G: EcPoint, P: EcPoint, a: nat, b: nat, ghost GA: Affine, ghost PA: Affine) returns (ret: EcPoint)
    requires G.Represents(GA) && P.Represents(PA) && G.curve == P.curve && Associative(Points(P.curve))
    ensures var g := Points(P.curve);
            IsPoint(P.curve, Times(g, a, GA)) && IsPoint(P.curve, Times(g, b, PA)) && IsCurve(P.curve)
    ensures var R := AffineAdd(P.curve, Times(Points(P.curve), a, GA), Times(Points(P.curve), b, PA));
            fresh(ret) && (if ret.infinity then R == Infinity else ret.z == None && R == Affine(ret.x, ret.y))
  {
    hide Associative, Times, Points, IsPoint, IsCurve, AffineAdd;
    InCurve(G, GA);
    InCurve(P, PA);
    var minus3 := AMinus3(P.curve);
    var aG := Mul_(G, a, minus3, GA);
    var bP := Mul_(P, b, minus3, PA);
    ghost var g := Points(P.curve);
    InCurve(aG, Times(g, a, GA));
    InCurve(bP, Times(g, b, PA));
    ret := aG.AddPoint(bP, minus3, Times(g, a, GA), Times(g, b, PA));
    var ok := ret.Normalise(AffineAdd(P.curve, Times(g, a, GA), Times(g, b, PA)));
  }

  // Where the other loops start.

  lemma TimesStep<T(!new)>(g: Group<T>, n: nat, a: T)
    ensures Times(g, n + 1, a) == g.add(Times(g, n, a), a)
  {
  }
}
