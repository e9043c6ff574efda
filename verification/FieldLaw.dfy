/** Gf256 against GF(2)[X] modulo X^8 + X^4 + X^3 + X + 1 and GF(2^8)[x] modulo x^4 + 1: section 4 of FIPS 197. */
module FieldLaw {
  import opened Gf256
  import opened AesCore
  import opened AesModes

  /** A polynomial over GF(2), as the set of its exponents. */
  type Poly = set<nat>

  const MODULUS: Poly := {8, 4, 3, 1, 0}

  function Plus(p: Poly, q: Poly): Poly {
    (p - q) + (q - p)
  }

  function TimesX(p: Poly): Poly {
    set e | e in p :: e + 1
  }

  /** Taking off the modulus once, which is enough for degree 8. */
  function Reduced(p: Poly): Poly {
    if 8 in p then Plus(p, MODULUS) else p
  }

  /** X^e p, reduced. */
  function Shifted(p: Poly, e: nat): Poly {
    if e == 0 then p else Reduced(TimesX(Shifted(p, e - 1)))
  }

  /** The product of p with the terms of c below X^n, reduced. */
  function Multiple(c: Poly, p: Poly, n: nat): Poly {
    if n == 0 then {} else Plus(Multiple(c, p, n - 1), if n - 1 in c then Shifted(p, n - 1) else {})
  }

  predicate BitAt(x: Byte, e: nat) {
    match e
    case 7 => x.x7
    case 6 => x.x6
    case 5 => x.x5
    case 4 => x.x4
    case 3 => x.x3
    case 2 => x.x2
    case 1 => x.x1
    case 0 => x.x0
    case _ => false
  }

  function PolyOf(x: Byte): Poly {
    set e: nat | e < 8 && BitAt(x, e)
  }

  /** Different bytes are different polynomials, of degree below 8. */
  lemma PolyOfIs(x: Byte, y: Byte)
    ensures PolyOf(x) == PolyOf(y) ==> x == y
    ensures forall e :: e in PolyOf(x) ==> e < 8
  {
    if PolyOf(x) == PolyOf(y) {
      BitsOf(x);
      BitsOf(y);
    }
  }

  lemma BitsOf(x: Byte)
    ensures (7 in PolyOf(x) <==> x.x7) && (6 in PolyOf(x) <==> x.x6) && (5 in PolyOf(x) <==> x.x5)
    ensures (4 in PolyOf(x) <==> x.x4) && (3 in PolyOf(x) <==> x.x3) && (2 in PolyOf(x) <==> x.x2)
    ensures (1 in PolyOf(x) <==> x.x1) && (0 in PolyOf(x) <==> x.x0)
    ensures forall e :: e in PolyOf(x) ==> e < 8
  {
  }

  lemma SamePoly(p: Poly, q: Poly)
    requires (forall e :: e in p ==> e < 8) && (forall e :: e in q ==> e < 8)
    requires (7 in p <==> 7 in q) && (6 in p <==> 6 in q) && (5 in p <==> 5 in q) && (4 in p <==> 4 in q)
    requires (3 in p <==> 3 in q) && (2 in p <==> 2 in q) && (1 in p <==> 1 in q) && (0 in p <==> 0 in q)
    ensures p == q
  {
    forall e ensures e in p <==> e in q {
      if e == 0 || e == 1 || e == 2 || e == 3 || e == 4 || e == 5 || e == 6 || e == 7 {
      } else {
        assert e !in p && e !in q;
      }
    }
  }

  lemma AddIsPlus(x: Byte, y: Byte)
    ensures PolyOf(Add(x, y)) == Plus(PolyOf(x), PolyOf(y))
  {
    hide PolyOf;
    BitsOf(x);
    BitsOf(y);
    BitsOf(Add(x, y));
    SamePoly(PolyOf(Add(x, y)), Plus(PolyOf(x), PolyOf(y)));
  }

  lemma ShiftBits(p: Poly)
    requires forall e :: e in p ==> e < 8
    ensures var q := TimesX(p);
            && 0 !in q && (1 in q <==> 0 in p) && (2 in q <==> 1 in p) && (3 in q <==> 2 in p) && (4 in q <==> 3 in p)
            && (5 in q <==> 4 in p) && (6 in q <==> 5 in p) && (7 in q <==> 6 in p) && (8 in q <==> 7 in p)
            && forall e :: e in q ==> e <= 8
  {
  }

  /** mulby2 is multiplication by X. */
  lemma Mul2IsTimesX(x: Byte)
    ensures PolyOf(Mul2(x)) == Reduced(TimesX(PolyOf(x)))
  {
    hide PolyOf, TimesX;
    BitsOf(x);
    BitsOf(Mul2(x));
    ShiftBits(PolyOf(x));
    SamePoly(PolyOf(Mul2(x)), Reduced(TimesX(PolyOf(x))));
  }

  /** The constants 3, 9, 11, 13 and 14 as polynomials, and multiplication by them. */
  lemma MultiplesAre(x: Byte)
    ensures PolyOf(Mul2(x)) == Multiple({1}, PolyOf(x), 4) && PolyOf(x) == Multiple({0}, PolyOf(x), 4)
    ensures PolyOf(Mul3(x)) == Multiple({1, 0}, PolyOf(x), 4) && PolyOf(Mul9(x)) == Multiple({3, 0}, PolyOf(x), 4)
    ensures PolyOf(Mul11(x)) == Multiple({3, 1, 0}, PolyOf(x), 4)
    ensures PolyOf(Mul13(x)) == Multiple({3, 2, 0}, PolyOf(x), 4)
    ensures PolyOf(Mul14(x)) == Multiple({3, 2, 1}, PolyOf(x), 4)
  {
    var p, t, f := PolyOf(x), Mul2(x), Mul4(x);
    Mul2IsTimesX(x);
    Mul2IsTimesX(t);
    Mul2IsTimesX(f);
    ShiftedAre(p);
    hide PolyOf, Reduced, TimesX, Shifted, Plus, Add, Mul2;
    AddIsPlus(t, x);
    AddIsPlus(Mul8(x), x);
    AddIsPlus(Mul8(x), Mul3(x));
    AddIsPlus(Mul8(x), f);
    AddIsPlus(Add(Mul8(x), f), x);
    AddIsPlus(Add(Mul8(x), f), t);
    FourTerms({1}, p);
    FourTerms({0}, p);
    FourTerms({1, 0}, p);
    FourTerms({3, 0}, p);
    FourTerms({3, 1, 0}, p);
    FourTerms({3, 2, 0}, p);
    FourTerms({3, 2, 1}, p);
    Orders(p, PolyOf(t), PolyOf(f), PolyOf(Mul8(x)));
  }

  lemma ShiftedAre(p: Poly)
    ensures Shifted(p, 1) == Reduced(TimesX(p)) && Shifted(p, 2) == Reduced(TimesX(Shifted(p, 1)))
    ensures Shifted(p, 3) == Reduced(TimesX(Shifted(p, 2)))
  {
    hide Reduced, TimesX;
  }

  lemma FourTerms(c: Poly, p: Poly)
    ensures Multiple(c, p, 4)
            == Plus(Plus(Plus(Plus({}, if 0 in c then p else {}), if 1 in c then Shifted(p, 1) else {}),
                         if 2 in c then Shifted(p, 2) else {}), if 3 in c then Shifted(p, 3) else {})
  {
    hide Plus;
    assert Multiple(c, p, 1) == Plus({}, if 0 in c then Shifted(p, 0) else {});
    assert Multiple(c, p, 2) == Plus(Multiple(c, p, 1), if 1 in c then Shifted(p, 1) else {});
    assert Multiple(c, p, 3) == Plus(Multiple(c, p, 2), if 2 in c then Shifted(p, 2) else {});
  }

  /** The same sums in another order. */
  lemma Orders(p: Poly, t: Poly, f: Poly, e: Poly)
    ensures Plus(Plus({}, p), {}) == p && Plus(Plus({}, {}), {}) == {} && Plus({}, t) == t && Plus(Plus({}, {}), t) == t
    ensures Plus(p, {}) == p && Plus(t, {}) == t && Plus({}, p) == p && Plus({}, {}) == {}
    ensures Plus(t, p) == Plus(p, t) && Plus(e, p) == Plus(p, e) && Plus(Plus(p, t), {}) == Plus(p, t)
    ensures Plus(e, Plus(t, p)) == Plus(Plus(p, t), e) && Plus(Plus(e, f), p) == Plus(Plus(p, f), e)
    ensures Plus(Plus(e, f), t) == Plus(Plus(t, f), e)
  {
  }

  /** The round constants are the powers of X. */
  lemma {:induction false} RconIs(j: nat)
    requires j >= 1
    ensures PolyOf(Rcon(j)) == Shifted({0}, j - 1)
  {
    hide PolyOf, Reduced, TimesX, Mul2;
    if j == 1 {
      OneIs();
    } else {
      RconIs(j - 1);
      Mul2IsTimesX(Rcon(j - 1));
    }
  }

  lemma OneIs()
    ensures PolyOf(Rcon(1)) == {0}
  {
    BitsOf(ONE);
    SamePoly(PolyOf(ONE), {0});
  }

  // Columns as polynomials over GF(2^8).

  function Bytes(w: Word): (b: seq<Byte>)
    ensures |b| == 4
  {
    [w.b0, w.b1, w.b2, w.b3]
  }

  /** {03}x^3 + {01}x^2 + {01}x + {02}. */
  const MIX: seq<Poly> := [{1}, {0}, {0}, {1, 0}]

  /** {0b}x^3 + {0d}x^2 + {09}x + {0e}. */
  const INVMIX: seq<Poly> := [{3, 2, 1}, {3, 0}, {3, 2, 0}, {3, 1, 0}]

  /** Coefficient i of the product of a and w modulo x^4 + 1: the sum of a_(i-j) w_j. */
  function Coefficient(a: seq<Poly>, w: Word, i: nat): Poly
    requires |a| == 4 && i < 4
  {
    var b := Bytes(w);
    Plus(Plus(Plus(Multiple(a[i], PolyOf(b[0]), 4), Multiple(a[(i + 3) % 4], PolyOf(b[1]), 4)),
              Multiple(a[(i + 2) % 4], PolyOf(b[2]), 4)), Multiple(a[(i + 1) % 4], PolyOf(b[3]), 4))
  }

  lemma SumIsPlus(a: Byte, b: Byte, c: Byte, d: Byte)
    ensures PolyOf(Sum4(a, b, c, d)) == Plus(Plus(Plus(PolyOf(a), PolyOf(b)), PolyOf(c)), PolyOf(d))
  {
    hide PolyOf, Plus, Add;
    AddIsPlus(a, b);
    AddIsPlus(Add(a, b), c);
    AddIsPlus(Add(Add(a, b), c), d);
  }

  lemma MixBytes(w: Word)
    ensures MixColumn(w) == Word(
      Sum4(Mul2(w.b0), Mul3(w.b1), w.b2, w.b3), Sum4(w.b0, Mul2(w.b1), Mul3(w.b2), w.b3),
      Sum4(w.b0, w.b1, Mul2(w.b2), Mul3(w.b3)), Sum4(Mul3(w.b0), w.b1, w.b2, Mul2(w.b3)))
  {
    hide Add, Mul2, Mul3;
  }

  /** MixColumn multiplies a column by the first polynomial. */
  lemma MixIsProduct(w: Word, i: nat)
    requires i < 4
    ensures PolyOf(Bytes(MixColumn(w))[i]) == Coefficient(MIX, w, i)
  {
    hide PolyOf, Plus, Multiple, Sum4, Mul2, Mul3, MixColumn;
    MultiplesAre(w.b0);
    MultiplesAre(w.b1);
    MultiplesAre(w.b2);
    MultiplesAre(w.b3);
    MixBytes(w);
    SumIsPlus(Mul2(w.b0), Mul3(w.b1), w.b2, w.b3);
    SumIsPlus(w.b0, Mul2(w.b1), Mul3(w.b2), w.b3);
    SumIsPlus(w.b0, w.b1, Mul2(w.b2), Mul3(w.b3));
    SumIsPlus(Mul3(w.b0), w.b1, w.b2, Mul2(w.b3));
  }

  /** InvMixColumn multiplies it by the second. */
  lemma InvMixIsProduct(w: Word, i: nat)
    requires i < 4
    ensures PolyOf(Bytes(InvMixColumn(w))[i]) == Coefficient(INVMIX, w, i)
  {
    hide PolyOf, Plus, Multiple, Sum4, Mul9, Mul11, Mul13, Mul14, InvMixColumn;
    MultiplesAre(w.b0);
    MultiplesAre(w.b1);
    MultiplesAre(w.b2);
    MultiplesAre(w.b3);
    InvMixBytes(w);
    SumIsPlus(Mul14(w.b0), Mul11(w.b1), Mul13(w.b2), Mul9(w.b3));
    SumIsPlus(Mul9(w.b0), Mul14(w.b1), Mul11(w.b2), Mul13(w.b3));
    SumIsPlus(Mul13(w.b0), Mul9(w.b1), Mul14(w.b2), Mul11(w.b3));
    SumIsPlus(Mul11(w.b0), Mul13(w.b1), Mul9(w.b2), Mul14(w.b3));
  }
}
