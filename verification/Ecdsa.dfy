/** ECDSA over a Weierstrass curve: _ecdsa_sign and _ecdsa_verify of sshecc.c. */
module Ecdsa {
  import opened Arith
  import opened Binary
  import opened Machine
  import opened Modular
  import opened NumberTheory
  import opened EcField
  import opened Weierstrass
  import opened ScalarMul
  import Words
  import opened DssNonce
  import Dss

  /** The curve, its base point and the order of the base point. */
  datatype Domain = Domain(curve: Curve, G: Affine, n: nat)

  /** n is prime, nG is the point at infinity, and the points form a group. */
  ghost predicate IsDomain(d: Domain) {
    && IsCurve(d.curve) && IsPoint(d.curve, d.G) && d.G.Affine? && IsField(d.n)
    && Associative(Points(d.curve)) && Times(Points(d.curve), d.n, d.G) == Infinity
  }

  /** The k-fold sum of the base point. */
  ghost function BaseTimes(d: Domain, k: nat): Affine
    requires IsCurve(d.curve)
  {
    Times(Points(d.curve), k, d.G)
  }

  lemma DomainGroup(d: Domain)
    requires IsDomain(d)
    ensures IsGroup(Points(d.curve)) && Points(d.curve).carrier(d.G) && Points(d.curve).zero == Infinity
    ensures d.n > 3 && IsField(d.n) && BaseTimes(d, d.n) == Infinity
  {
    hide Associative, Closed, Times, IsPoint, AffineAdd, AffineDouble;
    PointsClosed(d.curve);
  }

  /** Multiples of the base point count modulo n. */
  lemma BaseMod(d: Domain, e: nat, f: nat)
    requires IsDomain(d) && Cong(e, f, d.n)
    ensures BaseTimes(d, e) == BaseTimes(d, f)
  {
    hide Associative, Closed, Times, IsPoint, Points, Cong, IsField;
    DomainGroup(d);
    TimesModOrder(Points(d.curve), e, f, d.n, d.G);
  }

  /** No multiple below n is the point at infinity. */
  lemma BaseFinite(d: Domain, k: nat)
    requires IsDomain(d) && 0 < k < d.n
    ensures BaseTimes(d, k).Affine? && IsPoint(d.curve, BaseTimes(d, k))
  {
    hide Associative, Closed, Times, IsPoint, Points, Cong, IsField, Mul, IsDomain;
    FiniteBase(d);
    var g := Points(d.curve);
    DomainGroup(d);
    BaseIn(d, k);
    Dss.Invertible(k, d.n);
    var i := ModInverse(k, d.n).value;
    MulComm(k, i);
    if BaseTimes(d, k) == Infinity {
      TimesTimes(g, i, k, d.G);
      TimesZero(g, i);
      BaseMod(d, Mul(i, k), 1);
      TimesOne(g, d.G);
    }
  }

  lemma FiniteBase(d: Domain)
    requires IsDomain(d)
    ensures d.G.Affine? && IsCurve(d.curve)
  {
  }

  lemma BaseIn(d: Domain, k: nat)
    requires IsDomain(d)
    ensures IsPoint(d.curve, BaseTimes(d, k)) && IsCurve(d.curve)
  {
    hide Associative, Closed, Times, IsPoint, AffineAdd, AffineDouble;
    DomainGroup(d);
    TimesIn(Points(d.curve), k, d.G);
  }

  /** Adding u1 G and u2 (x G) gives (u1 + x u2) G. */
  lemma SumIs(d: Domain, u1: nat, u2: nat, x: nat)
    requires IsDomain(d)
    ensures var g := Points(d.curve);
            && IsPoint(d.curve, BaseTimes(d, u1)) && IsPoint(d.curve, Times(g, u2, BaseTimes(d, x))) && Mul(x, u2) >= 0
            && AffineAdd(d.curve, BaseTimes(d, u1), Times(g, u2, BaseTimes(d, x))) == BaseTimes(d, u1 + Mul(x, u2))
  {
    hide Associative, Closed, Times, IsPoint, Points, IsDomain, AffineAdd;
    FiniteBase(d);
    var g := Points(d.curve);
    DomainGroup(d);
    BaseIn(d, u1);
    TimesTimes(g, u2, x, d.G);
    MulComm(u2, x);
    BaseIn(d, Mul(x, u2));
    TimesAdd(g, u1, Mul(x, u2), d.G);
    PointsAdd(d.curve, BaseTimes(d, u1), BaseTimes(d, Mul(x, u2)));
  }

  // The number z that is signed.

  /** The leading bits of the digest: all of it where it has no more bits than n, else its topmost ones. */
  function Leading(z: nat, n: nat): (l: nat)
    ensures BitCount(z) <= BitCount(n) ==> l == z
    ensures BitCount(z) > BitCount(n) ==>
              var weight := Words.Pow2(BitCount(z) - BitCount(n)); l * weight <= z < (l + 1) * weight
  {
    var zBits, nBits := BitCount(z), BitCount(n);
    if zBits > nBits then
      DivMod(z, Words.Pow2(zBits - nBits));
      Distrib(z / Words.Pow2(zBits - nBits), 1, Words.Pow2(zBits - nBits));
      z / Words.Pow2(zBits - nBits)
    else z
  }

  lemma LeadingFits(z: nat, n: nat)
    ensures Leading(z, n) < Words.Pow2(BitCount(n))
  {
    hide BitCount, Words.Pow2;
    BitCountBound(z);
    if BitCount(z) > BitCount(n) {
      ShiftFits(z, BitCount(z), BitCount(n));
    } else {
      Words.Pow2Mono(BitCount(z), BitCount(n));
    }
  }

  lemma ShiftFits(z: nat, zBits: nat, nBits: nat)
    requires zBits > nBits && z < Words.Pow2(zBits)
    ensures z / Words.Pow2(zBits - nBits) < Words.Pow2(nBits)
  {
    hide Words.Pow2;
    Words.Pow2Add(nBits, zBits - nBits);
    QuotientFits(z, Words.Pow2(nBits), Words.Pow2(zBits - nBits));
  }

  lemma QuotientFits(z: nat, x: nat, y: nat)
    requires z < x * y && y > 0
    ensures z / y < x
  {
    DivMod(z, y);
    if z / y >= x {
      MulMono(x, z / y, y);
    }
  }

  // Signing and verifying.

  const ECDSA_ID: seq<byte> := Ascii("ECDSA deterministic k generator")

  /** What _ecdsa_sign produces for the data: k is the nonce for the private key and the SHA-1 digest of the data. */
  ghost predicate Signed(d: Domain, priv: nat, data: seq<byte>, hashes: Hashes, k: nat, r: nat, s: nat)
    requires IsDomain(d)
  {
    && d.n > 0 && IsNonce(hashes.sha512, ECDSA_ID, priv, hashes.sha1(data), d.n, k)
    && IsPair(d, priv, Leading(BigVal(data), d.n), k, r, s)
  }

  /** The pair that the nonce k gives for the number z. */
  ghost predicate IsPair(d: Domain, priv: nat, z: nat, k: nat, r: nat, s: nat)
    requires IsDomain(d)
  {
    && 1 < k < d.n && BaseTimes(d, k).Affine? && r == BaseTimes(d, k).x % d.n
    && s < d.n && Cong(Mul(k, s), z + Mul(priv, r), d.n)
  }

  /** A signature is determined by the private key and the data. */
  lemma SignedUnique(d: Domain, priv: nat, data: seq<byte>, hashes: Hashes, k: nat, r: nat, s: nat, l: nat, u: nat, t: nat)
    requires IsDomain(d) && Signed(d, priv, data, hashes, k, r, s) && Signed(d, priv, data, hashes, l, u, t)
    ensures k == l && r == u && s == t
  {
    hide IsDomain, Associative, Times, IsPoint, Points, Mul, Cong, IsField, Is, IsNonce, BigVal, Leading;
    DomainGroup(d);
    NonceUnique(hashes.sha512, ECDSA_ID, priv, hashes.sha1(data), d.n, k, l);
    var z := Leading(BigVal(data), d.n);
    Dss.Invertible(k, d.n);
    var kinv := ModInverse(k, d.n).value;
    Dss.SignIs(k, kinv, z + Mul(priv, r), s, d.n);
    Dss.SignIs(k, kinv, z + Mul(priv, r), t, d.n);
    IsUnique(s, t, Mul(kinv, z + Mul(priv, r)), d.n);
  }

  /** _ecdsa_sign. */
  method Sign(d: Domain, G: EcPoint, priv: nat, data: seq<byte>, hashes: Hashes) returns (r: nat, s: nat)
    requires IsDomain(d) && G.curve == d.curve && G.Represents(d.G)
    requires d.n > 0 && Ends(hashes.sha512, ECDSA_ID, priv, hashes.sha1(data), d.n)
    ensures exists k: nat :: Signed(d, priv, data, hashes, k, r, s)
  {
    hide IsDomain, Associative, Times, IsPoint, Points, Mul, Cong, BitCount, BigVal, Leading, IsField, EcPoint.Represents,
         IsNonce, Ends;
    DomainGroup(d);
    FiniteBase(d);
    DomainAssociative(d);
    var n := d.n;
    var z := Leading(BigVal(data), n);
    var digest := hashes.sha1(data);
    var nonce, i := GenK(hashes.sha512, ECDSA_ID, n, priv, digest);
    BaseFinite(d, nonce);
    var kG := MulW(G, nonce, d.G);
    r := kG.x % n;
    var rPriv := ModMul(r, priv, n);
    var first := (rPriv + z % n) % n;
    Dss.Invertible(nonce, n);
    var kInv := ModInverse(nonce, n);
    s := ModMul(first, kInv.value, n);
    SignSum(r, priv, z, rPriv, first, n);
    SignCong(nonce, kInv.value, first, z + Mul(priv, r), s, n);
    assert IsPair(d, priv, z, nonce, r, s);
    assert Signed(d, priv, data, hashes, nonce, r, s);
  }

  lemma DomainAssociative(d: Domain)
    requires IsDomain(d)
    ensures Associative(Points(d.curve))
  {
  }

  lemma SignSum(r: nat, priv: nat, z: nat, rPriv: nat, first: nat, n: nat)
    requires n > 0 && Is(rPriv, Mul(r, priv), n) && first == (rPriv + z % n) % n
    ensures Cong(first, z + Mul(priv, r), n) && first < n
  {
    CongMod(z, n);
    CongAdd(z % n, z, rPriv, Mul(r, priv), n);
    CongMod(rPriv + z % n, n);
    MulComm(r, priv);
    CongTrans(first, rPriv + z % n, z + Mul(priv, r), n);
  }

  lemma SignCong(k: nat, kinv: nat, first: nat, m: int, s: nat, n: nat)
    requires Cong(Mul(k, kinv), 1, n) && Cong(first, m, n) && Is(s, Mul(first, kinv), n)
    ensures Cong(Mul(k, s), m, n) && s < n
  {
    MulComm(first, kinv);
    CongScale(s, Mul(kinv, first), k, n);
    MulAssoc(k, kinv, first);
    CongScale(Mul(k, kinv), 1, first, n);
    MulUnit(first);
    CongTrans(Mul(k, s), Mul(k, Mul(kinv, first)), first, n);
    CongTrans(Mul(k, s), first, m, n);
  }

  /** The point u1 G + u2 Q of the verification. */
  ghost function Checked(d: Domain, Q: Affine, z: nat, r: nat, w: nat): Affine
    requires IsDomain(d) && IsPoint(d.curve, Q)
  {
    DomainGroup(d);
    var g := Points(d.curve);
    TimesIn(g, ModMul(z % d.n, w, d.n), d.G);
    TimesIn(g, ModMul(r, w, d.n), Q);
    AffineAdd(d.curve, Times(g, ModMul(z % d.n, w, d.n), d.G), Times(g, ModMul(r, w, d.n), Q))
  }

  /** _ecdsa_verify; none when it comes to read the coordinates of the point at infinity. */
  method Verify(d: Domain, G: EcPoint, publicKey: EcPoint, data: seq<byte>, r: nat, s: nat, ghost Q: Affine)
    returns (valid: Option<bool>)
    requires IsDomain(d) && G.curve == d.curve && G.Represents(d.G)
    requires publicKey.curve == d.curve && publicKey.Represents(Q) && IsPoint(d.curve, Q)
    ensures !(0 < r < d.n && 0 < s < d.n) ==> valid == Some(false)
    ensures 0 < r < d.n && 0 < s < d.n ==>
              ModInverse(s, d.n).Some? &&
              valid == match Checked(d, Q, Leading(BigVal(data), d.n), r, ModInverse(s, d.n).value)
                       case Infinity => None
                       case Affine(x, _) => Some(x % d.n == r)
    ensures forall priv: nat :: Q == BaseTimes(d, priv) && 0 < r < d.n && 0 < s < d.n ==>
              (valid.None? <==> Cong(Leading(BigVal(data), d.n) + Mul(priv, r), 0, d.n))
    ensures forall priv: nat, k: nat :: Q == BaseTimes(d, priv) && 0 < r < d.n && 0 < s < d.n
                                        && Cong(Mul(k, s), Leading(BigVal(data), d.n) + Mul(priv, r), d.n) ==>
              valid == match BaseTimes(d, k)
                       case Infinity => None
                       case Affine(x, _) => Some(x % d.n == r)
  {
    hide IsDomain, Associative, Times, IsPoint, Points, Mul, Cong, BitCount, BigVal, Leading, IsField, EcPoint.Represents,
         AffineAdd;
    DomainGroup(d);
    FiniteBase(d);
    DomainAssociative(d);
    var n := d.n;
    if r == 0 || r >= n || s == 0 || s >= n {
      return Some(false);
    }
    var z := Leading(BigVal(data), n) % n;
    Dss.Invertible(s, n);
    var w := ModInverse(s, n);
    var u1 := ModMul(z, w.value, n);
    var u2 := ModMul(r, w.value, n);
    var tmp := SumMul(G, publicKey, u1, u2, d.G, Q);
    forall priv: nat | Q == BaseTimes(d, priv)
      ensures Checked(d, Q, Leading(BigVal(data), n), r, w.value) == Infinity
              <==> Cong(Leading(BigVal(data), n) + Mul(priv, r), 0, n)
    {
      InfinityIff(d, priv, Leading(BigVal(data), n), r, s);
    }
    forall priv: nat, k: nat | Q == BaseTimes(d, priv)
                               && Cong(Mul(k, s), Leading(BigVal(data), n) + Mul(priv, r), n)
      ensures Checked(d, Q, Leading(BigVal(data), n), r, w.value) == BaseTimes(d, k)
    {
      CheckedIs(d, priv, Leading(BigVal(data), n), k, r, s);
    }
    if tmp.infinity {
      return None;
    }
    return Some(r == tmp.x % n);
  }

  /** The point of the verification is kG, for any k with k s = z + r priv modulo n, however r and s were made. */
  lemma CheckedIs(d: Domain, priv: nat, z: nat, k: nat, r: nat, s: nat)
    requires IsDomain(d) && 0 < s < d.n && Cong(Mul(k, s), z + Mul(priv, r), d.n)
    ensures IsPoint(d.curve, BaseTimes(d, priv)) && ModInverse(s, d.n).Some?
    ensures Checked(d, BaseTimes(d, priv), z, r, ModInverse(s, d.n).value) == BaseTimes(d, k)
  {
    hide Associative, Closed, Times, IsPoint, Points, IsDomain, AffineAdd, Mul, Cong, IsField;
    DomainGroup(d);
    BaseIn(d, priv);
    Dss.Invertible(s, d.n);
    var n, w := d.n, ModInverse(s, d.n).value;
    var u1, u2 := ModMul(z % n, w, n), ModMul(r, w, n);
    SumIs(d, u1, u2, priv);
    ExponentIs(z, priv, r, w, n);
    Dss.Quotiented(k, s, z + Mul(priv, r), w, n);
    CongTrans(u1 + Mul(priv, u2), Mul(z + Mul(priv, r), w), k, n);
    BaseMod(d, u1 + Mul(priv, u2), k);
  }

  /** The point that verification computes is the one that signing took r from. */
  lemma SignedAccepted(d: Domain, priv: nat, z: nat, k: nat, r: nat, s: nat)
    requires IsDomain(d) && IsPair(d, priv, z, k, r, s) && s != 0
    ensures IsPoint(d.curve, BaseTimes(d, priv)) && ModInverse(s, d.n).Some?
    ensures Checked(d, BaseTimes(d, priv), z, r, ModInverse(s, d.n).value) == BaseTimes(d, k)
  {
    CheckedIs(d, priv, z, k, r, s);
  }

  /** Verification of r and s in range, against the public key of priv, comes to the point at infinity. */
  ghost predicate MeetsInfinity(d: Domain, priv: nat, z: nat, r: nat, s: nat)
    requires IsDomain(d) && 0 < s < d.n
  {
    DomainGroup(d);
    FiniteBase(d);
    BaseIn(d, priv);
    Dss.Invertible(s, d.n);
    Checked(d, BaseTimes(d, priv), z, r, ModInverse(s, d.n).value) == Infinity
  }

  /** That is so exactly when z + r priv is zero modulo n. */
  lemma InfinityIff(d: Domain, priv: nat, z: nat, r: nat, s: nat)
    requires IsDomain(d) && 0 < s < d.n
    ensures MeetsInfinity(d, priv, z, r, s) <==> Cong(z + Mul(priv, r), 0, d.n)
  {
    hide Associative, Closed, Times, IsPoint, Points, IsDomain, AffineAdd, Mul, Cong, IsField;
    DomainGroup(d);
    BaseIn(d, priv);
    Dss.Invertible(s, d.n);
    var n, w := d.n, ModInverse(s, d.n).value;
    var u1, u2 := ModMul(z % n, w, n), ModMul(r, w, n);
    SumIs(d, u1, u2, priv);
    var k := u1 + Mul(priv, u2);
    MultipleZeroIff(d, k);
    ExponentScaled(z, priv, r, s, w, n);
  }

  /** The multiples of the base point that are infinite are those of n. */
  lemma MultipleZeroIff(d: Domain, k: nat)
    requires IsDomain(d)
    ensures BaseTimes(d, k) == Infinity <==> Cong(k, 0, d.n)
  {
    hide Associative, Closed, Times, IsPoint, Points, IsDomain, Cong, IsField;
    DomainGroup(d);
    DivMod(k, d.n);
    CongMod(k, d.n);
    CongSym(k % d.n, k, d.n);
    BaseMod(d, k, k % d.n);
    if k % d.n == 0 {
      BaseZero(d);
    } else {
      BaseFinite(d, k % d.n);
      if Cong(k, 0, d.n) {
        CongTrans(k % d.n, k, 0, d.n);
        CongUnique(k % d.n, 0, d.n);
      }
    }
  }

  lemma BaseZero(d: Domain)
    requires IsDomain(d)
    ensures BaseTimes(d, 0) == Infinity
  {
    DomainGroup(d);
  }

  /** u1 + priv u2 is z + r priv, divided by s. */
  lemma ExponentIs(z: nat, priv: nat, r: nat, w: nat, n: nat)
    requires n > 0
    ensures Cong(ModMul(z % n, w, n) + Mul(priv, ModMul(r, w, n)), Mul(z + Mul(priv, r), w), n)
  {
    hide Mul, Cong;
    var u1, u2 := ModMul(z % n, w, n), ModMul(r, w, n);
    Dss.IsBoth(u1, Mul(z % n, w), n);
    Dss.IsBoth(u2, Mul(r, w), n);
    CongMod(z, n);
    CongScale(z % n, z, w, n);
    CongTrans(u1, Mul(z % n, w), Mul(z, w), n);
    CongScale(u2, Mul(r, w), priv, n);
    MulAssoc(priv, r, w);
    CongAdd(u1, Mul(z, w), Mul(priv, u2), Mul(priv, Mul(r, w)), n);
    MulPlus(z, Mul(priv, r), w);
  }

  lemma ExponentScaled(z: nat, priv: nat, r: nat, s: nat, w: nat, n: nat)
    requires n > 0 && Cong(Mul(s, w), 1, n)
    ensures Cong(ModMul(z % n, w, n) + Mul(priv, ModMul(r, w, n)), 0, n) <==> Cong(z + Mul(priv, r), 0, n)
  {
    hide Mul, Cong;
    ExponentIs(z, priv, r, w, n);
    ScaledZero(ModMul(z % n, w, n) + Mul(priv, ModMul(r, w, n)), z + Mul(priv, r), w, s, n);
  }

  lemma ScaledZero(k: int, m: int, w: int, s: int, n: nat)
    requires Cong(k, Mul(m, w), n) && Cong(Mul(s, w), 1, n)
    ensures Cong(k, 0, n) <==> Cong(m, 0, n)
  {
    hide Mul, Cong;
    MulUnit(w);
    if Cong(m, 0, n) {
      CongScale(m, 0, w, n);
      CongTrans(k, Mul(m, w), 0, n);
    }
    if Cong(k, 0, n) {
      CongSym(k, Mul(m, w), n);
      CongTrans(Mul(m, w), k, 0, n);
      MulComm(w, s);
      CongCancel(m, 0, w, s, n);
    }
  }

  /** For every key and every message, neither zero modulo n, there is an r in range that meets it, whatever s is. */
  lemma InfinityReached(d: Domain, priv: nat, z: nat) returns (r: nat)
    requires IsDomain(d) && priv % d.n != 0 && z % d.n != 0
    ensures 0 < r < d.n
    ensures forall s: nat :: 0 < s < d.n ==> MeetsInfinity(d, priv, z, r, s)
  {
    hide IsDomain, Cong, Mul, MeetsInfinity, IsField;
    DomainGroup(d);
    r := NegatedRatio(priv, z, d.n);
    forall s: nat | 0 < s < d.n ensures MeetsInfinity(d, priv, z, r, s) {
      InfinityIff(d, priv, z, r, s);
    }
  }

  /** r = -z / priv. */
  lemma NegatedRatio(priv: nat, z: nat, n: nat) returns (r: nat)
    requires IsField(n) && priv % n != 0 && z % n != 0
    ensures 0 < r < n && Cong(z + Mul(priv, r), 0, n)
  {
    Dss.FieldBig(n);
    hide Mul, Cong;
    DivModUnique(0, n, 0, 0);
    CongIffMod(priv, 0, n);
    CongIffMod(z, 0, n);
    var i := ModInverse(priv, n).value;
    r := ModMul(n - z % n, i, n);
    Dss.IsBoth(r, Mul(n - z % n, i), n);
    // priv r = -z
    CongScale(r, Mul(n - z % n, i), priv, n);
    MulComm(i, priv);
    MulAssoc(priv, i, n - z % n);
    MulComm(i, n - z % n);
    CongScale(Mul(priv, i), 1, n - z % n, n);
    MulUnit(n - z % n);
    CongTrans(Mul(priv, r), Mul(priv, Mul(n - z % n, i)), n - z % n, n);
    CongMod(z, n);
    CongSym(z % n, z, n);
    CongAdd(z, z % n, Mul(priv, r), n - z % n, n);
    CongBy(n, 0, n, 1);
    CongTrans(z + Mul(priv, r), n, 0, n);
    if r == 0 {
      MulUnit(priv);
      assert false;
    }
  }

  /** No computed signature with s not zero meets it. */
  lemma SignedFinite(d: Domain, priv: nat, z: nat, k: nat, r: nat, s: nat)
    requires IsDomain(d) && IsPair(d, priv, z, k, r, s) && s != 0
    ensures !MeetsInfinity(d, priv, z, r, s)
  {
    hide IsDomain, Checked, Times, IsField;
    SignedAccepted(d, priv, z, k, r, s);
  }

  /** A computed signature is accepted exactly when neither number is zero. */
  method SignThenVerify(d: Domain, G: EcPoint, priv: nat, data: seq<byte>, hashes: Hashes)
    returns (valid: Option<bool>, r: nat, s: nat)
    requires IsDomain(d) && G.curve == d.curve && G.Represents(d.G)
    requires d.n > 0 && Ends(hashes.sha512, ECDSA_ID, priv, hashes.sha1(data), d.n)
    ensures exists k: nat :: Signed(d, priv, data, hashes, k, r, s)
    ensures valid == Some(r != 0 && s != 0)
  {
    hide Associative, Times, Points, IsDomain, Checked, Leading, IsCurve, IsPoint, Cong, IsNonce, Ends;
    DomainAssociative(d);
    DomainGroup(d);
    BaseIn(d, priv);
    ghost var z := Leading(BigVal(data), d.n);
    var minus3 := AMinus3(d.curve);
    var publicKey := Mul_(G, priv, minus3, d.G);
    r, s := Sign(d, G, priv, data, hashes);
    ghost var k: nat :| Signed(d, priv, data, hashes, k, r, s);
    if s != 0 {
      SignedAccepted(d, priv, z, k, r, s);
    }
    valid := Verify(d, G, publicKey, data, r, s, BaseTimes(d, priv));
  }
}
