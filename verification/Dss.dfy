/** DSA: signing, verifying and the signature blob of sshdss.c (sections 4.6 and 4.7 of FIPS 186-4). */
module Dss {
  import opened Arith
  import opened Machine
  import opened Modular
  import opened SshStrings
  import opened NumberTheory
  import opened EcField
  import opened DssNonce
  import MontgomeryPower
  import Primality

  /** struct dss_key: p, q, g, the public y and the private x. */
  datatype DssKey = DssKey(p: nat, q: nat, g: nat, y: nat, x: nat)

  const SSH_DSS: seq<byte> := Ascii("ssh-dss")
  const DSA_ID: seq<byte> := Ascii("DSA deterministic k generator")

  /** b^e modulo m. */
  function ModExp(b: nat, e: nat, m: nat): (r: nat)
    requires m > 0
    ensures Is(r, Exp(b, e), m)
  {
    IsMod(Exp(b, e), m);
    Exp(b, e) % m
  }

  /** What modpow returns for it, where h is the number that the words hold which it never sets. */
  function ModPow(b: nat, e: nat, m: nat, h: nat): nat
    requires m > 0
  {
    MontgomeryPower.PowerOf(b, e, m, h)
  }

  /** modpow can be relied on: a positive exponent, an even modulus, or nothing left over. */
  ghost predicate Exact(e: nat, m: nat, h: nat) {
    e > 0 || m % 2 == 0 || Cong(h, 0, m)
  }

  lemma ModPowIs(b: nat, e: nat, m: nat, h: nat)
    requires m > 1
    ensures Exact(e, m, h) <==> Cong(ModPow(b, e, m, h), Exp(b, e), m)
  {
    hide Cong, Exp, MontgomeryPower.PowerOf;
    if e > 0 || m % 2 == 0 {
      MontgomeryPower.PowerRight(b, e, m, h);
      CongMod(Exp(b, e), m);
    } else {
      MontgomeryPower.ZeroExponentIff(b, m, h);
      ExpZero(b, m);
    }
  }

  /** q is prime, g has order q modulo p, and y = g^x. */
  ghost predicate IsKey(k: DssKey) {
    k.p > 1 && IsField(k.q) && Cong(Exp(k.g, k.q), 1, k.p) && k.y == ModExp(k.g, k.x, k.p)
  }

  // Exponents of an element of order q count modulo q.

  lemma ExpPeriod(g: int, q: nat, e: nat, k: nat, p: nat)
    requires Cong(Exp(g, q), 1, p)
    ensures Mul(q, k) >= 0 && Cong(Exp(g, e + Mul(q, k)), Exp(g, e), p)
  {
    hide Mul, Cong;
    ExpMul(g, q, k);
    ExpCong(Exp(g, q), 1, k, p);
    Primality.OneExp(k);
    ExpAdd(g, e, Mul(q, k));
    CongScale(Exp(g, Mul(q, k)), 1, Exp(g, e), p);
    MulUnit(Exp(g, e));
  }

  lemma ExpModOrder(g: int, q: nat, e: nat, f: nat, p: nat)
    requires Cong(Exp(g, q), 1, p) && q > 0 && Cong(e, f, q)
    ensures Cong(Exp(g, e), Exp(g, f), p)
  {
    hide Exp, Cong;
    var k := Steps(e, f, q);
    if k >= 0 {
      ExpPeriod(g, q, f, k, p);
      MulComm(q, k);
    } else {
      ExpPeriod(g, q, e, -k, p);
      MulComm(q, -k);
      OppositeMul(k, q);
      CongSym(Exp(g, e + Mul(q, -k)), Exp(g, e), p);
    }
  }

  // The equation of a signature.

  /** v = (g^u1 y^u2 mod p) mod q, from the results a and b of the two exponentiations. */
  function Combined(key: DssKey, a: nat, b: nat): nat
    requires key.p > 0 && key.q > 0
  {
    ModMul(ModMul(a, b, key.p), 1, key.q)
  }

  /** v, where l1 and l2 are left over in the two calls of modpow. */
  function Checked(key: DssKey, h: nat, r: nat, w: nat, l1: nat, l2: nat): nat
    requires key.p > 0 && key.q > 0
  {
    Combined(key, ModPow(key.g, ModMul(h, w, key.q), key.p, l1), ModPow(key.y, ModMul(r, w, key.q), key.p, l2))
  }

  /** What dss_verifysig requires of r and s, which it does not ask to be below q. */
  predicate IsValid(key: DssKey, h: nat, r: nat, s: nat, l1: nat, l2: nat)
    requires key.p > 0 && key.q > 1
  {
    s != 0 && ModInverse(s, key.q).Some? && Checked(key, h, r, ModInverse(s, key.q).value, l1, l2) == r
  }

  /** k = u1 + x u2 modulo q. */
  lemma ExponentsAgree(h: nat, x: nat, r: nat, k: nat, kinv: nat, s: nat, w: nat, q: nat)
    requires q > 0 && Cong(Mul(k, kinv), 1, q) && Cong(Mul(s, w), 1, q) && Is(s, Mul(kinv, h + Mul(x, r)), q)
    ensures Cong(ModMul(h, w, q) + Mul(x, ModMul(r, w, q)), k, q)
  {
    hide Mul, Cong;
    var m := h + Mul(x, r);
    var u1, u2 := ModMul(h, w, q), ModMul(r, w, q);
    IsBoth(u1, Mul(h, w), q);
    IsBoth(u2, Mul(r, w), q);
    IsBoth(s, Mul(kinv, m), q);
    CongScale(u2, Mul(r, w), x, q);
    CongAdd(u1, Mul(h, w), Mul(x, u2), Mul(x, Mul(r, w)), q);
    MulAssoc(x, r, w);
    MulPlus(h, Mul(x, r), w);
    // m * w = m * w * (k * kinv) = k * (s * w) = k
    CongScale(Mul(k, kinv), 1, Mul(m, w), q);
    MulUnit(Mul(m, w));
    CongSym(Mul(Mul(m, w), Mul(k, kinv)), Mul(m, w), q);
    CongScale(s, Mul(kinv, m), Mul(w, k), q);
    Rearranged(m, w, k, kinv, s);
    CongSym(Mul(s, Mul(w, k)), Mul(Mul(kinv, m), Mul(w, k)), q);
    CongScale(Mul(s, w), 1, k, q);
    MulUnit(k);
    CongTrans(Mul(m, w), Mul(Mul(m, w), Mul(k, kinv)), Mul(s, Mul(w, k)), q);
    CongTrans(Mul(m, w), Mul(s, Mul(w, k)), k, q);
    CongTrans(u1 + Mul(x, u2), Mul(m, w), k, q);
  }

  /** Division by s: m w = k when k s = m. */
  lemma Quotiented(k: nat, s: nat, m: int, w: nat, q: nat)
    requires Cong(Mul(k, s), m, q) && Cong(Mul(s, w), 1, q)
    ensures Cong(Mul(m, w), k, q)
  {
    hide Mul, Cong;
    CongScale(Mul(k, s), m, w, q);
    CongSym(Mul(w, Mul(k, s)), Mul(w, m), q);
    MulComm(w, m);
    MulComm(w, Mul(k, s));
    MulAssoc(k, s, w);
    CongScale(Mul(s, w), 1, k, q);
    MulUnit(k);
    CongTrans(Mul(m, w), Mul(k, Mul(s, w)), k, q);
  }

  lemma IsBoth(r: nat, x: int, q: nat)
    requires Is(r, x, q)
    ensures r < q && Cong(r, x, q)
  {
  }

  lemma Rearranged(m: int, w: int, k: int, kinv: int, s: int)
    ensures Mul(Mul(m, w), Mul(k, kinv)) == Mul(Mul(kinv, m), Mul(w, k))
    ensures Mul(s, Mul(w, k)) == Mul(Mul(s, w), k)
  {
    MulAssoc(s, w, k);
  }

  /** g^u1 y^u2 = g^(u1 + x u2) modulo p. */
  lemma PowersCombine(key: DssKey, u1: nat, u2: nat, a: nat, b: nat)
    requires key.p > 1 && key.y == ModExp(key.g, key.x, key.p)
    requires Cong(a, Exp(key.g, u1), key.p) && Cong(b, Exp(key.y, u2), key.p)
    ensures Mul(key.x, u2) >= 0 && Is(ModMul(a, b, key.p), Exp(key.g, u1 + Mul(key.x, u2)), key.p)
  {
    hide Mul, Cong, Exp;
    var p, g := key.p, key.g;
    IsBoth(key.y, Exp(g, key.x), p);
    ExpCong(key.y, Exp(g, key.x), u2, p);
    CongTrans(b, Exp(key.y, u2), Exp(Exp(g, key.x), u2), p);
    ExpMul(g, key.x, u2);
    ExpAdd(g, u1, Mul(key.x, u2));
    CongMul(a, Exp(g, u1), b, Exp(g, Mul(key.x, u2)), p);
    IsCong(ModMul(a, b, p), Mul(a, b), Exp(g, u1 + Mul(key.x, u2)), p);
  }

  /** The verification equation holds for a pair that signing computes, given the two powers. */
  lemma EquationHolds(key: DssKey, h: nat, k: nat, kinv: nat, s: nat, w: nat, a: nat, b: nat)
    requires IsKey(key) && Cong(Mul(k, kinv), 1, key.q) && Cong(Mul(s, w), 1, key.q)
    requires Is(s, Mul(kinv, h + Mul(key.x, ModExp(key.g, k, key.p) % key.q)), key.q)
    requires Cong(a, Exp(key.g, ModMul(h, w, key.q)), key.p)
    requires Cong(b, Exp(key.y, ModMul(ModExp(key.g, k, key.p) % key.q, w, key.q)), key.p)
    ensures ModMul(a, b, key.p) == ModExp(key.g, k, key.p) && Combined(key, a, b) == ModExp(key.g, k, key.p) % key.q
  {
    hide Mul, Cong, Exp, ModMul, ModExp, Is;
    var p, q, g := key.p, key.q, key.g;
    FieldBig(q);
    var r := ModExp(g, k, p) % q;
    var u1, u2 := ModMul(h, w, q), ModMul(r, w, q);
    ExponentsAgree(h, key.x, r, k, kinv, s, w, q);
    PowersCombine(key, u1, u2, a, b);
    ExpModOrder(g, q, u1 + Mul(key.x, u2), k, p);
    var gy := ModMul(a, b, p);
    IsCong(gy, Exp(g, u1 + Mul(key.x, u2)), Exp(g, k), p);
    IsUnique(gy, ModExp(g, k, p), Exp(g, k), p);
    TimesOne(gy, q);
  }

  /** g^u1 y^u2 = g^k for any k with k s = h + x r modulo q, however r and s were made. */
  lemma AcceptableMeans(key: DssKey, h: nat, k: nat, r: nat, s: nat)
    requires IsKey(key) && key.q > 0 && 0 < s < key.q && Cong(Mul(k, s), h + Mul(key.x, r), key.q)
    ensures Acceptable(key, h, r, s) <==> Exp(key.g, k) % key.p % key.q == r
  {
    FieldBig(key.q);
    hide Mul, Cong, Exp, Equation;
    Invertible(s, key.q);
    var p, q, w := key.p, key.q, ModInverse(s, key.q).value;
    InvertsIff(s, w, q);
    assert w < q && (s * w) % q == 1;
    EquationMeans(key, h, k, r, s, w);
    forall v: nat | v < q && (s * v) % q == 1 ensures v == w {
      InverseIs(s, v, q);
    }
  }

  lemma EquationMeans(key: DssKey, h: nat, k: nat, r: nat, s: nat, w: nat)
    requires IsKey(key) && key.q > 0 && Cong(Mul(k, s), h + Mul(key.x, r), key.q) && Cong(Mul(s, w), 1, key.q)
    ensures Equation(key, h, r, w) <==> Exp(key.g, k) % key.p % key.q == r
  {
    hide Mul, Cong, Exp, ModExp;
    FieldBig(key.q);
    var p, q, g := key.p, key.q, key.g;
    var u1, u2 := ModMul(h, w, q), ModMul(r, w, q);
    ProductIs(h, w, q);
    ProductIs(r, w, q);
    Quotiented(k, s, h + Mul(key.x, r), w, q);
    Exponent(h, key.x, r, w, q);
    CongTrans(u1 + Mul(key.x, u2), Mul(h + Mul(key.x, r), w), k, q);
    IsMod(Exp(g, u1), p);
    IsMod(Exp(key.y, u2), p);
    var a, b := Exp(g, u1) % p, Exp(key.y, u2) % p;
    IsBoth(a, Exp(g, u1), p);
    IsBoth(b, Exp(key.y, u2), p);
    PowersCombine(key, u1, u2, a, b);
    ExpModOrder(g, q, u1 + Mul(key.x, u2), k, p);
    CongMul(a, Exp(g, u1), b, Exp(key.y, u2), p);
    ResidueOf(a, b, Mul(Exp(g, u1), Exp(key.y, u2)), p);
    MulIs(Exp(g, u1), Exp(key.y, u2));
    IsMod(Exp(g, k), p);
    IsCong(ModMul(a, b, p), Exp(g, u1 + Mul(key.x, u2)), Exp(g, k), p);
    IsUnique(ModMul(a, b, p), Exp(g, k) % p, Exp(g, k), p);
  }

  /** u1 + x u2 is h + x r, divided by s. */
  lemma Exponent(h: nat, x: nat, r: nat, w: nat, q: nat)
    requires q > 0
    ensures Cong(ModMul(h, w, q) + Mul(x, ModMul(r, w, q)), Mul(h + Mul(x, r), w), q)
  {
    hide Mul, Cong;
    var u1, u2 := ModMul(h, w, q), ModMul(r, w, q);
    IsBoth(u1, Mul(h, w), q);
    IsBoth(u2, Mul(r, w), q);
    CongScale(u2, Mul(r, w), x, q);
    MulAssoc(x, r, w);
    CongAdd(u1, Mul(h, w), Mul(x, u2), Mul(x, Mul(r, w)), q);
    MulPlus(h, Mul(x, r), w);
  }

  lemma FieldBig(q: nat)
    requires IsField(q)
    ensures q > 3
  {
  }

  lemma TimesOne(v: nat, q: nat)
    requires q > 0
    ensures ModMul(v, 1, q) == v % q
  {
  }

  /** k and, when it is not zero, s have inverses modulo the prime q. */
  lemma Invertible(s: nat, q: nat)
    requires IsField(q) && 0 < s < q
    ensures Unit(s, q)
  {
    if Cong(s, 0, q) {
      CongUnique(s, 0, q);
    }
  }

  // The blob.

  /** string "ssh-dss", string of two 20-byte numbers. */
  function Blob(r: nat, s: nat): seq<byte> {
    Str(SSH_DSS) + Str(ToBytes(r, 20) + ToBytes(s, 20))
  }

  /** r and s of a blob, or of the bare 40 bytes of commercial SSH. */
  function ParseBlob(sig: seq<byte>): Option<(nat, nat)> {
    if |sig| == 40 then ParsePair(sig)
    else
      var name := TakeString(sig);
      if name.None? || name.value.0 != SSH_DSS || |name.value.1| < 4 then None else ParsePair(name.value.1[4..])
  }

  function ParsePair(b: seq<byte>): Option<(nat, nat)> {
    if |b| < 40 then None else Some((BigVal(b[..20]), BigVal(b[20..40])))
  }

  /** Exactly the signatures that are read: the length in front of the two numbers is not looked at, nor what follows them. */
  lemma ParseBlobIff(sig: seq<byte>, r: nat, s: nat)
    ensures ParseBlob(sig) == Some((r, s)) <==>
            exists b: seq<byte> :: |b| == 40 && r == BigVal(b[..20]) && s == BigVal(b[20..]) && Carries(sig, b)
  {
    hide BigVal, TakeString, Str;
    var name := TakeString(sig);
    if ParseBlob(sig) == Some((r, s)) {
      if |sig| == 40 {
        assert Carries(sig, sig);
        assert sig[20..40] == sig[20..];
      } else {
        var rest := name.value.1;
        StringIff(sig, SSH_DSS, rest);
        var b := rest[4..44];
        assert sig == Str(SSH_DSS) + rest[..4] + b + rest[44..];
        assert b[..20] == rest[4..][..20] && b[20..] == rest[4..][20..40];
        assert Carries(sig, b);
      }
    }
    if b: seq<byte> :| |b| == 40 && r == BigVal(b[..20]) && s == BigVal(b[20..]) && Carries(sig, b) {
      assert b[20..40] == b[20..];
      if sig != b {
        var four, rest :| |four| == 4 && sig == Str(SSH_DSS) + four + b + rest;
        assert sig == Str(SSH_DSS) + (four + b + rest);
        StringIff(sig, SSH_DSS, four + b + rest);
        assert (four + b + rest)[4..] == b + rest;
        assert (b + rest)[..20] == b[..20] && (b + rest)[20..40] == b[20..];
      }
    }
  }

  /** Forty bare bytes, or forty bytes after the name and four bytes more. */
  ghost predicate Carries(sig: seq<byte>, b: seq<byte>) {
    sig == b || exists four: seq<byte>, rest: seq<byte> :: |four| == 4 && sig == Str(SSH_DSS) + four + b + rest
  }

  lemma BlobParses(r: nat, s: nat)
    requires r < Pow256(20) && s < Pow256(20)
    ensures ParseBlob(Blob(r, s)) == Some((r, s))
  {
    hide BigVal, ToBytes, Pow256, TakeString;
    var body := ToBytes(r, 20) + ToBytes(s, 20);
    StringIff(Blob(r, s), SSH_DSS, Str(body));
    assert Str(body)[4..] == body && body[..20] == ToBytes(r, 20) && body[20..40] == ToBytes(s, 20);
    BytesRoundTrip(r, 20);
    BytesRoundTrip(s, 20);
  }

  method Get160(b: seq<byte>) returns (v: Option<nat>, rest: seq<byte>)
    ensures if |b| < 20 then v.None? && rest == b else v == Some(BigVal(b[..20])) && rest == b[20..]
  {
    if |b| < 20 {
      return None, b;
    }
    return Some(BigVal(b[..20])), b[20..];
  }

  /** Section 4.7 of FIPS 186-4, but for its range test of r and s: what a verifier has to accept. */
  ghost predicate Acceptable(key: DssKey, h: nat, r: nat, s: nat)
    requires key.p > 0 && key.q > 0
  {
    exists w: nat :: w < key.q && (s * w) % key.q == 1 && Equation(key, h, r, w)
  }

  ghost predicate Equation(key: DssKey, h: nat, r: nat, w: nat)
    requires key.p > 0 && key.q > 0
  {
    Exp(key.g, (h * w) % key.q) * Exp(key.y, (r * w) % key.q) % key.p % key.q == r
  }

  /** The two calls of modpow give powers. */
  ghost predicate BothExact(key: DssKey, h: nat, r: nat, l1: nat, l2: nat)
    requires key.q > 0
  {
    key.p > 1 && (h % key.q != 0 || Exact(0, key.p, l1)) && (r % key.q != 0 || Exact(0, key.p, l2))
  }

  /** Where they do, the code accepts what a verifier has to, and nothing else. */
  lemma ValidIff(key: DssKey, h: nat, r: nat, s: nat, l1: nat, l2: nat)
    requires key.q > 1 && BothExact(key, h, r, l1, l2)
    ensures IsValid(key, h, r, s, l1, l2) <==> Acceptable(key, h, r, s)
  {
    hide Exp, ModPow, Mul, Cong, Exact;
    if w: nat :| w < key.q && (s * w) % key.q == 1 && Equation(key, h, r, w) {
      InverseIs(s, w, key.q);
      CheckedEquation(key, h, r, s, w, l1, l2);
    }
    if IsValid(key, h, r, s, l1, l2) {
      var w := ModInverse(s, key.q).value;
      InvertsIff(s, w, key.q);
      CheckedEquation(key, h, r, s, w, l1, l2);
    }
  }

  lemma InverseIs(s: nat, w: nat, q: nat)
    requires q > 1 && w < q && (s * w) % q == 1
    ensures s > 0 && ModInverse(s, q) == Some(w)
  {
    if s == 0 {
      DivModUnique(0, q, 0, 0);
      assert false;
    }
    assert Inverts(s, w, q);
    InverseUnique(s, q);
    InvertsIff(s, w, q);
    UnitBy(s, w, q);
    InvertsIff(s, ModInverse(s, q).value, q);
  }

  lemma CheckedEquation(key: DssKey, h: nat, r: nat, s: nat, w: nat, l1: nat, l2: nat)
    requires key.q > 1 && BothExact(key, h, r, l1, l2) && Cong(Mul(s, w), 1, key.q)
    ensures Checked(key, h, r, w, l1, l2) == r <==> Equation(key, h, r, w)
  {
    hide Exp, ModPow, Mul, Cong;
    var p, q := key.p, key.q;
    var u1, u2 := ModMul(h, w, q), ModMul(r, w, q);
    ProductIs(h, w, q);
    ProductIs(r, w, q);
    ZeroIff(h, s, w, q);
    ZeroIff(r, s, w, q);
    ModPowIs(key.g, u1, p, l1);
    ModPowIs(key.y, u2, p, l2);
    var a, b := ModPow(key.g, u1, p, l1), ModPow(key.y, u2, p, l2);
    CongMul(a, Exp(key.g, u1), b, Exp(key.y, u2), p);
    ResidueOf(a, b, Mul(Exp(key.g, u1), Exp(key.y, u2)), p);
    TimesOne(ModMul(a, b, p), q);
    MulIs(Exp(key.g, u1), Exp(key.y, u2));
  }

  lemma ProductIs(x: nat, y: nat, m: nat)
    requires m > 0
    ensures ModMul(x, y, m) == (x * y) % m
  {
    MulIs(x, y);
    IsMod(Mul(x, y), m);
    IsUnique(ModMul(x, y, m), (x * y) % m, Mul(x, y), m);
  }

  lemma MulIs(x: int, y: int)
    ensures Mul(x, y) == x * y
  {
  }

  lemma ResidueOf(a: nat, b: nat, z: int, p: nat)
    requires p > 0 && Cong(Mul(a, b), z, p)
    ensures ModMul(a, b, p) == z % p
  {
    hide Cong, Mul;
    IsMod(z, p);
    IsCong(ModMul(a, b, p), Mul(a, b), z, p);
    IsUnique(ModMul(a, b, p), z % p, z, p);
  }

  /** A pair with hash and r not zero that is rejected, whatever is left over. */
  lemma ForgedRejected(l1: nat, l2: nat)
    ensures IsKey(DssKey(11, 5, 4, 4, 1)) && !IsValid(DssKey(11, 5, 4, 4, 1), 1, 1, 1, l1, l2)
  {
    var key := DssKey(11, 5, 4, 4, 1);
    ExampleKey();
    ValidIff(key, 1, 1, 1, l1, l2);
    forall w: nat | w < 5 && (1 * w) % 5 == 1 ensures !Equation(key, 1, 1, w) {
      assert w == 1;
      PowersOfFour();
    }
  }

  /** dss_verifysig; l1 and l2 are left over in its two calls of modpow. */
  method Verify(key: DssKey, sig: seq<byte>, data: seq<byte>, hashes: Hashes, l1: nat, l2: nat) returns (ok: bool)
    requires key.p > 0 && key.q > 1
    ensures ok <==> ParseBlob(sig).Some?
                    && IsValid(key, BigVal(hashes.sha1(data)), ParseBlob(sig).value.0, ParseBlob(sig).value.1, l1, l2)
    ensures ParseBlob(sig).Some? && BothExact(key, BigVal(hashes.sha1(data)), ParseBlob(sig).value.0, l1, l2) ==>
              (ok <==> Acceptable(key, BigVal(hashes.sha1(data)), ParseBlob(sig).value.0, ParseBlob(sig).value.1))
  {
    hide BigVal, Checked, TakeString, ModMul, ModInverse, Mul, Exp, BothExact, Acceptable;
    ghost var hash, rs := BigVal(hashes.sha1(data)), ParseBlob(sig);
    if rs.Some? && BothExact(key, hash, rs.value.0, l1, l2) {
      ValidIff(key, hash, rs.value.0, rs.value.1, l1, l2);
    }
    var b := sig;
    if |sig| != 40 {
      var cur := new Cursor(sig);
      var name := cur.GetString();
      if name.None? || |name.value| != 7 || name.value != SSH_DSS {
        return false;
      }
      if cur.datalen < 4 {
        return false;
      }
      b := cur.buf[cur.data + 4..cur.data + cur.datalen];
      assert b == cur.Rest()[4..];
    }
    ghost var pair := b;
    assert |pair| >= 40 ==> pair[20..][..20] == pair[20..40];
    var r, s;
    r, b := Get160(b);
    s, b := Get160(b);
    if r.None? || s.None? {
      return false;
    }
    if s.value == 0 {
      return false;
    }
    var w := ModInverse(s.value, key.q);
    if w.None? {
      return false;
    }
    var sha := BigVal(hashes.sha1(data));
    ok := Checked(key, sha, r.value, w.value, l1, l2) == r.value;
  }

  /** k is the nonce for the key and the digest, and s the other half of the signature. */
  ghost predicate Signed(key: DssKey, digest: seq<byte>, sha512: Hash, k: nat, s: nat)
    requires key.p > 0 && key.q > 0
  {
    && IsNonce(sha512, DSA_ID, key.x, digest, key.q, k) && 1 < k < key.q && s < key.q
    && Cong(Mul(k, s), BigVal(digest) + Mul(key.x, ModExp(key.g, k, key.p) % key.q), key.q)
  }

  /** A signature is determined by the key and the digest. */
  lemma SignedUnique(key: DssKey, digest: seq<byte>, sha512: Hash, k: nat, s: nat, l: nat, t: nat)
    requires IsKey(key) && key.q > 0
    requires Signed(key, digest, sha512, k, s) && Signed(key, digest, sha512, l, t)
    ensures k == l && s == t
  {
    hide Mul, Cong, Exp, ModExp, Is, IsNonce, BigVal;
    NonceUnique(sha512, DSA_ID, key.x, digest, key.q, k, l);
    Invertible(k, key.q);
    FieldBig(key.q);
    var kinv := ModInverse(k, key.q).value;
    var m := BigVal(digest) + Mul(key.x, ModExp(key.g, k, key.p) % key.q);
    SignIs(k, kinv, m, s, key.q);
    SignIs(k, kinv, m, t, key.q);
    IsUnique(s, t, Mul(kinv, m), key.q);
  }

  /** dss_sign: r, s and their blob. The exponent is never zero here, so nothing that is left over matters. */
  method Sign(key: DssKey, data: seq<byte>, hashes: Hashes, leftover: nat)
    returns (bytes: array<byte>, ghost k: nat, ghost s: nat)
    requires IsKey(key) && key.q > 0 && Ends(hashes.sha512, DSA_ID, key.x, hashes.sha1(data), key.q)
    ensures fresh(bytes) && Signed(key, hashes.sha1(data), hashes.sha512, k, s)
    ensures bytes[..] == Blob(ModExp(key.g, k, key.p) % key.q, s)
  {
    hide Mul, Cong, Exp, Blob, ToBytes, IsField, IsNonce, Ends, BigVal;
    FieldBig(key.q);
    var digest := hashes.sha1(data);
    var nonce, i := GenK(hashes.sha512, DSA_ID, key.q, key.x, digest);
    k := nonce;
    Invertible(nonce, key.q);
    var kinv := ModInverse(nonce, key.q);
    var gkp := ModPow(key.g, nonce, key.p, leftover);
    MontgomeryPower.PowerRight(key.g, nonce, key.p, leftover);
    var r := gkp % key.q;
    var hash := BigVal(digest);
    var hxr: nat := Mul(key.x, r) + hash;
    var sig := ModMul(kinv.value, hxr, key.q);
    s := sig;
    SignEquation(nonce, kinv.value, hxr, sig, key.q);
    bytes := WriteBlob(r, sig);
  }

  lemma SignEquation(k: nat, kinv: nat, m: nat, s: nat, q: nat)
    requires Cong(Mul(k, kinv), 1, q) && Is(s, Mul(kinv, m), q)
    ensures Cong(Mul(k, s), m, q)
  {
    CongScale(s, Mul(kinv, m), k, q);
    MulAssoc(k, kinv, m);
    CongScale(Mul(k, kinv), 1, m, q);
    MulUnit(m);
    CongTrans(Mul(k, s), Mul(k, Mul(kinv, m)), m, q);
  }

  /** The loop that writes byte 19 - i of r and s at place i of their fields. */
  method WriteBlob(r: nat, s: nat) returns (bytes: array<byte>)
    ensures fresh(bytes) && bytes[..] == Blob(r, s)
  {
    hide ByteOf, ToBytes, Str, Bytes4, Blob;
    bytes := new byte[4 + 7 + 4 + 40];
    ghost var head := Str(SSH_DSS) + Bytes4(40);
    WriteHeader(bytes);
    var i := 0;
    while i < 20
      invariant 0 <= i <= 20 && bytes[..15] == head
      invariant bytes[15..15 + i] == ToBytes(r, 20)[..i] && bytes[35..35 + i] == ToBytes(s, 20)[..i]
    {
      ToBytesAt(r, 20, i);
      ToBytesAt(s, 20, i);
      bytes[15 + i] := ByteOf(r, 19 - i);
      bytes[35 + i] := ByteOf(s, 19 - i);
      i := i + 1;
    }
    assert bytes[..] == bytes[..15] + bytes[15..35] + bytes[35..55];
    assert ToBytes(r, 20)[..20] == ToBytes(r, 20) && ToBytes(s, 20)[..20] == ToBytes(s, 20);
    BlobIs(r, s);
  }

  method WriteHeader(bytes: array<byte>)
    requires bytes.Length == 55
    modifies bytes
    ensures bytes[..15] == Str(SSH_DSS) + Bytes4(40)
  {
    hide Bytes4;
    var head := Bytes4(7) + SSH_DSS + Bytes4(40);
    var i := 0;
    while i < 15
      invariant 0 <= i <= 15 && bytes[..i] == head[..i]
    {
      bytes[i] := head[i];
      i := i + 1;
    }
    assert head[..15] == head;
  }

  lemma BlobIs(r: nat, s: nat)
    ensures Blob(r, s) == Str(SSH_DSS) + Bytes4(40) + ToBytes(r, 20) + ToBytes(s, 20)
  {
    hide ToBytes, Bytes4;
    assert Str(SSH_DSS) + (Bytes4(40) + (ToBytes(r, 20) + ToBytes(s, 20)))
        == Str(SSH_DSS) + Bytes4(40) + ToBytes(r, 20) + ToBytes(s, 20);
  }

  // Which signatures are accepted.

  /** s is not zero, and neither exponent is, or the exponentiation does not mind. */
  predicate Unconditional(key: DssKey, h: nat, r: nat, s: nat)
    requires key.q > 0
  {
    s != 0 && (key.p % 2 == 0 || (r % key.q != 0 && h % key.q != 0))
  }

  /** A signature that was computed is accepted when s is not zero and both exponentiations are exact. */
  lemma SignedValid(key: DssKey, h: nat, k: nat, s: nat, l1: nat, l2: nat)
    requires IsKey(key) && 1 < k < key.q && s < key.q
    requires Cong(Mul(k, s), h + Mul(key.x, ModExp(key.g, k, key.p) % key.q), key.q)
    requires s != 0
    requires h % key.q != 0 || Exact(0, key.p, l1)
    requires ModExp(key.g, k, key.p) % key.q != 0 || Exact(0, key.p, l2)
    ensures IsValid(key, h, ModExp(key.g, k, key.p) % key.q, s, l1, l2)
  {
    hide Mul, Cong, Exp, ModExp, ModPow, Is, ModMul, Combined;
    var q := key.q;
    FieldBig(q);
    Invertible(s, q);
    Invertible(k, q);
    var kinv, w := ModInverse(k, q).value, ModInverse(s, q).value;
    var r := ModExp(key.g, k, key.p) % q;
    SignIs(k, kinv, h + Mul(key.x, r), s, q);
    ZeroIff(h, s, w, q);
    ZeroIff(r, s, w, q);
    SmallRemainder(r, q);
    var u1, u2 := ModMul(h, w, q), ModMul(r, w, q);
    ModPowIs(key.g, u1, key.p, l1);
    ModPowIs(key.y, u2, key.p, l2);
    EquationHolds(key, h, k, kinv, s, w, ModPow(key.g, u1, key.p, l1), ModPow(key.y, u2, key.p, l2));
  }

  lemma SmallRemainder(r: nat, q: nat)
    requires r < q
    ensures r % q == r
  {
    DivModUnique(r, q, 0, r);
  }

  /** The exponent of v is zero modulo q exactly when v is. */
  lemma ZeroIff(v: nat, s: nat, w: nat, q: nat)
    requires q > 1 && Cong(Mul(s, w), 1, q)
    ensures ModMul(v, w, q) == 0 <==> v % q == 0
  {
    hide Mul, Cong;
    IsBoth(ModMul(v, w, q), Mul(v, w), q);
    DivModUnique(0, q, 0, 0);
    CongIffMod(v, 0, q);
    MulUnit(w);
    if v % q == 0 {
      CongScale(v, 0, w, q);
      CongTrans(ModMul(v, w, q), Mul(v, w), 0, q);
      CongUnique(ModMul(v, w, q), 0, q);
    }
    if ModMul(v, w, q) == 0 {
      CongSym(0, Mul(v, w), q);
      MulComm(w, s);
      CongCancel(v, 0, w, s, q);
    }
  }

  /** If h is zero modulo q and r is not, words that hold p - 1 make the signature fail. */
  lemma ZeroHashFails(key: DssKey, h: nat, r: nat, s: nat, l2: nat)
    requires IsKey(key) && key.p % 2 == 1 && 0 < s < key.q && h % key.q == 0 && r != 0
    ensures !IsValid(key, h, r, s, key.p - 1, l2)
  {
    FieldBig(key.q);
    Invertible(s, key.q);
    var w := ModInverse(s, key.q).value;
    ZeroIff(h, s, w, key.q);
    hide ModMul, Exp;
    DivModUnique(1, key.p, 0, 1);
    ExpZeroIs(key.g);
    assert ModPow(key.g, 0, key.p, key.p - 1) == 0;
    ProductZero(key, ModPow(key.y, ModMul(r, w, key.q), key.p, l2));
  }

  lemma ExpZeroIs(b: nat)
    ensures Exp(b, 0) == 1
  {
  }

  lemma ProductZero(key: DssKey, b: nat)
    requires key.p > 0 && key.q > 0
    ensures Combined(key, 0, b) == 0
  {
    MulUnit(b);
    DivModUnique(0, key.p, 0, 0);
    DivModUnique(0, key.q, 0, 0);
  }

  /** If r is zero and h is not zero modulo q, words that hold the inverse of g^u1, less 1, make the signature fail. */
  lemma ZeroRFails(key: DssKey, h: nat, s: nat, l1: nat) returns (l2: nat)
    requires IsKey(key) && key.p % 2 == 1 && 0 < s < key.q && h % key.q != 0
    ensures l2 < key.p && !IsValid(key, h, 0, s, l1, l2)
  {
    FieldBig(key.q);
    Invertible(s, key.q);
    var p, q, w := key.p, key.q, ModInverse(s, key.q).value;
    ZeroIff(h, s, w, q);
    ZeroIff(0, s, w, q);
    SmallRemainder(0, q);
    var u1 := ModMul(h, w, q);
    hide Mul, Cong, Exp, IsField, ModMul;
    MontgomeryPower.PowerRight(key.g, u1, p, l1);
    IsBoth(ModExp(key.g, u1, p), Exp(key.g, u1), p);
    PowerUnit(key.g, q, u1, p);
    CongSym(ModExp(key.g, u1, p), Exp(key.g, u1), p);
    UnitCong(Exp(key.g, u1), ModExp(key.g, u1, p), p);
    var z := ModInverse(ModExp(key.g, u1, p), p).value;
    if z == 0 {
      MulUnit(ModExp(key.g, u1, p));
      CongUnique(0, 1, p);
    }
    l2 := z - 1;
    DivModUnique(1, p, 0, 1);
    ExpZeroIs(key.y);
    LeftoverIs(key.y, p, l2);
    IsOneProduct(key, ModExp(key.g, u1, p), z);
  }

  lemma LeftoverIs(b: nat, p: nat, l: nat)
    requires p > 1 && p % 2 == 1 && l + 1 < p
    ensures ModPow(b, 0, p, l) == l + 1
  {
    DivModUnique(1, p, 0, 1);
  }

  lemma IsOneProduct(key: DssKey, a: nat, z: nat)
    requires key.p > 1 && key.q > 1 && Cong(Mul(a, z), 1, key.p)
    ensures Combined(key, a, z) == 1
  {
    hide Mul, Cong;
    IsBoth(ModMul(a, z, key.p), Mul(a, z), key.p);
    CongTrans(ModMul(a, z, key.p), Mul(a, z), 1, key.p);
    CongUnique(ModMul(a, z, key.p), 1, key.p);
    TimesOne(1, key.q);
    DivModUnique(1, key.q, 0, 1);
  }

  /** Powers of an element of finite order have inverses. */
  lemma PowerUnit(g: int, q: nat, u: nat, p: nat)
    requires q > 0 && p > 0 && Cong(Exp(g, q), 1, p)
    ensures Unit(Exp(g, u), p)
  {
    hide Mul, Cong, Exp;
    MulLe(1, q, u);
    MulUnit(u);
    var v: nat := Mul(q, u) - u;
    ExpPeriod(g, q, 0, u, p);
    ExpAdd(g, u, v);
    ExpZero(g, p);
    CongTrans(Exp(g, Mul(q, u)), Exp(g, 0), 1, p);
    UnitBy(Exp(g, u), Exp(g, v), p);
  }

  /** A computed signature is accepted, whatever is left over in the two calls, exactly when it is unconditional. */
  lemma AlwaysAcceptedIff(key: DssKey, h: nat, k: nat, s: nat, limit: nat)
    requires IsKey(key) && 1 < k < key.q && s < key.q && limit >= key.p
    requires Cong(Mul(k, s), h + Mul(key.x, ModExp(key.g, k, key.p) % key.q), key.q)
    ensures var r := ModExp(key.g, k, key.p) % key.q;
            (forall l1: nat, l2: nat :: l1 < limit && l2 < limit ==> IsValid(key, h, r, s, l1, l2))
            <==> Unconditional(key, h, r, s)
  {
    FieldBig(key.q);
    hide Mul, Cong, Exp, ModExp, IsField, IsValid;
    var q := key.q;
    var r := ModExp(key.g, k, key.p) % q;
    SmallRemainder(r, q);
    if Unconditional(key, h, r, s) {
      forall l1: nat, l2: nat | l1 < limit && l2 < limit ensures IsValid(key, h, r, s, l1, l2) {
        SignedValid(key, h, k, s, l1, l2);
      }
    } else if s == 0 {
      ZeroInvalid(key, h, r, 0, 0);
    } else if h % q == 0 {
      if r == 0 {
        BothZero(h, k, s, key.x, q);
      } else {
        ZeroHashFails(key, h, r, s, 0);
      }
    } else {
      var l2 := ZeroRFails(key, h, s, 0);
      assert r == 0;
    }
  }

  lemma ZeroInvalid(key: DssKey, h: nat, r: nat, l1: nat, l2: nat)
    requires key.p > 0 && key.q > 1
    ensures !IsValid(key, h, r, 0, l1, l2)
  {
  }

  /** h and r cannot both be zero unless s is. */
  lemma BothZero(h: nat, k: nat, s: nat, x: nat, q: nat)
    requires IsField(q) && 1 < k < q && s < q && h % q == 0 && Cong(Mul(k, s), h + Mul(x, 0), q)
    ensures s == 0
  {
    Invertible(k, q);
    hide Mul, Cong, IsField;
    MulUnit(x);
    DivModUnique(0, q, 0, 0);
    CongIffMod(h, 0, q);
    CongTrans(Mul(k, s), h, 0, q);
    MulComm(k, s);
    MulUnit(k);
    UnitCancel(s, 0, k, q);
    CongUnique(s, 0, q);
  }

  /** A signature of a message whose hash is zero modulo q, rejected because one word was left over. */
  lemma RejectedExample()
    ensures IsKey(DssKey(11, 5, 4, 4, 1)) && Cong(Mul(3, 3), 0 + Mul(1, ModExp(4, 3, 11) % 5), 5)
    ensures !IsValid(DssKey(11, 5, 4, 4, 1), 0, ModExp(4, 3, 11) % 5, 3, 1, 0)
  {
    ExampleKey();
    PowersOfFour();
    CongBy(9, 4, 5, 1);
    var key := DssKey(11, 5, 4, 4, 1);
    assert Inverts(3, 2, 5);
    InverseUnique(3, 5);
    InvertsIff(3, 2, 5);
    UnitBy(3, 2, 5);
    assert ModInverse(3, 5) == Some(2) by { InvertsIff(3, ModInverse(3, 5).value, 5); }
    assert ModMul(0, 2, 5) == 0 && ModMul(4, 2, 5) == 3;
    assert ModPow(4, 0, 11, 1) == 2 && ModPow(4, 3, 11, 0) == 9;
    assert ModMul(2, 9, 11) == 7 && ModMul(7, 1, 5) == 2;
  }

  lemma ExampleKey()
    ensures IsKey(DssKey(11, 5, 4, 4, 1))
  {
    Primality.SmallPrime(5);
    FieldByPrime(5);
    PowersOfFour();
    CongBy(Exp(4, 5), 1, 11, 93);
  }

  lemma FieldByPrime(q: nat)
    requires Primality.Prime(q) && q > 3
    ensures IsField(q)
  {
    hide Cong, Primality.Prime;
    forall x: int | !Cong(x, 0, q) ensures Unit(x, q) {
      Primality.PrimeUnit(x, q);
    }
  }

  lemma PowersOfFour()
    ensures Exp(4, 0) == 1 && Exp(4, 1) == 4 && Exp(4, 3) == 64 && Exp(4, 5) == 1024
  {
    assert Exp(4, 2) == Mul(4, Exp(4, 1));
    assert Exp(4, 4) == Mul(4, Exp(4, 3));
  }

  /**
   * What dss_sign emits is accepted, whatever is left over, when it is unconditional; it is rejected when s is zero; and
   * otherwise the left-over words decide.
   */
  method SignThenVerify(key: DssKey, data: seq<byte>, hashes: Hashes, leftover: nat, l1: nat, l2: nat) returns (ok: bool)
    requires IsKey(key) && key.q > 0 && Ends(hashes.sha512, DSA_ID, key.x, hashes.sha1(data), key.q)
    requires key.q <= Pow256(20)
    ensures exists k: nat, s: nat ::
              var r, h := ModExp(key.g, k, key.p) % key.q, BigVal(hashes.sha1(data));
              && Signed(key, hashes.sha1(data), hashes.sha512, k, s)
              && (Unconditional(key, h, r, s) ==> ok) && (s == 0 ==> !ok)
              && (ok <==> key.q > 1 && IsValid(key, h, r, s, l1, l2))
  {
    hide Mul, Cong, Exp, Blob, ToBytes, ModExp, ParseBlob, Pow256, IsValid, IsNonce, Ends, BigVal;
    ghost var k, s;
    var bytes;
    bytes, k, s := Sign(key, data, hashes, leftover);
    FieldBig(key.q);
    ghost var r := ModExp(key.g, k, key.p) % key.q;
    BlobParses(r, s);
    ok := Verify(key, bytes[..], data, hashes, l1, l2);
    ZeroInvalid(key, BigVal(hashes.sha1(data)), r, l1, l2);
    SmallRemainder(r, key.q);
    if Unconditional(key, BigVal(hashes.sha1(data)), r, s) {
      SignedValid(key, BigVal(hashes.sha1(data)), k, s, l1, l2);
    }
  }

  lemma SignIs(k: nat, kinv: nat, m: nat, s: nat, q: nat)
    requires Cong(Mul(k, kinv), 1, q) && Cong(Mul(k, s), m, q) && s < q
    ensures Is(s, Mul(kinv, m), q)
  {
    CongScale(Mul(k, s), m, kinv, q);
    MulAssoc(kinv, k, s);
    MulComm(kinv, k);
    CongScale(Mul(k, kinv), 1, s, q);
    MulUnit(s);
    CongSym(Mul(Mul(k, kinv), s), s, q);
    CongTrans(s, Mul(kinv, Mul(k, s)), Mul(kinv, m), q);
  }
}
