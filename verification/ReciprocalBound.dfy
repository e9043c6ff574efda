/**
 * The bound that the comments on reciprocal_word ask for, recip * (d+1) <= 2^(2W-1), holds for every d. Where it failed,
 * d+1 would divide 2^(2W-1) + t for some t from 1 to 5 and the estimate would be at least t off. Most of these numbers
 * have a prime factor too large to leave two factors of W bits; the factors of the rest are few.
 */
module ReciprocalBound {
  import opened Arith
  import opened Modular
  import opened Words
  import opened NumberTheory
  import opened Primality
  import opened PrimeCertificates
  import opened Reciprocal
  import opened DivisionMath

  /** NewtonEstimate(m - 1), for words of half size h. */
  function Estimate(m: int, h: int): int
    requires m > 0 && h > 0
  {
    var b := h * h;
    var ds := (m - 1) / h + 1;
    var x := (b / 2 + ds - 1) / ds * h;
    2 * ((b * b - x * m) / b) * x / b
  }

  /** How far the estimate for m is below q - 1, where m * q is just above K. */
  function Gap(m: int, q: int, h: int): int
    requires m > 0 && h > 0
  {
    q - 1 - Estimate(m, h)
  }

  predicate Close(m: int, q: int, h: int) {
    m > 0 && q > 0 && h > 0 && Gap(m, q, h) < 2 && Gap(q, m, h) < 2
  }

  lemma EstimateIs(d: word)
    requires d >= TOP
    ensures NewtonEstimate(d) == Estimate(d + 1, H)
  {
    Scales();
    SeedFacts(d);
    SeedIs(d);
    EstimateMath(d, H, B, TOP, K, Seed(d));
  }

  lemma EstimateMath(d: nat, h: nat, b: nat, top: nat, k: nat, x: nat)
    requires Mul(h, h) == b == 2 * top && h > 0 && b > 0 && 2 * k == Mul(b, b)
    requires x == Mul((top + d / h) / (d / h + 1), h)
    ensures (2 * Mul((2 * k - Mul(x, d + 1)) / b, x)) / b == Estimate(d + 1, h)
  {
    Assoc(2, (2 * k - Mul(x, d + 1)) / b, x);
    assert top == b / 2;
  }

  /** A gap below t, shown without division: ds, c and u are the quotients that the estimate takes. */
  lemma Near(m: nat, q: nat, h: nat, t: nat, ds: nat, c: nat, u: nat)
    requires m > 0 && h > 0 && (ds - 1) * h < m <= ds * h && ds > 0 && (c - 1) * ds < h * h / 2 <= c * ds
    requires u * (h * h) <= h * h * (h * h) - c * h * m < (u + 1) * (h * h) && (q - t) * (h * h) <= 2 * u * (c * h)
    ensures Gap(m, q, h) < t
  {
    var b := h * h;
    MulStrict(0, h, h);
    Quotient(m - 1, h, ds - 1);
    Distrib(c, -1, ds);
    Quotient(b / 2 + ds - 1, ds, c);
    Quotient(b * b - c * h * m, b, u);
    AtLeastQuotient(2 * u * (c * h), b, q - t);
  }

  lemma Quotient(x: int, m: nat, q: int)
    requires m > 0 && q * m <= x < (q + 1) * m
    ensures x / m == q
  {
    Distrib(q, 1, m);
    DivModUnique(x, m, q, x - q * m);
  }

  lemma AtLeastQuotient(x: int, m: nat, q: int)
    requires m > 0 && q * m <= x
    ensures x / m >= q
  {
    DivMod(x, m);
    if x / m < q {
      MulMono(x / m + 1, q, m);
      Distrib(x / m, 1, m);
    }
  }

  // Factors of n in pairs.

  /** A prime beyond both factors cannot divide their product. */
  lemma NoSplit(p: nat, s: nat, n: nat, m: nat, q: nat)
    requires Prime(p) && n == s * p && 0 < m < p && 0 < q < p
    ensures m * q != n
  {
    hide Prime;
    if m * q == n {
      CongBy(Mul(m, q), 0, p, s);
      Euclid(p, m, q);
      if Cong(m, 0, p) {
        CongUnique(m, 0, p);
      } else {
        CongUnique(q, 0, p);
      }
    }
  }

  /** A prime factor of a product goes to one of its factors. */
  lemma OneSide(p: nat, s: nat, m: nat, q: nat) returns (left: bool, k: nat)
    requires Prime(p) && m * q == p * s
    ensures if left then m == p * k && k * q == s else q == p * k && m * k == s
  {
    PrimePositive(p);
    hide Prime;
    CongBy(Mul(m, q), 0, p, s);
    Euclid(p, m, q);
    if Cong(m, 0, p) {
      left := true;
      k := Cofactor(m, q, p, s);
    } else {
      left := false;
      k := Cofactor(q, m, p, s);
    }
  }

  lemma Cofactor(m: nat, q: nat, p: nat, s: nat) returns (k: nat)
    requires p > 1 && Cong(m, 0, p) && m * q == p * s
    ensures m == p * k && k * q == s
  {
    var l := CongZero(m, p);
    if l < 0 {
      MulLe(l, -1, p);
      OppositeMul(1, p);
      MulUnit(p);
    }
    k := l;
    MulComm(k, p);
    Assoc(p, k, q);
    CancelProduct(k * q, s, p);
  }

  datatype Factors = End | More(p: nat, rest: Factors)

  function Product(f: Factors): nat {
    match f
    case End => 1
    case More(p, rest) => p * Product(rest)
  }

  ghost predicate AllPrime(f: Factors) {
    match f
    case End => true
    case More(p, rest) => Prime(p) && AllPrime(rest)
  }

  /** Whichever of u and v each factor goes to, the result is close, or one of the two exceeds the limit. */
  ghost predicate Swept(u: nat, v: nat, f: Factors, limit: nat, h: int)
    decreases f
  {
    u > limit || v > limit
    || match f
       case End => Close(u, v, h)
       case More(p, rest) => Swept(u * p, v, rest, limit, h) && Swept(u, v * p, rest, limit, h)
  }

  lemma {:induction false} SweptAll(u: nat, v: nat, f: Factors, limit: nat, h: int, a: nat, c: nat)
    requires AllPrime(f) && Swept(u, v, f, limit, h) && u > 0 && v > 0
    requires a * c == Product(f) && u * a <= limit && v * c <= limit
    ensures Close(u * a, v * c, h)
    decreases f
  {
    hide Close, Prime;
    AllPrimePositive(f);
    assert a > 0 && c > 0;
    MulMono(1, a, u);
    MulMono(1, c, v);
    match f
    case End =>
      OneOne(a, c);
    case More(p, rest) =>
      var left, k := OneSide(p, Product(rest), a, c);
      if left {
        Assoc(u, p, k);
        PrimePositive(p);
        MulStrict(0, u, p);
        SweptAll(u * p, v, rest, limit, h, k, c);
      } else {
        Assoc(v, p, k);
        PrimePositive(p);
        MulStrict(0, v, p);
        SweptAll(u, v * p, rest, limit, h, a, k);
      }
  }

  lemma OneOne(a: nat, c: nat)
    requires a * c == 1
    ensures a == 1 && c == 1
  {
    if a > 1 {
      MulMono(2, a, c);
    }
  }

  lemma {:induction false} AllPrimePositive(f: Factors)
    requires AllPrime(f)
    ensures Product(f) > 0
  {
    match f
    case End =>
    case More(p, rest) =>
      AllPrimePositive(rest);
      PrimePositive(p);
      MulStrict(0, Product(rest), p);
  }

  /** Two factors of p * Product(f) within the limit are close. */
  lemma Sweep(p: nat, f: Factors, limit: nat, h: int, m: nat, q: nat)
    requires Prime(p) && AllPrime(f) && Swept(p, 1, f, limit, h)
    requires m * q == p * Product(f) && m <= limit && q <= limit
    ensures Close(m, q, h)
  {
    hide Prime, Gap;
    PrimePositive(p);
    var left, k := OneSide(p, Product(f), m, q);
    if left {
      SweptAll(p, 1, f, limit, h, k, q);
    } else {
      MulComm(m, k);
      SweptAll(p, 1, f, limit, h, k, m);
    }
  }

  // Words of 16 bits.

  lemma Close16()
    ensures Close(54161, 39650, 256)
    ensures Close(34346, 62525, 256)
    ensures Close(33025, 65026, 256)
  {
    hide Estimate;
    Near(54161, 39650, 256, 2, 212, 155, 32743);
    Near(39650, 54161, 256, 2, 155, 212, 32700);
    Near(34346, 62525, 256, 2, 135, 243, 32934);
    Near(62525, 34346, 256, 2, 245, 134, 32808);
    Near(33025, 65026, 256, 2, 130, 253, 32898);
    Near(65026, 33025, 256, 2, 255, 129, 32768);
  }

  lemma Two16(m: nat, q: nat)
    requires 0 < m <= 0x1_0000 && 0 < q <= 0x1_0000 && m * q == 0x8000_0002
    ensures Close(m, q, 0x100)
  {
    hide Prime, Gap, Close;
    Close16();
    SmallPrime(1321); SmallPrime(2); SmallPrime(5); SmallPrime(13); SmallPrime(41); SmallPrime(61);
    assert Swept(1321, 1, More(61, More(41, More(13, More(5, More(5, More(2, End)))))), 65536, 256);
    Sweep(1321, More(61, More(41, More(13, More(5, More(5, More(2, End)))))), 0x1_0000, 0x100, m, q);
  }

  lemma Three16(m: nat, q: nat)
    requires 0x8000 <= m <= 0x1_0000 && 0x8000 <= q <= 0x1_0000
    ensures m * q != 0x8000_0003
  {
    Prime20261();
    hide Prime;
    if m * q == 0x8000_0003 {
      var left, k := OneSide(20261, 105991, m, q);
      NotTwoOrThree(k, if left then q else m);
    }
  }

  lemma NotTwoOrThree(k: nat, other: nat)
    requires 1 < k < 4
    ensures k * other != 105991
  {
    if k == 2 {
    } else {
    }
  }

  lemma Small16(m: nat, q: nat, t: nat)
    requires 0x8000 <= m <= 0x1_0000 && 0x8000 <= q <= 0x1_0000 && m * q == 0x8000_0000 + t && 1 <= t <= 5
    ensures Gap(m, q, 0x100) < t
  {
    hide Gap, Prime;
    if t == 1 {
      Prime715827883();
      NoSplit(715827883, 3, 0x8000_0001, m, q);
    } else if t == 2 {
      Two16(m, q);
    } else if t == 3 {
      Three16(m, q);
    } else if t == 4 {
      Prime3033169();
      NoSplit(3033169, 708, 0x8000_0004, m, q);
    } else {
      Prime43826197();
      NoSplit(43826197, 49, 0x8000_0005, m, q);
    }
  }

  // Words of 32 bits.

  lemma Close32()
    ensures Close(3340214413, 2761311370, 65536)
    ensures Close(4294836226, 2147549185, 65536)
  {
    hide Estimate;
    Near(3340214413, 2761311370, 65536, 2, 50968, 42134, 2147497293);
    Near(2761311370, 3340214413, 65536, 2, 42135, 50967, 2147510072);
    Near(4294836226, 2147549185, 65536, 2, 65535, 32769, 2147483648);
    Near(2147549185, 4294836226, 65536, 2, 32770, 65533, 2147516418);
  }

  lemma Two32(m: nat, q: nat)
    requires 0 < m <= 0x1_0000_0000 && 0 < q <= 0x1_0000_0000 && m * q == 0x8000_0000_0000_0002
    ensures Close(m, q, 0x1_0000)
  {
    hide Prime, Gap, Close;
    Close32();
    Prime384773();
    Prime49477(); Prime8681(); Prime5581(); SmallPrime(5); SmallPrime(2);
    assert Swept(384773, 1, More(49477, More(8681, More(5581, More(5, More(2, End))))), 4294967296, 65536);
    Sweep(384773, More(49477, More(8681, More(5581, More(5, More(2, End))))), 0x1_0000_0000, 0x1_0000, m, q);
  }

  lemma Five32Gaps()
    ensures Gap(2977518503, 3097670771, 65536) < 5 && Gap(3097670771, 2977518503, 65536) < 5
  {
    Near(2977518503, 3097670771, 65536, 5, 45434, 47267, 2147470239);
    Near(3097670771, 2977518503, 65536, 5, 47267, 45434, 2147451826);
  }

  lemma Five32(m: nat, q: nat)
    requires 0x8000_0000 <= m <= 0x1_0000_0000 && 0x8000_0000 <= q <= 0x1_0000_0000
    requires m * q == 0x8000_0000_0000_0005
    ensures Gap(m, q, 0x1_0000) < 5
  {
    Prime2977518503();
    hide Gap, Prime;
    Five32Gaps();
    var left, k := OneSide(2977518503, 3097670771, m, q);
    assert k == 1;
  }

  lemma Small32(m: nat, q: nat, t: nat)
    requires 0x8000_0000 <= m <= 0x1_0000_0000 && 0x8000_0000 <= q <= 0x1_0000_0000
    requires m * q == 0x8000_0000_0000_0000 + t && 1 <= t <= 5
    ensures Gap(m, q, 0x1_0000) < t
  {
    hide Gap, Prime;
    if t == 1 {
      Prime77158673929();
      NoSplit(77158673929, 119537721, 0x8000_0000_0000_0001, m, q);
    } else if t == 2 {
      Two32(m, q);
    } else if t == 3 {
      Prime7047956753329();
      NoSplit(7047956753329, 1308659, 0x8000_0000_0000_0003, m, q);
    } else if t == 4 {
      Prime768614336404564651();
      NoSplit(768614336404564651, 12, 0x8000_0000_0000_0004, m, q);
    } else {
      Five32(m, q);
    }
  }

  // Words of 64 bits.

  lemma Close64A()
    ensures Close(10841036533276733797, 15694180435442512090, 4294967296)
    ensures Close(14375738491723047874, 11835300395762586145, 4294967296)
    ensures Close(12199594591599834205, 13946462087979696106, 4294967296)
  {
    hide Estimate;
    Near(10841036533276733797, 15694180435442512090, 4294967296, 2, 2524125514, 3654086133, 9223372035350518202);
    Near(15694180435442512090, 10841036533276733797, 4294967296, 2, 3654086133, 2524125514, 9223372036554911860);
    Near(14375738491723047874, 11835300395762586145, 4294967296, 2, 3347112447, 2755620609, 9223372036795534880);
    Near(11835300395762586145, 14375738491723047874, 4294967296, 2, 2755620609, 3347112447, 9223372034175172320);
    Near(12199594591599834205, 13946462087979696106, 4294967296, 2, 2840439462, 3247163744, 9223372038668689552);
    Near(13946462087979696106, 12199594591599834205, 4294967296, 2, 3247163745, 2840439461, 9223372037109535887);
  }

  lemma Close64B()
    ensures Close(9561844409632302485, 17793761974318922618, 4294967296)
    ensures Close(11767750535260017065, 14458258861850510642, 4294967296)
    ensures Close(9223372041149743105, 18446744065119617026, 4294967296)
  {
    hide Estimate;
    Near(9561844409632302485, 17793761974318922618, 4294967296, 2, 2226290389, 4142933053, 9223372037977771845);
    Near(17793761974318922618, 9561844409632302485, 4294967296, 2, 4142933054, 2226290389, 9223372034422227961);
    Near(11767750535260017065, 14458258861850510642, 4294967296, 2, 2739892932, 3366325717, 9223372036632622328);
    Near(14458258861850510642, 11767750535260017065, 4294967296, 2, 3366325717, 2739892932, 9223372035113572851);
    Near(9223372041149743105, 18446744065119617026, 4294967296, 2, 2147483650, 4294967293, 9223372039002259458);
    Near(18446744065119617026, 9223372041149743105, 4294967296, 2, 4294967295, 2147483649, 9223372036854775808);
  }

  lemma Close64C()
    ensures Close(16280520924011106178, 10450598248950302785, 4294967296)
    ensures Close(9241404040443596801, 18410750435309641730, 4294967296)
    ensures Close(13995803155110768338, 12156585911851706585, 4294967296)
  {
    hide Estimate;
    Near(16280520924011106178, 10450598248950302785, 4294967296, 2, 3790604166, 2433219517, 9223372036366174024);
    Near(10450598248950302785, 16280520924011106178, 4294967296, 2, 2433219517, 3790604166, 9223372036265445577);
    Near(9241404040443596801, 18410750435309641730, 4294967296, 2, 2151682052, 4286586873, 9223372039014858764);
    Near(18410750435309641730, 9241404040443596801, 4294967296, 2, 4286586875, 2151682051, 9223372036863152136);
    Near(13995803155110768338, 12156585911851706585, 4294967296, 2, 3258651858, 2830425722, 9223372038451503759);
    Near(12156585911851706585, 13995803155110768338, 4294967296, 2, 2830425723, 3258651857, 9223372037016957910);
  }

  lemma Close64D()
    ensures Close(15684951811762067965, 10847415121344599722, 4294967296)
    ensures Close(12293610879489188405, 13839805499646558266, 4294967296)
    ensures Close(13500376494752865034, 12602699156323328845, 4294967296)
  {
    hide Estimate;
    Near(15684951811762067965, 10847415121344599722, 4294967296, 2, 3651937427, 2525610645, 9223372035698504777);
    Near(10847415121344599722, 15684951811762067965, 4294967296, 2, 2525610645, 3651937426, 9223372036886322876);
    Near(12293610879489188405, 13839805499646558266, 4294967296, 2, 2862329334, 3222330823, 9223372035501102754);
    Near(13839805499646558266, 12293610879489188405, 4294967296, 2, 3222330823, 2862329334, 9223372036537962787);
    Near(13500376494752865034, 12602699156323328845, 4294967296, 2, 3143301349, 2934294557, 9223372034789125124);
    Near(12602699156323328845, 13500376494752865034, 4294967296, 2, 2934294557, 3143301349, 9223372036393744907);
  }

  lemma Close64E()
    ensures Close(15129732278602348745, 11245485401026970354, 4294967296)
    ensures Close(11858438812958597665, 14347688270275789762, 4294967296)
    ensures Close(13878273667454134874, 12259535122114388645, 4294967296)
  {
    hide Estimate;
    Near(15129732278602348745, 11245485401026970354, 4294967296, 2, 3522665305, 2618293604, 9223372037282088262);
    Near(11245485401026970354, 15129732278602348745, 4294967296, 2, 2618293605, 3522665304, 9223372038786323545);
    Near(11858438812958597665, 14347688270275789762, 4294967296, 2, 2761007942, 3340581495, 9223372036615638069);
    Near(14347688270275789762, 11858438812958597665, 4294967296, 2, 3340581495, 2761007942, 9223372035355456064);
    Near(13878273667454134874, 12259535122114388645, 4294967296, 2, 3231287391, 2854395454, 9223372034848515702);
    Near(12259535122114388645, 13878273667454134874, 4294967296, 2, 2854395454, 3231287391, 9223372036277891207);
  }

  lemma Factors64()
    ensures Prime(40388473189) && AllPrime(More(118750098349, More(14449, More(1429, More(113, More(109, More(37, More(29, More(13, More(5, More(2, End)))))))))))
  {
    Prime40388473189();
    Prime118750098349();
    Prime14449();
    hide Prime;
    SmallPrime(1429); SmallPrime(113); SmallPrime(109); SmallPrime(37); SmallPrime(29); SmallPrime(13); SmallPrime(5); SmallPrime(2);
  }

  lemma Swept64()
    ensures Swept(40388473189, 1, More(118750098349, More(14449, More(1429, More(113, More(109, More(37, More(29, More(13, More(5, More(2, End)))))))))), 18446744073709551616, 4294967296)
  {
    hide Gap, Close;
    Close64A(); Close64B(); Close64C(); Close64D(); Close64E();
  }

  lemma Two64(m: nat, q: nat)
    requires 0 < m <= 0x1_0000_0000_0000_0000 && 0 < q <= 0x1_0000_0000_0000_0000
    requires m * q == 0x8000_0000_0000_0000_0000_0000_0000_0002
    ensures Close(m, q, 0x1_0000_0000)
  {
    hide Prime, Gap, Close, Swept, AllPrime;
    Factors64();
    Swept64();
    var f := More(118750098349, More(14449, More(1429, More(113, More(109, More(37, More(29, More(13, More(5, More(2, End))))))))));
    assert 40388473189 * Product(f) == 0x8000_0000_0000_0000_0000_0000_0000_0002;
    Sweep(40388473189, f, 0x1_0000_0000_0000_0000, 0x1_0000_0000, m, q);
  }

  lemma Small64(m: nat, q: nat, t: nat)
    requires 0 < m <= 0x1_0000_0000_0000_0000 && 0 < q <= 0x1_0000_0000_0000_0000
    requires m * q == 0x8000_0000_0000_0000_0000_0000_0000_0000 + t && 1 <= t <= 5
    ensures Gap(m, q, 0x1_0000_0000) < t
  {
    hide Gap, Prime;
    if t == 1 {
      Prime56713727820156410577229101238628035243();
      NoSplit(56713727820156410577229101238628035243, 3, 0x8000_0000_0000_0000_0000_0000_0000_0001, m, q);
    } else if t == 2 {
      Two64(m, q);
    } else if t == 3 {
      Prime35408198551781170063534027037();
      NoSplit(35408198551781170063534027037, 4805135263,
              0x8000_0000_0000_0000_0000_0000_0000_0003, m, q);
    } else if t == 4 {
      Prime5519485418336288303251();
      NoSplit(5519485418336288303251, 30825551761626732,
              0x8000_0000_0000_0000_0000_0000_0000_0004, m, q);
    } else {
      Prime506256324715258822390969();
      NoSplit(506256324715258822390969, 336077151344557,
              0x8000_0000_0000_0000_0000_0000_0000_0005, m, q);
    }
  }

  // The bound.

  lemma Scales16()
    ensures Pow2(8) == 0x100 && Pow2(15) == 0x8000 && Pow2(16) == 0x1_0000
  {
    Pow2Add(8, 8);
  }

  lemma Scales32()
    ensures Pow2(16) == 0x1_0000 && Pow2(31) == 0x8000_0000 && Pow2(32) == 0x1_0000_0000
  {
    Scales16();
    Pow2Add(16, 16);
    Pow2Add(16, 15);
  }

  lemma Scales64()
    ensures Pow2(32) == 0x1_0000_0000 && Pow2(63) == 0x8000_0000_0000_0000 && Pow2(64) == 0x1_0000_0000_0000_0000
  {
    Scales32();
    Pow2Add(32, 32);
    Pow2Add(32, 31);
  }

  /** The gap is smaller than what is missing to the next multiple. */
  lemma SmallGap(m: nat, q: nat, t: nat)
    requires TOP <= m <= B && TOP <= q <= B && m * q == K + t && 1 <= t <= 5
    ensures H > 0 && m > 0 && Gap(m, q, H) < t
  {
    hide Gap, Pow2;
    assert K == TOP * B;
    if W == 16 {
      Scales16();
      Small16(m, q, t);
    } else if W == 32 {
      Scales32();
      Small32(m, q, t);
    } else {
      Scales64();
      Small64(m, q, t);
    }
  }

  /** Both factors of a number just above K fill their words. */
  lemma WordFactors(m: nat, q: nat, t: nat, b: nat, top: nat)
    requires m * q == top * b + t && 1 <= t <= 5 && top < m <= b && b == 2 * top && top > 5
    ensures top <= q <= b
  {
    if q < top {
      MulMono(m, b, q);
      MulMono(q, top, b);
    }
    if q > b {
      MulMono(b + 1, q, m);
      MulMono(top + 1, m, b + 1);
      Distrib(top, 1, b + 1);
      Distrib(b, 1, top);
    }
  }

  /** The result of reciprocal_word is an under-estimate, as its comments ask, for every d. */
  lemma Underestimates(recip: int, d: word)
    requires d >= TOP && Corrected(recip, d)
    ensures Mul(recip, d + 1) <= K
  {
    hide NewtonEstimate, Corrected, Gap, Pow2, TOP, B, K, H;
    Scales();
    if Mul(recip, d + 1) > K {
      OverestimateFamily(recip, d);
      var m, q := d + 1, K / (d + 1) + 1;
      var t := d + 1 - K % (d + 1);
      MulComm(m, q);
      WordFactors(m, q, t, B, TOP);
      SmallGap(m, q, t);
      EstimateIs(d);
      GapIs(m, q, H);
    }
  }

  lemma GapIs(m: int, q: int, h: int)
    requires m > 0 && h > 0
    ensures Gap(m, q, h) == q - 1 - Estimate(m, h)
  {
  }

  /** So the reciprocal of the top bits of a modulus never overshoots: internal_mod can rely on it. */
  lemma AlwaysAdmissible(m: nat, mlen: nat, rshift: nat, d: word, recip: nat)
    requires NormalTop(m, mlen, rshift, d) && Corrected(recip, d)
    ensures Admissible(recip, m, mlen, rshift)
  {
    Underestimates(recip, d);
    AdmissibleWhenUnder(m, mlen, rshift, d, recip);
  }
}
