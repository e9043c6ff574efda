/** bn_clz and reciprocal_word: the one division the bignum engine does, of word by word, and its refinement. */
module Reciprocal {
  import opened Arith
  import opened Words

  /** 2^(W/2) and BIGNUM_TOP_BIT. */
  const H: nat := Pow2(W / 2)
  const TOP: nat := Pow2(W - 1)

  /** K = 2^(2W-1), the fixed-point scale of a reciprocal. */
  const K: nat := Mul(TOP, B)

  function ShiftRight(x: word, n: nat): (r: word)
    requires n <= W
  {
    ShiftBounds(x, n);
    x / Pow2(n)
  }

  lemma ShiftBounds(x: word, n: nat)
    ensures 0 <= x / Pow2(n) <= x
    ensures x / Pow2(n) == 0 <==> x < Pow2(n)
  {
    DivMod(x, Pow2(n));
    var q := x / Pow2(n);
    if q >= 1 {
      MulMono(1, q, Pow2(n));
    }
    MulMono(1, Pow2(n), q);
  }

  /** x << n on words: what leaves at the top is lost. */
  function ShiftLeft(x: word, n: nat): (r: word) {
    MulNonNeg(x, Pow2(n));
    DivMod(x * Pow2(n), B);
    (x * Pow2(n)) % B
  }

  lemma ShiftLeftExact(x: word, n: nat)
    requires n <= W && x < Pow2(W - n)
    ensures ShiftLeft(x, n) == Mul(x, Pow2(n)) < B
  {
    Pow2Add(W - n, n);
    assert W - n + n == W;
    MulStrict(x, Pow2(W - n), Pow2(n));
    MulNonNeg(x, Pow2(n));
    DivModUnique(x * Pow2(n), B, 0, x * Pow2(n));
  }

  /** The range of x when fewer than z leading zeros remain. */
  ghost predicate FewZeros(x: word, z: nat) {
    z <= W && x >= Pow2(W - z)
  }

  lemma ClzStep(x0: word, x: word, ret: nat, i: nat)
    requires 1 <= i && 2 * i <= W && FewZeros(x, 2 * i) && Mul(x0, Pow2(ret)) == x
    requires x < Pow2(W - i)
    ensures ShiftLeft(x, i) == Mul(x0, Pow2(ret + i)) && FewZeros(ShiftLeft(x, i), i)
  {
    ShiftLeftExact(x, i);
    Pow2Add(ret, i);
    MulAssoc(x0, Pow2(ret), Pow2(i));
    Pow2Add(W - 2 * i, i);
    assert W - 2 * i + i == W - i;
    MulLe(Pow2(W - 2 * i), x, Pow2(i));
  }

  /** Counts the leading zero bits of x: shifted left by that many, its top bit is set. */
  method BnClz(x0: word) returns (ret: nat)
    requires x0 != 0
    ensures ret < W && TOP <= Mul(x0, Pow2(ret)) < B
  {
    hide Pow2, Mul, ShiftLeft, ShiftRight, FewZeros, TOP, B;
    var x := x0;
    ret := 0;
    var i := W / 2;
    ClzStart(x0);
    while i != 0
      invariant i in {0, 1, 2, 4, 8, 16, 32} && 2 * i <= W
      invariant ret + 2 * i <= W && (i == 0 ==> ret < W)
      invariant x == Mul(x0, Pow2(ret))
      invariant FewZeros(x, if i == 0 then 1 else 2 * i)
      decreases i
    {
      ShiftBounds2(x, W - i);
      if ShiftRight(x, W - i) == 0 {
        ClzStep(x0, x, ret, i);
        x := ShiftLeft(x, i);
        ret := ret + i;
      } else {
        ClzKeep(x, i);
      }
      i := i / 2;
    }
    ClzEnd(x);
  }

  lemma ShiftBounds2(x: word, n: nat)
    requires n <= W
    ensures ShiftRight(x, n) == 0 <==> x < Pow2(n)
  {
    ShiftBounds(x, n);
  }

  lemma ClzStart(x: word)
    requires x != 0
    ensures x == Mul(x, Pow2(0)) && FewZeros(x, 2 * (W / 2))
  {
    assert Pow2(0) == 1 && W - 2 * (W / 2) == 0;
  }

  lemma ClzKeep(x: word, i: nat)
    requires 1 <= i <= W && x >= Pow2(W - i)
    ensures FewZeros(x, i)
  {
  }

  lemma ClzEnd(x: word)
    requires FewZeros(x, 1)
    ensures TOP <= x < B
  {
  }

  // The analysis of the seed and of the Newton-Raphson step, on plain numbers.

  /** c is TOP divided by the upper half of d, rounded both times so that seed * (d+1) is close to K. */
  lemma SeedMath(d: nat, h: nat, b: nat, top: nat, ds: nat, c: nat, p: nat)
    requires b == Mul(h, h) == 2 * top && h >= 256 && top <= d < b
    requires Mul(ds - 1, h) <= d < Mul(ds, h) && top <= Mul(c, ds) <= top + ds - 1
    requires p == Mul(Mul(c, h), d + 1)
    ensures 1 <= ds <= h && 1 <= c < h
    ensures Mul(top, b) - Mul(h, b) <= p <= Mul(top, b) + Mul(h, b)
  {
    assert 1 <= ds <= h by {
      CancelLt(ds - 1, h, h);
      if ds <= 0 { MulLe(ds, 0, h); MulUnit(h); }
    }
    assert 2 * ds > h by {
      MulUnit(Mul(ds, h));
      MulAssoc(2, ds, h);
      MulUnit(ds);
      CancelLt(h, 2 * ds, h);
    }
    assert 1 <= c by { MulUnit(ds); }
    assert c < h by {
      if c >= h {
        MulLe(h, c, ds);
        SeedBig(h, ds, top);
      }
    }
    SeedUpper(d, h, b, top, ds, c, p);
    SeedLower(d, h, b, top, ds, c, p);
  }

  lemma SeedBig(h: nat, ds: nat, top: nat)
    requires Mul(h, h) == 2 * top && 2 * ds > h && h >= 256
    ensures Mul(h, ds) > top + ds - 1
  {
    MulMinus(h, 1, 2 * ds);
    MulUnit(2 * ds);
    MulLe(h + 1, 2 * ds, h - 1);
    MulMinus(h, 1, h + 1);
    MulPlus(h, 1, h);
    MulUnit(h);
    MulUnit(h + 1);
    MulComm(h, 2 * ds);
    MulAssoc(2, ds, h);
    MulUnit(ds);
    MulUnit(Mul(ds, h));
    MulComm(ds, h);
    MulComm(h - 1, 2 * ds);
  }

  lemma SeedUpper(d: nat, h: nat, b: nat, top: nat, ds: nat, c: nat, p: nat)
    requires b == Mul(h, h) && d + 1 <= Mul(ds, h) && Mul(c, ds) <= top + h && p == Mul(Mul(c, h), d + 1)
    ensures p <= Mul(top, b) + Mul(h, b)
  {
    hide Mul;
    MulLe(d + 1, Mul(ds, h), Mul(c, h));
    MulAssoc(c, h, Mul(ds, h));
    MulComm(h, Mul(ds, h));
    MulAssoc(ds, h, h);
    MulAssoc(c, ds, b);
    MulLe(Mul(c, ds), top + h, b);
    MulPlus(top, h, b);
  }

  lemma SeedLower(d: nat, h: nat, b: nat, top: nat, ds: nat, c: nat, p: nat)
    requires b == Mul(h, h) && Mul(ds - 1, h) <= d + 1 && top <= Mul(c, ds) && c <= h && p == Mul(Mul(c, h), d + 1)
    ensures Mul(top, b) - Mul(h, b) <= p
  {
    hide Mul;
    MulLe(Mul(ds - 1, h), d + 1, Mul(c, h));
    MulAssoc(c, h, Mul(ds - 1, h));
    MulComm(h, Mul(ds - 1, h));
    MulAssoc(ds - 1, h, h);
    MulAssoc(c, ds - 1, b);
    MulMinus(ds, 1, c);
    MulUnit(c);
    MulLe(top - h, Mul(c, ds - 1), b);
    MulMinus(top, h, b);
  }

  /** One Newton step from r with |K - r*e| <= h*b, every truncation counted: r0 is at most 6 below the best. */
  lemma NewtonMath(e: nat, h: nat, b: nat, top: nat, k: nat, r: nat, p: nat, pq: nat, pr: nat, r0: nat, rr: nat)
    requires b == Mul(h, h) == 2 * top && k == Mul(top, b) && top < e <= b && k > 0 && h >= 256
    requires r < b && p == Mul(r, e) && k - Mul(h, b) <= p <= k + Mul(h, b)
    requires 2 * k - p == Mul(pq, b) + pr && pr < b
    requires 2 * Mul(pq, r) == Mul(r0, b) + rr && rr < b
    ensures Mul(r0, e) <= k && k + 6 < Mul(r0 + 7, e)
  {
    hide Mul;
    assert Mul(b, b) == 2 * k by {
      MulPlus(top, top, b);
    }
    var s := Mul(p, 2 * k - p);
    assert s + Mul(k - p, k - p) == Mul(k, k) by { Squares(k, p); }
    
    NewtonProducts(e, b, k, r, p, pq, pr, r0, rr);
    SquareNonNeg(k - p);
    NewtonUpper(Mul(r0, e), k, s, Mul(k - p, k - p));
    NewtonLower(e, h, b, top, k, r, p, r0, s);
  }

  lemma Squares(k: int, p: int)
    ensures Mul(p, 2 * k - p) + Mul(k - p, k - p) == Mul(k, k)
  {
    hide Mul;
    MulMinus(2 * k, p, p);
    MulPlus(k, k, p);
    MulMinus(k, p, k - p);
    MulMinus(k, p, k);
    MulMinus(k, p, p);
    MulComm(k, p);
  }

  lemma SquareNonNeg(x: int)
    ensures Mul(x, x) >= 0
  {
  }

  /** Multiplying the two truncated divisions through by b*b = 2k. */
  lemma NewtonProducts(e: nat, b: nat, k: nat, r: nat, p: nat, pq: nat, pr: nat, r0: nat, rr: nat)
    requires p == Mul(r, e) && Mul(b, b) == 2 * k
    requires 2 * k - p == Mul(pq, b) + pr && pr < b
    requires 2 * Mul(pq, r) == Mul(r0, b) + rr && rr < b
    ensures 2 * Mul(p, 2 * k - p) - 2 * (Mul(b, p) - p) - (Mul(e, 2 * k) - Mul(e, b)) <= Mul(Mul(r0, e), 2 * k)
    ensures Mul(Mul(r0, e), 2 * k) <= 2 * Mul(p, 2 * k - p)
  {
    hide Mul;
    var eb := Mul(e, b);
    // multiply the second division by e*b
    assert Mul(Mul(r0, b) + rr, eb) == Mul(Mul(r0, e), 2 * k) + Mul(rr, eb) by {
      MulPlus(Mul(r0, b), rr, eb);
      MulAssoc(r0, b, eb);
      MulComm(b, eb);
      MulAssoc(e, b, b);
      MulAssoc(r0, e, 2 * k);
    }
    assert Mul(Mul(pq, r) + Mul(pq, r), eb) == 2 * Mul(p, Mul(pq, b)) by {
      MulPlus(Mul(pq, r), Mul(pq, r), eb);
      MulAssoc(pq, r, eb);
      MulAssoc(r, e, b);
      MulComm(p, b);
      MulAssoc(pq, b, p);
      MulComm(Mul(pq, b), p);
    }
    assert Mul(p, 2 * k - p) == Mul(p, Mul(pq, b)) + Mul(p, pr) by {
      MulPlus(Mul(pq, b), pr, p);
    }
    MulLe(0, pr, p);
    MulLe(pr, b - 1, p);
    MulMinus(b, 1, p);
    MulUnit(p);
    MulLe(0, rr, eb);
    MulLe(rr, b - 1, eb);
    MulMinus(b, 1, eb);
    MulUnit(eb);
    MulComm(p, b);
    MulComm(b, eb);
    MulAssoc(e, b, b);
  }

  lemma NewtonUpper(x: nat, k: nat, s: int, sq: int)
    requires Mul(x, 2 * k) <= 2 * s && s + sq == Mul(k, k) && sq >= 0 && k > 0
    ensures x <= k
  {
    MulPlus(k, k, x);
    CancelLe(x, k, k);
  }

  lemma NewtonLower(e: nat, h: nat, b: nat, top: nat, k: nat, r: nat, p: nat, r0: nat, s: int)
    requires b == Mul(h, h) == 2 * top && Mul(b, b) == 2 * k && top < e && k > 0
    requires r < b && p == Mul(r, e) && k - Mul(h, b) <= p <= k + Mul(h, b)
    requires 2 * s - 2 * (Mul(b, p) - p) - (Mul(e, 2 * k) - Mul(e, b)) <= Mul(Mul(r0, e), 2 * k)
    requires s + Mul(k - p, k - p) == Mul(k, k) && k == Mul(top, b) && h >= 256
    ensures k + 6 < Mul(r0 + 7, e)
  {
    hide Mul;
    // (k-p)^2 <= (h*b)^2 = 2*k*b
    var hb := Mul(h, b);
    assert Mul(k - p, k - p) <= Mul(2 * k, b) by {
      SquareMono(k - p, hb);
      MulAssoc(h, b, hb);
      MulComm(b, hb);
      MulAssoc(h, b, b);
      MulAssoc(h, h, 2 * k);
      MulComm(b, 2 * k);
    }
    // b*p <= b*(b-1)*e = 2*k*e - b*e
    assert Mul(b, p) + Mul(e, b) <= Mul(2 * k, e) by {
      MulLe(r, b - 1, e);
      MulMinus(b, 1, e);
      MulUnit(e);
      MulLe(p, Mul(b, e) - e, b);
      MulMinus(Mul(b, e), e, b);
      MulAssoc(b, b, e);
      MulComm(b, e);
    }
    assert 4 * p >= 3 * k by { SmallError(h, b, top, k); }
    MulLe(top, e, b);
    MulComm(2 * k, e);
    MulComm(2 * k, b);
    // put everything over k
    MulPlus(k, k, Mul(r0, e));
    MulPlus(k, k, e);
    MulPlus(k, k, b);
    LowerSum(Mul(r0, e), e, b, k, s, Mul(k - p, k - p), Mul(b, p), p, Mul(e, b));
    MulPlus(r0, 7, e);
    SevenTimes(e);
  }

  lemma SevenTimes(e: int)
    ensures Mul(7, e) == 7 * e
  {
  }

  lemma SquareMono(x: int, y: int)
    requires -y <= x <= y
    ensures Mul(x, x) <= Mul(y, y)
  {
    Distrib(y, x, y - x);
    Distrib(y, -x, y);
    Distrib(y, -x, x);
    MulNonNeg(y + x, y - x);
  }

  lemma SmallError(h: nat, b: nat, top: nat, k: nat)
    requires Mul(h, h) == 2 * top && k == Mul(top, b) && h >= 256
    ensures 4 * Mul(h, b) <= k
  {
    hide Mul;
    MulLe(256, h, h);
    assert Mul(256, h) == 256 * h by { Times256(h); }
    MulLe(128 * h, top, b);
    assert Mul(128 * h, b) == 128 * Mul(h, b) by { Times128(h, b); }
    assert Mul(h, b) >= 0 by { MulLe(0, h, b); MulUnit(b); }
  }

  lemma Times256(h: int)
    ensures Mul(256, h) == 256 * h
  {
  }

  lemma Times128(h: int, b: int)
    ensures Mul(128 * h, b) == 128 * Mul(h, b)
  {
    Assoc(128, h, b);
  }

  lemma LowerSum(x: nat, e: nat, b: nat, k: nat, s: int, sq: int, bp: int, p: int, eb: int)
    requires 2 * s - 2 * (bp - p) - (2 * Mul(e, k) - eb) <= 2 * Mul(x, k)
    requires s + sq == Mul(k, k) && sq <= 2 * Mul(b, k) && bp + eb <= 2 * Mul(e, k) && b + 2 <= 2 * e && k > 0
    requires eb >= k && 4 * p >= 3 * k
    ensures k + 6 < x + 7 * e
  {
    hide Mul;
    MulLe(b + 2, 2 * e, k);
    MulPlus(b, 2, k);
    MulAssoc(2, e, k);
    MulUnit(e);
    MulUnit(k);
    MulUnit(Mul(e, k));
    assert Mul(x, k) + 7 * Mul(e, k) > Mul(k, k) + 6 * k;
    MulPlus(x, 7 * e, k);
    MulAssoc(7, e, k);
    SevenTimes(e);
    SevenTimes(Mul(e, k));
    MulPlus(k, 6, k);
    assert Mul(6, k) == 6 * k by { SixTimes(k); }
    CancelLt(k + 6, x + 7 * e, k);
  }

  lemma SixTimes(k: int)
    ensures Mul(6, k) == 6 * k
  {
  }

  // reciprocal_word itself.

  /** The half-length reciprocal the iteration starts from. */
  function Seed(d: word): nat
    requires d >= TOP
  {
    var dshort := d / H + 1;
    ((TOP + dshort - 1) / dshort) * H
  }

  /** The estimate after one Newton-Raphson step, every intermediate cut to words as in the code. */
  function NewtonEstimate(d: word): int
    requires d >= TOP
  {
    BaseFacts();
    (2 * Mul((2 * K - Mul(Seed(d), d + 1)) / B, Seed(d))) / B
  }

  lemma Scales()
    ensures Mul(H, H) == B == 2 * TOP && H >= 256 && TOP >= 128 && K == Mul(TOP, B) && 0 < K && 2 * K == Mul(B, B)
    ensures Mul(H, B) < K
  {
    BaseFacts();
    assert Mul(H, H) == B;
    hide Mul;
    MulPlus(TOP, TOP, B);
    MulUnit(H);
    MulLt(2, H, H);
    MulLt(H, TOP, B);
    MulLt(0, TOP, B);
    MulUnit(B);
  }

  lemma SeedFacts(d: word)
    requires d >= TOP
    ensures d / H + 1 <= H && 1 <= (TOP + d / H) / (d / H + 1) < H
    ensures Seed(d) == Mul((TOP + d / H) / (d / H + 1), H) < B
    ensures K - Mul(H, B) <= Mul(Seed(d), d + 1) <= K + Mul(H, B)
    ensures 0 < Mul(Seed(d), d + 1) < 2 * K
  {
    Scales();
    SeedIs(d);
    SeedBounds(d, H, B, TOP, K);
  }

  lemma SeedBounds(d: nat, h: nat, b: nat, top: nat, k: nat)
    requires Mul(h, h) == b == 2 * top && h >= 256 && k == Mul(top, b) && Mul(h, b) < k && top <= d < b
    ensures d / h + 1 <= h && 1 <= (top + d / h) / (d / h + 1) < h
    ensures Mul((top + d / h) / (d / h + 1), h) < b
    ensures k - Mul(h, b) <= Mul(Mul((top + d / h) / (d / h + 1), h), d + 1) <= k + Mul(h, b)
  {
    hide Mul;
    var ds := d / h + 1;
    var c := (top + ds - 1) / ds;
    DivMul(d, h);
    MulPlus(ds - 1, 1, h);
    MulUnit(h);
    CeilFacts(top, ds, c);
    SeedMath(d, h, b, top, ds, c, Mul(Mul(c, h), d + 1));
    MulLt(c, h, h);
  }

  lemma SeedIs(d: word)
    requires d >= TOP
    ensures Seed(d) == Mul((TOP + d / H) / (d / H + 1), H)
  {
  }

  lemma CeilFacts(top: nat, ds: nat, c: nat)
    requires ds >= 1 && c == (top + ds - 1) / ds
    ensures top <= Mul(c, ds) <= top + ds - 1
  {
    DivMod(top + ds - 1, ds);
  }

  /** The estimate never exceeds K/(d+1) and is less than 7 below it. */
  lemma NewtonBracket(d: word)
    requires d >= TOP
    ensures Mul(NewtonEstimate(d), d + 1) <= K && K + 6 < Mul(NewtonEstimate(d) + 7, d + 1)
    ensures 0 <= NewtonEstimate(d) < B
  {
    hide Seed, Mul;
    Scales();
    SeedFacts(d);
    var r, e := Seed(d), d + 1;
    var p := Mul(r, e);
    var pq := (2 * K - p) / B;
    DivMod(2 * K - p, B);
    DivMul(2 * K - p, B);
    var r0 := NewtonEstimate(d);
    DivMul(2 * Mul(pq, r), B);
    NewtonMath(e, H, B, TOP, K, r, p, pq, (2 * K - p) % B, r0, (2 * Mul(pq, r)) % B);
    MulComm(TOP, B);
    MulLt(TOP, e, B);
    if r0 >= B {
      MulLe(B, r0, e);
      MulComm(B, e);
    }
  }

  lemma DivMul(x: nat, m: nat)
    requires m > 0
    ensures x == Mul(x / m, m) + x % m && 0 <= x % m < m && x / m >= 0
  {
    DivMod(x, m);
  }

  lemma WideNegate(lo: word, hi: word, r: (word, nat))
    requires Mul(hi, B) + lo > 0 && r.0 + r.1 * B == Not(lo) + 1 && r.1 <= 1
    ensures Not(hi) + r.1 < B && Mul(Not(hi) + r.1, B) + r.0 == Mul(B, B) - (Mul(hi, B) + lo)
  {
    MulPlus(Not(hi), r.1, B);
    MulMinus(B - 1, hi, B);
    MulMinus(B, 1, B);
    MulUnit(B);
  }

  /** (prodh << 1) | (prodl >> (W-1)): the top word of twice the product. */
  lemma DoubleTop(lo: word, hi: word)
    requires hi < TOP
    ensures ShiftLeft(hi, 1) + ShiftRight(lo, W - 1) == 2 * (Mul(hi, B) + lo) / B < B
  {
    BaseFacts();
    assert Pow2(1) == 2;
    ShiftLeftExact(hi, 1);
    DoubleTopMath(lo, hi, B, TOP);
  }

  lemma DoubleTopMath(lo: nat, hi: nat, b: nat, top: nat)
    requires b == 2 * top && lo < b && top > 0
    ensures 2 * hi + lo / top == 2 * (Mul(hi, b) + lo) / b && lo / top <= 1
  {
    DivMod(lo, top);
    var q, m := lo / top, lo % top;
    if q >= 2 {
      MulMono(2, q, top);
    }
    Distrib(2 * hi, q, b);
    Assoc(q, top, 2);
    Assoc(2, hi, b);
    DivModUnique(2 * (Mul(hi, b) + lo), b, 2 * hi + q, 2 * m);
  }

  /** The first estimate, from the top half of d alone. */
  method NewtonSeed(d: word) returns (recip: word)
    requires d >= TOP
    ensures recip == Seed(d)
  {
    hide Pow2, Mul, Seed, ShiftLeft, ShiftRight, H, TOP, B, K;
    SeedFacts(d);
    HalfShift(d);
    var dshort: word := ShiftRight(d, W / 2) + 1;
    NoWrap(d);
    var num: word := TOP + dshort - 1;
    recip := num / dshort;
    ShiftUp(recip);
    recip := ShiftLeft(recip, W - W / 2);
    SeedIs(d);
  }

  /** The seed, its product with d + 1 negated modulo B^2, and the step, in words. */
  method NewtonStep(d: word) returns (recip: word)
    requires d >= TOP
    ensures recip == NewtonEstimate(d)
  {
    hide Pow2, Mul, Seed, ShiftLeft, ShiftRight, H, TOP, B, K;
    Scales();
    SeedFacts(d);
    recip := NewtonSeed(d);
    ghost var p := Mul(Seed(d), d + 1);
    var prod := MulAdd2(recip, d, recip, 0);
    WideProduct(recip, d, prod.0, prod.1);
    var prodl, prodh := Not(prod.0), Not(prod.1);
    var r := Adc(prodl, 1, 0);
    WideNegate(prod.0, prod.1, r);
    prodl, prodh := r.0, prodh + r.1;
    StepQuotient(d, prodl, prodh);
    prod := MulAdd2(prodh, recip, 0, 0);
    prodl, prodh := prod.0, prod.1;
    StepFits(d, prodl, prodh);
    DoubleTop(prodl, prodh);
    recip := ShiftLeft(prodh, 1) + ShiftRight(prodl, W - 1);
  }

  lemma HalfShift(d: word)
    ensures ShiftRight(d, W / 2) == d / H
  {
  }

  lemma NoWrap(d: word)
    requires d >= TOP
    ensures d / H + 1 < B && TOP + d / H < B
  {
    SeedFacts(d);
    Scales();
    MulUnit(H);
    MulLt(2, H, H);
  }

  lemma ShiftUp(x: word)
    requires x < H
    ensures ShiftLeft(x, W - W / 2) == Mul(x, H)
  {
    assert W - W / 2 == W / 2;
    ShiftLeftExact(x, W / 2);
  }

  lemma WideProduct(x: word, y: word, lo: word, hi: word)
    requires lo + hi * B == x * y + x
    ensures Mul(hi, B) + lo == Mul(x, y + 1)
  {
    Distrib(y, 1, x);
  }

  lemma StepQuotient(d: word, lo: word, hi: word)
    requires d >= TOP && Mul(hi, B) + lo == 2 * K - Mul(Seed(d), d + 1)
    ensures hi == (2 * K - Mul(Seed(d), d + 1)) / B
  {
    DivModUnique(2 * K - Mul(Seed(d), d + 1), B, hi, lo);
  }

  lemma StepFits(d: word, lo: word, hi: word)
    requires d >= TOP && lo + hi * B == ((2 * K - Mul(Seed(d), d + 1)) / B) * Seed(d) + 0 + 0
    ensures 2 * (Mul(hi, B) + lo) / B == NewtonEstimate(d) && hi < TOP
  {
    NewtonBracket(d);
    Scales();
    var x := Mul(hi, B) + lo;
    assert NewtonEstimate(d) == 2 * x / B;
    DivMul(2 * x, B);
    if hi >= TOP {
      MulLe(TOP, hi, B);
      MulLe(B + 1, 2 * TOP + 1, B);
      FarOut(x);
    }
  }

  lemma FarOut(x: nat)
    requires x >= K
    ensures 2 * x / B >= B
  {
    Scales();
    DivMul(2 * x, B);
    if 2 * x / B < B {
      MulLe(2 * x / B, B - 1, B);
      MulMinus(B, 1, B);
      MulUnit(B);
    }
  }

  /** What the correction loops converge to: the largest recip whose tracked product stays below K. */
  ghost predicate Corrected(recip: int, d: word)
    requires d >= TOP
  {
    Mul(recip, d) + NewtonEstimate(d) < K <= Mul(recip + 1, d) + NewtonEstimate(d)
  }

  /** A tracked product: the code corrects it by d for each correction of recip by one. */
  ghost predicate Tracked(recip: int, lo: word, hi: word, d: word)
    requires d >= TOP
  {
    Mul(hi, B) + lo == Mul(recip, d) + NewtonEstimate(d)
  }

  lemma TopWord(hi: word, lo: word)
    ensures hi >= TOP <==> Mul(hi, B) + lo >= K
  {
    if hi >= TOP {
      MulLe(TOP, hi, B);
    } else {
      MulLe(hi, TOP - 1, B);
      MulMinus(TOP, 1, B);
      MulUnit(B);
    }
  }

  /** (lo, hi) - d, as the add-with-carry of ~d followed by the all-ones word. */
  lemma WideSubtract(lo: word, hi: word, d: word, r: (word, nat))
    requires r.0 + r.1 * B == lo + Not(d) + 1 && r.1 <= 1 && Mul(hi, B) + lo >= d
    ensures var h := LowHigh(hi + (B - 1) + r.1).0; Mul(h, B) + r.0 == Mul(hi, B) + lo - d
  {
    var h := LowHigh(hi + (B - 1) + r.1).0;
    if r.1 == 1 {
      DivModUnique(hi + (B - 1) + 1, B, 1, hi);
    } else {
      assert hi >= 1 by { MulUnit(B); }
      DivModUnique(hi + (B - 1), B, 1, hi - 1);
      MulMinus(hi, 1, B);
      MulUnit(B);
    }
  }

  lemma WideAdd(lo: word, hi: word, d: word, r: (word, nat))
    requires r.0 + r.1 * B == lo + d && r.1 <= 1 && hi < TOP
    ensures hi + r.1 < B && Mul(hi + r.1, B) + r.0 == Mul(hi, B) + lo + d
  {
    Scales();
    MulPlus(hi, r.1, B);
  }

  lemma MoveBy(recip: int, d: int)
    ensures Mul(recip + 1, d) == Mul(recip, d) + d && Mul(recip - 1, d) == Mul(recip, d) - d
  {
    MulPlus(recip, 1, d);
    MulMinus(recip, 1, d);
    MulUnit(d);
  }

  lemma StartTracking(d: word, recip: word, lo: word, hi: word)
    requires d >= TOP && recip == NewtonEstimate(d) && lo + hi * B == recip * d + recip
    ensures Tracked(recip, lo, hi, d) && Mul(recip, d) + recip <= K
  {
    NewtonBracket(d);
    MulPlus(d, 1, recip);
    MulUnit(recip);
  }

  lemma StaysWord(d: word, recip: nat, lo: word, hi: word)
    requires d >= TOP && Tracked(recip, lo, hi, d) && Mul(hi, B) + lo < K
    ensures recip < B
  {
    NewtonBracket(d);
    if recip >= B {
      MulLe(B, recip, d);
      MulLe(TOP, d, B);
      MulComm(B, d);
    }
  }

  /** Adjusts the estimate, a handful either way, until its tracked product is just below K. */
  method ReciprocalWord(d: word) returns (recip: word)
    requires d >= TOP
    ensures Corrected(recip, d)
  {
    hide Mul, NewtonEstimate, H, TOP, B, K, LowHigh;
    Scales();
    NewtonBracket(d);
    recip := NewtonStep(d);
    var prod := MulAdd2(recip, d, recip, 0);
    var prodl: word, prodh: word := prod.0, prod.1;
    StartTracking(d, recip, prodl, prodh);
    TopWord(prodh, prodl);
    MoveBy(recip, d);
    if prodh >= TOP {
      while prodh >= TOP
        invariant Tracked(recip, prodl, prodh, d) && Mul(prodh, B) + prodl <= K
        invariant K <= Mul(recip + 1, d) + NewtonEstimate(d)
        decreases Mul(prodh, B) + prodl
      {
        TopWord(prodh, prodl);
        Reducible(recip, prodl, prodh, d);
        var r := Adc(prodl, Not(d), 1);
        WideSubtract(prodl, prodh, d, r);
        MoveBy(recip, d);
        prodl, prodh := r.0, LowHigh(prodh + (B - 1) + r.1).0;
        recip := recip - 1;
      }
      TopWord(prodh, prodl);
    } else {
      while true
        invariant Tracked(recip, prodl, prodh, d) && prodh < TOP
        decreases K - (Mul(prodh, B) + prodl)
      {
        TopWord(prodh, prodl);
        var r := Adc(prodl, d, 0);
        WideAdd(prodl, prodh, d, r);
        var newprodh: word, newprodl: word := prodh + r.1, r.0;
        MoveBy(recip, d);
        TopWord(newprodh, newprodl);
        if newprodh >= TOP {
          break;
        }
        prodh, prodl := newprodh, newprodl;
        StaysWord(d, recip + 1, prodl, prodh);
        recip := recip + 1;
      }
    }
  }

  lemma Reducible(recip: nat, lo: word, hi: word, d: word)
    requires d >= TOP && Tracked(recip, lo, hi, d) && Mul(hi, B) + lo == K
    ensures recip >= 1 && K >= d
  {
    NewtonBracket(d);
    Scales();
    MulUnit(d);
    MulLt(1, TOP, B);
    MulUnit(B);
  }

  // How the result relates to the bound the code's own comments announce.

  /** The corrections are few: at most one down and seven up. */
  lemma FewCorrections(recip: int, d: word)
    requires d >= TOP && Corrected(recip, d)
    ensures -1 <= recip - NewtonEstimate(d) <= 7
  {
    hide NewtonEstimate, Mul, K, TOP, B;
    Scales();
    NewtonBracket(d);
    var r0 := NewtonEstimate(d);
    MulPlus(d, 1, r0);
    MulUnit(r0);
    if recip < r0 - 1 {
      MulLe(recip + 1, r0 - 1, d);
      MoveBy(r0, d);
    }
    if recip > r0 + 7 {
      MulLe(r0 + 8, recip, d);
      MulPlus(r0, 8, d);
      MulPlus(d, 1, r0 + 7);
      MulUnit(r0 + 7);
      MulPlus(r0, 7, d);
      Eight(d);
    }
  }

  lemma Eight(d: int)
    ensures Mul(8, d) == 8 * d && Mul(7, d) == 7 * d
  {
  }

  /** The documented under-estimate, recip * (d+1) <= K, holds for exactly these d. */
  lemma UnderestimateIff(recip: int, d: word)
    requires d >= TOP && Corrected(recip, d)
    ensures Mul(recip, d + 1) <= K <==> K % (d + 1) + (K / (d + 1) - NewtonEstimate(d)) <= d
  {
    hide NewtonEstimate, Mul, K, TOP, B;
    Scales();
    var e := d + 1;
    var q, rho, r0 := K / e, K % e, NewtonEstimate(d);
    DivMul(K, e);
    MulPlus(d, 1, q);
    MulUnit(q);
    MulPlus(d, 1, recip);
    MulUnit(recip);
    if recip <= q {
      MulLe(recip, q, e);
      MulLe(recip + 1, q + 1, d);
      MoveBy(q, d);
    } else {
      MulLe(q + 1, recip, e);
      MulLe(q + 1, recip, d);
      MoveBy(q, d);
      MoveBy(q, e);
    }
  }

  /** Where it fails, d+1 divides one of the five numbers that follow K, and the estimate is at least as far off. */
  lemma OverestimateFamily(recip: int, d: word)
    requires d >= TOP && Corrected(recip, d) && Mul(recip, d + 1) > K
    ensures var t := d + 1 - K % (d + 1);
            1 <= t <= 5 && K + t == Mul(K / (d + 1) + 1, d + 1) && K / (d + 1) - NewtonEstimate(d) >= t
  {
    hide NewtonEstimate, Mul, K, TOP, B;
    Scales();
    UnderestimateIff(recip, d);
    NewtonBracket(d);
    var e := d + 1;
    var q, rho, r0 := K / e, K % e, NewtonEstimate(d);
    DivMul(K, e);
    CancelLt(q, r0 + 7, e);
    MoveBy(q, e);
    if q == r0 + 6 {
      MulPlus(q, 1, e);
      MulUnit(e);
    }
  }
}
