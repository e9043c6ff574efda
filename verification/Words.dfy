/** Machine words of the bignum engine, and the numbers that arrays of them stand for. */
module Words {
  import opened Arith

  /** BIGNUM_INT_BITS: sshbn.h selects 16, 32 or 64; everything below holds for each of the three. */
  type WordSize = w: nat | w == 16 || w == 32 || w == 64 witness 32

  const W: WordSize

  /** The base 2^BIGNUM_INT_BITS. */
  const B: nat := Pow2(W)

  type word = x: int | 0 <= x < B witness 0

  function Pow2(n: nat): (p: nat)
    ensures p >= 1
  {
    if n == 0 then 1 else 2 * Pow2(n - 1)
  }

  /** B^n: the weight of a word that has n words below it. */
  function BPow(n: nat): (p: nat)
    ensures p >= 1
  {
    if n == 0 then 1 else B * BPow(n - 1)
  }

  lemma {:induction false} Pow2Add(m: nat, n: nat)
    ensures Pow2(m + n) == Pow2(m) * Pow2(n)
  {
    if m > 0 {
      Pow2Add(m - 1, n);
      assert Pow2(m + n) == 2 * Pow2(m - 1 + n);
      Assoc(2, Pow2(m - 1), Pow2(n));
    }
  }

  lemma {:induction false} BPowAdd(m: nat, n: nat)
    ensures BPow(m + n) == BPow(m) * BPow(n)
  {
    if m > 0 {
      BPowAdd(m - 1, n);
      assert BPow(m + n) == B * BPow(m - 1 + n);
      Assoc(B, BPow(m - 1), BPow(n));
    }
  }

  lemma {:induction false} BPowIsPow2(n: nat)
    ensures BPow(n) == Pow2(n * W)
  {
    if n > 0 {
      BPowIsPow2(n - 1);
      Distrib(1, n - 1, W);
      Pow2Add(W, (n - 1) * W);
    }
  }

  lemma {:induction false} Pow2Mono(m: nat, n: nat)
    requires m <= n
    ensures Pow2(m) <= Pow2(n)
    decreases n - m
  {
    if m < n {
      Pow2Mono(m, n - 1);
    }
  }

  lemma {:induction false} BPowMono(m: nat, n: nat)
    requires m <= n
    ensures BPow(m) <= BPow(n)
  {
    BPowAdd(m, n - m);
    MulMono(1, BPow(n - m), BPow(m));
  }

  /** The base is the square of an even half-base. */
  lemma BaseFacts()
    ensures B >= 0x1_0000
    ensures B == 2 * Pow2(W - 1) == Pow2(W / 2) * Pow2(W / 2)
    ensures Pow2(W / 2) >= 256 && Pow2(W / 2) == 2 * Pow2(W / 2 - 1)
  {
    Pow2Mono(16, W);
    Pow2Mono(8, W / 2);
    assert Pow2(8) == 256;
    Pow2Add(8, 8);
    Pow2Add(W / 2, W / 2);
    assert W / 2 + W / 2 == W;
  }

  // BignumADC, BignumMUL and BignumMULADD2 of sshbn.h as pairs (low word, high word).

  function LowHigh(x: nat): (r: (word, nat))
    ensures x == r.0 + r.1 * B
  {
    DivMod(x, B);
    (x % B, x / B)
  }

  function Adc(a: word, b: word, c: nat): (r: (word, nat))
    requires c <= 1
    ensures r.0 + r.1 * B == a + b + c
    ensures r.1 <= 1
  {
    var r := LowHigh(a + b + c);
    assert r.1 <= 1 by {
      if r.1 >= 2 {
        MulMono(2, r.1, B);
      }
    }
    r
  }

  lemma ProductFits(a: word, b: word, c: word, d: word)
    ensures 0 <= a * b + c + d < B * B
  {
    MulNonNeg(a, b);
    MulMono(a, B - 1, b);
    MulMono(b, B - 1, B - 1);
    Distrib(B, -1, B - 1);
    Distrib(B, -1, B);
  }

  function MulAdd2(a: word, b: word, c: word, d: word): (r: (word, word))
    ensures r.0 + r.1 * B == a * b + c + d
  {
    ProductFits(a, b, c, d);
    var r := LowHigh(a * b + c + d);
    assert r.1 < B by {
      if r.1 >= B {
        MulMono(B, r.1, B);
      }
    }
    r
  }

  /** ~x. */
  function Not(x: word): word {
    B - 1 - x
  }

  // Big-endian arrays of words.

  function Val(s: seq<word>): (v: nat)
  {
    if s == [] then 0
    else
      MulNonNeg(s[0], BPow(|s| - 1));
      s[0] * BPow(|s| - 1) + Val(s[1..])
  }

  lemma {:induction false} ValBound(s: seq<word>)
    ensures Val(s) < BPow(|s|)
  {
    if s != [] {
      ValBound(s[1..]);
      MulMono(s[0], B - 1, BPow(|s| - 1));
      Distrib(B, -1, BPow(|s| - 1));
    }
  }

  lemma {:induction false} ValConcat(s: seq<word>, t: seq<word>)
    ensures Val(s + t) == Val(s) * BPow(|t|) + Val(t)
  {
    if s == [] {
      assert s + t == t;
    } else {
      ValConcat(s[1..], t);
      assert (s + t)[1..] == s[1..] + t;
      BPowAdd(|s| - 1, |t|);
      Assoc(s[0], BPow(|s| - 1), BPow(|t|));
      assert (s[0] * BPow(|s| - 1) + Val(s[1..])) * BPow(|t|)
          == s[0] * BPow(|s| - 1) * BPow(|t|) + Val(s[1..]) * BPow(|t|);
    }
  }

  lemma ValSplit(s: seq<word>, k: nat)
    requires k <= |s|
    ensures Val(s) == Val(s[..k]) * BPow(|s| - k) + Val(s[k..])
  {
    hide Val, BPow;
    ValConcat(s[..k], s[k..]);
    assert s == s[..k] + s[k..];
  }

  lemma {:induction false} ValZero(s: seq<word>)
    ensures Val(s) == 0 <==> forall i :: 0 <= i < |s| ==> s[i] == 0
  {
    if s != [] {
      ValZero(s[1..]);
      if s[0] == 0 {
        assert 0 * BPow(|s| - 1) == 0;
        if forall i :: 0 <= i < |s[1..]| ==> s[1..][i] == 0 {
          forall i | 0 <= i < |s| ensures s[i] == 0 {
            if i > 0 { assert s[i] == s[1..][i - 1]; }
          }
        }
      } else {
        MulMono(1, s[0], BPow(|s| - 1));
      }
    }
  }

  lemma ValOne(x: word)
    ensures Val([x]) == x
  {
    assert [x][1..] == [];
    assert BPow(0) == 1;
  }

  lemma BPowOne()
    ensures BPow(0) == 1 && BPow(1) == B
  {
    assert BPow(1) == B * BPow(0);
  }

  lemma ValSnoc(s: seq<word>, x: word)
    ensures Val(s + [x]) == Val(s) * B + x
    ensures Val(s + [x]) == x + B * Val(s)
  {
    ValConcat(s, [x]);
    ValOne(x);
    BPowOne();
  }

  /** Leading zero words do not count. */
  lemma ValLeadingZeros(s: seq<word>, k: nat)
    requires k <= |s| && forall i :: 0 <= i < k ==> s[i] == 0
    ensures Val(s) == Val(s[k..])
  {
    ValSplit(s, k);
    ValZero(s[..k]);
    assert 0 * BPow(|s| - k) == 0;
  }

  /** The first word that differs decides how two numbers of equal length compare. */
  lemma ValCompare(s: seq<word>, t: seq<word>, k: nat)
    requires |s| == |t| && k < |s| && s[..k] == t[..k] && s[k] < t[k]
    ensures Val(s) < Val(t)
  {
    hide Val, BPow;
    ValSplit(s, k);
    ValSplit(t, k);
    ValFirst(s[k..]);
    ValFirst(t[k..]);
    ValBound(s[k + 1..]);
    assert s[k..][1..] == s[k + 1..] && t[k..][1..] == t[k + 1..];
    MulMono(s[k] + 1, t[k], BPow(|s| - k - 1));
    assert (s[k] + 1) * BPow(|s| - k - 1) == s[k] * BPow(|s| - k - 1) + BPow(|s| - k - 1);
  }

  /** The number in words [at, at+len) of memory m. */
  ghost function V(m: seq<word>, at: nat, len: nat): (v: nat)
    requires at + len <= |m|
  {
    Val(m[at..at + len])
  }

  lemma VBound(m: seq<word>, at: nat, len: nat)
    requires at + len <= |m|
    ensures V(m, at, len) < BPow(len)
  {
    ValBound(m[at..at + len]);
  }

  /** One more word at the front of a region. */
  lemma VStep(m: seq<word>, at: nat, len: nat)
    requires at + len < |m|
    ensures V(m, at, len + 1) == m[at] * BPow(len) + V(m, at + 1, len)
  {
    hide Val, BPow;
    var s := m[at..at + (len + 1)];
    ValFirst(s);
    assert s[1..] == m[at + 1..at + 1 + len];
  }

  lemma ValFirst(s: seq<word>)
    requires s != []
    ensures Val(s) == s[0] * BPow(|s| - 1) + Val(s[1..])
  {
    hide BPow;
  }

  /** Two adjacent regions. */
  lemma VSplit(m: seq<word>, at: nat, hi: nat, lo: nat)
    requires at + hi + lo <= |m|
    ensures V(m, at, hi + lo) == V(m, at, hi) * BPow(lo) + V(m, at + hi, lo)
  {
    hide Val, BPow;
    var s := m[at..at + (hi + lo)];
    ValSplit(s, hi);
    assert s[..hi] == m[at..at + hi] && s[hi..] == m[at + hi..at + hi + lo];
  }

  lemma VZero(m: seq<word>, at: nat, len: nat)
    requires at + len <= |m| && forall i :: at <= i < at + len ==> m[i] == 0
    ensures V(m, at, len) == 0
  {
    ValZero(m[at..at + len]);
  }

  lemma VSame(m0: seq<word>, m1: seq<word>, at: nat, len: nat)
    requires at + len <= |m0| == |m1| && forall i :: at <= i < at + len ==> m0[i] == m1[i]
    ensures V(m0, at, len) == V(m1, at, len)
  {
    assert m0[at..at + len] == m1[at..at + len];
  }

  lemma LeadingZeros(m: seq<word>, x: nat, zeros: nat, len: nat)
    requires x + zeros + len <= |m| && forall i :: x <= i < x + zeros ==> m[i] == 0
    ensures V(m, x, zeros + len) == V(m, x + zeros, len)
  {
    hide Val, BPow;
    VSplit(m, x, zeros, len);
    VZero(m, x, zeros);
  }

  // Little-endian numbers: the payload of a Bignum.

  function LVal(s: seq<word>): (v: nat)
  {
    if s == [] then 0 else s[0] + B * LVal(s[1..])
  }

  function Reverse(s: seq<word>): (r: seq<word>)
    ensures |r| == |s|
    ensures forall i :: 0 <= i < |s| ==> r[i] == s[|s| - 1 - i]
  {
    seq(|s|, i requires 0 <= i < |s| => s[|s| - 1 - i])
  }

  lemma {:induction false} LValReverse(s: seq<word>)
    ensures LVal(s) == Val(Reverse(s))
  {
    if s != [] {
      LValReverse(s[1..]);
      assert Reverse(s) == Reverse(s[1..]) + [s[0]];
      ValSnoc(Reverse(s[1..]), s[0]);
    }
  }
}
