/** Congruence modulo n without division: the language in which the modular results are stated. */
module Modular {
  import opened Arith

  ghost predicate Cong(a: int, b: int, n: int) {
    exists k: int :: a - b == Mul(k, n)
  }

  lemma CongBy(a: int, b: int, n: int, k: int)
    requires a - b == k * n
    ensures Cong(a, b, n)
  {
    assert a - b == Mul(k, n);
  }

  lemma CongRefl(a: int, n: int)
    ensures Cong(a, a, n)
  {
    CongBy(a, a, n, 0);
  }

  lemma CongSym(a: int, b: int, n: int)
    requires Cong(a, b, n)
    ensures Cong(b, a, n)
  {
    var k :| a - b == Mul(k, n);
    assert b - a == (-k) * n;
    CongBy(b, a, n, -k);
  }

  lemma CongAdd(a: int, b: int, c: int, d: int, n: int)
    requires Cong(a, b, n) && Cong(c, d, n)
    ensures Cong(a + c, b + d, n)
  {
    var k :| a - b == Mul(k, n);
    var l :| c - d == Mul(l, n);
    Distrib(k, l, n);
    CongBy(a + c, b + d, n, k + l);
  }

  lemma CongTrans(a: int, b: int, c: int, n: int)
    requires Cong(a, b, n) && Cong(b, c, n)
    ensures Cong(a, c, n)
  {
    var k :| a - b == Mul(k, n);
    var l :| b - c == Mul(l, n);
    Distrib(k, l, n);
    CongBy(a, c, n, k + l);
  }

  lemma CongScale(a: int, b: int, c: int, n: int)
    requires Cong(a, b, n)
    ensures Cong(Mul(a, c), Mul(b, c), n)
    ensures Cong(Mul(c, a), Mul(c, b), n)
  {
    var k :| a - b == Mul(k, n);
    Distrib(a, -b, c);
    Assoc(c, k, n);
    CongBy(Mul(a, c), Mul(b, c), n, Mul(c, k));
  }

  lemma CongMul(a: int, b: int, c: int, d: int, n: int)
    requires Cong(a, b, n) && Cong(c, d, n)
    ensures Cong(Mul(a, c), Mul(b, d), n)
  {
    CongScale(a, b, c, n);
    CongScale(c, d, b, n);
    CongTrans(Mul(a, c), Mul(b, c), Mul(b, d), n);
  }

  lemma CongSub(a: int, b: int, c: int, d: int, n: int)
    requires Cong(a, b, n) && Cong(c, d, n)
    ensures Cong(a - c, b - d, n)
  {
    CongScale(c, d, -1, n);
    CongAdd(a, b, -c, -d, n);
  }

  lemma CongMod(a: int, n: int)
    requires n > 0
    ensures Cong(a, a % n, n) && Cong(a % n, a, n) && 0 <= a % n < n
  {
    DivMod(a, n);
    CongBy(a, a % n, n, a / n);
    CongSym(a, a % n, n);
  }

  /** A residue is determined by its class. */
  lemma CongUnique(a: int, b: int, n: int)
    requires Cong(a, b, n) && 0 <= a < n && 0 <= b < n
    ensures a == b
  {
    var k :| a - b == Mul(k, n);
    if k >= 1 {
      MulMono(1, k, n);
    } else if k <= -1 {
      MulMono(k, -1, n);
    }
  }

  /** Congruence is equality of remainders. */
  lemma CongIffMod(a: int, b: int, n: int)
    requires n > 0
    ensures Cong(a, b, n) <==> a % n == b % n
  {
    CongMod(a, n);
    CongMod(b, n);
    if Cong(a, b, n) {
      CongTrans(a % n, a, b, n);
      CongTrans(a % n, b, b % n, n);
      CongUnique(a % n, b % n, n);
    } else if a % n == b % n {
      CongTrans(a, a % n, b, n);
    }
  }

  /** A factor with an inverse can be cancelled. */
  lemma CongCancel(a: int, b: int, r: int, inv: int, n: int)
    requires Cong(Mul(a, r), Mul(b, r), n) && Cong(Mul(r, inv), 1, n)
    ensures Cong(a, b, n)
  {
    CongScale(Mul(a, r), Mul(b, r), inv, n);
    Assoc(a, r, inv);
    Assoc(b, r, inv);
    CongScale(Mul(r, inv), 1, a, n);
    CongScale(Mul(r, inv), 1, b, n);
    CongSym(Mul(a, Mul(r, inv)), a, n);
    CongTrans(a, Mul(a, Mul(r, inv)), Mul(b, Mul(r, inv)), n);
    CongTrans(a, Mul(b, Mul(r, inv)), b, n);
  }

  lemma Steps(e: nat, f: nat, n: nat) returns (k: int)
    requires Cong(e, f, n)
    ensures e - f == Mul(k, n)
  {
    k :| e - f == Mul(k, n);
  }

  lemma OppositeMul(k: int, n: int)
    ensures Mul(-k, n) == -Mul(k, n)
  {
  }
}
