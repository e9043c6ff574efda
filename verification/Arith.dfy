/** Integer facts that are nonlinear, each under a name of its own. */
module Arith {
  /** x * y, under a name that a proof can hide when it only needs to carry the product along. */
  function Mul(x: int, y: int): (z: int)
    ensures x >= 0 && y >= 0 ==> z >= 0
  {
    x * y
  }

  lemma Assoc(x: int, y: int, z: int)
    ensures (x * y) * z == x * (y * z)
  {
  }

  lemma Distrib(x: int, y: int, z: int)
    ensures (x + y) * z == x * z + y * z
    ensures z * (x + y) == z * x + z * y
  {
  }

  lemma MulMono(x: int, y: int, z: int)
    requires x <= y && z >= 0
    ensures x * z <= y * z
    ensures z * x <= z * y
  {
  }

  lemma MulStrict(x: int, y: int, z: int)
    requires x < y && z > 0
    ensures x * z < y * z
  {
  }

  lemma MulCancel(x: int, y: int, z: int)
    requires x * z <= y * z && z > 0
    ensures x <= y
  {
    if x > y {
      MulStrict(y, x, z);
    }
  }

  lemma MulCancelStrict(x: int, y: int, z: int)
    requires x * z < y * z && z > 0
    ensures x < y
  {
    if x >= y {
      MulMono(y, x, z);
    }
  }

  lemma MulNonNeg(x: int, y: int)
    requires x >= 0 && y >= 0
    ensures x * y >= 0
  {
  }

  lemma DivMod(x: int, m: int)
    requires m > 0
    ensures x == x % m + (x / m) * m && 0 <= x % m < m
    ensures x >= 0 ==> x / m >= 0
  {
  }

  /** Quotient and remainder are the only ones that fit. */
  lemma DivModUnique(x: int, m: int, q: int, r: int)
    requires m > 0 && x == q * m + r && 0 <= r < m
    ensures x / m == q && x % m == r
  {
    var q', r' := x / m, x % m;
    assert x == q' * m + r';
    assert (q - q') * m == r' - r;
    if q > q' {
      MulMono(1, q - q', m);
    } else if q < q' {
      MulMono(q - q', -1, m);
    }
  }

  lemma ModAddMultiple(x: int, k: int, m: int)
    requires m > 0
    ensures (x + k * m) % m == x % m
  {
    var q := x / m;
    assert x == q * m + x % m;
    assert x + k * m == (q + k) * m + x % m;
    DivModUnique(x + k * m, m, q + k, x % m);
  }

  // The same laws for hidden products.

  lemma MulComm(x: int, y: int)
    ensures Mul(x, y) == Mul(y, x)
  {
  }

  lemma MulAssoc(x: int, y: int, z: int)
    ensures Mul(Mul(x, y), z) == Mul(x, Mul(y, z))
  {
    Assoc(x, y, z);
  }

  lemma MulPlus(x: int, y: int, z: int)
    ensures Mul(x + y, z) == Mul(x, z) + Mul(y, z)
    ensures Mul(z, x + y) == Mul(z, x) + Mul(z, y)
  {
    Distrib(x, y, z);
  }

  lemma MulMinus(x: int, y: int, z: int)
    ensures Mul(x - y, z) == Mul(x, z) - Mul(y, z)
    ensures Mul(z, x - y) == Mul(z, x) - Mul(z, y)
  {
    Distrib(x, -y, z);
  }

  lemma Mul3(x: int, y: int, z: int)
    ensures Mul(Mul(x, y), z) == Mul(Mul(x, z), y)
  {
    Assoc(x, y, z);
    Assoc(x, z, y);
  }

  lemma MulUnit(x: int)
    ensures Mul(1, x) == Mul(x, 1) == x && Mul(0, x) == Mul(x, 0) == 0
    ensures Mul(-1, x) == Mul(x, -1) == -x && Mul(2, x) == Mul(x, 2) == 2 * x
  {
  }

  lemma MulLe(x: int, y: int, z: int)
    requires x <= y && z >= 0
    ensures Mul(x, z) <= Mul(y, z)
    ensures Mul(z, x) <= Mul(z, y)
  {
    MulMono(x, y, z);
  }

  lemma MulLt(x: int, y: int, z: int)
    requires x < y && z > 0
    ensures Mul(x, z) < Mul(y, z)
    ensures Mul(z, x) < Mul(z, y)
  {
    MulStrict(x, y, z);
  }

  lemma CancelLt(x: int, y: int, z: int)
    requires Mul(x, z) < Mul(y, z) && z > 0
    ensures x < y
  {
    MulCancelStrict(x, y, z);
  }

  lemma CancelLe(x: int, y: int, z: int)
    requires Mul(x, z) <= Mul(y, z) && z > 0
    ensures x <= y
  {
    MulCancel(x, y, z);
  }

  /** Two divisions with remainder of the same number agree. */
  lemma SameQuotient(q0: int, r0: int, q1: int, r1: int, m: int)
    requires Mul(q0, m) + r0 == Mul(q1, m) + r1 && 0 <= r0 < m && 0 <= r1 < m
    ensures q0 == q1 && r0 == r1
  {
    Distrib(q0, -q1, m);
    if q0 > q1 {
      MulMono(1, q0 - q1, m);
    } else if q0 < q1 {
      MulMono(q0 - q1, -1, m);
    }
  }
}
