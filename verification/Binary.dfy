/** The binary digits of a number: bignum_bitcount and bignum_bit. */
module Binary {
  import opened Arith
  import opened Words

  function BitCount(b: nat): (n: nat) {
    if b == 0 then 0 else 1 + BitCount(b / 2)
  }

  predicate Bit(b: nat, i: nat) {
    (b / Pow2(i)) % 2 == 1
  }

  lemma {:induction false} BitCountBound(b: nat)
    ensures b < Pow2(BitCount(b)) && (b > 0 ==> Pow2(BitCount(b) - 1) <= b)
  {
    if b > 0 {
      BitCountBound(b / 2);
    }
  }

  /** Splitting off one bit, from above and from below. */
  lemma BitSplit(b: nat, i: nat)
    ensures b / Pow2(i) == 2 * (b / Pow2(i + 1)) + (if Bit(b, i) then 1 else 0)
    ensures b % Pow2(i + 1) == b % Pow2(i) + (if Bit(b, i) then Pow2(i) else 0)
  {
    var p := Pow2(i);
    DivMod(b, p);
    var q := b / p;
    DivMod(q, 2);
    var h, low := q / 2, q % 2;
    Assoc(h, 2, p);
    Distrib(h * 2, low, p);
    MulMono(low, 1, p);
    DivModUnique(b, 2 * p, h, b % p + low * p);
  }

  lemma WholeNumber(b: nat, n: nat)
    requires b < Pow2(n)
    ensures b % Pow2(n) == b && b / Pow2(n) == 0 && b / Pow2(0) == b && b % Pow2(0) == 0
  {
    DivModUnique(b, Pow2(n), 0, b);
    DivModUnique(b, 1, b, 0);
  }

  lemma BitCountZero(n: nat)
    ensures BitCount(n) == 0 <==> n == 0
  {
  }

  lemma TopBit(n: nat, bits: nat)
    requires bits == BitCount(n)
    ensures n > 0 ==> bits > 0 && n / Pow2(bits - 1) == 1
  {
    if n > 0 {
      BitCountBound(n);
      DivModUnique(n, Pow2(bits - 1), 1, n - Pow2(bits - 1));
    }
  }
}
