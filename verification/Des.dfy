/** DES: the permutations, the rounds and the CBC modes of sshdes.c. */
module Des {
  import opened Arith
  import opened Bits32
  import Cbc

  /** The bits i of the mask that (i / period) is even for: 0x0F0F0F0F and the like. */
  function Mask(period: nat): Word
    requires period > 0
  {
    seq(32, i requires 0 <= i < 32 => (i / period) % 2 == 0)
  }

  /** bitswap(L, R, n, mask): exchanges masked bits of L with the bits n places up in R. */
  function BitSwap(b: Block, n: nat, mask: Word): Block {
    var swap := And(mask, Xor(Shr(b.r, n), b.l));
    Block(Xor(b.l, swap), Xor(b.r, Shl(swap, n)))
  }

  /** The mask has no bit in the n topmost places. */
  ghost predicate Fits(mask: Word, n: nat) {
    forall i :: 0 <= i < 32 && mask[i] ==> i + n < 32
  }

  /** Where a bit of either word comes from. */
  lemma BitSwapAt(b: Block, n: nat, mask: Word, i: nat)
    requires Fits(mask, n) && i < 32
    ensures BitSwap(b, n, mask).l[i] == if mask[i] then b.r[i + n] else b.l[i]
    ensures BitSwap(b, n, mask).r[i] == if i >= n && mask[i - n] then b.l[i - n] else b.r[i]
  {
  }

  lemma BitSwapTwice(b: Block, n: nat, mask: Word)
    requires Fits(mask, n)
    ensures BitSwap(BitSwap(b, n, mask), n, mask) == b
  {
    hide BitSwap;
    var c := BitSwap(b, n, mask);
    var d := BitSwap(c, n, mask);
    forall i | 0 <= i < 32 ensures d.l[i] == b.l[i] && d.r[i] == b.r[i] {
      BitSwapAt(c, n, mask, i);
      BitSwapAt(b, n, mask, i);
      if mask[i] {
        BitSwapAt(b, n, mask, i + n);
      }
      if i >= n && mask[i - n] {
        BitSwapAt(b, n, mask, i - n);
      }
    }
  }

  /** The five exchanges of IP: n is also the width of the mask's stripes. */
  predicate IsStripe(n: nat) {
    n == 1 || n == 2 || n == 4 || n == 8 || n == 16
  }

  lemma StripeFits(n: nat)
    requires IsStripe(n)
    ensures Fits(Mask(n), n)
  {
    if n == 1 {
    } else if n == 2 {
    } else if n == 4 {
    } else if n == 8 {
    } else {
    }
  }

  function Flip(b: Block): Block {
    Block(b.r, b.l)
  }

  /** bitswap(L, R, n, ...). */
  function SwapLR(b: Block, n: nat): Block
    requires n > 0
  {
    BitSwap(b, n, Mask(n))
  }

  /** bitswap(R, L, n, ...). */
  function SwapRL(b: Block, n: nat): Block
    requires n > 0
  {
    Flip(BitSwap(Flip(b), n, Mask(n)))
  }

  lemma SwapsTwice(b: Block, n: nat)
    requires IsStripe(n)
    ensures SwapLR(SwapLR(b, n), n) == b && SwapRL(SwapRL(b, n), n) == b
  {
    hide BitSwap, Mask;
    StripeFits(n);
    BitSwapTwice(b, n, Mask(n));
    BitSwapTwice(Flip(b), n, Mask(n));
  }

  function IP(b: Block): Block {
    SwapRL(SwapLR(SwapLR(SwapRL(SwapRL(b, 4), 16), 2), 8), 1)
  }

  function FP(b: Block): Block {
    SwapRL(SwapRL(SwapLR(SwapLR(SwapRL(b, 1), 8), 2), 16), 4)
  }

  /** The final permutation is the inverse of the initial one. */
  lemma PermutationsInverse(b: Block)
    ensures FP(IP(b)) == b && IP(FP(b)) == b
  {
    hide SwapLR, SwapRL;
    SwapsTwice(b, 4);
    SwapsTwice(SwapRL(b, 4), 16);
    SwapsTwice(SwapRL(SwapRL(b, 4), 16), 2);
    SwapsTwice(SwapLR(SwapRL(SwapRL(b, 4), 16), 2), 8);
    SwapsTwice(SwapLR(SwapLR(SwapRL(SwapRL(b, 4), 16), 2), 8), 1);
    SwapsTwice(b, 1);
    SwapsTwice(SwapRL(b, 1), 8);
    SwapsTwice(SwapLR(SwapRL(b, 1), 8), 2);
    SwapsTwice(SwapLR(SwapLR(SwapRL(b, 1), 8), 2), 16);
    SwapsTwice(SwapRL(SwapLR(SwapLR(SwapRL(b, 1), 8), 2), 16), 4);
  }

  // What the exchanges do to each bit.

  /** Bit i of L, where upper is 1, or of R. */
  datatype Place = Place(upper: nat, i: nat)

  predicate IsPlace(p: Place) {
    p.upper <= 1 && p.i < 32
  }

  function Bit(b: Block, p: Place): bool
    requires IsPlace(p)
  {
    if p.upper == 1 then b.l[p.i] else b.r[p.i]
  }

  /** Bit i lies in an odd stripe of width k. */
  predicate Odd(i: nat, k: nat)
    requires k > 0
  {
    (i / k) % 2 == 1
  }

  lemma Stripes(i: nat, k: nat)
    requires i < 32 && IsStripe(k)
    ensures Odd(i, k) ==> i >= k
    ensures !Odd(i, k) ==> i + k < 32
    ensures i >= k ==> Odd(i - k, k) == !Odd(i, k)
  {
  }

  lemma MaskAt(k: nat, i: nat)
    requires k > 0 && i < 32
    ensures Mask(k)[i] == !Odd(i, k)
  {
  }

  /** Where an exchange takes a bit from; the even stripes of word `moves` come from above, in the other word. */
  function Source(p: Place, k: nat, moves: nat): (q: Place)
    requires IsPlace(p) && IsStripe(k) && moves <= 1
    ensures IsPlace(q)
  {
    Stripes(p.i, k);
    if p.upper == moves && !Odd(p.i, k) then Place(1 - p.upper, p.i + k)
    else if p.upper != moves && Odd(p.i, k) then Place(1 - p.upper, p.i - k)
    else p
  }

  lemma SwapSource(b: Block, k: nat, p: Place)
    requires IsStripe(k) && IsPlace(p)
    ensures Bit(SwapLR(b, k), p) == Bit(b, Source(p, k, 1))
    ensures Bit(SwapRL(b, k), p) == Bit(b, Source(p, k, 0))
  {
    hide BitSwap, Odd, IsStripe, Mask;
    StripeFits(k);
    Stripes(p.i, k);
    MaskAt(k, p.i);
    if p.i >= k {
      MaskAt(k, p.i - k);
    }
    BitSwapAt(b, k, Mask(k), p.i);
    BitSwapAt(Flip(b), k, Mask(k), p.i);
  }

  /** A place whose number has these binary digits. */
  function Digits(w: nat, e: nat, d: nat, c: nat, b: nat, a: nat): (p: Place)
    requires w <= 1 && e <= 1 && d <= 1 && c <= 1 && b <= 1 && a <= 1
    ensures IsPlace(p)
  {
    Place(w, 16 * e + 8 * d + 4 * c + 2 * b + a)
  }

  lemma HasDigits(p: Place) returns (w: nat, e: nat, d: nat, c: nat, b: nat, a: nat)
    requires IsPlace(p)
    ensures w <= 1 && e <= 1 && d <= 1 && c <= 1 && b <= 1 && a <= 1 && p == Digits(w, e, d, c, b, a)
  {
    var i1 := p.i / 2;
    var i2 := i1 / 2;
    var i3 := i2 / 2;
    e := i3 / 2;
    w, d, c, b, a := p.upper, i3 - 2 * e, i2 - 2 * i3, i1 - 2 * i2, p.i - 2 * i1;
  }

  lemma OddIs(i: nat, hi: nat, digit: nat, lo: nat, k: nat)
    requires IsStripe(k) && digit <= 1 && lo < k && i == 2 * k * hi + k * digit + lo
    ensures Odd(i, k) <==> digit == 1
  {
    DivModUnique(i, k, 2 * hi + digit, lo);
  }

  /** An exchange swaps two digits of a bit's place, its word and the one with the stripe's weight, or complements both. */
  lemma Exchanged(p: Place, k: nat, digit: nat, rest: nat)
    requires IsPlace(p) && IsStripe(k) && digit <= 1 && p.i == rest + (if digit == 1 then k else 0)
    requires Odd(p.i, k) <==> digit == 1
    ensures Source(p, k, 1) == Place(digit, rest + (if p.upper == 1 then k else 0))
    ensures Source(p, k, 0) == Place(1 - digit, rest + (if p.upper == 1 then 0 else k))
  {
    hide Odd, IsStripe;
  }

  lemma LRDigits(w: nat, e: nat, d: nat, c: nat, b: nat, a: nat)
    requires w <= 1 && e <= 1 && d <= 1 && c <= 1 && b <= 1 && a <= 1
    ensures var p := Digits(w, e, d, c, b, a);
            Source(p, 8, 1) == Digits(d, e, w, c, b, a) && Source(p, 2, 1) == Digits(b, e, d, c, w, a)
  {
    hide Odd, Source;
    var p := Digits(w, e, d, c, b, a);
    OddIs(p.i, 4 * e + 2 * d + c, b, a, 2);
    Exchanged(p, 2, b, p.i - 2 * b);
    OddIs(p.i, e, d, 4 * c + 2 * b + a, 8);
    Exchanged(p, 8, d, p.i - 8 * d);
  }

  lemma RLDigits(w: nat, e: nat, d: nat, c: nat, b: nat, a: nat)
    requires w <= 1 && e <= 1 && d <= 1 && c <= 1 && b <= 1 && a <= 1
    ensures var p := Digits(w, e, d, c, b, a);
            && Source(p, 1, 0) == Digits(1 - a, e, d, c, b, 1 - w)
            && Source(p, 16, 0) == Digits(1 - e, 1 - w, d, c, b, a)
            && Source(p, 4, 0) == Digits(1 - c, e, d, 1 - w, b, a)
  {
    hide Odd, Source;
    var p := Digits(w, e, d, c, b, a);
    OddIs(p.i, 8 * e + 4 * d + 2 * c + b, a, 0, 1);
    Exchanged(p, 1, a, p.i - a);
    OddIs(p.i, 2 * e + d, c, 2 * b + a, 4);
    Exchanged(p, 4, c, p.i - 4 * c);
    OddIs(p.i, 0, e, 8 * d + 4 * c + 2 * b + a, 16);
    Exchanged(p, 16, e, p.i - 16 * e);
  }

  /** The documented table of IP: its rows start at 6, 4, 2, 0 for L and at 7, 5, 3, 1 for R, and go up in eights. */
  function InputBit(p: Place): nat
    requires IsPlace(p)
  {
    var row, column := 3 - p.i / 8, 7 - p.i % 8;
    (if p.upper == 1 then 6 else 7) - 2 * row + 8 * column
  }

  lemma InputDigits(w: nat, e: nat, d: nat, c: nat, b: nat, a: nat)
    requires w <= 1 && e <= 1 && d <= 1 && c <= 1 && b <= 1 && a <= 1
    ensures var q := Digits(1 - c, 1 - b, 1 - a, e, d, 1 - w); InputBit(Digits(w, e, d, c, b, a)) == 32 * q.upper + q.i
  {
    var i := Digits(w, e, d, c, b, a).i;
    Quotient(i, 2 * e + d, 4 * c + 2 * b + a);
  }

  lemma Quotient(i: nat, q: nat, r: nat)
    requires i == 8 * q + r && r < 8
    ensures i / 8 == q && i % 8 == r
  {
  }

  /** The five exchanges move every bit as the documented table has it. */
  lemma IPTable(x: Block, p: Place) returns (q: Place)
    requires IsPlace(p)
    ensures IsPlace(q) && 32 * q.upper + q.i == InputBit(p) && Bit(IP(x), p) == Bit(x, q)
  {
    hide SwapLR, SwapRL, Bit, Source, InputBit, Digits;
    var w, e, d, c, b, a := HasDigits(p);
    var x1 := SwapRL(x, 4);
    var x2 := SwapRL(x1, 16);
    var x3 := SwapLR(x2, 2);
    SwapSource(SwapLR(x3, 8), 1, p);
    RLDigits(w, e, d, c, b, a);
    SwapSource(x3, 8, Digits(1 - a, e, d, c, b, 1 - w));
    LRDigits(1 - a, e, d, c, b, 1 - w);
    SwapSource(x2, 2, Digits(d, e, 1 - a, c, b, 1 - w));
    LRDigits(d, e, 1 - a, c, b, 1 - w);
    SwapSource(x1, 16, Digits(b, e, 1 - a, c, d, 1 - w));
    RLDigits(b, e, 1 - a, c, d, 1 - w);
    SwapSource(x, 4, Digits(1 - e, 1 - b, 1 - a, c, d, 1 - w));
    RLDigits(1 - e, 1 - b, 1 - a, c, d, 1 - w);
    q := Digits(1 - c, 1 - b, 1 - a, e, d, 1 - w);
    InputDigits(w, e, d, c, b, a);
  }

  // The rounds.

  /** f(x, i) is f of x under the two key words of round i; nothing else is asked of it. */
  type RoundFunction = (Word, nat) -> Word

  /** Even rounds change L, odd rounds change R. */
  function Round(f: RoundFunction, b: Block, i: nat): Block {
    if i % 2 == 0 then Block(Xor(b.l, f(b.r, i)), b.r) else Block(b.l, Xor(b.r, f(b.l, i)))
  }

  ghost function Rounds(f: RoundFunction, b: Block, i: nat): Block {
    if i == 0 then b else Round(f, Rounds(f, b, i - 1), i - 1)
  }

  /** g runs the sixteen keys of f backwards. */
  ghost predicate Reverses(f: RoundFunction, g: RoundFunction) {
    forall x: Word, i: nat :: i < 16 ==> g(x, i) == f(x, 15 - i)
  }

  /** One round backwards is one round of the other half. */
  lemma RoundBack(f: RoundFunction, g: RoundFunction, b: Block, i: nat)
    requires Reverses(f, g) && i < 16
    ensures Round(g, Flip(Round(f, b, 15 - i)), i) == Flip(b)
  {
    hide Xor;
    assert g(b.l, i) == f(b.l, 15 - i) && g(b.r, i) == f(b.r, 15 - i);
    if i % 2 == 0 {
      XorTwice(b.r, f(b.l, 15 - i));
    } else {
      XorTwice(b.l, f(b.r, 15 - i));
    }
  }

  lemma {:induction false} RoundsBack(f: RoundFunction, g: RoundFunction, b: Block, i: nat)
    requires Reverses(f, g) && i <= 16
    ensures Rounds(g, Flip(Rounds(f, b, 16)), i) == Flip(Rounds(f, b, 16 - i))
  {
    hide Round, Reverses;
    if i > 0 {
      RoundsBack(f, g, b, i - 1);
      RoundBack(f, g, Rounds(f, b, 16 - i), i - 1);
      assert 15 - (i - 1) == 16 - i;
    }
  }

  function Rotated(b: Block, n: nat): Block
    requires n <= 32
  {
    Block(Rotl(b.l, n), Rotl(b.r, n))
  }

  lemma RotatedBack(b: Block)
    ensures Rotated(Rotated(b, 1), 31) == b && Rotated(Rotated(b, 31), 1) == b
  {
    hide Rotl;
    RotlBack(b.l, 1);
    RotlBack(b.r, 1);
    RotlBack(b.l, 31);
    RotlBack(b.r, 31);
  }

  /** des_encipher; des_decipher is the same with the keys reversed. */
  ghost function Enciphered(f: RoundFunction, b: Block): Block {
    FP(Flip(Rotated(Rounds(f, Rotated(IP(b), 1), 16), 31)))
  }

  /** Decryption undoes encryption, for every key schedule and every round function. */
  lemma DecipherUndoes(f: RoundFunction, g: RoundFunction, b: Block)
    requires Reverses(f, g)
    ensures Enciphered(g, Enciphered(f, b)) == b
  {
    hide IP, FP, Rotl, Rounds, Reverses;
    var s := Rotated(IP(b), 1);
    var e := Rounds(f, s, 16);
    PermutationsInverse(Flip(Rotated(e, 31)));
    RotatedBack(Flip(e));
    RoundsBack(f, g, s, 16);
    RoundsNone(f, s);
    RotatedBack(Flip(s));
    RotatedBack(IP(b));
    PermutationsInverse(b);
  }

  lemma RoundsNone(f: RoundFunction, s: Block)
    ensures Rounds(f, s, 0) == s
  {
  }

  /** The round functions of a key schedule and of its reversal. */
  datatype Schedule = Schedule(forward: RoundFunction, backward: RoundFunction) {
    ghost predicate Valid() {
      Reverses(forward, backward) && Reverses(backward, forward)
    }
  }

  // The enciphering computation of FIPS 46-3.

  /** L' = R and R' = L + f(R, K), for the first n keys in their order. */
  ghost function Feistel(f: RoundFunction, b: Block, n: nat): Block {
    if n == 0 then b
    else
      var p := Feistel(f, b, n - 1);
      Block(p.r, Xor(p.l, f(p.r, n - 1)))
  }

  /** f on halves that are not rotated. */
  function Unrotated(f: RoundFunction): RoundFunction {
    (x: Word, i: nat) => Rotl(f(Rotl(x, 1), i), 31)
  }

  /** Changing the halves in turn is the recurrence, without its exchanges. */
  lemma {:induction false} RoundsAre(f: RoundFunction, b: Block, n: nat)
    ensures Rounds(f, b, n) == if n % 2 == 0 then Feistel(f, b, n) else Flip(Feistel(f, b, n))
  {
    hide Xor;
    if n > 0 {
      RoundsAre(f, b, n - 1);
    }
  }

  lemma RotlXor(v: Word, w: Word, n: nat)
    requires n <= 32
    ensures Rotl(Xor(v, w), n) == Xor(Rotl(v, n), Rotl(w, n))
  {
  }

  /** The rotated rounds are the rounds, rotated. */
  lemma {:induction false} FeistelRotated(f: RoundFunction, b: Block, n: nat)
    ensures Feistel(f, Rotated(b, 1), n) == Rotated(Feistel(Unrotated(f), b, n), 1)
  {
    hide Xor, Rotl;
    if n > 0 {
      FeistelRotated(f, b, n - 1);
      var p := Feistel(Unrotated(f), b, n - 1);
      RotlXor(p.l, Unrotated(f)(p.r, n - 1), 1);
      RotlBack(f(Rotl(p.r, 1), n - 1), 31);
    }
  }

  /** des_encipher is the initial permutation, sixteen rounds of the recurrence, and FP of the halves exchanged. */
  lemma EncipheredIs(f: RoundFunction, b: Block)
    ensures Enciphered(f, b) == FP(Flip(Feistel(Unrotated(f), IP(b), 16)))
  {
    hide IP, FP, Rotl, Xor, Rounds, Feistel;
    RoundsAre(f, Rotated(IP(b), 1), 16);
    FeistelRotated(f, IP(b), 16);
    RotatedBack(Feistel(Unrotated(f), IP(b), 16));
  }

  /** The sixteen rounds as des_encipher and des_decipher run them on L and R. */
  method Encipher(f: RoundFunction, b: Block) returns (out: Block)
    ensures out == Enciphered(f, b)
  {
    hide IP, FP, Rotl, Xor;
    var p := IP(b);
    var L, R := Rotl(p.l, 1), Rotl(p.r, 1);
    ghost var s := Rotated(p, 1);
    var i := 0;
    while i < 16
      invariant 0 <= i <= 16 && i % 2 == 0 && Block(L, R) == Rounds(f, s, i)
    {
      L := Xor(L, f(R, i));
      R := Xor(R, f(L, i + 1));
      assert Rounds(f, s, i + 1) == Round(f, Rounds(f, s, i), i);
      i := i + 2;
    }
    L, R := Rotl(L, 31), Rotl(R, 31);
    L, R := R, L;
    out := FP(Block(L, R));
  }
}
