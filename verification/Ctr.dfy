/** Counter mode over any block cipher and any way of counting. */
module Ctr {
  import opened Cbc

  /** The m-th counter. */
  ghost function Counter<T>(next: T -> T, s: T, m: nat): T {
    if m == 0 then s else next(Counter(next, s, m - 1))
  }

  lemma {:induction false} CounterSplit<T>(next: T -> T, s: T, m: nat, n: nat)
    ensures Counter(next, s, m + n) == Counter(next, Counter(next, s, m), n)
  {
    if n > 0 {
      CounterSplit(next, s, m, n - 1);
      assert Counter(next, s, m + n) == next(Counter(next, s, m + (n - 1)));
    }
  }

  /** Data blocks with the encrypted counters from s on added to them. */
  ghost function Masked<T(!new)>(c: Cipher<T>, next: T -> T, s: T, p: seq<T>): (r: seq<T>)
    ensures |r| == |p|
  {
    if p == [] then [] else [c.xor(c.encrypt(s), p[0])] + Masked(c, next, next(s), p[1..])
  }

  /** Block i has the i-th counter, encrypted, added to it. */
  lemma {:induction false} MaskedAt<T(!new)>(c: Cipher<T>, next: T -> T, s: T, p: seq<T>, i: nat)
    requires i < |p|
    ensures Masked(c, next, s, p)[i] == c.xor(c.encrypt(Counter(next, s, i)), p[i])
  {
    if i > 0 {
      MaskedAt(c, next, next(s), p[1..], i - 1);
      CounterSplit(next, s, 1, i - 1);
      assert Counter(next, s, 1) == next(Counter(next, s, 0));
    }
  }

  /** Masking again takes the mask off: the mode is its own inverse. */
  lemma {:induction false} MaskedTwice<T(!new)>(c: Cipher<T>, next: T -> T, s: T, p: seq<T>)
    requires IsCipher(c) && AllBlocks(c, p) && c.block(s) && forall x: T :: c.block(x) ==> c.block(next(x))
    ensures Masked(c, next, s, Masked(c, next, s, p)) == p
  {
    if p != [] {
      RestBlocks(c, p);
      MaskedTwice(c, next, next(s), p[1..]);
      MaskTwice(c, s, p[0]);
      var first, rest := c.xor(c.encrypt(s), p[0]), Masked(c, next, next(s), p[1..]);
      assert ([first] + rest)[1..] == rest;
      assert p == [p[0]] + p[1..];
    }
  }

  lemma MaskTwice<T(!new)>(c: Cipher<T>, s: T, x: T)
    requires IsCipher(c) && c.block(s) && c.block(x)
    ensures c.xor(c.encrypt(s), c.xor(c.encrypt(s), x)) == x
  {
  }

  /** However the blocks are split into calls, the result is the same. */
  lemma {:induction false} MaskedSplit<T(!new)>(c: Cipher<T>, next: T -> T, s: T, p: seq<T>, q: seq<T>)
    ensures Masked(c, next, s, p + q) == Masked(c, next, s, p) + Masked(c, next, Counter(next, s, |p|), q)
  {
    if p == [] {
      assert p + q == q;
    } else {
      assert (p + q)[1..] == p[1..] + q;
      MaskedSplit(c, next, next(s), p[1..], q);
      CounterSplit(next, s, 1, |p| - 1);
      assert Counter(next, s, 1) == next(Counter(next, s, 0));
    }
  }

  /** One more block at the end. */
  lemma MaskedSnoc<T(!new)>(c: Cipher<T>, next: T -> T, s: T, p: seq<T>, x: T)
    ensures Masked(c, next, s, p + [x]) == Masked(c, next, s, p) + [c.xor(c.encrypt(Counter(next, s, |p|)), x)]
    ensures Counter(next, s, |p| + 1) == next(Counter(next, s, |p|))
  {
    MaskedSplit(c, next, s, p, [x]);
    assert [x][1..] == [];
  }
}
