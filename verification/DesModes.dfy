/** The CBC modes of sshdes.c: single, triple with three chains (3cbc), and triple with one (cbc3). */
module DesModes {
  import opened Bits32
  import opened Des
  import opened BlockChain
  import Cbc

  ghost function CipherOf(s: Schedule): Cbc.Cipher<Block> {
    Cbc.Cipher(b => Enciphered(s.forward, b), b => Enciphered(s.backward, b), (x: Block, y: Block) => x.Xored(y), _ => true)
  }

  lemma IsPermutation(s: Schedule)
    requires s.Valid()
    ensures Cbc.IsPermutation(CipherOf(s))
  {
    hide Enciphered, Reverses, Block.Xored;
    var c := CipherOf(s);
    forall x: Block ensures c.decrypt(c.encrypt(x)) == x && c.encrypt(c.decrypt(x)) == x {
      DecipherUndoes(s.forward, s.backward, x);
      DecipherUndoes(s.backward, s.forward, x);
    }
    forall x, y ensures c.xor(x, c.xor(x, y)) == y {
      XoredTwice(x, y);
    }
  }

  lemma TripledWorks(s0: Schedule, s1: Schedule, s2: Schedule)
    requires s0.Valid() && s1.Valid() && s2.Valid()
    ensures Cbc.IsCipher(Cbc.Tripled(CipherOf(s0), CipherOf(s1), CipherOf(s2)))
  {
    hide Enciphered, Reverses, Block.Xored;
    IsPermutation(s0);
    IsPermutation(s1);
    IsPermutation(s2);
    Cbc.TripledIsCipher(CipherOf(s0), CipherOf(s1), CipherOf(s2));
  }

  /** DESContext: a key schedule, as its round functions, and the chaining value iv0, iv1. */
  class DesContext {
    const s: Schedule
    var iv: Block

    constructor (s: Schedule, iv: Block)
      ensures this.s == s && this.iv == iv
    {
      this.s, this.iv := s, iv;
    }

    /** des_cbc_encrypt. */
    method CbcEncrypt(blk: array<Block>)
      modifies this, blk
      ensures blk[..] == Cbc.Encrypted(CipherOf(s), old(iv), old(blk[..]))
      ensures iv == Cbc.Chained(old(iv), blk[..])
    {
      hide EncryptedTo, Enciphered, Cbc.Encrypted;
      var v := iv;
      ghost var b0 := blk[..];
      Done(CipherOf(s), iv, b0, b0, iv);
      var i := 0;
      while i < blk.Length
        invariant 0 <= i <= blk.Length && iv == old(iv) && EncryptedTo(CipherOf(s), iv, b0, blk[..], i, v)
      {
        EncryptStep(CipherOf(s), iv, b0, blk[..], i, v);
        v := v.Xored(blk[i]);
        v := Encipher(s.forward, v);
        ghost var b := blk[..];
        blk[i] := v;
        assert blk[..] == b[i := v];
        i := i + 1;
      }
      Done(CipherOf(s), iv, b0, blk[..], v);
      iv := v;
    }

    /** des_cbc_decrypt. */
    method CbcDecrypt(blk: array<Block>)
      modifies this, blk
      ensures blk[..] == Cbc.Decrypted(CipherOf(s), old(iv), old(blk[..]))
      ensures iv == Cbc.Chained(old(iv), old(blk[..]))
    {
      hide DecryptedTo, Enciphered, Cbc.Decrypted;
      var v := iv;
      ghost var b0 := blk[..];
      Done(CipherOf(s), iv, b0, b0, iv);
      var i := 0;
      while i < blk.Length
        invariant 0 <= i <= blk.Length && iv == old(iv) && DecryptedTo(CipherOf(s), iv, b0, blk[..], i, v)
      {
        DecryptStep(CipherOf(s), iv, b0, blk[..], i, v);
        var x := blk[i];
        var out := Encipher(s.backward, x);
        ghost var b := blk[..];
        blk[i] := v.Xored(out);
        assert blk[..] == b[i := v.Xored(out)];
        v := x;
        i := i + 1;
      }
      Done(CipherOf(s), iv, b0, blk[..], v);
      iv := v;
    }
  }

  // Triple CBC with three chains.

  /** des_3cbc_encrypt. */
  method Encrypt3Cbc(s0: DesContext, s1: DesContext, s2: DesContext, blk: array<Block>)
    requires s0 != s1 && s1 != s2 && s0 != s2
    modifies s0, s1, s2, blk
    ensures var x := Cbc.Encrypted(CipherOf(s0.s), old(s0.iv), old(blk[..]));
            var y := Cbc.Decrypted(CipherOf(s1.s), old(s1.iv), x);
            && blk[..] == Cbc.Encrypted(CipherOf(s2.s), old(s2.iv), y)
            && s0.iv == Cbc.Chained(old(s0.iv), x) && s1.iv == Cbc.Chained(old(s1.iv), x)
            && s2.iv == Cbc.Chained(old(s2.iv), blk[..])
  {
    hide *;
    s0.CbcEncrypt(blk);
    s1.CbcDecrypt(blk);
    s2.CbcEncrypt(blk);
  }

  /** des_3cbc_decrypt. */
  method Decrypt3Cbc(s0: DesContext, s1: DesContext, s2: DesContext, blk: array<Block>)
    requires s0 != s1 && s1 != s2 && s0 != s2
    modifies s0, s1, s2, blk
    ensures var y := Cbc.Decrypted(CipherOf(s2.s), old(s2.iv), old(blk[..]));
            var x := Cbc.Encrypted(CipherOf(s1.s), old(s1.iv), y);
            && blk[..] == Cbc.Decrypted(CipherOf(s0.s), old(s0.iv), x)
            && s2.iv == Cbc.Chained(old(s2.iv), old(blk[..])) && s1.iv == Cbc.Chained(old(s1.iv), x)
            && s0.iv == Cbc.Chained(old(s0.iv), x)
  {
    hide *;
    s2.CbcDecrypt(blk);
    s1.CbcEncrypt(blk);
    s0.CbcDecrypt(blk);
  }

  /** Two ends that start with the same keys and chaining values: the data arrives, and the values are the same again. */
  method Transfer3Cbc(a0: DesContext, a1: DesContext, a2: DesContext, b0: DesContext, b1: DesContext, b2: DesContext,
                      blk: array<Block>)
    requires a0 != a1 && a1 != a2 && a0 != a2 && b0 != b1 && b1 != b2 && b0 != b2 && {a0, a1, a2} !! {b0, b1, b2}
    requires a0.s == b0.s && a1.s == b1.s && a2.s == b2.s && a0.s.Valid() && a1.s.Valid() && a2.s.Valid()
    requires a0.iv == b0.iv && a1.iv == b1.iv && a2.iv == b2.iv
    modifies a0, a1, a2, b0, b1, b2, blk
    ensures blk[..] == old(blk[..]) && a0.iv == b0.iv && a1.iv == b1.iv && a2.iv == b2.iv
  {
    hide *;
    ghost var p := blk[..];
    ghost var x := Cbc.Encrypted(CipherOf(a0.s), a0.iv, p);
    ghost var y := Cbc.Decrypted(CipherOf(a1.s), a1.iv, x);
    Undone(a0.s, a0.iv, p);
    Undone(a1.s, a1.iv, x);
    Undone(a2.s, a2.iv, y);
    Encrypt3Cbc(a0, a1, a2, blk);
    Decrypt3Cbc(b0, b1, b2, blk);
  }

  lemma Undone(s: Schedule, iv: Block, p: seq<Block>)
    requires s.Valid()
    ensures Cbc.Decrypted(CipherOf(s), iv, Cbc.Encrypted(CipherOf(s), iv, p)) == p
    ensures Cbc.Encrypted(CipherOf(s), iv, Cbc.Decrypted(CipherOf(s), iv, p)) == p
  {
    hide Enciphered, Reverses, Block.Xored, Cbc.Encrypted, Cbc.Decrypted;
    IsPermutation(s);
    Cbc.RoundTrip(CipherOf(s), iv, p);
    Cbc.RoundTripBack(CipherOf(s), iv, p);
  }

  // Triple CBC with one chain, kept in the first context.

  lemma TripledAt(s0: Schedule, s1: Schedule, s2: Schedule, x: Block, y: Block)
    ensures var c := Cbc.Tripled(CipherOf(s0), CipherOf(s1), CipherOf(s2));
            && c.encrypt(x) == Enciphered(s2.forward, Enciphered(s1.backward, Enciphered(s0.forward, x)))
            && c.decrypt(x) == Enciphered(s0.backward, Enciphered(s1.forward, Enciphered(s2.backward, x)))
            && c.xor(x, y) == x.Xored(y)
  {
    hide *;
    var c0, c1, c2 := CipherOf(s0), CipherOf(s1), CipherOf(s2);
    Cbc.TripledAt(c0, c1, c2, x);
    Cbc.TripledParts(c0, c1, c2);
    XorIs(s0, x, y);
    CipherAt(s0, x);
    CipherAt(s1, c0.encrypt(x));
    CipherAt(s2, c1.decrypt(c0.encrypt(x)));
    CipherAt(s2, x);
    CipherAt(s1, c2.decrypt(x));
    CipherAt(s0, c1.encrypt(c2.decrypt(x)));
  }

  lemma XorIs(s: Schedule, x: Block, y: Block)
    ensures CipherOf(s).xor(x, y) == x.Xored(y)
  {
    hide Enciphered, Block.Xored;
  }

  lemma CipherAt(s: Schedule, x: Block)
    ensures CipherOf(s).encrypt(x) == Enciphered(s.forward, x) && CipherOf(s).decrypt(x) == Enciphered(s.backward, x)
  {
    hide Enciphered, Block.Xored;
  }

  /** des_cbc3_encrypt. */
  method EncryptCbc3(s0: DesContext, s1: DesContext, s2: DesContext, blk: array<Block>)
    modifies s0, blk
    ensures var c := Cbc.Tripled(CipherOf(s0.s), CipherOf(s1.s), CipherOf(s2.s));
            blk[..] == Cbc.Encrypted(c, old(s0.iv), old(blk[..])) && s0.iv == Cbc.Chained(old(s0.iv), blk[..])
  {
    hide EncryptedTo, Enciphered, Cbc.Encrypted, Cbc.Tripled, CipherOf;
    ghost var c := Cbc.Tripled(CipherOf(s0.s), CipherOf(s1.s), CipherOf(s2.s));
    var v := s0.iv;
    ghost var b0 := blk[..];
    Done(c, v, b0, b0, v);
    var i := 0;
    while i < blk.Length
      invariant 0 <= i <= blk.Length && s0.iv == old(s0.iv) && EncryptedTo(c, s0.iv, b0, blk[..], i, v)
    {
      EncryptStep(c, s0.iv, b0, blk[..], i, v);
      TripledAt(s0.s, s1.s, s2.s, v, blk[i]);
      v := v.Xored(blk[i]);
      TripledAt(s0.s, s1.s, s2.s, v, v);
      v := Encipher(s0.s.forward, v);
      v := Encipher(s1.s.backward, v);
      v := Encipher(s2.s.forward, v);
      ghost var b := blk[..];
      blk[i] := v;
      assert blk[..] == b[i := v];
      i := i + 1;
    }
    Done(c, s0.iv, b0, blk[..], v);
    s0.iv := v;
  }

  /** des_cbc3_decrypt. */
  method DecryptCbc3(s0: DesContext, s1: DesContext, s2: DesContext, blk: array<Block>)
    modifies s0, blk
    ensures var c := Cbc.Tripled(CipherOf(s0.s), CipherOf(s1.s), CipherOf(s2.s));
            blk[..] == Cbc.Decrypted(c, old(s0.iv), old(blk[..])) && s0.iv == Cbc.Chained(old(s0.iv), old(blk[..]))
  {
    hide DecryptedTo, Enciphered, Cbc.Decrypted, Cbc.Tripled, CipherOf;
    ghost var c := Cbc.Tripled(CipherOf(s0.s), CipherOf(s1.s), CipherOf(s2.s));
    var v := s0.iv;
    ghost var b0 := blk[..];
    Done(c, v, b0, b0, v);
    var i := 0;
    while i < blk.Length
      invariant 0 <= i <= blk.Length && s0.iv == old(s0.iv) && DecryptedTo(c, s0.iv, b0, blk[..], i, v)
    {
      DecryptStep(c, s0.iv, b0, blk[..], i, v);
      var x := blk[i];
      TripledAt(s0.s, s1.s, s2.s, x, x);
      TripledAt(s0.s, s1.s, s2.s, v, c.decrypt(x));
      var out := Encipher(s2.s.backward, x);
      out := Encipher(s1.s.forward, out);
      out := Encipher(s0.s.backward, out);
      ghost var b := blk[..];
      blk[i] := v.Xored(out);
      assert blk[..] == b[i := v.Xored(out)];
      v := x;
      i := i + 1;
    }
    Done(c, s0.iv, b0, blk[..], v);
    s0.iv := v;
  }

  /** Two ends that start with the same keys and chaining value. */
  method TransferCbc3(a0: DesContext, a1: DesContext, a2: DesContext, b0: DesContext, b1: DesContext, b2: DesContext,
                      blk: array<Block>)
    requires a0 != b0 && a0.s == b0.s && a1.s == b1.s && a2.s == b2.s && a0.s.Valid() && a1.s.Valid() && a2.s.Valid()
    requires a0.iv == b0.iv
    modifies a0, b0, blk
    ensures blk[..] == old(blk[..]) && a0.iv == b0.iv
  {
    hide Enciphered, Reverses, Block.Xored, Cbc.Encrypted, Cbc.Decrypted, Cbc.Tripled, CipherOf;
    ghost var c := Cbc.Tripled(CipherOf(a0.s), CipherOf(a1.s), CipherOf(a2.s));
    TripledWorks(a0.s, a1.s, a2.s);
    AnyBlock(a0.s, a1.s, a2.s);
    Cbc.RoundTrip(c, a0.iv, blk[..]);
    EncryptCbc3(a0, a1, a2, blk);
    DecryptCbc3(b0, b1, b2, blk);
  }

  lemma AnyBlock(s0: Schedule, s1: Schedule, s2: Schedule)
    ensures forall b :: Cbc.Tripled(CipherOf(s0), CipherOf(s1), CipherOf(s2)).block(b)
  {
    hide Cbc.Tripled;
    Cbc.TripledParts(CipherOf(s0), CipherOf(s1), CipherOf(s2));
  }
}
