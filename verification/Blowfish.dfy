/** Blowfish: the rounds and the CBC mode of sshblowf.c, for any P array and any S boxes. */
module Blowfish {
  import opened Bits32
  import opened BlockChain
  import Cbc

  /** F over the S boxes; nothing is asked of it. */
  type SFunction = Word -> Word

  /** ROUND(n): xL ^= P[n], t = xL, xL = F(xL) ^ xR, xR = t. */
  function Round(f: SFunction, k: Word, b: Block): Block {
    var x := Xor(b.l, k);
    Block(Xor(f(x), b.r), x)
  }

  ghost function Rounds(f: SFunction, p: seq<Word>, b: Block, i: nat): Block
    requires i <= |p|
  {
    if i == 0 then b else Round(f, p[i - 1], Rounds(f, p, b, i - 1))
  }

  /** Sixteen rounds, two more subkeys, and the halves exchanged. */
  ghost function Crypted(f: SFunction, p: seq<Word>, b: Block): Block
    requires |p| == 18
  {
    var r := Rounds(f, p, b, 16);
    Block(Xor(r.r, p[17]), Xor(r.l, p[16]))
  }

  /**
   * The halves that meet the subkeys: each is the one two places before it, with F of the one before it and the next
   * subkey added. The right half of the block comes first, the left half with the first subkey next.
   */
  ghost function Half(f: SFunction, p: seq<Word>, b: Block, i: nat): Word
    requires i <= |p|
  {
    if i == 0 then b.r
    else if i == 1 then Xor(b.l, p[0])
    else Xor(Xor(Half(f, p, b, i - 2), f(Half(f, p, b, i - 1))), p[i - 1])
  }

  lemma XorTurn(a: Word, b: Word, c: Word)
    ensures Xor(Xor(a, b), c) == Xor(Xor(b, a), c)
  {
    var x, y := Xor(Xor(a, b), c), Xor(Xor(b, a), c);
    assert forall i :: 0 <= i < 32 ==> x[i] == y[i];
  }

  lemma {:induction false} RoundsAre(f: SFunction, p: seq<Word>, b: Block, i: nat)
    requires i < |p|
    ensures Rounds(f, p, b, i).r == Half(f, p, b, i) && Xor(Rounds(f, p, b, i).l, p[i]) == Half(f, p, b, i + 1)
  {
    hide Xor;
    if i > 0 {
      RoundsAre(f, p, b, i - 1);
      XorTurn(f(Half(f, p, b, i)), Half(f, p, b, i - 1), p[i]);
    }
  }

  /** blowfish_encrypt gives the last two of them, the older one with the last subkey added. */
  lemma CryptedIs(f: SFunction, p: seq<Word>, b: Block)
    requires |p| == 18
    ensures Crypted(f, p, b) == Block(Xor(Half(f, p, b, 16), p[17]), Half(f, p, b, 17))
  {
    hide Xor, Rounds, Half;
    RoundsAre(f, p, b, 16);
  }

  /** The subkeys as blowfish_decrypt takes them. */
  function Reversed(p: seq<Word>): (q: seq<Word>)
    requires |p| == 18
    ensures |q| == 18 && forall i :: 0 <= i < 18 ==> q[i] == p[17 - i]
  {
    seq(18, i requires 0 <= i < 18 => p[17 - i])
  }

  /** One round of decryption, against the round of encryption that it undoes. */
  lemma RoundBack(f: SFunction, e: Block, k0: Word, k1: Word, k2: Word)
    ensures var r := Round(f, k0, e);
            Round(f, k2, Block(Xor(r.r, k2), Xor(r.l, k1))) == Block(Xor(e.r, k1), Xor(e.l, k0))
  {
    var r := Round(f, k0, e);
    XorTwice(r.r, k2);
    XorSwap(f(r.r), e.r, k1);
  }

  lemma XorSwap(a: Word, b: Word, c: Word)
    ensures Xor(a, Xor(Xor(a, b), c)) == Xor(b, c)
  {
    var x, y := Xor(a, Xor(Xor(a, b), c)), Xor(b, c);
    assert forall i :: 0 <= i < 32 ==> x[i] == y[i];
  }

  /** Decryption meets the states of encryption in reverse, each masked with the two subkeys around it. */
  lemma {:induction false} RoundsBack(f: SFunction, p: seq<Word>, b: Block, i: nat)
    requires |p| == 18 && i <= 16
    ensures var e := Rounds(f, p, b, 16 - i);
            Rounds(f, Reversed(p), Crypted(f, p, b), i) == Block(Xor(e.r, p[17 - i]), Xor(e.l, p[16 - i]))
  {
    hide Xor, Round, Reversed;
    if i > 0 {
      RoundsBack(f, p, b, i - 1);
      assert 16 - (i - 1) == 17 - i;
      RoundBack(f, Rounds(f, p, b, 16 - i), p[16 - i], p[17 - i], p[18 - i]);
      assert Reversed(p)[i - 1] == p[18 - i];
    }
  }

  /** Decryption undoes encryption, whatever P and the S boxes hold. */
  lemma DecryptUndoes(f: SFunction, p: seq<Word>, b: Block)
    requires |p| == 18
    ensures Crypted(f, Reversed(p), Crypted(f, p, b)) == b
  {
    hide Xor, Round;
    RoundsBack(f, p, b, 16);
    assert Rounds(f, p, b, 0) == b;
    XorTwice(b.r, p[1]);
    XorTwice(b.l, p[0]);
  }

  ghost function CipherOf(f: SFunction, p: seq<Word>): Cbc.Cipher<Block>
    requires |p| == 18
  {
    Cbc.Cipher(b => Crypted(f, p, b), b => Crypted(f, Reversed(p), b), (x: Block, y: Block) => x.Xored(y), _ => true)
  }

  lemma CipherWorks(f: SFunction, p: seq<Word>)
    requires |p| == 18
    ensures Cbc.IsCipher(CipherOf(f, p))
  {
    hide Crypted, Reversed, Block.Xored;
    var c := CipherOf(f, p);
    forall x: Block ensures c.decrypt(c.encrypt(x)) == x {
      DecryptUndoes(f, p, x);
    }
    forall x, y ensures c.xor(x, c.xor(x, y)) == y {
      XoredTwice(x, y);
    }
  }

  /** BlowfishContext. */
  class BlowfishContext {
    const f: SFunction
    const P: array<Word>
    var iv: Block

    constructor (f: SFunction, P: array<Word>, iv: Block)
      requires P.Length == 18
      ensures this.f == f && this.P == P && this.iv == iv
    {
      this.f, this.P, this.iv := f, P, iv;
    }

    /** blowfish_encrypt. */
    method Encrypt(b: Block) returns (out: Block)
      requires P.Length == 18
      ensures out == Crypted(f, P[..], b)
    {
      hide Xor;
      var x := b;
      var n := 0;
      while n < 16
        invariant 0 <= n <= 16 && x == Rounds(f, P[..], b, n)
      {
        x := Round(f, P[n], x);
        n := n + 1;
      }
      out := Block(Xor(x.r, P[17]), Xor(x.l, P[16]));
    }

    /** blowfish_decrypt. */
    method Decrypt(b: Block) returns (out: Block)
      requires P.Length == 18
      ensures out == Crypted(f, Reversed(P[..]), b)
    {
      hide Xor, Reversed;
      var x := b;
      var n := 17;
      while n > 1
        invariant 1 <= n <= 17 && x == Rounds(f, Reversed(P[..]), b, 17 - n)
      {
        x := Round(f, P[n], x);
        n := n - 1;
      }
      out := Block(Xor(x.r, P[0]), Xor(x.l, P[1]));
    }

    /** blowfish_lsb_encrypt_cbc and blowfish_msb_encrypt_cbc. */
    method EncryptCbc(blk: array<Block>)
      requires P.Length == 18
      modifies this`iv, blk
      ensures blk[..] == Cbc.Encrypted(CipherOf(f, P[..]), old(iv), old(blk[..]))
      ensures iv == Cbc.Chained(old(iv), blk[..])
    {
      hide EncryptedTo, Crypted, Cbc.Encrypted;
      ghost var c := CipherOf(f, P[..]);
      var v := iv;
      ghost var b0 := blk[..];
      Done(c, iv, b0, b0, iv);
      var i := 0;
      while i < blk.Length
        invariant 0 <= i <= blk.Length && iv == old(iv) && EncryptedTo(c, iv, b0, blk[..], i, v)
      {
        EncryptStep(c, iv, b0, blk[..], i, v);
        v := v.Xored(blk[i]);
        v := Encrypt(v);
        ghost var b := blk[..];
        blk[i] := v;
        assert blk[..] == b[i := v];
        i := i + 1;
      }
      Done(c, iv, b0, blk[..], v);
      iv := v;
    }

    /** blowfish_lsb_decrypt_cbc and blowfish_msb_decrypt_cbc. */
    method DecryptCbc(blk: array<Block>)
      requires P.Length == 18
      modifies this`iv, blk
      ensures blk[..] == Cbc.Decrypted(CipherOf(f, P[..]), old(iv), old(blk[..]))
      ensures iv == Cbc.Chained(old(iv), old(blk[..]))
    {
      hide DecryptedTo, Crypted, Cbc.Decrypted;
      ghost var c := CipherOf(f, P[..]);
      var v := iv;
      ghost var b0 := blk[..];
      Done(c, iv, b0, b0, iv);
      var i := 0;
      while i < blk.Length
        invariant 0 <= i <= blk.Length && iv == old(iv) && DecryptedTo(c, iv, b0, blk[..], i, v)
      {
        DecryptStep(c, iv, b0, blk[..], i, v);
        var x := blk[i];
        var out := Decrypt(x);
        ghost var b := blk[..];
        blk[i] := v.Xored(out);
        assert blk[..] == b[i := v.Xored(out)];
        v := x;
        i := i + 1;
      }
      Done(c, iv, b0, blk[..], v);
      iv := v;
    }
  }

  /** Two ends with the same subkeys and chaining value: the data arrives, and the values are the same again. */
  method Transfer(a: BlowfishContext, b: BlowfishContext, blk: array<Block>)
    requires a != b && a.P.Length == b.P.Length == 18 && a.f == b.f && a.P[..] == b.P[..] && a.iv == b.iv
    modifies a`iv, b`iv, blk
    ensures blk[..] == old(blk[..]) && a.iv == b.iv
  {
    hide Crypted, Cbc.Encrypted, Cbc.Decrypted;
    CipherWorks(a.f, a.P[..]);
    Cbc.RoundTrip(CipherOf(a.f, a.P[..]), a.iv, blk[..]);
    a.EncryptCbc(blk);
    b.DecryptCbc(blk);
  }
}
