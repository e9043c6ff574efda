/** How far a CBC loop over blocks of two words has come. */
module BlockChain {
  import opened Bits32
  import Cbc

  /** The first i blocks are done, and v is the chaining value after them. */
  ghost predicate EncryptedTo(c: Cbc.Cipher<Block>, iv: Block, b0: seq<Block>, b: seq<Block>, i: nat, v: Block) {
    i <= |b0| == |b| && b[i..] == b0[i..] && b[..i] == Cbc.Encrypted(c, iv, b0[..i]) && v == Cbc.Chained(iv, b[..i])
  }

  ghost predicate DecryptedTo(c: Cbc.Cipher<Block>, iv: Block, b0: seq<Block>, b: seq<Block>, i: nat, v: Block) {
    i <= |b0| == |b| && b[i..] == b0[i..] && b[..i] == Cbc.Decrypted(c, iv, b0[..i]) && v == Cbc.Chained(iv, b0[..i])
  }

  lemma EncryptStep(c: Cbc.Cipher<Block>, iv: Block, b0: seq<Block>, b: seq<Block>, i: nat, v: Block)
    requires EncryptedTo(c, iv, b0, b, i, v) && i < |b|
    ensures var e := c.encrypt(c.xor(v, b[i])); EncryptedTo(c, iv, b0, b[i := e], i + 1, e)
  {
    hide Cbc.Encrypted;
    var e := c.encrypt(c.xor(v, b[i]));
    var b2 := b[i := e];
    assert b[i] == b[i..][0] == b0[i..][0] == b0[i];
    assert b0[..i + 1] == b0[..i] + [b0[i]] && b2[..i + 1] == b[..i] + [e];
    Cbc.EncryptedSnoc(c, iv, b0[..i], b0[i]);
    assert b2[i + 1..] == b[i..][1..] && b0[i + 1..] == b0[i..][1..];
  }

  lemma DecryptStep(c: Cbc.Cipher<Block>, iv: Block, b0: seq<Block>, b: seq<Block>, i: nat, v: Block)
    requires DecryptedTo(c, iv, b0, b, i, v) && i < |b|
    ensures DecryptedTo(c, iv, b0, b[i := c.xor(v, c.decrypt(b[i]))], i + 1, b[i])
  {
    hide Cbc.Decrypted;
    var d := c.xor(v, c.decrypt(b[i]));
    var b2 := b[i := d];
    assert b[i] == b[i..][0] == b0[i..][0] == b0[i];
    assert b0[..i + 1] == b0[..i] + [b0[i]] && b2[..i + 1] == b[..i] + [d];
    Cbc.DecryptedSnoc(c, iv, b0[..i], b0[i]);
    assert b2[i + 1..] == b[i..][1..] && b0[i + 1..] == b0[i..][1..];
  }

  lemma Done(c: Cbc.Cipher<Block>, iv: Block, b0: seq<Block>, b: seq<Block>, v: Block)
    ensures EncryptedTo(c, iv, b0, b0, 0, iv) && DecryptedTo(c, iv, b0, b0, 0, iv)
    ensures EncryptedTo(c, iv, b0, b, |b|, v) ==> b == Cbc.Encrypted(c, iv, b0) && v == Cbc.Chained(iv, b)
    ensures DecryptedTo(c, iv, b0, b, |b|, v) ==> b == Cbc.Decrypted(c, iv, b0) && v == Cbc.Chained(iv, b0)
  {
    assert b[..|b|] == b && (|b0| == |b| ==> b0[..|b|] == b0);
  }
}
