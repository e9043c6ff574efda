/** struct AESContext of sshaes.c: key setup and the CBC mode of its 16-byte blocks. */
module AesModes {
  import opened Arith
  import opened Gf256
  import opened Aes
  import opened AesCore
  import opened AesTables
  import Cbc

  // Key expansion: section 5.2 of FIPS 197.

  function Rcon(j: nat): Byte
    requires j >= 1
  {
    if j == 1 then ONE else Mul2(Rcon(j - 1))
  }

  function SubWord(t: Boxes, w: Word): Word {
    Word(t.sbox(w.b0), t.sbox(w.b1), t.sbox(w.b2), t.sbox(w.b3))
  }

  function RotWord(w: Word): Word {
    Word(w.b1, w.b2, w.b3, w.b0)
  }

  /** What is added to word i - nk to give word i. */
  function Temp(t: Boxes, previous: Word, i: nat, nk: nat): Word
    requires nk >= 1 && i >= nk
  {
    if i % nk == 0 then
      Quotient(i, nk);
      Xor(SubWord(t, RotWord(previous)), Word(Rcon(i / nk), NIL, NIL, NIL))
    else if nk > 6 && i % nk == 4 then SubWord(t, previous)
    else previous
  }

  lemma Quotient(i: nat, nk: nat)
    requires nk >= 1 && i >= nk
    ensures i / nk >= 1
  {
    DivMod(i, nk);
    if i / nk < 1 {
      MulMono(i / nk, 0, nk);
    }
  }

  function ExpandedWord(t: Boxes, key: seq<Word>, w: seq<Word>, i: nat): Word
    requires 1 <= |key| && i <= |w|
  {
    if i < |key| then key[i] else Xor(w[i - |key|], Temp(t, w[i - 1], i, |key|))
  }

  ghost predicate IsExpansion(t: Boxes, key: seq<Word>, w: seq<Word>) {
    |key| >= 1 && forall i :: 0 <= i < |w| ==> w[i] == ExpandedWord(t, key, w, i)
  }

  function KeyWord(key: seq<Byte>, i: nat): Word
    requires 4 * i + 4 <= |key|
  {
    Word(key[4 * i], key[4 * i + 1], key[4 * i + 2], key[4 * i + 3])
  }

  /** The key as words. */
  function KeyWords(key: seq<Byte>): (w: seq<Word>)
    requires |key| % 4 == 0
    ensures |w| == |key| / 4
  {
    seq(|key| / 4, i requires 0 <= i < |key| / 4 => KeyWord(key, i))
  }

  predicate IsBlockLength(n: nat) {
    n == 16 || n == 24 || n == 32
  }

  class AesContext {
    const t: Boxes
    const keysched: array<Word>
    const invkeysched: array<Word>
    const iv: array<Word>
    var nb: nat
    var nr: nat

    ghost predicate Shaped()
      reads this
    {
      && AreInverse(t) && AreTables(t) && keysched.Length == invkeysched.Length == MAX_WORDS && iv.Length == 8
      && keysched != invkeysched && iv != keysched && iv != invkeysched
    }

    /** The schedules are set up, and one is the inverse of the other. */
    ghost predicate Ready()
      reads this, keysched, invkeysched
    {
      && Shaped() && IsNb(nb) && 10 <= nr <= 14 && (nr + 1) * nb <= MAX_WORDS
      && IsInverseSchedule(Keys(keysched[..], nb, nr), Keys(invkeysched[..], nb, nr))
    }

    constructor ()
      ensures Shaped() && t == AES && fresh(keysched) && fresh(invkeysched) && fresh(iv)
    {
      hide AES, AreInverse, AreTables;
      AllRight();
      t := AES;
      keysched := new Word[MAX_WORDS](_ => ZERO);
      invkeysched := new Word[MAX_WORDS](_ => ZERO);
      iv := new Word[8](_ => ZERO);
      nb, nr := 4, 10;
    }

    /** aes_setup. */
    method Setup(blocklen: nat, key: seq<Byte>)
      requires Shaped() && IsBlockLength(blocklen) && IsBlockLength(|key|)
      modifies this, keysched, invkeysched
      ensures Ready() && nb == blocklen / 4 && nr == 6 + (if nb > |key| / 4 then nb else |key| / 4)
      ensures IsExpansion(t, KeyWords(key), keysched[..(nr + 1) * nb])
    {
      hide IsExpansion, IsInverseSchedule, Keys, AreInverse, AreTables;
      var nk := |key| / 4;
      nb := blocklen / 4;
      nr := 6 + (if nb > nk then nb else nk);
      ScheduleFits(nr, nb);
      Expand(key, nk, (nr + 1) * nb);
      Invert();
    }

    /** The loop that fills keysched. */
    method Expand(key: seq<Byte>, nk: nat, n: nat)
      requires Shaped() && IsBlockLength(|key|) && nk == |key| / 4 && n <= MAX_WORDS
      modifies keysched
      ensures IsExpansion(t, KeyWords(key), keysched[..n])
    {
      hide AreTables, AreInverse, Xor, SubWord, RotWord, Rcon, KeyWord, IsExpansion, Temp, NextUse;
      var rconst := ONE;
      var i := 0;
      RconStart();
      ExpansionEmpty(t, KeyWords(key));
      assert keysched[..0] == [];
      while i < n
        invariant 0 <= i <= n && IsExpansion(t, KeyWords(key), keysched[..i])
        invariant i < nk ==> rconst == Rcon(1)
        invariant i >= nk ==> rconst == Rcon(NextUse(i, nk))
      {
        NextStep(i, nk);
        if i < nk {
          keysched[i] := KeyWord(key, i);
        } else {
          var temp := keysched[i - 1];
          TempIs(t, temp, i, nk);
          if i % nk == 0 {
            temp := FirstWord(t, temp, rconst);
            rconst := Mul2(rconst);
          } else if i % nk == 4 && nk > 6 {
            temp := SubWord(t, temp);
          }
          keysched[i] := Xor(keysched[i - nk], temp);
        }
        ExpansionSnoc(t, KeyWords(key), keysched[..i], keysched[i]);
        assert keysched[..i + 1] == keysched[..i] + [keysched[i]];
        i := i + 1;
      }
    }

    /** The loops that fill invkeysched, a round key at a time. */
    method Invert()
      requires Shaped() && IsNb(nb) && 10 <= nr <= 14 && (nr + 1) * nb <= MAX_WORDS
      modifies invkeysched
      ensures Ready()
    {
      hide AreTables, Keys, InvMix, AreInverse, RowsDone, KeyAt, IsInverseSchedule, IsNb;
      ghost var k := Keys(keysched[..], nb, nr);
      NoRows(k, invkeysched[..], nb, nr);
      var i := 0;
      while i <= nr
        invariant 0 <= i <= nr + 1 && RowsDone(k, invkeysched[..], nb, nr, i)
      {
        KeyFits(i, nr, nb);
        KeyFits(nr - i, nr, nb);
        ghost var before := invkeysched[..];
        InvertRow(i * nb, (nr - i) * nb, i != 0 && i != nr);
        RowDone(keysched[..], before, invkeysched[..], nb, nr, i);
        i := i + 1;
      }
      AllRows(k, invkeysched[..], nb, nr);
    }

    method InvertRow(at: nat, from: nat, mix: bool)
      requires Shaped() && at + nb <= MAX_WORDS && from + nb <= MAX_WORDS
      modifies invkeysched
      ensures var row := keysched[from..from + nb]; invkeysched[at..at + nb] == if mix then InvMix(row) else row
      ensures forall j :: 0 <= j < MAX_WORDS && !(at <= j < at + nb) ==> invkeysched[j] == old(invkeysched[j])
    {
      hide AreInverse, AreTables, Xor, InvMixColumn;
      var j := 0;
      while j < nb
        invariant 0 <= j <= nb
        invariant forall h :: at <= h < at + j ==>
                    invkeysched[h] == if mix then InvMixColumn(keysched[from + (h - at)]) else keysched[from + (h - at)]
        invariant forall h :: 0 <= h < MAX_WORDS && !(at <= h < at + nb) ==> invkeysched[h] == old(invkeysched[h])
      {
        var temp := keysched[from + j];
        if mix {
          DOfSbox(t, temp);
          temp := Xor(Xor(Xor(t.d0(t.sbox(temp.b0)), t.d1(t.sbox(temp.b1))), t.d2(t.sbox(temp.b2))), t.d3(t.sbox(temp.b3)));
        }
        invkeysched[at + j] := temp;
        j := j + 1;
      }
      RowIs(keysched[from..from + nb], invkeysched[at..at + nb], mix);
    }

    /** ctx->encrypt. */
    method Encrypt(block: array<Word>)
      requires Ready() && block.Length == nb && block != keysched && block != invkeysched
      modifies block
      ensures block[..] == Enciphered(t, Keys(keysched[..], nb, nr), old(block[..]))
    {
      hide AreTables, IsInverseSchedule, Keys, AreInverse, Enciphered;
      EncryptBlock(t, keysched, nr, block);
    }

    /** ctx->decrypt. */
    method Decrypt(block: array<Word>)
      requires Ready() && block.Length == nb && block != keysched && block != invkeysched
      modifies block
      ensures block[..] == Deciphered(t, Keys(invkeysched[..], nb, nr), old(block[..]))
    {
      hide AreTables, IsInverseSchedule, Keys, AreInverse, Deciphered;
      DecryptBlock(t, invkeysched, nr, block);
    }

    // CBC over blocks of four words.

    /** The cipher that the schedules make. */
    ghost function Cipher(): Cbc.Cipher<seq<Word>>
      requires Ready()
      reads this, keysched, invkeysched
    {
      CipherOf(t, Keys(keysched[..], nb, nr), Keys(invkeysched[..], nb, nr), nb)
    }

    lemma ReadyShape()
      requires Ready()
      ensures Shaped()
    {
    }

    lemma CipherWorks()
      requires Ready()
      ensures Cbc.IsCipher(Cipher())
    {
      hide AreTables, IsInverseSchedule, Keys, AreInverse, CipherOf;
      KeysSchedule(keysched[..], nb, nr);
      KeysSchedule(invkeysched[..], nb, nr);
      CipherOfWorks(t, Keys(keysched[..], nb, nr), Keys(invkeysched[..], nb, nr), nb);
    }

    lemma CipherIs(x: seq<Word>, y: seq<Word>)
      requires Ready() && |x| == |y| == nb
      ensures Cipher().xor(x, y) == AddKey(x, y) && Cipher().block(x)
      ensures Cipher().encrypt(x) == Enciphered(t, Keys(keysched[..], nb, nr), x)
      ensures Cipher().decrypt(x) == Deciphered(t, Keys(invkeysched[..], nb, nr), x)
    {
      hide AreTables, IsInverseSchedule, Keys, AreInverse, AddKey, Enciphered, Deciphered;
    }

    /** One block of aes_encrypt_cbc: into the chaining value, and from there to the buffer. */
    method EncryptCbcBlock(v: array<Word>, blk: array<Byte>, at: nat)
      requires Ready() && nb == 4 && v.Length == 4 && at + 16 <= blk.Length && v != keysched && v != invkeysched
      modifies v, blk
      ensures v[..] == Cipher().encrypt(Cipher().xor(old(v[..]), BlockAt(old(blk[..]), at)))
      ensures BlockAt(blk[..], at) == v[..]
      ensures blk[..at] == old(blk[..at]) && blk[at + 16..] == old(blk[at + 16..])
    {
      hide Ready, Cipher, Enciphered, Deciphered, Keys, AddKey, BlockAt;
      ghost var v1, b1 := v[..], blk[..];
      XorIn(v, blk, at);
      Encrypt(v);
      PutBlock(blk, at, v);
      CipherIs(v1, BlockAt(b1, at));
      CipherIs(AddKey(v1, BlockAt(b1, at)), v1);
    }

    /** One block of aes_decrypt_cbc; the ciphertext is the next chaining value. */
    method DecryptCbcBlock(v: array<Word>, blk: array<Byte>, at: nat) returns (ct: array<Word>)
      requires Ready() && nb == 4 && v.Length == 4 && at + 16 <= blk.Length && v != keysched && v != invkeysched
      modifies v, blk
      ensures fresh(ct) && ct.Length == 4 && ct[..] == BlockAt(old(blk[..]), at)
      ensures BlockAt(blk[..], at) == Cipher().xor(old(v[..]), Cipher().decrypt(ct[..]))
      ensures blk[..at] == old(blk[..at]) && blk[at + 16..] == old(blk[at + 16..])
    {
      hide Ready, Cipher, Enciphered, Deciphered, Keys, AddKey, BlockAt;
      ct := GetBlock(blk, at);
      var x := Copy4(ct);
      assert ct[..4] == ct[..];
      ghost var v1 := v[..];
      Decrypt(x);
      ghost var x1 := x[..];
      XorWith(v, x);
      PutBlock(blk, at, v);
      CipherIs(ct[..], v1);
      CipherIs(v1, x1);
    }

    /** aes_encrypt_cbc. */
    method EncryptCbc(blk: array<Byte>)
      requires Ready() && nb == 4 && blk.Length % 16 == 0
      modifies blk, iv
      ensures Blocks(blk[..]) == Cbc.Encrypted(Cipher(), old(iv[..4]), old(Blocks(blk[..])))
      ensures iv[..4] == Cbc.Chained(old(iv[..4]), Blocks(blk[..]))
    {
      hide Ready, Cipher, Blocks, Keys, BlockAt, EncryptedTo;
      ReadyShape();
      ghost var c, iv0, b0 := Cipher(), iv[..4], blk[..];
      var v := Copy4(iv);
      var at := 0;
      NothingYet(c, iv0, b0);
      while at < blk.Length
        invariant 0 <= at <= blk.Length && at % 16 == 0 && v.Length == 4 && fresh(v) && iv[..] == old(iv[..])
        invariant EncryptedTo(c, iv0, b0, blk[..], at, v[..])
      {
        ghost var b1, v1 := blk[..], v[..];
        EncryptCbcBlock(v, blk, at);
        EncryptStep(c, iv0, b0, b1, blk[..], at, v1, v[..]);
        at := at + 16;
      }
      AllDone(c, iv0, b0, blk[..], v[..]);
      Store4(iv, v);
    }

    /** aes_decrypt_cbc. */
    method DecryptCbc(blk: array<Byte>)
      requires Ready() && nb == 4 && blk.Length % 16 == 0
      modifies blk, iv
      ensures Blocks(blk[..]) == Cbc.Decrypted(Cipher(), old(iv[..4]), old(Blocks(blk[..])))
      ensures iv[..4] == Cbc.Chained(old(iv[..4]), old(Blocks(blk[..])))
    {
      hide Ready, Cipher, Blocks, Keys, BlockAt, DecryptedTo;
      ReadyShape();
      ghost var c, iv0, b0 := Cipher(), iv[..4], blk[..];
      var v := Copy4(iv);
      var at := 0;
      NothingYet(c, iv0, b0);
      while at < blk.Length
        invariant 0 <= at <= blk.Length && at % 16 == 0 && v.Length == 4 && fresh(v) && iv[..] == old(iv[..])
        invariant DecryptedTo(c, iv0, b0, blk[..], at, v[..])
      {
        ghost var b1, v1 := blk[..], v[..];
        v := DecryptCbcBlock(v, blk, at);
        DecryptStep(c, iv0, b0, b1, blk[..], at, v1);
        at := at + 16;
      }
      AllDone(c, iv0, b0, blk[..], v[..]);
      Store4(iv, v);
    }

    /** Decrypting from the same chaining value gives back what was encrypted. */
    method EncryptThenDecrypt(blk: array<Byte>)
      requires Ready() && nb == 4 && blk.Length % 16 == 0
      modifies blk, iv
      ensures blk[..] == old(blk[..])
    {
      hide Ready, Cipher, Blocks, Cbc.Encrypted, Cbc.Decrypted, Cbc.IsCipher;
      ReadyShape();
      ghost var b0 := blk[..];
      var start := Copy4(iv);
      CipherWorks();
      FourWords(Cipher(), b0, iv[..4]);
      EncryptCbc(blk);
      Store4(iv, start);
      DecryptCbc(blk);
      Cbc.RoundTrip(Cipher(), start[..], Blocks(b0));
      BlocksDetermine(b0, blk[..]);
    }

    lemma FourWords(c: Cbc.Cipher<seq<Word>>, b: seq<Byte>, iv: seq<Word>)
      requires Ready() && nb == 4 && c == Cipher() && |b| % 16 == 0 && |iv| == 4
      ensures Cbc.AllBlocks(c, Blocks(b)) && c.block(iv)
    {
      hide Blocks, Keys, IsInverseSchedule;
    }

    /** After any setup, for every key and block of every length, decryption undoes encryption. */
    lemma DecryptUndoes(s: seq<Word>)
      requires Ready() && |s| == nb
      ensures Deciphered(t, Keys(invkeysched[..], nb, nr), Enciphered(t, Keys(keysched[..], nb, nr), s)) == s
    {
      hide AreTables, IsInverseSchedule, Keys, AreInverse, Deciphered, Enciphered;
      KeysSchedule(keysched[..], nb, nr);
      KeysSchedule(invkeysched[..], nb, nr);
      DecipherUndoes(t, Keys(keysched[..], nb, nr), Keys(invkeysched[..], nb, nr), s);
    }
  }

  ghost function CipherOf(t: Boxes, k: seq<seq<Word>>, ik: seq<seq<Word>>, nb: nat): Cbc.Cipher<seq<Word>>
    requires IsSchedule(k, nb) && IsSchedule(ik, nb)
  {
    Cbc.Cipher(s => if |s| == nb then Enciphered(t, k, s) else s, s => if |s| == nb then Deciphered(t, ik, s) else s,
               (x, y) => if |x| == |y| then AddKey(x, y) else x, s => |s| == nb)
  }

  lemma CipherOfWorks(t: Boxes, k: seq<seq<Word>>, ik: seq<seq<Word>>, nb: nat)
    requires AreInverse(t) && IsSchedule(k, nb) && IsSchedule(ik, nb) && IsInverseSchedule(k, ik)
    ensures Cbc.IsCipher(CipherOf(t, k, ik, nb))
  {
    hide AreInverse, IsInverseSchedule, IsSchedule, AddKey, Enciphered, Deciphered;
    var c := CipherOf(t, k, ik, nb);
    forall x | c.block(x) ensures c.block(c.encrypt(x)) && c.decrypt(c.encrypt(x)) == x {
      DecipherUndoes(t, k, ik, x);
    }
    forall x, y | c.block(x) && c.block(y) ensures c.xor(x, c.xor(x, y)) == y {
      AddKeyTwice(y, x);
      AddKeyCommutes(x, y);
      AddKeyCommutes(x, AddKey(x, y));
    }
  }

  lemma AddKeyCommutes(x: seq<Word>, y: seq<Word>)
    requires |x| == |y|
    ensures AddKey(x, y) == AddKey(y, x)
  {
    hide Xor;
    forall i | 0 <= i < |x| ensures AddKey(x, y)[i] == AddKey(y, x)[i] {
      XorTwice(x[i], y[i]);
    }
  }

  // Blocks of sixteen bytes.

  /** GET_32BIT of the four words from byte at on. */
  function BlockAt(b: seq<Byte>, at: nat): (s: seq<Word>)
    requires at + 16 <= |b|
    ensures |s| == 4
  {
    [WordAt(b, at), WordAt(b, at + 4), WordAt(b, at + 8), WordAt(b, at + 12)]
  }

  function WordAt(b: seq<Byte>, at: nat): Word
    requires at + 4 <= |b|
  {
    Word(b[at], b[at + 1], b[at + 2], b[at + 3])
  }

  ghost function Blocks(b: seq<Byte>): (s: seq<seq<Word>>)
    requires |b| % 16 == 0
    ensures |s| == |b| / 16 && forall i :: 0 <= i < |s| ==> |s[i]| == 4
  {
    seq(|b| / 16, i requires 0 <= i < |b| / 16 => BlockAt(b, 16 * i))
  }

  lemma NoBlocks(b: seq<Byte>, c: Cbc.Cipher<seq<Word>>, iv: seq<Word>)
    requires b == []
    ensures Blocks(b) == [] && Cbc.Encrypted(c, iv, []) == [] && Cbc.Decrypted(c, iv, []) == []
  {
  }

  /** One more block. */
  lemma BlocksSnoc(b: seq<Byte>, at: nat)
    requires at % 16 == 0 && at + 16 <= |b|
    ensures Blocks(b[..at + 16]) == Blocks(b[..at]) + [BlockAt(b, at)]
  {
    hide BlockAt;
    var s, u := Blocks(b[..at + 16]), Blocks(b[..at]);
    forall i | 0 <= i < |u| ensures s[i] == u[i] {
      SameBlock(b[..at + 16], b[..at], 16 * i);
    }
    SameBlock(b[..at + 16], b, at);
  }

  lemma SameBlock(a: seq<Byte>, b: seq<Byte>, at: nat)
    requires at + 16 <= |a| && at + 16 <= |b| && a[at..at + 16] == b[at..at + 16]
    ensures BlockAt(a, at) == BlockAt(b, at)
  {
    forall i | at <= i < at + 16 ensures a[i] == b[i] {
      assert a[at..at + 16][i - at] == a[i] && b[at..at + 16][i - at] == b[i];
    }
  }

  /** Equal blocks mean equal bytes. */
  lemma BlocksDetermine(a: seq<Byte>, b: seq<Byte>)
    requires |a| % 16 == 0 && |b| % 16 == 0 && Blocks(a) == Blocks(b)
    ensures a == b
  {
    assert |a| / 16 == |Blocks(a)| == |Blocks(b)| == |b| / 16;
    assert |a| == |b|;
    forall i | 0 <= i < |a| ensures a[i] == b[i] {
      assert 16 * (i / 16) + 16 <= |a| && i == 16 * (i / 16) + i % 16;
      BytesOf(a, b, i / 16, i % 16);
    }
  }

  lemma BytesOf(a: seq<Byte>, b: seq<Byte>, i: nat, j: nat)
    requires |a| % 16 == 0 && |b| == |a| && Blocks(a) == Blocks(b) && 16 * i + 16 <= |a| && j < 16
    ensures a[16 * i + j] == b[16 * i + j]
  {
    assert BlockAt(a, 16 * i) == Blocks(a)[i] == Blocks(b)[i] == BlockAt(b, 16 * i);
    BlockBytes(a, b, 16 * i, j);
  }

  lemma BlockBytes(a: seq<Byte>, b: seq<Byte>, at: nat, j: nat)
    requires at + 16 <= |a| && at + 16 <= |b| && BlockAt(a, at) == BlockAt(b, at) && j < 16
    ensures a[at + j] == b[at + j]
  {
    var s, u := BlockAt(a, at), BlockAt(b, at);
    assert s[0] == u[0] && s[1] == u[1] && s[2] == u[2] && s[3] == u[3];
  }

  /** The first at bytes are encrypted, and v is the chaining value after them. */
  ghost predicate EncryptedTo(c: Cbc.Cipher<seq<Word>>, iv: seq<Word>, b0: seq<Byte>, b: seq<Byte>, at: nat, v: seq<Word>) {
    && at % 16 == 0 && at <= |b| == |b0| && b[at..] == b0[at..] && |v| == 4
    && Blocks(b[..at]) == Cbc.Encrypted(c, iv, Blocks(b0[..at])) && v == Cbc.Chained(iv, Blocks(b[..at]))
  }

  ghost predicate DecryptedTo(c: Cbc.Cipher<seq<Word>>, iv: seq<Word>, b0: seq<Byte>, b: seq<Byte>, at: nat, v: seq<Word>) {
    && at % 16 == 0 && at <= |b| == |b0| && b[at..] == b0[at..] && |v| == 4
    && Blocks(b[..at]) == Cbc.Decrypted(c, iv, Blocks(b0[..at])) && v == Cbc.Chained(iv, Blocks(b0[..at]))
  }

  /** One pass of the loop of aes_encrypt_cbc. */
  lemma EncryptStep(c: Cbc.Cipher<seq<Word>>, iv: seq<Word>, b0: seq<Byte>, b1: seq<Byte>, b2: seq<Byte>, at: nat,
                    v1: seq<Word>, v2: seq<Word>)
    requires EncryptedTo(c, iv, b0, b1, at, v1) && at + 16 <= |b0| == |b2| && b2[..at] == b1[..at]
    requires b2[at + 16..] == b1[at + 16..]
    requires v2 == c.encrypt(c.xor(v1, BlockAt(b1, at))) && BlockAt(b2, at) == v2
    ensures EncryptedTo(c, iv, b0, b2, at + 16, v2)
  {
    hide Blocks, BlockAt, Cbc.Encrypted;
    BlocksSnoc(b0, at);
    BlocksSnoc(b2, at);
    UpTo(b0, b1, b2, at);
    Cbc.EncryptedSnoc(c, iv, Blocks(b0[..at]), BlockAt(b0, at));
  }

  lemma DecryptStep(c: Cbc.Cipher<seq<Word>>, iv: seq<Word>, b0: seq<Byte>, b1: seq<Byte>, b2: seq<Byte>, at: nat,
                    v1: seq<Word>)
    requires DecryptedTo(c, iv, b0, b1, at, v1) && at + 16 <= |b0| == |b2| && b2[..at] == b1[..at]
    requires b2[at + 16..] == b1[at + 16..]
    requires BlockAt(b2, at) == c.xor(v1, c.decrypt(BlockAt(b1, at)))
    ensures DecryptedTo(c, iv, b0, b2, at + 16, BlockAt(b1, at))
  {
    hide Blocks, BlockAt, Cbc.Decrypted;
    BlocksSnoc(b0, at);
    BlocksSnoc(b2, at);
    UpTo(b0, b1, b2, at);
    Cbc.DecryptedSnoc(c, iv, Blocks(b0[..at]), BlockAt(b0, at));
  }

  lemma UpTo(b0: seq<Byte>, b1: seq<Byte>, b2: seq<Byte>, at: nat)
    requires at + 16 <= |b0| == |b1| == |b2| && b1[at..] == b0[at..] && b2[at + 16..] == b1[at + 16..]
    ensures b2[at + 16..] == b0[at + 16..] && BlockAt(b1, at) == BlockAt(b0, at)
  {
    assert b1[at + 16..] == b1[at..][16..] && b0[at + 16..] == b0[at..][16..];
    assert b1[at..at + 16] == b1[at..][..16] && b0[at..at + 16] == b0[at..][..16];
    SameBlock(b1, b0, at);
  }

  lemma NothingYet(c: Cbc.Cipher<seq<Word>>, iv: seq<Word>, b: seq<Byte>)
    requires |iv| == 4
    ensures EncryptedTo(c, iv, b, b, 0, iv) && DecryptedTo(c, iv, b, b, 0, iv)
  {
    NoBlocks(b[..0], c, iv);
  }

  lemma AllDone(c: Cbc.Cipher<seq<Word>>, iv: seq<Word>, b0: seq<Byte>, b: seq<Byte>, v: seq<Word>)
    requires |b| % 16 == 0
    ensures EncryptedTo(c, iv, b0, b, |b|, v) ==>
              Blocks(b) == Cbc.Encrypted(c, iv, Blocks(b0)) && v == Cbc.Chained(iv, Blocks(b))
    ensures DecryptedTo(c, iv, b0, b, |b|, v) ==>
              Blocks(b) == Cbc.Decrypted(c, iv, Blocks(b0)) && v == Cbc.Chained(iv, Blocks(b0))
  {
    hide Blocks;
    assert b[..|b|] == b && (|b0| == |b| ==> b0[..|b|] == b0);
  }

  // Memory operations of the modes.

  method Copy4(src: array<Word>) returns (v: array<Word>)
    requires src.Length >= 4
    ensures fresh(v) && v.Length == 4 && v[..] == src[..4]
  {
    v := new Word[4](_ => ZERO);
    v[0], v[1], v[2], v[3] := src[0], src[1], src[2], src[3];
  }

  method Store4(dst: array<Word>, v: array<Word>)
    requires dst.Length >= 4 && v.Length == 4 && dst != v
    modifies dst
    ensures dst[..4] == v[..]
  {
    dst[0], dst[1], dst[2], dst[3] := v[0], v[1], v[2], v[3];
  }

  /** The four words at byte at of blk. */
  method GetBlock(blk: array<Byte>, at: nat) returns (v: array<Word>)
    requires at + 16 <= blk.Length
    ensures fresh(v) && v.Length == 4 && v[..] == BlockAt(blk[..], at)
  {
    v := new Word[4](_ => ZERO);
    v[0], v[1] := WordAt(blk[..], at), WordAt(blk[..], at + 4);
    v[2], v[3] := WordAt(blk[..], at + 8), WordAt(blk[..], at + 12);
  }

  /** v ^= the block at byte at. */
  method XorIn(v: array<Word>, blk: array<Byte>, at: nat)
    requires v.Length == 4 && at + 16 <= blk.Length
    modifies v
    ensures v[..] == AddKey(old(v[..]), BlockAt(blk[..], at))
  {
    var w := GetBlock(blk, at);
    XorWith(v, w);
  }

  method XorWith(v: array<Word>, w: array<Word>)
    requires v.Length == 4 && w.Length == 4 && v != w
    modifies v
    ensures v[..] == AddKey(old(v[..]), w[..])
  {
    hide Xor;
    var i := 0;
    while i < 4
      invariant 0 <= i <= 4 && w[..] == old(w[..])
      invariant forall j :: 0 <= j < i ==> v[j] == Xor(old(v[j]), w[j])
      invariant forall j :: i <= j < 4 ==> v[j] == old(v[j])
    {
      v[i] := Xor(v[i], w[i]);
      i := i + 1;
    }
  }

  /** PUT_32BIT of the four words. */
  method PutBlock(blk: array<Byte>, at: nat, v: array<Word>)
    requires at + 16 <= blk.Length && v.Length == 4
    modifies blk
    ensures BlockAt(blk[..], at) == v[..]
    ensures blk[..at] == old(blk[..at]) && blk[at + 16..] == old(blk[at + 16..])
  {
    PutWord(blk, at, v[0]);
    PutWord(blk, at + 4, v[1]);
    PutWord(blk, at + 8, v[2]);
    PutWord(blk, at + 12, v[3]);
  }

  method PutWord(blk: array<Byte>, at: nat, w: Word)
    requires at + 4 <= blk.Length
    modifies blk
    ensures WordAt(blk[..], at) == w
    ensures forall j :: 0 <= j < blk.Length && !(at <= j < at + 4) ==> blk[j] == old(blk[j])
  {
    blk[at], blk[at + 1], blk[at + 2], blk[at + 3] := w.b0, w.b1, w.b2, w.b3;
  }

  lemma ScheduleFits(nr: nat, nb: nat)
    requires 10 <= nr <= 14 && IsNb(nb)
    ensures (nr + 1) * nb <= MAX_WORDS
  {
    MulMono(nr + 1, 15, nb);
  }

  /** The number of times rconst has been doubled, and one. */
  function NextUse(i: nat, nk: nat): (n: nat)
    requires nk >= 1 && i >= nk
    ensures n >= 1
  {
    Quotient(i, nk);
    (i - 1) / nk + 1
  }

  lemma ExpansionEmpty(t: Boxes, key: seq<Word>)
    requires |key| >= 1
    ensures IsExpansion(t, key, [])
  {
  }

  lemma ExpansionSnoc(t: Boxes, key: seq<Word>, w: seq<Word>, x: Word)
    requires IsExpansion(t, key, w) && x == ExpandedWord(t, key, w, |w|)
    ensures IsExpansion(t, key, w + [x])
  {
    hide Xor, Temp;
    forall i | 0 <= i < |w + [x]| ensures (w + [x])[i] == ExpandedWord(t, key, w + [x], i) {
      if i < |w| {
        assert w[i] == ExpandedWord(t, key, w, i);
      }
    }
  }

  lemma RconStart()
    ensures Rcon(1) == ONE
  {
  }

  lemma NextStep(i: nat, nk: nat)
    requires nk == 4 || nk == 6 || nk == 8
    ensures i + 1 == nk ==> NextUse(nk, nk) == 1
    ensures i >= nk && i % nk == 0 ==> i / nk == NextUse(i, nk) && Rcon(NextUse(i + 1, nk)) == Mul2(Rcon(NextUse(i, nk)))
    ensures i >= nk && i % nk != 0 ==> NextUse(i + 1, nk) == NextUse(i, nk)
  {
  }

  /** Rotated and substituted, with the round constant in the first byte. */
  function FirstWord(t: Boxes, w: Word, rconst: Byte): Word {
    Word(Add(t.sbox(w.b1), rconst), t.sbox(w.b2), t.sbox(w.b3), t.sbox(w.b0))
  }

  lemma TempIs(t: Boxes, w: Word, i: nat, nk: nat)
    requires (nk == 4 || nk == 6 || nk == 8) && i >= nk
    ensures i % nk == 0 ==> FirstWord(t, w, Rcon(NextUse(i, nk))) == Temp(t, w, i, nk)
    ensures i % nk != 0 ==> Temp(t, w, i, nk) == if i % nk == 4 && nk > 6 then SubWord(t, w) else w
  {
    NextStep(i, nk);
    hide Add, Rcon, NextUse;
    AddNil(t.sbox(w.b2));
    AddNil(t.sbox(w.b3));
    AddNil(t.sbox(w.b0));
  }

  /** D[Sbox[x]] is InvMixColumn of x itself. */
  lemma DOfSbox(t: Boxes, w: Word)
    requires AreInverse(t) && AreTables(t)
    ensures Xor(Xor(Xor(t.d0(t.sbox(w.b0)), t.d1(t.sbox(w.b1))), t.d2(t.sbox(w.b2))), t.d3(t.sbox(w.b3))) == InvMixColumn(w)
  {
    hide Xor, InvMix0, InvMix1, InvMix2, InvMix3;
  }

  lemma RowIs(row: seq<Word>, inv: seq<Word>, mix: bool)
    requires |inv| == |row| && forall j :: 0 <= j < |row| ==> inv[j] == if mix then InvMixColumn(row[j]) else row[j]
    ensures inv == if mix then InvMix(row) else row
  {
    hide InvMixColumn;
  }

  lemma KeysBelow(a: seq<Word>, b: seq<Word>, nb: nat, nr: nat, i: nat)
    requires (nr + 1) * nb <= |a| == |b| && i <= nr
    requires forall j :: 0 <= j < |a| && !(i * nb <= j < i * nb + nb) ==> a[j] == b[j]
    ensures forall r :: 0 <= r < i ==> KeyAt(a, nb, nr, r) == KeyAt(b, nb, nr, r)
  {
    forall r | 0 <= r < i ensures KeyAt(a, nb, nr, r) == KeyAt(b, nb, nr, r) {
      KeyFits(r, nr, nb);
      Distrib(r, 1, nb);
      MulMono(r + 1, i, nb);
    }
  }

  /** The first i round keys of the inverse schedule. */
  ghost predicate RowsDone(k: seq<seq<Word>>, flat: seq<Word>, nb: nat, nr: nat, i: nat)
    requires (nr + 1) * nb <= |flat| && |k| == nr + 1 && i <= nr + 1
  {
    forall r :: 0 <= r < i ==> KeyAt(flat, nb, nr, r) == if r != 0 && r != nr then InvMix(k[nr - r]) else k[nr - r]
  }

  lemma NoRows(k: seq<seq<Word>>, flat: seq<Word>, nb: nat, nr: nat)
    requires (nr + 1) * nb <= |flat| && |k| == nr + 1
    ensures RowsDone(k, flat, nb, nr, 0)
  {
  }

  lemma RowDone(ks: seq<Word>, a: seq<Word>, b: seq<Word>, nb: nat, nr: nat, i: nat)
    requires (nr + 1) * nb <= |a| == |b| && (nr + 1) * nb <= |ks| && i <= nr
    requires RowsDone(Keys(ks, nb, nr), a, nb, nr, i)
    requires 0 <= i * nb && i * nb + nb <= |b| && 0 <= (nr - i) * nb && (nr - i) * nb + nb <= |ks|
    requires var row := ks[(nr - i) * nb..(nr - i) * nb + nb];
             b[i * nb..i * nb + nb] == if i != 0 && i != nr then InvMix(row) else row
    requires forall j :: 0 <= j < |a| && !(i * nb <= j < i * nb + nb) ==> a[j] == b[j]
    ensures RowsDone(Keys(ks, nb, nr), b, nb, nr, i + 1)
  {
    hide Keys, InvMix, KeyAt;
    KeysBelow(a, b, nb, nr, i);
    RowOf(ks, nb, nr, nr - i);
    RowOf(b, nb, nr, i);
  }

  lemma RowOf(flat: seq<Word>, nb: nat, nr: nat, r: nat)
    requires (nr + 1) * nb <= |flat| && r <= nr && 0 <= r * nb && r * nb + nb <= |flat|
    ensures Keys(flat, nb, nr)[r] == KeyAt(flat, nb, nr, r) == flat[r * nb..r * nb + nb]
  {
  }

  lemma AllRows(k: seq<seq<Word>>, flat: seq<Word>, nb: nat, nr: nat)
    requires (nr + 1) * nb <= |flat| && |k| == nr + 1 && RowsDone(k, flat, nb, nr, nr + 1)
    ensures IsInverseSchedule(k, Keys(flat, nb, nr))
  {
    hide InvMix;
    KeysAre(flat, nb, nr);
  }

  lemma KeysAre(flat: seq<Word>, nb: nat, nr: nat)
    requires (nr + 1) * nb <= |flat|
    ensures forall r :: 0 <= r <= nr ==> Keys(flat, nb, nr)[r] == KeyAt(flat, nb, nr, r)
  {
    hide KeyAt;
  }
}
