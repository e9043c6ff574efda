/** Cipher block chaining over any block cipher, as a function of the blocks. */
module Cbc {

  /** A block cipher with its key built in, and exclusive or on its blocks. */
  datatype Cipher<!T(!new)> = Cipher(encrypt: T -> T, decrypt: T -> T, xor: (T, T) -> T, block: T -> bool)

  ghost predicate IsCipher<T(!new)>(c: Cipher<T>) {
    && (forall x :: c.block(x) ==> c.block(c.encrypt(x)) && c.decrypt(c.encrypt(x)) == x)
    && (forall x, y :: c.block(x) && c.block(y) ==> c.block(c.xor(x, y)))
    && forall x, y {:trigger c.xor(x, c.xor(x, y))} :: c.block(x) && c.block(y) ==> c.xor(x, c.xor(x, y)) == y
  }

  /** The ciphertext: each plaintext block is added to the ciphertext block before it and encrypted. */
  ghost function Encrypted<T(!new)>(c: Cipher<T>, iv: T, p: seq<T>): (r: seq<T>)
    ensures |r| == |p|
  {
    if p == [] then []
    else
      var first := c.encrypt(c.xor(iv, p[0]));
      [first] + Encrypted(c, first, p[1..])
  }

  ghost function Decrypted<T(!new)>(c: Cipher<T>, iv: T, p: seq<T>): (r: seq<T>)
    ensures |r| == |p|
  {
    if p == [] then [] else [c.xor(iv, c.decrypt(p[0]))] + Decrypted(c, p[0], p[1..])
  }

  /** The chaining value after the ciphertext p. */
  function Chained<T>(iv: T, p: seq<T>): T {
    if p == [] then iv else p[|p| - 1]
  }

  ghost predicate AllBlocks<T(!new)>(c: Cipher<T>, p: seq<T>) {
    forall i :: 0 <= i < |p| ==> c.block(p[i])
  }

  /** Decryption undoes encryption. */
  lemma {:induction false} RoundTrip<T(!new)>(c: Cipher<T>, iv: T, p: seq<T>)
    requires IsCipher(c) && c.block(iv) && AllBlocks(c, p)
    ensures Decrypted(c, iv, Encrypted(c, iv, p)) == p
    ensures AllBlocks(c, Encrypted(c, iv, p))
  {
    if p != [] {
      CipherAt(c, iv, p[0]);
      var first := c.encrypt(c.xor(iv, p[0]));
      RestBlocks(c, p);
      RoundTrip(c, first, p[1..]);
      FirstDecrypted(c, iv, first, Encrypted(c, first, p[1..]));
      assert p == [p[0]] + p[1..];
    }
  }

  lemma CipherAt<T(!new)>(c: Cipher<T>, iv: T, x: T)
    requires IsCipher(c) && c.block(iv) && c.block(x)
    ensures c.block(c.xor(iv, x)) && c.block(c.encrypt(c.xor(iv, x)))
    ensures c.xor(iv, c.decrypt(c.encrypt(c.xor(iv, x)))) == x
  {
  }

  lemma RestBlocks<T(!new)>(c: Cipher<T>, p: seq<T>)
    requires p != [] && AllBlocks(c, p)
    ensures c.block(p[0]) && AllBlocks(c, p[1..])
  {
  }

  lemma FirstDecrypted<T(!new)>(c: Cipher<T>, iv: T, first: T, rest: seq<T>)
    ensures Decrypted(c, iv, [first] + rest) == [c.xor(iv, c.decrypt(first))] + Decrypted(c, first, rest)
  {
    assert ([first] + rest)[1..] == rest;
  }

  /** A cipher whose encryption also undoes its decryption. */
  ghost predicate IsPermutation<T(!new)>(c: Cipher<T>) {
    IsCipher(c) && forall x :: c.block(x) ==> c.block(c.decrypt(x)) && c.encrypt(c.decrypt(x)) == x
  }

  /** Encryption undoes decryption, which the middle step of triple CBC uses. */
  lemma {:induction false} RoundTripBack<T(!new)>(c: Cipher<T>, iv: T, p: seq<T>)
    requires IsPermutation(c) && c.block(iv) && AllBlocks(c, p)
    ensures Encrypted(c, iv, Decrypted(c, iv, p)) == p
    ensures AllBlocks(c, Decrypted(c, iv, p))
  {
    if p != [] {
      RestBlocks(c, p);
      RoundTripBack(c, p[0], p[1..]);
      BackAt(c, iv, p[0]);
      FirstEncrypted(c, iv, c.xor(iv, c.decrypt(p[0])), Decrypted(c, p[0], p[1..]));
      assert p == [p[0]] + p[1..];
    }
  }

  lemma BackAt<T(!new)>(c: Cipher<T>, iv: T, x: T)
    requires IsPermutation(c) && c.block(iv) && c.block(x)
    ensures c.block(c.xor(iv, c.decrypt(x))) && c.encrypt(c.xor(iv, c.xor(iv, c.decrypt(x)))) == x
  {
  }

  lemma FirstEncrypted<T(!new)>(c: Cipher<T>, iv: T, first: T, rest: seq<T>)
    ensures var e := c.encrypt(c.xor(iv, first)); Encrypted(c, iv, [first] + rest) == [e] + Encrypted(c, e, rest)
  {
    assert ([first] + rest)[1..] == rest;
  }

  /** Block i: added to the ciphertext block before it, the first to the chaining value, and encrypted. */
  lemma {:induction false} EncryptedAt<T(!new)>(c: Cipher<T>, iv: T, p: seq<T>, i: nat)
    requires i < |p|
    ensures var e := Encrypted(c, iv, p); e[i] == c.encrypt(c.xor(if i == 0 then iv else e[i - 1], p[i]))
  {
    if i > 0 {
      EncryptedAt(c, c.encrypt(c.xor(iv, p[0])), p[1..], i - 1);
    }
  }

  lemma {:induction false} DecryptedAt<T(!new)>(c: Cipher<T>, iv: T, p: seq<T>, i: nat)
    requires i < |p|
    ensures Decrypted(c, iv, p)[i] == c.xor(if i == 0 then iv else p[i - 1], c.decrypt(p[i]))
  {
    if i > 0 {
      DecryptedAt(c, p[0], p[1..], i - 1);
    }
  }

  /** However the blocks are split into calls, the result is the same. */
  lemma {:induction false} EncryptedSplit<T(!new)>(c: Cipher<T>, iv: T, p: seq<T>, q: seq<T>)
    ensures Encrypted(c, iv, p + q) == Encrypted(c, iv, p) + Encrypted(c, Chained(iv, Encrypted(c, iv, p)), q)
  {
    if p == [] {
      assert p + q == q;
    } else {
      var first := c.encrypt(c.xor(iv, p[0]));
      assert (p + q)[1..] == p[1..] + q;
      EncryptedSplit(c, first, p[1..], q);
    }
  }

  lemma {:induction false} DecryptedSplit<T(!new)>(c: Cipher<T>, iv: T, p: seq<T>, q: seq<T>)
    ensures Decrypted(c, iv, p + q) == Decrypted(c, iv, p) + Decrypted(c, Chained(iv, p), q)
  {
    if p == [] {
      assert p + q == q;
    } else {
      assert (p + q)[1..] == p[1..] + q;
      DecryptedSplit(c, p[0], p[1..], q);
    }
  }

  /** One more block at the end. */
  lemma EncryptedSnoc<T(!new)>(c: Cipher<T>, iv: T, p: seq<T>, x: T)
    ensures var e := Encrypted(c, iv, p); Encrypted(c, iv, p + [x]) == e + [c.encrypt(c.xor(Chained(iv, e), x))]
  {
    EncryptedSplit(c, iv, p, [x]);
    assert [x][1..] == [];
  }

  lemma DecryptedSnoc<T(!new)>(c: Cipher<T>, iv: T, p: seq<T>, x: T)
    ensures Decrypted(c, iv, p + [x]) == Decrypted(c, iv, p) + [c.xor(Chained(iv, p), c.decrypt(x))]
  {
    DecryptedSplit(c, iv, p, [x]);
    assert [x][1..] == [];
  }

  ghost function Then<T>(f: T -> T, g: T -> T): T -> T {
    x => g(f(x))
  }

  lemma ThenAt<T>(f: T -> T, g: T -> T, x: T)
    ensures Then(f, g)(x) == g(f(x))
  {
  }

  /** Encryption under the first key, decryption under the second, encryption under the third. */
  ghost function Tripled<T(!new)>(c0: Cipher<T>, c1: Cipher<T>, c2: Cipher<T>): Cipher<T> {
    Cipher(Then(Then(c0.encrypt, c1.decrypt), c2.encrypt), Then(Then(c2.decrypt, c1.encrypt), c0.decrypt), c0.xor, c0.block)
  }

  lemma TripledAt<T(!new)>(c0: Cipher<T>, c1: Cipher<T>, c2: Cipher<T>, x: T)
    ensures var c := Tripled(c0, c1, c2);
            && c.encrypt(x) == c2.encrypt(c1.decrypt(c0.encrypt(x))) && c.decrypt(x) == c0.decrypt(c1.encrypt(c2.decrypt(x)))
  {
    hide Then;
    ThenAt(Then(c0.encrypt, c1.decrypt), c2.encrypt, x);
    ThenAt(c0.encrypt, c1.decrypt, x);
    ThenAt(Then(c2.decrypt, c1.encrypt), c0.decrypt, x);
    ThenAt(c2.decrypt, c1.encrypt, x);
  }

  lemma TripledParts<T(!new)>(c0: Cipher<T>, c1: Cipher<T>, c2: Cipher<T>)
    ensures Tripled(c0, c1, c2).xor == c0.xor && Tripled(c0, c1, c2).block == c0.block
  {
    hide Then;
  }

  lemma TripledIsCipher<T(!new)>(c0: Cipher<T>, c1: Cipher<T>, c2: Cipher<T>)
    requires IsPermutation(c0) && IsPermutation(c1) && IsPermutation(c2) && c0.block == c1.block == c2.block
    ensures IsCipher(Tripled(c0, c1, c2))
  {
    hide Tripled;
    TripledParts(c0, c1, c2);
    var c := Tripled(c0, c1, c2);
    forall x | c0.block(x) ensures c0.block(c.encrypt(x)) && c.decrypt(c.encrypt(x)) == x {
      TripledAt(c0, c1, c2, x);
      TripledAt(c0, c1, c2, c.encrypt(x));
    }
  }
}
