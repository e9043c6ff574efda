/** dss_gen_k of sshdss.c: the deterministic choice of the nonce that DSA and ECDSA sign with. */
module DssNonce {
  import opened Arith
  import opened Binary
  import opened Machine
  import opened Words

  type Hash = seq<byte> -> seq<byte>

  /** SHA_Simple, and SHA-512 over everything that its state has absorbed. */
  datatype Hashes = Hashes(sha1: Hash, sha512: Hash)

  const LETTER_X: byte := 120

  /** The length in bytes that sha512_mpint gives a number: there is always room for a zero bit at the top. */
  function MpintLength(x: nat): nat {
    (BitCount(x) + 8) / 8
  }

  /** The bytes that sha512_mpint absorbs. */
  function Mpint(x: nat): (s: seq<byte>)
    ensures |s| == 4 + MpintLength(x)
  {
    Bytes4(MpintLength(x) % TWO32) + ToBytes(x, MpintLength(x))
  }

  /** An mpint of section 5 of RFC 4251: a string, its number not negative, and no zero byte in front without need. */
  lemma MpintIsString(x: nat)
    ensures var body := Mpint(x)[4..];
            && |body| > 0 && Mpint(x) == Bytes4(|body| % TWO32) + body && body[0] < 128
            && (|body| > 1 && body[0] == 0 ==> body[1] >= 128)
  {
    hide BigVal, ToBytes, BitCount, Pow2, Pow256, Bytes4;
    var n, body := MpintLength(x), Mpint(x)[4..];
    MpintValue(x);
    BitCountBound(x);
    BigHead(body);
    Pow256IsPow2(n - 1);
    Pow2Add(8 * (n - 1), 7);
    HalfByte();
    Pow2Mono(BitCount(x), 8 * (n - 1) + 7);
    if body[0] >= 128 {
      MulMono(128, body[0], Pow256(n - 1));
    }
    if n > 1 && body[0] == 0 {
      NoSpareZero(x, body);
    }
  }

  lemma HalfByte()
    ensures Pow2(7) == 128
  {
    assert Pow2(3) == 8;
  }

  lemma NoSpareZero(x: nat, body: seq<byte>)
    requires |body| == MpintLength(x) > 1 && body[0] == 0 && BigVal(body) == x
    ensures body[1] >= 128
  {
    hide BigVal, BitCount, Pow2, Pow256;
    var n := |body|;
    BigTail(body);
    BigHead(body[1..]);
    if body[1] < 128 {
      Below(body[1], x, Pow256(n - 2));
      Pow256IsPow2(n - 2);
      Pow2Add(8 * (n - 2), 7);
      HalfByte();
      assert x < Pow2(8 * (n - 2) + 7);
      FullLength(x, n);
      Pow2Mono(8 * (n - 2) + 7, BitCount(x) - 1);
      BitCountBound(x);
      assert false;
    }
  }

  lemma Below(b: nat, x: nat, p: nat)
    requires x < (b + 1) * p && b < 128
    ensures x < p * 128
  {
    MulMono(b + 1, 128, p);
  }

  lemma FullLength(x: nat, n: nat)
    requires n == MpintLength(x) > 1
    ensures BitCount(x) - 1 >= 8 * (n - 2) + 7 && x > 0
  {
  }

  /** Zeros in front add nothing. */
  lemma {:induction false} BigTail(s: seq<byte>)
    requires |s| >= 1 && s[0] == 0
    ensures BigVal(s[1..]) == BigVal(s)
  {
    if |s| > 1 {
      BigTail(s[..|s| - 1]);
      assert s[1..][..|s| - 2] == s[..|s| - 1][1..];
    }
  }

  /** The number can be read off what is hashed, so different keys are hashed differently. */
  lemma MpintValue(x: nat)
    ensures BigVal(Mpint(x)[4..]) == x
  {
    hide BigVal, ToBytes, BitCount, Pow2, Pow256;
    var n := MpintLength(x);
    BitCountBound(x);
    Pow256IsPow2(n);
    Pow2Mono(BitCount(x), 8 * n);
    BytesRoundTrip(x, n);
    assert Mpint(x)[4..] == ToBytes(x, n);
  }

  lemma {:induction false} Pow256IsPow2(n: nat)
    ensures Pow256(n) == Pow2(8 * n)
  {
    if n > 0 {
      Pow256IsPow2(n - 1);
      Pow2Add(8, 8 * (n - 1));
      assert Pow2(8) == 256;
    }
  }

  /** sha512_mpint: the length, and then the bytes from the top down. */
  method HashMpint(ss: seq<byte>, b: nat) returns (ss': seq<byte>)
    ensures ss' == ss + Mpint(b)
  {
    hide ToBytes, ByteOf, BitCount, Bytes4;
    var len := MpintLength(b);
    ss' := ss + Bytes4(len % TWO32);
    ghost var head, n, all := ss', len, ToBytes(b, len);
    assert all[..0] == [];
    while len > 0
      invariant 0 <= len <= n == |all| && ss' == head + all[..n - len]
    {
      len := len - 1;
      ToBytesAt(b, n, n - 1 - len);
      ss' := ss' + [ByteOf(b, len)];
    }
    assert all[..n] == all;
    assert head + all == ss + Mpint(b);
  }

  function Letters(i: nat): (s: seq<byte>)
    ensures |s| == i && forall k :: 0 <= k < i ==> s[k] == LETTER_X
  {
    seq(i, _ => LETTER_X)
  }

  /** What SHA-512 has absorbed before it is asked for candidate i. */
  function Absorbed(sha512: Hash, id: seq<byte>, x: nat, digest: seq<byte>, i: nat): seq<byte> {
    sha512(id + [0] + Mpint(x)) + digest + Letters(i)
  }

  /** What is absorbed tells the digest and the number of letters, so different messages are hashed differently. */
  lemma AbsorbedDetermines(sha512: Hash, id: seq<byte>, x: nat, d: seq<byte>, i: nat, e: seq<byte>, j: nat)
    requires |d| == |e| && Absorbed(sha512, id, x, d, i) == Absorbed(sha512, id, x, e, j)
    ensures d == e && i == j
  {
    hide Mpint;
    var head := sha512(id + [0] + Mpint(x));
    var s, t := Absorbed(sha512, id, x, d, i), Absorbed(sha512, id, x, e, j);
    assert s[|head|..][..|d|] == d && t[|head|..][..|e|] == e;
    assert |s| == |head| + |d| + i && |t| == |head| + |e| + j;
  }

  /** Candidate i: the hash of the identifying text, the private key and the digest, perturbed by i letters. */
  function Candidate(sha512: Hash, id: seq<byte>, x: nat, digest: seq<byte>, i: nat): nat {
    BigVal(sha512(Absorbed(sha512, id, x, digest, i)))
  }

  predicate Suitable(proto: nat, q: nat)
    requires q > 0
  {
    proto % q != 0 && proto % q != 1
  }

  /** The first suitable candidate is number i. */
  ghost predicate IsFirst(sha512: Hash, id: seq<byte>, x: nat, digest: seq<byte>, q: nat, i: nat)
    requires q > 0
  {
    && Suitable(Candidate(sha512, id, x, digest, i), q)
    && forall j: nat :: j < i ==> !Suitable(Candidate(sha512, id, x, digest, j), q)
  }

  /** k is the nonce for a private key x and a message digest. */
  ghost predicate IsNonce(sha512: Hash, id: seq<byte>, x: nat, digest: seq<byte>, q: nat, k: nat)
    requires q > 0
  {
    exists i: nat :: IsFirst(sha512, id, x, digest, q, i) && k == Candidate(sha512, id, x, digest, i) % q
  }

  /** Key and digest determine the nonce. */
  lemma NonceUnique(sha512: Hash, id: seq<byte>, x: nat, digest: seq<byte>, q: nat, k: nat, l: nat)
    requires q > 0 && IsNonce(sha512, id, x, digest, q, k) && IsNonce(sha512, id, x, digest, q, l)
    ensures k == l && 1 < k < q
  {
    hide Suitable, Candidate;
    var i: nat :| IsFirst(sha512, id, x, digest, q, i) && k == Candidate(sha512, id, x, digest, i) % q;
    var j: nat :| IsFirst(sha512, id, x, digest, q, j) && l == Candidate(sha512, id, x, digest, j) % q;
    assert i == j;
    SuitableRange(Candidate(sha512, id, x, digest, i), q);
  }

  lemma SuitableRange(proto: nat, q: nat)
    requires q > 0 && Suitable(proto, q)
    ensures 1 < proto % q < q
  {
  }

  /** Some perturbation of the hash is suitable, which the loop needs in order to end. */
  ghost predicate Ends(sha512: Hash, id: seq<byte>, x: nat, digest: seq<byte>, q: nat)
    requires q > 0
  {
    exists i: nat :: Suitable(Candidate(sha512, id, x, digest, i), q)
  }

  /** dss_gen_k. The state ss is what has been absorbed so far; finishing a copy of it leaves it as it is. */
  method GenK(sha512: Hash, id: seq<byte>, modulus: nat, privateKey: nat, digest: seq<byte>)
    returns (k: nat, ghost i: nat)
    requires modulus > 0 && Ends(sha512, id, privateKey, digest, modulus)
    ensures 1 < k < modulus && IsNonce(sha512, id, privateKey, digest, modulus, k)
    ensures k == BigVal(sha512(sha512(id + [0] + Mpint(privateKey)) + digest + Letters(i))) % modulus
    ensures forall j: nat :: j < i ==>
              BigVal(sha512(sha512(id + [0] + Mpint(privateKey)) + digest + Letters(j))) % modulus <= 1
  {
    hide Suitable, BigVal, Mpint;
    ghost var enough: nat :| Suitable(Candidate(sha512, id, privateKey, digest, enough), modulus);
    var ss := HashMpint(id + [0], privateKey);
    var digest512 := sha512(ss);
    ss := digest512 + digest;
    i := 0;
    while true
      invariant i <= enough && ss == Absorbed(sha512, id, privateKey, digest, i)
      invariant forall j: nat :: j < i ==> !Suitable(Candidate(sha512, id, privateKey, digest, j), modulus)
      decreases enough - i
    {
      digest512 := sha512(ss);
      k := BigVal(digest512) % modulus;
      SuitableIff(BigVal(digest512), modulus);
      if k != 1 && k != 0 {
        assert IsFirst(sha512, id, privateKey, digest, modulus, i);
        SuitableRange(BigVal(digest512), modulus);
        Unsuitable(sha512, id, privateKey, digest, modulus, i);
        return;
      }
      ss := ss + [LETTER_X];
      assert Letters(i + 1) == Letters(i) + [LETTER_X];
      i := i + 1;
    }
  }

  lemma Unsuitable(sha512: Hash, id: seq<byte>, x: nat, digest: seq<byte>, q: nat, i: nat)
    requires q > 0 && forall j: nat :: j < i ==> !Suitable(Candidate(sha512, id, x, digest, j), q)
    ensures forall j: nat :: j < i ==>
              BigVal(sha512(sha512(id + [0] + Mpint(x)) + digest + Letters(j))) % q <= 1
  {
    hide BigVal, Mpint;
    forall j: nat | j < i
      ensures BigVal(sha512(sha512(id + [0] + Mpint(x)) + digest + Letters(j))) % q <= 1
    {
      assert !Suitable(Candidate(sha512, id, x, digest, j), q);
    }
  }

  lemma SuitableIff(proto: nat, q: nat)
    requires q > 0
    ensures Suitable(proto, q) <==> proto % q != 0 && proto % q != 1
  {
  }
}
