/** The buffering, length counting and padding shared by sshsh256.c, sshsh512.c and sshmd5.c. */
module StreamingHash {
  import opened Arith
  import opened Machine

  /** The three hashes differ in block size, in the number of length words, and in MD5's byte order. */
  datatype Variant = Sha256 | Sha512 | Md5 {
    function BlockSize(): (n: nat)
      ensures (Sha512? ==> n == 128) && (Sha256? || Md5? ==> n == 64)
    {
      if Sha512? then 128 else 64
    }

    function LenWords(): (n: nat)
      ensures (Sha512? ==> n == 4) && (Sha256? || Md5? ==> n == 2)
    {
      if Sha512? then 4 else 2
    }

    /** Bytes of the length field at the end of the last block. */
    function LenBytes(): (n: nat) ensures n == 4 * LenWords() {
      4 * LenWords()
    }
  }

  // Little-endian arrays of 32-bit words and their value.

  function Pow32(n: nat): (p: nat) ensures p >= 1 {
    if n == 0 then 1 else TWO32 * Pow32(n - 1)
  }

  function WordVal(s: seq<uint32>): nat {
    if s == [] then 0 else WordVal(s[..|s| - 1]) + Mul(s[|s| - 1], Pow32(|s| - 1))
  }

  lemma {:induction false} WordValBound(s: seq<uint32>)
    ensures WordVal(s) < Pow32(|s|)
  {
    if s != [] {
      WordValBound(s[..|s| - 1]);
      MulLe(s[|s| - 1], TWO32 - 1, Pow32(|s| - 1));
      MulMinus(TWO32, 1, Pow32(|s| - 1));
      MulUnit(Pow32(|s| - 1));
    }
  }

  // The fold that a hash is.

  /** Compresses a whole number of blocks into a chaining value, left to right. */
  ghost function Fold<H>(compress: (H, seq<byte>) -> H, h: H, blk: nat, msg: seq<byte>): H
    requires blk > 0
  {
    if |msg| < blk then h else compress(Fold(compress, h, blk, msg[..|msg| - blk]), msg[|msg| - blk..])
  }

  lemma FoldStep<H>(compress: (H, seq<byte>) -> H, h: H, blk: nat, msg: seq<byte>, block: seq<byte>)
    requires blk > 0 && |block| == blk
    ensures Fold(compress, h, blk, msg + block) == compress(Fold(compress, h, blk, msg), block)
  {
    assert (msg + block)[..|msg + block| - blk] == msg;
    assert (msg + block)[|msg + block| - blk..] == block;
  }

  lemma FoldEmpty<H>(compress: (H, seq<byte>) -> H, h: H, blk: nat)
    requires blk > 0
    ensures Fold(compress, h, blk, []) == h
  {
  }

  /** The padding of a message of n bytes: 0x80, zeros, and a length field; together they fill the last block. */
  function PadLength(v: Variant, n: nat): (pad: nat)
    ensures 1 <= pad <= v.BlockSize() && (n + pad + v.LenBytes()) % v.BlockSize() == 0
  {
    var used := n % v.BlockSize();
    var room := v.BlockSize() - v.LenBytes();
    PadArithmetic(n, v.BlockSize(), room);
    if used >= room then room + v.BlockSize() - used else room - used
  }

  lemma PadArithmetic(n: nat, blk: nat, room: nat)
    requires blk > 0 && room < blk
    ensures var used := n % blk; var pad := if used >= room then room + blk - used else room - used;
            (n + pad + (blk - room)) % blk == 0
  {
    var q, used := n / blk, n % blk;
    var pad := if used >= room then room + blk - used else room - used;
    Distrib(q, if used >= room then 2 else 1, blk);
    DivModUnique(n + pad + (blk - room), blk, q + (if used >= room then 2 else 1), 0);
  }

  /** The value of a length field. */
  function FieldVal(v: Variant, s: seq<byte>): nat {
    if v.Md5? then LittleVal(s) else BigVal(s)
  }

  function LittleVal(s: seq<byte>): nat {
    if s == [] then 0 else s[0] + 256 * LittleVal(s[1..])
  }

  /** Section 5.1 of FIPS 180-4, sections 3.1 and 3.2 of RFC 1321: what is appended to a message. */
  ghost predicate IsPadding(v: Variant, n: nat, tail: seq<byte>) {
    var pad := PadLength(v, n);
    && |tail| == pad + v.LenBytes()
    && tail[0] == 0x80 && (forall i :: 1 <= i < pad ==> tail[i] == 0)
    && FieldVal(v, tail[pad..]) == (8 * n) % Pow32(v.LenWords())
  }

  /** MD5 puts the least significant byte of the length first, SHA the most significant one. */
  lemma FieldOrder(s: seq<byte>)
    requires |s| >= 1
    ensures FieldVal(Md5, s) % 256 == s[0] && FieldVal(Md5, s) / 256 == FieldVal(Md5, s[1..])
    ensures FieldVal(Sha256, s) % 256 == s[|s| - 1] && FieldVal(Sha256, s) / 256 == FieldVal(Sha256, s[..|s| - 1])
    ensures FieldVal(Sha512, s) == FieldVal(Sha256, s)
  {
  }

  /** The length 24 in bits, as the last bytes of the padding of "abc". */
  function LengthOfAbc(v: Variant): (s: seq<byte>)
    ensures |s| == v.LenBytes()
  {
    match v
    case Md5 => [24, 0, 0, 0, 0, 0, 0, 0]
    case Sha256 => [0, 0, 0, 0, 0, 0, 0, 24]
    case Sha512 => [0, 0, 0, 0, 0, 0, 0, 0, 0, 0, 0, 0, 0, 0, 0, 24]
  }

  /** The example of section 5.1 of FIPS 180-4, "abc": one bit and 423 zeros, or 871 for SHA-512, and the length. */
  lemma PaddingOfAbc(v: Variant, tail: seq<byte>)
    ensures IsPadding(v, 3, tail)
            <==> tail == [0x80] + seq(if v.Sha512? then 108 else 52, _ => 0) + LengthOfAbc(v)
  {
    hide FieldVal, Pow32;
    var zeros, field := if v.Sha512? then 108 else 52, LengthOfAbc(v);
    var abc := [0x80] + seq(zeros, _ => 0) + field;
    assert PadLength(v, 3) == 1 + zeros;
    assert abc[1 + zeros..] == field;
    FieldOfAbc(v);
    if IsPadding(v, 3, tail) {
      PaddingUnique(v, 3, tail, abc);
    }
  }

  lemma FieldOfAbc(v: Variant)
    ensures FieldVal(v, LengthOfAbc(v)) == 24 == (8 * 3) % Pow32(v.LenWords())
  {
    assert Pow32(2) == TWO32 * TWO32 && Pow32(4) == TWO32 * (TWO32 * Pow32(2));
    match v
    case Md5 => LittleZeros(7);
      assert LengthOfAbc(Md5)[1..] == seq(7, _ => 0);
    case Sha256 => BigZeros(7);
      assert LengthOfAbc(Sha256)[..7] == seq(7, _ => 0);
    case Sha512 => BigZeros(15);
      assert LengthOfAbc(Sha512)[..15] == seq(15, _ => 0);
  }

  lemma {:induction false} LittleZeros(n: nat)
    ensures LittleVal(seq(n, _ => 0)) == 0
  {
    if n > 0 {
      LittleZeros(n - 1);
      assert seq(n, _ => 0)[1..] == seq(n - 1, _ => 0);
    }
  }

  lemma {:induction false} BigZeros(n: nat)
    ensures BigVal(seq(n, _ => 0)) == 0
  {
    if n > 0 {
      BigZeros(n - 1);
      assert seq(n, _ => 0)[..n - 1] == seq(n - 1, _ => 0);
    }
  }

  lemma ZeroWords(s: seq<uint32>)
    requires forall i :: 0 <= i < |s| ==> s[i] == 0
    ensures WordVal(s) == 0
  {
    if s != [] {
      ZeroWords(s[..|s| - 1]);
      MulUnit(Pow32(|s| - 1));
    }
  }

  /** `sum < addend` detects the carry of a 32-bit addition. */
  lemma CarryWord(x: uint32, y: uint32)
    ensures var z := (x + y) % TWO32; z + (if z < y then 1 else 0) * TWO32 == x + y
  {
    if x + y < TWO32 {
      DivModUnique(x + y, TWO32, 0, x + y);
    } else {
      DivModUnique(x + y, TWO32, 1, x + y - TWO32);
    }
  }

  lemma WordSnoc(s: seq<uint32>, z: uint32)
    ensures WordVal(s + [z]) == WordVal(s) + Mul(z, Pow32(|s|))
  {
    assert (s + [z])[..|s + [z]| - 1] == s;
  }

  lemma CountStep(s: seq<uint32>, done: seq<uint32>, i: nat, lenw: nat, z: uint32, carry: nat, total: nat)
    requires i < |s| && |done| == i && z + carry * TWO32 == s[i] + lenw
    requires WordVal(done) + Mul(lenw, Pow32(i)) == WordVal(s[..i]) + total
    ensures WordVal(done + [z]) + Mul(carry, Pow32(i + 1)) == WordVal(s[..i + 1]) + total
  {
    Pow32Up(i);
    ScaleStep(z, carry, s[i], lenw, Pow32(i));
    hide *;
    WordSnoc(done, z);
    WordSnoc(s[..i], s[i]);
    assert s[..i + 1] == s[..i] + [s[i]];
  }

  lemma Pow32Up(i: nat)
    ensures Pow32(i + 1) == Mul(TWO32, Pow32(i))
  {
  }

  lemma ScaleStep(z: int, carry: int, x: int, lenw: int, p: int)
    requires z + carry * TWO32 == x + lenw
    ensures Mul(z, p) + Mul(carry, Mul(TWO32, p)) == Mul(x, p) + Mul(lenw, p)
  {
    MulAssoc(carry, TWO32, p);
    MulPlus(z, carry * TWO32, p);
    MulPlus(x, lenw, p);
  }

  /** The length words hold n, modulo what they can hold. */
  ghost predicate Counts(words: seq<uint32>, n: nat) {
    WordVal(words) == n % Pow32(|words|)
  }

  lemma CountDone(s: seq<uint32>, t: seq<uint32>, lenw: nat, n: nat, total: nat)
    requires |s| == |t| && WordVal(t) + Mul(lenw, Pow32(|s|)) == WordVal(s) + n && Counts(s, total)
    ensures Counts(t, total + n)
  {
    LengthSum(total, n, Pow32(|s|));
    WordValBound(t);
    DivModUnique(WordVal(s) + n, Pow32(|s|), lenw, WordVal(t));
  }

  /** Bytes of a message of n that are in the block. */
  function Used(n: nat, blk: nat): (u: nat)
    requires blk > 0
    ensures u < blk && u <= n
  {
    DivMod(n, blk);
    Whole(n / blk, blk);
    n % blk
  }

  lemma Whole(q: nat, blk: nat)
    ensures q * blk >= 0
  {
  }

  /** Lengths counted modulo m add up. */
  lemma LengthSum(a: nat, b: nat, m: nat)
    requires m > 0
    ensures (a % m + b) % m == (a + b) % m
  {
    DivMod(a, m);
    ModAddMultiple(a % m + b, a / m, m);
  }

  /** Bytes that do not fill the block only move its mark. */
  lemma AddToBlock(msg: seq<byte>, p: seq<byte>, blk: nat, used: nat)
    requires blk > 0 && used == Used(|msg|, blk) && used + |p| < blk
    ensures Used(|msg + p|, blk) == used + |p|
    ensures (msg + p)[|msg + p| - (used + |p|)..] == msg[|msg| - used..] + p
    ensures (msg + p)[..|msg + p| - (used + |p|)] == msg[..|msg| - used]
  {
    DivMod(|msg|, blk);
    DivModUnique(|msg| + |p|, blk, |msg| / blk, used + |p|);
  }

  /** Bytes that fill the block complete it with the bytes it held. */
  lemma BlockFull(m: seq<byte>, take: seq<byte>, block: seq<byte>, used: nat, blk: nat)
    requires blk > 0 && used == Used(|m|, blk) && |take| == blk - used && |block| == blk
    requires block[..used] == m[|m| - used..] && block[used..] == take
    ensures m[..|m| - used] + block == m + take && Used(|m + take|, blk) == 0
  {
    DivMod(|m|, blk);
    Distrib(|m| / blk, 1, blk);
    DivModUnique(|m| + |take|, blk, |m| / blk + 1, 0);
    assert block == block[..used] + block[used..];
  }

  lemma CountStart(s: seq<uint32>, n: nat)
    ensures WordVal(s[..0]) + Mul(n, Pow32(0)) == WordVal(s[..0]) + n
  {
    MulUnit(n);
  }

  lemma StartCounts(s: seq<uint32>)
    requires forall i :: 0 <= i < |s| ==> s[i] == 0
    ensures Counts(s, 0)
  {
    ZeroWords(s);
    DivModUnique(0, Pow32(|s|), 0, 0);
  }

  lemma NothingUsed(blk: nat)
    requires blk > 0
    ensures Used(0, blk) == 0
  {
  }

  // The length field.

  lemma {:induction false} FieldScale(n: nat)
    ensures Pow256(4 * n) == Pow32(n)
  {
    if n > 0 {
      FieldScale(n - 1);
      var p := Pow256(4 * n - 4);
      assert Pow256(4 * n - 3) == 256 * p;
      assert Pow256(4 * n - 2) == 65536 * p;
      assert Pow256(4 * n - 1) == 16777216 * p;
    }
  }

  function Reversed4(s: seq<byte>): (r: seq<byte>)
    requires |s| == 4
    ensures |r| == 4
  {
    [s[3], s[2], s[1], s[0]]
  }

  /** Appending a word, most significant byte first. */
  lemma BigWord(s: seq<byte>, w: uint32)
    ensures BigVal(s + Bytes4(w)) == TWO32 * BigVal(s) + w
  {
    var b := Bytes4(w);
    assert s + b == (((s + [b[0]]) + [b[1]]) + [b[2]]) + [b[3]];
    BigSnoc(s, b[0]);
    BigSnoc(s + [b[0]], b[1]);
    BigSnoc((s + [b[0]]) + [b[1]], b[2]);
    BigSnoc(((s + [b[0]]) + [b[1]]) + [b[2]], b[3]);
    WordSum(w);
  }

  lemma {:induction false} LittleConcat(s: seq<byte>, t: seq<byte>)
    ensures LittleVal(s + t) == LittleVal(s) + Mul(Pow256(|s|), LittleVal(t))
  {
    if s == [] {
      assert s + t == t;
      MulUnit(LittleVal(t));
    } else {
      LittleConcat(s[1..], t);
      assert (s + t)[1..] == s[1..] + t;
      MulAssoc(256, Pow256(|s| - 1), LittleVal(t));
      Times256(Mul(Pow256(|s| - 1), LittleVal(t)));
      Times256(Pow256(|s| - 1));
    }
  }

  lemma Times256(x: int)
    ensures Mul(256, x) == 256 * x
  {
  }

  lemma LittleWord(w: uint32)
    ensures LittleVal(Reversed4(Bytes4(w))) == w
  {
    var r := Reversed4(Bytes4(w));
    assert r[1..] == [r[1], r[2], r[3]] && [r[1], r[2], r[3]][1..] == [r[2], r[3]] && [r[2], r[3]][1..] == [r[3]];
    assert LittleVal([r[3]]) == r[3] && LittleVal([r[2], r[3]]) == r[2] + 256 * (r[3] as int);
    assert LittleVal(r[1..]) == r[1] + 256 * (r[2] + 256 * (r[3] as int));
    WordSum(w);
  }

  /** The words from k on, most significant first. */
  lemma BigFieldStep(s: seq<byte>, words: seq<uint32>, k: nat)
    requires k < |words| && Mul(BigVal(s), Pow32(k + 1)) + WordVal(words[..k + 1]) == WordVal(words)
    ensures Mul(BigVal(s + Bytes4(words[k])), Pow32(k)) + WordVal(words[..k]) == WordVal(words)
  {
    hide *;
    BigWord(s, words[k]);
    assert words[..k + 1] == words[..k] + [words[k]];
    WordSnoc(words[..k], words[k]);
    Pow32Up(k);
    MulPlus(TWO32 * BigVal(s), words[k], Pow32(k));
    TimesTwo32(BigVal(s));
    MulComm(TWO32, BigVal(s));
    MulAssoc(BigVal(s), TWO32, Pow32(k));
  }

  lemma TimesTwo32(x: int)
    ensures Mul(TWO32, x) == TWO32 * x
  {
  }

  /** The words below k, least significant first. */
  lemma LittleFieldStep(s: seq<byte>, words: seq<uint32>, k: nat)
    requires k < |words| && |s| == 4 * k && LittleVal(s) == WordVal(words[..k])
    ensures LittleVal(s + Reversed4(Bytes4(words[k]))) == WordVal(words[..k + 1])
  {
    hide *;
    LittleConcat(s, Reversed4(Bytes4(words[k])));
    LittleWord(words[k]);
    FieldScale(k);
    assert words[..k + 1] == words[..k] + [words[k]];
    WordSnoc(words[..k], words[k]);
    MulComm(Pow256(4 * k), words[k]);
  }

  method LengthField(v: Variant, words: seq<uint32>) returns (c: seq<byte>)
    requires |words| == v.LenWords()
    ensures |c| == v.LenBytes() && FieldVal(v, c) == WordVal(words)
  {
    hide WordVal, BigVal, LittleVal, Pow32, Mul;
    c := [];
    var i := 0;
    FieldStart(words);
    while i < |words|
      invariant 0 <= i <= |words| && |c| == 4 * i
      invariant v.Md5? ==> LittleVal(c) == WordVal(words[..i])
      invariant !v.Md5? ==> Mul(BigVal(c), Pow32(|words| - i)) + WordVal(words[..|words| - i]) == WordVal(words)
    {
      if v.Md5? {
        LittleFieldStep(c, words, i);
        c := c + Reversed4(Bytes4(words[i]));
      } else {
        BigFieldStep(c, words, |words| - 1 - i);
        c := c + Bytes4(words[|words| - 1 - i]);
      }
      i := i + 1;
    }
    FieldEnd(words, c);
    assert words[..i] == words;
  }

  lemma FieldStart(words: seq<uint32>)
    ensures LittleVal([]) == WordVal(words[..0])
    ensures Mul(BigVal([]), Pow32(|words| - 0)) + WordVal(words[..|words| - 0]) == WordVal(words)
  {
    assert words[..|words| - 0] == words;
    MulUnit(Pow32(|words|));
  }

  lemma FieldEnd(words: seq<uint32>, c: seq<byte>)
    ensures Mul(BigVal(c), Pow32(0)) + WordVal(words[..0]) == BigVal(c)
  {
    MulUnit(BigVal(c));
  }

  /** One word of the length in bits: (hi << 3) | (lo >> 29), whose halves share no bits. */
  function ShiftWord(hi: uint32, lo: uint32): (w: uint32) {
    (8 * hi) % TWO32 + lo / 0x2000_0000
  }

  lemma ShiftStep(done: seq<uint32>, words: seq<uint32>, k: nat, lo: uint32)
    requires k < |words| && |done| == k && lo == (if k > 0 then words[k - 1] else 0)
    requires WordVal(done) + Mul(lo / 0x2000_0000, Pow32(k)) == 8 * WordVal(words[..k])
    ensures WordVal(done + [ShiftWord(words[k], lo)]) + Mul(words[k] / 0x2000_0000, Pow32(k + 1)) == 8 * WordVal(words[..k + 1])
  {
    ShiftSplit(words[k], lo);
    hide *;
    var z := ShiftWord(words[k], lo);
    WordSnoc(done, z);
    assert words[..k + 1] == words[..k] + [words[k]];
    WordSnoc(words[..k], words[k]);
    Pow32Up(k);
    EightTimes(words[k], z, words[k] / 0x2000_0000, lo / 0x2000_0000, Pow32(k));
  }

  lemma ShiftSplit(x: uint32, lo: uint32)
    ensures ShiftWord(x, lo) + (x / 0x2000_0000) * TWO32 == 8 * x + lo / 0x2000_0000
  {
    var h := x / 0x2000_0000;
    assert 8 * x == h * TWO32 + 8 * (x % 0x2000_0000);
    DivModUnique(8 * x, TWO32, h, 8 * (x % 0x2000_0000));
  }

  lemma EightTimes(x: int, z: int, h: int, l: int, p: int)
    requires z + h * TWO32 == 8 * x + l
    ensures Mul(z, p) + Mul(h, Mul(TWO32, p)) == 8 * Mul(x, p) + Mul(l, p)
  {
    MulAssoc(h, TWO32, p);
    MulPlus(z, h * TWO32, p);
    MulPlus(8 * x, l, p);
    MulAssoc(8, x, p);
  }

  /** The length in bits, as words of the same width. */
  method BitLength(words: seq<uint32>, ghost n: nat) returns (bits: seq<uint32>)
    requires |words| > 0 && Counts(words, n)
    ensures |bits| == |words| && Counts(bits, 8 * n)
  {
    hide WordVal, Pow32, Mul, ShiftWord, Counts;
    bits := [];
    var k := 0;
    ShiftStart(words);
    while k < |words|
      invariant 0 <= k <= |words| && |bits| == k
      invariant WordVal(bits) + Mul((if k > 0 then words[k - 1] else 0) / 0x2000_0000, Pow32(k)) == 8 * WordVal(words[..k])
    {
      var lo := if k > 0 then words[k - 1] else 0;
      ShiftStep(bits, words, k, lo);
      bits := bits + [ShiftWord(words[k], lo)];
      k := k + 1;
    }
    assert words[..k] == words;
    BitsCount(words, bits, words[k - 1] / 0x2000_0000, n);
  }

  lemma ShiftStart(words: seq<uint32>)
    ensures WordVal([]) + Mul(0 / 0x2000_0000, Pow32(0)) == 8 * WordVal(words[..0])
  {
    MulUnit(Pow32(0));
  }

  lemma BitsCount(words: seq<uint32>, bits: seq<uint32>, out: nat, n: nat)
    requires |bits| == |words| && Counts(words, n) && WordVal(bits) + Mul(out, Pow32(|words|)) == 8 * WordVal(words)
    ensures Counts(bits, 8 * n)
  {
    var m := Pow32(|words|);
    WordValBound(bits);
    DivMod(n, m);
    Assoc(8, n / m, m);
    Distrib(out, 8 * (n / m), m);
    DivModUnique(8 * n, m, out + 8 * (n / m), WordVal(bits));
  }

  /** SHA256_State, SHA512_State or MD5Context, over any chaining value and compression function. */
  class HashState<H> {
    const v: Variant
    const compress: (H, seq<byte>) -> H
    const h0: H
    var h: H
    var block: array<byte>
    var blkused: nat
    var len: array<uint32>

    /** The block and the chaining value after the bytes of m. */
    ghost predicate Holds(m: seq<byte>)
      reads this, block
    {
      && block.Length == v.BlockSize()
      && blkused == Used(|m|, v.BlockSize())
      && block[..blkused] == m[|m| - blkused..]
      && h == Fold(compress, h0, v.BlockSize(), m[..|m| - blkused])
    }

    /** The whole state after the bytes of msg, in however many pieces they came. */
    ghost predicate Absorbed(msg: seq<byte>)
      reads this, block, len
    {
      Holds(msg) && len.Length == v.LenWords() && Counts(len[..], |msg|)
    }

    constructor (v: Variant, compress: (H, seq<byte>) -> H, h0: H)
      ensures Absorbed([]) && this.v == v && this.compress == compress && this.h0 == h0
      ensures fresh(block) && fresh(len)
    {
      hide Used, Counts, Fold;
      this.v, this.compress, this.h0, h := v, compress, h0, h0;
      blkused := 0;
      block := new byte[v.BlockSize()](_ => 0);
      len := new uint32[v.LenWords()](_ => 0);
      new;
      StartCounts(len[..]);
      NothingUsed(v.BlockSize());
      FoldEmpty(compress, h0, v.BlockSize());
    }

    /** Updates the length field: an add that carries from word to word. */
    method CountBytes(n: uint32, ghost total: nat)
      requires Counts(len[..], total)
      modifies len
      ensures Counts(len[..], total + n)
    {
      hide WordVal, Pow32, Mul, Counts;
      ghost var s := len[..];
      var lenw: uint32 := n;
      var i := 0;
      CountStart(s, n);
      while i < len.Length
        invariant 0 <= i <= len.Length
        invariant forall k :: i <= k < len.Length ==> len[k] == s[k]
        invariant WordVal(len[..i]) + Mul(lenw, Pow32(i)) == WordVal(s[..i]) + n
      {
        CarryWord(len[i], lenw);
        ghost var t := len[..];
        len[i] := (len[i] + lenw) % TWO32;
        CountStep(s, t[..i], i, lenw, len[i], if len[i] < lenw then 1 else 0, n);
        assert len[..i + 1] == t[..i] + [len[i]];
        lenw := if len[i] < lenw then 1 else 0;
        i := i + 1;
      }
      assert len[..i] == len[..] && s[..i] == s;
      CountDone(s, len[..], lenw, n, total);
    }

    /** SHA256_Bytes, SHA512_Bytes, MD5Update. */
    method Bytes(p: seq<byte>, ghost msg: seq<byte>)
      requires Absorbed(msg) && |p| < 0x8000_0000
      modifies this`h, this`blkused, block, len
      ensures Absorbed(msg + p)
    {
      hide Used, Counts, Fold;
      CountBytes(|p|, |msg|);
      var blk := v.BlockSize();
      if (v.Md5? || blkused != 0) && blkused + |p| < blk {
        AddToBlock(msg, p, blk, blkused);
        CopyIn(p, blkused);
        blkused := blkused + |p|;
      } else {
        var q := 0;
        assert msg + p[..q] == msg;
        while blkused + (|p| - q) >= blk
          invariant 0 <= q <= |p| && Holds(msg + p[..q]) && Counts(len[..], |msg| + |p|)
          invariant blkused == 0 || (q == 0 && blkused + |p| >= blk)
          decreases |p| - q
        {
          assert msg + p[..q + (blk - blkused)] == msg + p[..q] + p[q..q + (blk - blkused)];
          q := TakeBlock(p, q, msg + p[..q]);
        }
        KeepRest(p, q, msg + p[..q]);
        assert msg + p[..q] + p[q..] == msg + p;
      }
    }

    /** The loop body: the block is completed from p and compressed. */
    method TakeBlock(p: seq<byte>, q: nat, ghost m: seq<byte>) returns (q': nat)
      requires q <= |p| && Holds(m) && blkused + (|p| - q) >= block.Length
      modifies this`h, this`blkused, block
      ensures q' == q + (block.Length - old(blkused)) && blkused == 0 && Holds(m + p[q..q'])
    {
      hide Used, Fold;
      var blk := block.Length;
      var take := p[q..q + (blk - blkused)];
      CopyIn(take, blkused);
      BlockFull(m, take, block[..], blkused, blk);
      FoldStep(compress, h0, blk, m[..|m| - blkused], block[..]);
      q' := q + (blk - blkused);
      h := compress(h, block[..]);
      blkused := 0;
      assert (m + take)[..|m + take| - 0] == m + take;
    }

    /** The bytes left over start the next block. */
    method KeepRest(p: seq<byte>, q: nat, ghost m: seq<byte>)
      requires q <= |p| && Holds(m) && blkused == 0 && |p| - q < block.Length
      modifies this`blkused, block
      ensures Holds(m + p[q..])
    {
      hide Used, Fold;
      AddToBlock(m, p[q..], block.Length, 0);
      CopyIn(p[q..], 0);
      blkused := |p| - q;
    }

    /** memcpy into the block. */
    method CopyIn(p: seq<byte>, at: nat)
      requires at + |p| <= block.Length
      modifies block
      ensures block[..at] == old(block[..at]) && block[at..at + |p|] == p
    {
      var i := 0;
      while i < |p|
        invariant 0 <= i <= |p| && block[..at] == old(block[..at]) && block[at..at + i] == p[..i]
      {
        block[at + i] := p[i];
        i := i + 1;
      }
    }

    /** SHA256_Final, SHA512_Final, MD5Final: pads, and leaves the hash of the padded message in h. */
    method Final(ghost msg: seq<byte>) returns (ghost tail: seq<byte>)
      requires Absorbed(msg)
      modifies this`h, this`blkused, block, len
      ensures IsPadding(v, |msg|, tail) && blkused == 0 && Absorbed(msg + tail)
      ensures h == Fold(compress, h0, v.BlockSize(), msg + tail)
    {
      hide *;
      HeldParts(msg);
      HeldFold(msg);
      var room := v.BlockSize() - v.LenBytes();
      var pad := if blkused >= room then room + v.BlockSize() - blkused else room - blkused;
      PadIs(v, |msg|, pad);
      var bits := BitLength(len[..], |msg|);
      var c := [0x80 as byte] + Zeros(pad - 1);
      Bytes(c, msg);
      var field := LengthField(v, bits);
      Bytes(field, msg + c);
      tail := c + field;
      assert msg + c + field == msg + tail;
      PaddingDone(v, |msg|, c, field, bits);
      EndOfBlocks(v, |msg|, |msg + tail|, pad);
      HeldParts(msg + tail);
      HeldFold(msg + tail);
      WholeBlocks(msg + tail);
    }

    lemma HeldFold(m: seq<byte>)
      requires Holds(m)
      ensures blkused == Used(|m|, v.BlockSize()) && h == Fold(compress, h0, v.BlockSize(), m[..|m| - blkused])
    {
      hide Used, Fold, Variant.BlockSize;
    }

    lemma HeldParts(m: seq<byte>)
      requires Absorbed(m)
      ensures Holds(m) && len.Length == v.LenWords() && Counts(len[..], |m|)
    {
      hide Holds, Counts;
    }

    /** With no bytes in the block, the chaining value is the fold over the whole message. */
    lemma WholeBlocks(m: seq<byte>)
      requires Holds(m) && Used(|m|, v.BlockSize()) == 0
      ensures blkused == 0 && h == Fold(compress, h0, v.BlockSize(), m)
    {
      hide *;
      HeldFold(m);
      assert m[..|m| - 0] == m;
    }
  }

  function Zeros(n: nat): (s: seq<byte>)
    ensures |s| == n && forall i :: 0 <= i < n ==> s[i] == 0
  {
    seq(n, _ => 0)
  }

  lemma PadIs(v: Variant, n: nat, pad: int)
    requires var room := v.BlockSize() - v.LenBytes(); var used := Used(n, v.BlockSize());
             pad == if used >= room then room + v.BlockSize() - used else room - used
    ensures pad == PadLength(v, n) && 1 <= pad <= v.BlockSize()
  {
  }

  lemma PaddingDone(v: Variant, n: nat, c: seq<byte>, field: seq<byte>, bits: seq<uint32>)
    requires |c| == PadLength(v, n) && c[0] == 0x80 && forall i :: 1 <= i < |c| ==> c[i] == 0
    requires |field| == v.LenBytes() && |bits| == v.LenWords() && FieldVal(v, field) == WordVal(bits) && Counts(bits, 8 * n)
    ensures IsPadding(v, n, c + field)
  {
    hide PadLength, FieldVal, WordVal, Pow32;
    var tail := c + field;
    assert tail[|c|..] == field;
  }

  lemma EndOfBlocks(v: Variant, n: nat, m: nat, pad: nat)
    requires pad == PadLength(v, n) && m == n + pad + v.LenBytes()
    ensures Used(m, v.BlockSize()) == 0
  {
  }

  // The padding is determined by the length of the message, so a hash depends on the message alone.

  lemma {:induction false} LittleInjective(s: seq<byte>, t: seq<byte>)
    requires |s| == |t| && LittleVal(s) == LittleVal(t)
    ensures s == t
  {
    if s != [] {
      LittleInjective(s[1..], t[1..]);
      assert s == [s[0]] + s[1..] && t == [t[0]] + t[1..];
    }
  }

  lemma PaddingUnique(v: Variant, n: nat, s: seq<byte>, t: seq<byte>)
    requires IsPadding(v, n, s) && IsPadding(v, n, t)
    ensures s == t
  {
    var pad := PadLength(v, n);
    if v.Md5? {
      LittleInjective(s[pad..], t[pad..]);
    } else {
      BigInjective(s[pad..], t[pad..]);
    }
    forall i | 0 <= i < |s| ensures s[i] == t[i] {
      if i >= pad {
        assert s[i] == s[pad..][i - pad] && t[i] == t[pad..][i - pad];
      }
    }
  }

  function Concat(chunks: seq<seq<byte>>): seq<byte> {
    if chunks == [] then [] else Concat(chunks[..|chunks| - 1]) + chunks[|chunks| - 1]
  }

  lemma ConcatNext(chunks: seq<seq<byte>>, i: nat)
    requires i < |chunks|
    ensures Concat(chunks[..i + 1]) == Concat(chunks[..i]) + chunks[i]
  {
    assert chunks[..i + 1][..i] == chunks[..i];
  }

  /** A whole hash: initialise, feed the pieces, finish. */
  method HashPieces<H>(v: Variant, compress: (H, seq<byte>) -> H, h0: H, chunks: seq<seq<byte>>)
    returns (h: H)
    requires forall i :: 0 <= i < |chunks| ==> |chunks[i]| < 0x8000_0000
    ensures exists tail :: IsPadding(v, |Concat(chunks)|, tail)
                           && h == Fold(compress, h0, v.BlockSize(), Concat(chunks) + tail)
  {
    hide *;
    var s := new HashState(v, compress, h0);
    var i := 0;
    NoPieces(chunks);
    while i < |chunks|
      invariant 0 <= i <= |chunks| && s.Absorbed(Concat(chunks[..i]))
      invariant fresh(s) && fresh(s.block) && fresh(s.len)
    {
      ConcatNext(chunks, i);
      s.Bytes(chunks[i], Concat(chunks[..i]));
      i := i + 1;
    }
    assert chunks[..i] == chunks;
    ghost var tail := s.Final(Concat(chunks));
    h := s.h;
  }

  lemma NoPieces(chunks: seq<seq<byte>>)
    ensures Concat(chunks[..0]) == []
  {
  }

  /** However a message is cut into pieces, the result is the same. */
  method SameMessageSameHash<H(==)>(v: Variant, compress: (H, seq<byte>) -> H, h0: H, a: seq<seq<byte>>, b: seq<seq<byte>>)
    returns (x: H, y: H)
    requires forall i :: 0 <= i < |a| ==> |a[i]| < 0x8000_0000
    requires forall i :: 0 <= i < |b| ==> |b[i]| < 0x8000_0000
    requires Concat(a) == Concat(b)
    ensures x == y
  {
    hide *;
    x := HashPieces(v, compress, h0, a);
    y := HashPieces(v, compress, h0, b);
    ghost var s :| IsPadding(v, |Concat(a)|, s) && x == Fold(compress, h0, v.BlockSize(), Concat(a) + s);
    ghost var t :| IsPadding(v, |Concat(b)|, t) && y == Fold(compress, h0, v.BlockSize(), Concat(b) + t);
    PaddingUnique(v, |Concat(a)|, s, t);
  }
}
