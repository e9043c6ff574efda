/** Bytes, words and their order in memory. */
module Machine {
  import opened Arith

  const TWO32: nat := 0x1_0000_0000

  type byte = x: int | 0 <= x < 256 witness 0
  type uint16 = x: int | 0 <= x < 0x1_0000 witness 0
  type uint32 = x: int | 0 <= x < TWO32 witness 0

  datatype Option<T> = None | Some(value: T)

  /** The bytes of a C string, without its NUL. */
  function Ascii(s: string): (b: seq<byte>)
    requires forall i :: 0 <= i < |s| ==> s[i] < 128 as char
    ensures |b| == |s| && forall i :: 0 <= i < |s| ==> b[i] == s[i] as int
  {
    seq(|s|, i requires 0 <= i < |s| => s[i] as int)
  }

  /** The four bytes of a word, most significant first: PUT_32BIT. */
  function Bytes4(w: uint32): (s: seq<byte>)
    ensures |s| == 4
  {
    [(w / 0x100_0000) % 0x100, (w / 0x1_0000) % 0x100, (w / 0x100) % 0x100, w % 0x100]
  }

  /** GET_32BIT. */
  function Word4(s: seq<byte>): (w: uint32)
    requires |s| >= 4
  {
    0x100_0000 * (s[0] as int) + 0x1_0000 * (s[1] as int) + 0x100 * (s[2] as int) + s[3]
  }

  lemma WordSum(w: uint32)
    ensures Word4(Bytes4(w)) == w
  {
    Digits(w);
    Digits(w / 0x100);
    Digits(w / 0x1_0000);
  }

  lemma Digits(x: nat)
    ensures x == 0x100 * (x / 0x100) + x % 0x100 && x / 0x1_0000 == x / 0x100 / 0x100
    ensures x / 0x100_0000 == x / 0x1_0000 / 0x100
    ensures x < TWO32 ==> x / 0x100_0000 < 0x100
  {
  }

  lemma BytesOfWord(s: seq<byte>)
    requires |s| >= 4
    ensures Bytes4(Word4(s)) == s[..4]
  {
    var w: nat := Word4(s);
    var w1: nat := 0x1_0000 * (s[0] as int) + 0x100 * (s[1] as int) + s[2];
    var w2: nat := 0x100 * (s[0] as int) + s[1];
    LastDigit(w1, s[3]);
    LastDigit(w2, s[2]);
    LastDigit(s[0], s[1]);
    Digits(w);
  }

  lemma LastDigit(x: nat, d: byte)
    ensures (0x100 * x + d) / 0x100 == x && (0x100 * x + d) % 0x100 == d
  {
  }

  /** The number that bytes stand for, most significant first: bignum_from_bytes. */
  function BigVal(s: seq<byte>): nat {
    if s == [] then 0 else 256 * BigVal(s[..|s| - 1]) + s[|s| - 1]
  }

  lemma BigSnoc(s: seq<byte>, x: byte)
    ensures BigVal(s + [x]) == 256 * BigVal(s) + x
  {
    assert (s + [x])[..|s + [x]| - 1] == s;
  }

  lemma {:induction false} BigInjective(s: seq<byte>, t: seq<byte>)
    requires |s| == |t| && BigVal(s) == BigVal(t)
    ensures s == t
  {
    if s != [] {
      var n := |s| - 1;
      BigInjective(s[..n], t[..n]);
      assert s == s[..n] + [s[n]] && t == t[..n] + [t[n]];
    }
  }

  /** The n low bytes of a number, most significant first. */
  /** The first byte is the most significant one. */
  lemma {:induction false} BigHead(s: seq<byte>)
    requires |s| >= 1
    ensures s[0] * Pow256(|s| - 1) <= BigVal(s) < (s[0] + 1) * Pow256(|s| - 1)
  {
    var n := |s| - 1;
    if n > 0 {
      BigHead(s[..n]);
      var p, v := Pow256(n - 1), BigVal(s[..n]);
      HeadStep(s[0], p, v, s[n]);
    } else {
      assert s[..0] == [];
    }
  }

  lemma HeadStep(b: nat, p: nat, v: nat, c: byte)
    requires b * p <= v < (b + 1) * p
    ensures b * (256 * p) <= 256 * v + c < (b + 1) * (256 * p)
  {
    assert b * (256 * p) == 256 * (b * p) && (b + 1) * (256 * p) == 256 * ((b + 1) * p);
  }

  function ToBytes(v: nat, n: nat): (s: seq<byte>)
    ensures |s| == n
  {
    if n == 0 then [] else ToBytes(v / 256, n - 1) + [v % 256]
  }

  function Pow256(n: nat): (p: nat) ensures p >= 1 {
    if n == 0 then 1 else 256 * Pow256(n - 1)
  }

  /** Reading back what fits. */
  lemma {:induction false} BytesRoundTrip(v: nat, n: nat)
    requires v < Pow256(n)
    ensures BigVal(ToBytes(v, n)) == v
  {
    if n > 0 {
      BytesRoundTrip(v / 256, n - 1);
      BigSnoc(ToBytes(v / 256, n - 1), v % 256);
    }
  }

  /** bignum_byte. */
  function ByteOf(v: nat, i: nat): byte {
    (v / Pow256(i)) % 256
  }

  lemma {:induction false} ToBytesAt(v: nat, n: nat, i: nat)
    requires i < n
    ensures ToBytes(v, n)[i] == ByteOf(v, n - 1 - i)
  {
    if i < n - 1 {
      ToBytesAt(v / 256, n - 1, i);
      DivDiv(v, Pow256(n - 2 - i));
    }
  }

  lemma DivDiv(v: nat, p: nat)
    requires p > 0
    ensures v / 256 / p == v / (256 * p)
  {
    var q, r := v / 256 / p, v / 256 % p;
    DivMod(v / 256, p);
    Assoc(q, p, 256);
    DivModUnique(v, 256 * p, q, 256 * r + v % 256);
  }
}
