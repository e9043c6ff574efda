/** 32-bit words as their bits, number 0 the least significant. */
module Bits32 {

  type Word = s: seq<bool> | |s| == 32 witness seq(32, _ => false)

  function Xor(v: Word, w: Word): (r: Word) {
    seq(32, i requires 0 <= i < 32 => v[i] != w[i])
  }

  function And(v: Word, w: Word): Word {
    seq(32, i requires 0 <= i < 32 => v[i] && w[i])
  }

  /** w << n. */
  function Shl(w: Word, n: nat): Word {
    seq(32, i requires 0 <= i < 32 => i >= n && w[i - n])
  }

  /** w >> n. */
  function Shr(w: Word, n: nat): Word {
    seq(32, i requires 0 <= i < 32 => i + n < 32 && w[i + n])
  }

  /** rotl. */
  function Rotl(w: Word, n: nat): Word
    requires n <= 32
  {
    seq(32, i requires 0 <= i < 32 => if i >= n then w[i - n] else w[i + 32 - n])
  }

  lemma XorTwice(v: Word, w: Word)
    ensures Xor(v, Xor(v, w)) == w && Xor(Xor(v, w), w) == v
  {
    var r, s := Xor(v, Xor(v, w)), Xor(Xor(v, w), w);
    assert forall i :: 0 <= i < 32 ==> r[i] == w[i] && s[i] == v[i];
  }

  lemma RotlBack(w: Word, n: nat)
    requires n <= 32
    ensures Rotl(Rotl(w, n), 32 - n) == w
  {
    var r := Rotl(Rotl(w, n), 32 - n);
    assert forall i :: 0 <= i < 32 ==> r[i] == w[i];
  }

  /** A block: the words L and R. */
  datatype Block = Block(l: Word, r: Word) {
    function Xored(b: Block): Block {
      Block(Xor(l, b.l), Xor(r, b.r))
    }
  }

  lemma XoredTwice(a: Block, b: Block)
    ensures a.Xored(a.Xored(b)) == b
  {
    XorTwice(a.l, b.l);
    XorTwice(a.r, b.r);
  }
}
