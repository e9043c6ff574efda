/** AES: the cipher and the equivalent inverse cipher (sections 5.1 and 5.3.5 of FIPS 197) as sshaes.c runs them. */
module Aes {
  import opened Gf256

  /** Sbox and Sboxinv, E0 to E3 and D0 to D3. */
  datatype Boxes = Boxes(sbox: Byte -> Byte, sboxinv: Byte -> Byte,
                         e0: Byte -> Word, e1: Byte -> Word, e2: Byte -> Word, e3: Byte -> Word,
                         d0: Byte -> Word, d1: Byte -> Word, d2: Byte -> Word, d3: Byte -> Word)

  ghost predicate AreInverse(t: Boxes) {
    forall x: Byte :: t.sboxinv(t.sbox(x)) == x
  }

  /** The E and D tables are the columns of the matrices over the S-boxes. */
  ghost predicate AreTables(t: Boxes) {
    && (forall x: Byte :: t.e0(x) == Mix0(t.sbox(x)) && t.e1(x) == Mix1(t.sbox(x)))
    && (forall x: Byte :: t.e2(x) == Mix2(t.sbox(x)) && t.e3(x) == Mix3(t.sbox(x)))
    && (forall x: Byte :: t.d0(x) == InvMix0(t.sboxinv(x)) && t.d1(x) == InvMix1(t.sboxinv(x)))
    && forall x: Byte :: t.d2(x) == InvMix2(t.sboxinv(x)) && t.d3(x) == InvMix3(t.sboxinv(x))
  }

  /** Words in a block: 4, 6 or 8. */
  predicate IsNb(nb: nat) {
    nb == 4 || nb == 6 || nb == 8
  }

  /** C1, C2, C3: how far rows 1, 2 and 3 are shifted. */
  function Offset(nb: nat, row: nat): (c: nat)
    requires IsNb(nb) && 1 <= row <= 3
    ensures 1 <= c < nb
  {
    if nb == 8 && row > 1 then row + 1 else row
  }

  /** The shifts of Rijndael for the three block lengths. */
  lemma Offsets()
    ensures Offset(4, 1) == Offset(6, 1) == Offset(8, 1) == 1
    ensures Offset(4, 2) == Offset(6, 2) == 2 && Offset(8, 2) == 3
    ensures Offset(4, 3) == Offset(6, 3) == 3 && Offset(8, 3) == 4
  {
  }

  function Turn(i: nat, c: nat, nb: nat): (j: nat)
    requires nb > 0
    ensures j < nb
  {
    (i + c) % nb
  }

  // One round on a whole state.

  function AddKey(s: seq<Word>, k: seq<Word>): (r: seq<Word>)
    requires |s| == |k|
    ensures |r| == |s|
  {
    seq(|s|, i requires 0 <= i < |s| => Xor(s[i], k[i]))
  }

  /** SubBytes and ShiftRows at word i. */
  function SubShiftWord(t: Boxes, s: seq<Word>, i: nat): Word
    requires IsNb(|s|) && i < |s|
  {
    var nb := |s|;
    Word(t.sbox(s[i].b0), t.sbox(s[Turn(i, Offset(nb, 1), nb)].b1),
         t.sbox(s[Turn(i, Offset(nb, 2), nb)].b2), t.sbox(s[Turn(i, Offset(nb, 3), nb)].b3))
  }

  /** InvSubBytes and InvShiftRows at word i. */
  function InvSubShiftWord(t: Boxes, s: seq<Word>, i: nat): Word
    requires IsNb(|s|) && i < |s|
  {
    var nb := |s|;
    Word(t.sboxinv(s[i].b0), t.sboxinv(s[Turn(i, nb - Offset(nb, 1), nb)].b1),
         t.sboxinv(s[Turn(i, nb - Offset(nb, 2), nb)].b2), t.sboxinv(s[Turn(i, nb - Offset(nb, 3), nb)].b3))
  }

  function SubShift(t: Boxes, s: seq<Word>): (r: seq<Word>)
    requires IsNb(|s|)
    ensures |r| == |s|
  {
    seq(|s|, i requires 0 <= i < |s| => SubShiftWord(t, s, i))
  }

  function InvSubShift(t: Boxes, s: seq<Word>): (r: seq<Word>)
    requires IsNb(|s|)
    ensures |r| == |s|
  {
    seq(|s|, i requires 0 <= i < |s| => InvSubShiftWord(t, s, i))
  }

  function Mix(s: seq<Word>): (r: seq<Word>)
    ensures |r| == |s|
  {
    seq(|s|, i requires 0 <= i < |s| => MixColumn(s[i]))
  }

  function InvMix(s: seq<Word>): (r: seq<Word>)
    ensures |r| == |s|
  {
    seq(|s|, i requires 0 <= i < |s| => InvMixColumn(s[i]))
  }

  lemma Wraps(i: nat, c: nat, nb: nat)
    requires IsNb(nb) && i < nb && c < nb
    ensures Turn(Turn(i, nb - c, nb), c, nb) == i
  {
    if i >= c {
      assert (i + (nb - c)) % nb == i - c;
    } else {
      assert (i + (nb - c)) % nb == i + nb - c;
    }
  }

  /** Shifting back and substituting back undo shifting and substituting. */
  lemma SubShiftUndone(t: Boxes, s: seq<Word>)
    requires AreInverse(t) && IsNb(|s|)
    ensures InvSubShift(t, SubShift(t, s)) == s
  {
    var nb := |s|;
    var u := SubShift(t, s);
    forall i | 0 <= i < nb ensures InvSubShiftWord(t, u, i) == s[i] {
      UndoneAt(t, s, i);
    }
  }

  lemma UndoneAt(t: Boxes, s: seq<Word>, i: nat)
    requires AreInverse(t) && IsNb(|s|) && i < |s|
    ensures InvSubShiftWord(t, SubShift(t, s), i) == s[i]
  {
    hide Offset, Turn;
    var nb := |s|;
    Wraps(i, Offset(nb, 1), nb);
    Wraps(i, Offset(nb, 2), nb);
    Wraps(i, Offset(nb, 3), nb);
  }

  lemma MixUndone(s: seq<Word>)
    ensures InvMix(Mix(s)) == s
  {
    hide MixColumn, InvMixColumn;
    forall i | 0 <= i < |s| ensures InvMix(Mix(s))[i] == s[i] {
      InvMixMix(s[i]);
    }
  }

  /** InvMixColumns is linear, so it can be applied to the key instead. */
  lemma InvMixAddKey(s: seq<Word>, k: seq<Word>)
    requires |s| == |k|
    ensures InvMix(AddKey(s, k)) == AddKey(InvMix(s), InvMix(k))
  {
    hide InvMixColumn, Xor;
    forall i | 0 <= i < |s| ensures InvMix(AddKey(s, k))[i] == AddKey(InvMix(s), InvMix(k))[i] {
      InvMixXor(s[i], k[i]);
    }
  }

  lemma AddKeyTwice(s: seq<Word>, k: seq<Word>)
    requires |s| == |k|
    ensures AddKey(AddKey(s, k), k) == s
  {
    hide Xor;
    forall i | 0 <= i < |s| ensures AddKey(AddKey(s, k), k)[i] == s[i] {
      XorTwice(s[i], k[i]);
    }
  }

  // The ciphers, over one key per round and one more.

  ghost predicate IsSchedule(k: seq<seq<Word>>, nb: nat) {
    |k| >= 2 && IsNb(nb) && forall r :: 0 <= r < |k| ==> |k[r]| == nb
  }

  /** The state after r of the rounds that mix. */
  ghost function Rounds(t: Boxes, k: seq<seq<Word>>, s: seq<Word>, r: nat): (u: seq<Word>)
    requires IsSchedule(k, |s|) && r < |k|
    ensures |u| == |s|
  {
    if r == 0 then s else Mix(SubShift(t, AddKey(Rounds(t, k, s, r - 1), k[r - 1])))
  }

  /** Section 5.1 of FIPS 197. */
  ghost function Enciphered(t: Boxes, k: seq<seq<Word>>, s: seq<Word>): (u: seq<Word>)
    requires IsSchedule(k, |s|)
    ensures |u| == |s|
  {
    var nr := |k| - 1;
    AddKey(SubShift(t, AddKey(Rounds(t, k, s, nr - 1), k[nr - 1])), k[nr])
  }

  ghost function InvRounds(t: Boxes, k: seq<seq<Word>>, s: seq<Word>, r: nat): (u: seq<Word>)
    requires IsSchedule(k, |s|) && r < |k|
    ensures |u| == |s|
  {
    if r == 0 then s else InvMix(InvSubShift(t, AddKey(InvRounds(t, k, s, r - 1), k[r - 1])))
  }

  /** Section 5.3.5 of FIPS 197: the same steps with the inverse tables and a schedule of its own. */
  ghost function Deciphered(t: Boxes, k: seq<seq<Word>>, s: seq<Word>): (u: seq<Word>)
    requires IsSchedule(k, |s|)
    ensures |u| == |s|
  {
    var nr := |k| - 1;
    AddKey(InvSubShift(t, AddKey(InvRounds(t, k, s, nr - 1), k[nr - 1])), k[nr])
  }

  /** The schedule of the inverse cipher: reversed, and InvMixColumns applied except at the ends. */
  ghost predicate IsInverseSchedule(k: seq<seq<Word>>, ik: seq<seq<Word>>) {
    && |k| == |ik|
    && forall r :: 0 <= r < |k| ==>
                     ik[r] == if 0 < r < |k| - 1 then InvMix(k[|k| - 1 - r]) else k[|k| - 1 - r]
  }

  /** What the inverse cipher adds its key to after r rounds: the state before round nr - r, its key still added. */
  lemma {:induction false} InvRoundsMeet(t: Boxes, k: seq<seq<Word>>, ik: seq<seq<Word>>, s: seq<Word>, r: nat)
    requires AreInverse(t) && IsSchedule(k, |s|) && IsSchedule(ik, |s|) && IsInverseSchedule(k, ik) && r < |k| - 1
    ensures var nr := |k| - 1;
            InvSubShift(t, AddKey(InvRounds(t, ik, Enciphered(t, k, s), r), ik[r]))
            == AddKey(Rounds(t, k, s, nr - 1 - r), k[nr - 1 - r])
  {
    hide AddKey, SubShift, InvSubShift, Mix, InvMix, AreInverse;
    var nr := |k| - 1;
    var c := Enciphered(t, k, s);
    var before := AddKey(Rounds(t, k, s, nr - 1 - r), k[nr - 1 - r]);
    SubShiftUndone(t, before);
    if r == 0 {
      AddKeyTwice(SubShift(t, before), k[nr]);
    } else {
      InvRoundsMeet(t, k, ik, s, r - 1);
      var e := Rounds(t, k, s, nr - r);
      assert e == Mix(SubShift(t, before));
      MixUndone(SubShift(t, before));
      InvMixAddKey(e, k[nr - r]);
      AddKeyTwice(InvMix(e), InvMix(k[nr - r]));
    }
  }

  /** Decryption undoes encryption, for every schedule, key length and block length. */
  lemma DecipherUndoes(t: Boxes, k: seq<seq<Word>>, ik: seq<seq<Word>>, s: seq<Word>)
    requires AreInverse(t) && IsSchedule(k, |s|) && IsSchedule(ik, |s|) && IsInverseSchedule(k, ik)
    ensures Deciphered(t, ik, Enciphered(t, k, s)) == s
  {
    hide AddKey, SubShift, InvSubShift, Mix, InvMix, AreInverse;
    var nr := |k| - 1;
    InvRoundsMeet(t, k, ik, s, nr - 1);
    AddKeyTwice(s, k[0]);
  }
}
