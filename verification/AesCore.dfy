/** The core routines of sshaes.c, which update a block in place. */
module AesCore {
  import opened Gf256
  import opened Aes
  import opened Arith

  const MAX_WORDS: nat := 15 * 8
  const ONE := Byte(false, false, false, false, false, false, false, true)

  /** The round keys that a flat schedule holds. */
  ghost function Keys(flat: seq<Word>, nb: nat, nr: nat): (k: seq<seq<Word>>)
    requires (nr + 1) * nb <= |flat|
    ensures |k| == nr + 1 && forall r :: 0 <= r <= nr ==> |k[r]| == nb
  {
    seq(nr + 1, r requires 0 <= r <= nr => KeyAt(flat, nb, nr, r))
  }

  ghost function KeyAt(flat: seq<Word>, nb: nat, nr: nat, r: nat): (k: seq<Word>)
    requires (nr + 1) * nb <= |flat| && r <= nr
    ensures |k| == nb
  {
    KeyFits(r, nr, nb);
    flat[r * nb..r * nb + nb]
  }

  lemma KeyFits(r: nat, nr: nat, nb: nat)
    requires r <= nr
    ensures r * nb + nb <= (nr + 1) * nb && r * nb >= 0
  {
    Distrib(r, 1, nb);
    MulMono(r + 1, nr + 1, nb);
  }

  // The core routines, one array of words updated in place.

  /** ADD_ROUND_KEY. */
  method AddRoundKey(block: array<Word>, sched: array<Word>, k: nat)
    requires block != sched && k + block.Length <= sched.Length
    modifies block
    ensures block[..] == AddKey(old(block[..]), sched[k..k + block.Length])
  {
    hide Xor;
    var i := 0;
    while i < block.Length
      invariant 0 <= i <= block.Length
      invariant forall j :: 0 <= j < i ==> block[j] == Xor(old(block[j]), sched[k + j])
      invariant forall j :: i <= j < block.Length ==> block[j] == old(block[j])
    {
      block[i] := Xor(block[i], sched[k + i]);
      i := i + 1;
    }
    AddKeyIs(old(block[..]), sched[k..k + block.Length], block[..]);
  }

  lemma AddKeyIs(s: seq<Word>, k: seq<Word>, r: seq<Word>)
    requires |s| == |k| == |r| && forall j :: 0 <= j < |s| ==> r[j] == Xor(s[j], k[j])
    ensures r == AddKey(s, k)
  {
  }

  /** MAKEWORD of the encryption routines. */
  function MakeWord(t: Boxes, s: seq<Word>, i: nat): Word
    requires IsNb(|s|) && i < |s|
  {
    var nb := |s|;
    Xor(Xor(Xor(t.e0(s[i].b0), t.e1(s[Turn(i, Offset(nb, 1), nb)].b1)),
            t.e2(s[Turn(i, Offset(nb, 2), nb)].b2)), t.e3(s[Turn(i, Offset(nb, 3), nb)].b3))
  }

  /** MAKEWORD of the decryption routines. */
  function MakeInvWord(t: Boxes, s: seq<Word>, i: nat): Word
    requires IsNb(|s|) && i < |s|
  {
    var nb := |s|;
    Xor(Xor(Xor(t.d0(s[i].b0), t.d1(s[Turn(i, nb - Offset(nb, 1), nb)].b1)),
            t.d2(s[Turn(i, nb - Offset(nb, 2), nb)].b2)), t.d3(s[Turn(i, nb - Offset(nb, 3), nb)].b3))
  }

  /** The tables combine substitution and the matrix. */
  lemma MakeWordIs(t: Boxes, s: seq<Word>, i: nat)
    requires IsNb(|s|) && i < |s| && AreTables(t)
    ensures MakeWord(t, s, i) == MixColumn(SubShiftWord(t, s, i))
    ensures MakeInvWord(t, s, i) == InvMixColumn(InvSubShiftWord(t, s, i))
  {
    hide Turn, Offset, Mix0, Mix1, Mix2, Mix3, InvMix0, InvMix1, InvMix2, InvMix3, Xor, IsNb;
  }

  datatype Step = Middle | Last | InvMiddle | InvLast

  /** One MAKEWORD or LASTWORD of either routine. */
  function StepWord(step: Step, t: Boxes, s: seq<Word>, i: nat): Word
    requires IsNb(|s|) && i < |s|
  {
    match step
    case Middle => MakeWord(t, s, i)
    case Last => SubShiftWord(t, s, i)
    case InvMiddle => MakeInvWord(t, s, i)
    case InvLast => InvSubShiftWord(t, s, i)
  }

  ghost function Stepped(step: Step, t: Boxes, s: seq<Word>): seq<Word>
    requires IsNb(|s|)
  {
    match step
    case Middle => Mix(SubShift(t, s))
    case Last => SubShift(t, s)
    case InvMiddle => InvMix(InvSubShift(t, s))
    case InvLast => InvSubShift(t, s)
  }

  lemma SteppedIs(step: Step, t: Boxes, s: seq<Word>, r: seq<Word>)
    requires AreTables(t) && IsNb(|s|) && |r| == |s| && forall j :: 0 <= j < |s| ==> r[j] == StepWord(step, t, s, j)
    ensures r == Stepped(step, t, s)
  {
    hide MixColumn, InvMixColumn, SubShiftWord, InvSubShiftWord, MakeWord, MakeInvWord, AreTables;
    var u := Stepped(step, t, s);
    assert |u| == |s|;
    forall j | 0 <= j < |s| ensures r[j] == u[j] {
      MakeWordIs(t, s, j);
      assert r[j] == StepWord(step, t, s, j);
    }
  }

  /** All the words of the new state, and then their move into the block. */
  method Words(step: Step, t: Boxes, block: array<Word>)
    requires IsNb(block.Length) && AreTables(t)
    modifies block
    ensures block[..] == Stepped(step, t, old(block[..]))
  {
    hide StepWord, Stepped, AreTables;
    var nb := block.Length;
    ghost var s := block[..];
    var newstate := new Word[nb](_ => ZERO);
    var i := 0;
    while i < nb
      invariant 0 <= i <= nb && block[..] == s
      invariant forall j :: 0 <= j < i ==> newstate[j] == StepWord(step, t, s, j)
    {
      newstate[i] := StepWord(step, t, block[..], i);
      i := i + 1;
    }
    i := 0;
    while i < nb
      invariant 0 <= i <= nb && forall j :: 0 <= j < i ==> block[j] == newstate[j]
      invariant forall j :: 0 <= j < nb ==> newstate[j] == StepWord(step, t, s, j)
    {
      block[i] := newstate[i];
      i := i + 1;
    }
    SteppedIs(step, t, s, block[..]);
  }

  /** aes_encrypt_nb_4, aes_encrypt_nb_6 and aes_encrypt_nb_8. */
  method EncryptBlock(t: Boxes, sched: array<Word>, nr: nat, block: array<Word>)
    requires AreTables(t) && IsNb(block.Length) && nr >= 1 && (nr + 1) * block.Length <= sched.Length && block != sched
    modifies block
    ensures block[..] == Enciphered(t, Keys(sched[..], block.Length, nr), old(block[..]))
  {
    hide AddKey, Stepped, SubShift, Mix, Keys, IsNb, Rounds, Enciphered, AreTables;
    var nb := block.Length;
    ghost var s := block[..];
    ghost var k := Keys(sched[..], nb, nr);
    KeysSchedule(sched[..], nb, nr);
    var at := 0;
    var i := 0;
    RoundsStart(t, k, s);
    while i < nr - 1
      invariant 0 <= i <= nr - 1 && at == i * nb && block[..] == Rounds(t, k, s, i)
    {
      KeyFits(i, nr, nb);
      AddRoundKey(block, sched, at);
      KeyIs(sched[..], nb, nr, i);
      Words(Middle, t, block);
      RoundsStep(t, k, s, i);
      at := at + nb;
      i := i + 1;
      Distrib(i - 1, 1, nb);
    }
    KeyFits(i, nr, nb);
    AddRoundKey(block, sched, at);
    KeyIs(sched[..], nb, nr, i);
    Words(Last, t, block);
    at := at + nb;
    KeyFits(nr, nr, nb);
    Distrib(i, 1, nb);
    AddRoundKey(block, sched, at);
    KeyIs(sched[..], nb, nr, nr);
    RoundsEnd(t, k, s);
  }

  /** aes_decrypt_nb_4, aes_decrypt_nb_6 and aes_decrypt_nb_8. */
  method DecryptBlock(t: Boxes, sched: array<Word>, nr: nat, block: array<Word>)
    requires AreTables(t) && IsNb(block.Length) && nr >= 1 && (nr + 1) * block.Length <= sched.Length && block != sched
    modifies block
    ensures block[..] == Deciphered(t, Keys(sched[..], block.Length, nr), old(block[..]))
  {
    hide AddKey, Stepped, InvSubShift, InvMix, Keys, IsNb, InvRounds, Deciphered, AreTables;
    var nb := block.Length;
    ghost var s := block[..];
    ghost var k := Keys(sched[..], nb, nr);
    KeysSchedule(sched[..], nb, nr);
    var at := 0;
    var i := 0;
    RoundsStart(t, k, s);
    while i < nr - 1
      invariant 0 <= i <= nr - 1 && at == i * nb && block[..] == InvRounds(t, k, s, i)
    {
      KeyFits(i, nr, nb);
      AddRoundKey(block, sched, at);
      KeyIs(sched[..], nb, nr, i);
      Words(InvMiddle, t, block);
      RoundsStep(t, k, s, i);
      at := at + nb;
      i := i + 1;
      Distrib(i - 1, 1, nb);
    }
    KeyFits(i, nr, nb);
    AddRoundKey(block, sched, at);
    KeyIs(sched[..], nb, nr, i);
    Words(InvLast, t, block);
    at := at + nb;
    KeyFits(nr, nr, nb);
    Distrib(i, 1, nb);
    AddRoundKey(block, sched, at);
    KeyIs(sched[..], nb, nr, nr);
    RoundsEnd(t, k, s);
  }

  lemma KeysSchedule(flat: seq<Word>, nb: nat, nr: nat)
    requires (nr + 1) * nb <= |flat| && IsNb(nb) && nr >= 1
    ensures IsSchedule(Keys(flat, nb, nr), nb)
  {
    hide Keys;
  }

  lemma KeyIs(flat: seq<Word>, nb: nat, nr: nat, r: nat)
    requires (nr + 1) * nb <= |flat| && r <= nr
    ensures r * nb >= 0 && r * nb + nb <= |flat| && Keys(flat, nb, nr)[r] == flat[r * nb..r * nb + nb]
  {
    KeyFits(r, nr, nb);
  }

  lemma RoundsStart(t: Boxes, k: seq<seq<Word>>, s: seq<Word>)
    requires IsSchedule(k, |s|)
    ensures Rounds(t, k, s, 0) == s && InvRounds(t, k, s, 0) == s
  {
  }

  lemma RoundsStep(t: Boxes, k: seq<seq<Word>>, s: seq<Word>, r: nat)
    requires IsSchedule(k, |s|) && r + 1 < |k|
    ensures Rounds(t, k, s, r + 1) == Stepped(Middle, t, AddKey(Rounds(t, k, s, r), k[r]))
    ensures InvRounds(t, k, s, r + 1) == Stepped(InvMiddle, t, AddKey(InvRounds(t, k, s, r), k[r]))
  {
    hide AddKey, SubShift, Mix, InvSubShift, InvMix;
  }

  lemma RoundsEnd(t: Boxes, k: seq<seq<Word>>, s: seq<Word>)
    requires IsSchedule(k, |s|)
    ensures var nr := |k| - 1;
            && Enciphered(t, k, s) == AddKey(Stepped(Last, t, AddKey(Rounds(t, k, s, nr - 1), k[nr - 1])), k[nr])
            && Deciphered(t, k, s) == AddKey(Stepped(InvLast, t, AddKey(InvRounds(t, k, s, nr - 1), k[nr - 1])), k[nr])
  {
    hide AddKey, SubShift, Mix, InvSubShift, InvMix, Rounds, InvRounds;
  }
}
