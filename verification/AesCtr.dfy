/** The SDCTR mode of sshaes.c: a big-endian counter of four words, encrypted and added to the data. */
module AesCtr {
  import opened Arith
  import opened Gf256
  import opened Aes
  import opened AesCore
  import opened AesModes
  import opened Machine
  import Cbc
  import Ctr

  function Digit(b: bool): nat {
    if b then 1 else 0
  }

  function ByteVal(x: Byte): (n: nat)
    ensures n < 256
  {
    128 * Digit(x.x7) + 64 * Digit(x.x6) + 32 * Digit(x.x5) + 16 * Digit(x.x4)
    + 8 * Digit(x.x3) + 4 * Digit(x.x2) + 2 * Digit(x.x1) + Digit(x.x0)
  }

  function ToByte(n: nat): Byte {
    var n1 := n / 2;
    var n2 := n1 / 2;
    var n3 := n2 / 2;
    var n4 := n3 / 2;
    var n5 := n4 / 2;
    var n6 := n5 / 2;
    var n7 := n6 / 2;
    Byte(n7 % 2 == 1, n6 % 2 == 1, n5 % 2 == 1, n4 % 2 == 1, n3 % 2 == 1, n2 % 2 == 1, n1 % 2 == 1, n % 2 == 1)
  }

  lemma ByteRound(n: nat)
    requires n < 256
    ensures ByteVal(ToByte(n)) == n
  {
    var n1 := n / 2;
    var n2 := n1 / 2;
    var n3 := n2 / 2;
    var n4 := n3 / 2;
    var n5 := n4 / 2;
    var n6 := n5 / 2;
    var n7 := n6 / 2;
    Halves(n);
    Halves(n1);
    Halves(n2);
    Halves(n3);
    Halves(n4);
    Halves(n5);
    Halves(n6);
    Halves(n7);
    hide Digit;
    var x := ToByte(n);
    assert x.x7 == (n7 % 2 == 1) && x.x6 == (n6 % 2 == 1) && x.x5 == (n5 % 2 == 1) && x.x4 == (n4 % 2 == 1);
    assert x.x3 == (n3 % 2 == 1) && x.x2 == (n2 % 2 == 1) && x.x1 == (n1 % 2 == 1) && x.x0 == (n % 2 == 1);
    Binary(n, n1, n2, n3, n4, n5, n6, n7, n7 / 2, Digit(x.x0), Digit(x.x1), Digit(x.x2), Digit(x.x3), Digit(x.x4),
           Digit(x.x5), Digit(x.x6), Digit(x.x7));
  }

  lemma Binary(n: nat, n1: nat, n2: nat, n3: nat, n4: nat, n5: nat, n6: nat, n7: nat, n8: nat,
               d0: nat, d1: nat, d2: nat, d3: nat, d4: nat, d5: nat, d6: nat, d7: nat)
    requires n < 256 && n == 2 * n1 + d0 && n1 == 2 * n2 + d1 && n2 == 2 * n3 + d2 && n3 == 2 * n4 + d3
    requires n4 == 2 * n5 + d4 && n5 == 2 * n6 + d5 && n6 == 2 * n7 + d6 && n7 == 2 * n8 + d7
    ensures n == 128 * d7 + 64 * d6 + 32 * d5 + 16 * d4 + 8 * d3 + 4 * d2 + 2 * d1 + d0
  {
  }

  lemma Halves(n: nat)
    ensures n == 2 * (n / 2) + Digit(n % 2 == 1)
  {
  }

  function WordVal(w: Word): (n: nat)
    ensures n < TWO32
  {
    0x100_0000 * ByteVal(w.b0) + 0x1_0000 * ByteVal(w.b1) + 0x100 * ByteVal(w.b2) + ByteVal(w.b3)
  }

  function ToWord(n: nat): Word
    requires n < TWO32
  {
    var b := Bytes4(n);
    Word(ToByte(b[0]), ToByte(b[1]), ToByte(b[2]), ToByte(b[3]))
  }

  lemma WordRound(n: nat)
    requires n < TWO32
    ensures WordVal(ToWord(n)) == n
  {
    hide ByteVal, ToByte, Bytes4;
    var b := Bytes4(n);
    ByteRound(b[0]);
    ByteRound(b[1]);
    ByteRound(b[2]);
    ByteRound(b[3]);
    Machine.WordSum(n);
  }

  lemma ZeroWord(w: Word)
    ensures w == ZERO <==> WordVal(w) == 0
  {
  }

  /** The counter: four words, most significant first. */
  function CounterVal(s: seq<Word>): nat
    requires |s| == 4
  {
    TWO32 * (TWO32 * (TWO32 * WordVal(s[0]) + WordVal(s[1])) + WordVal(s[2])) + WordVal(s[3])
  }

  const TWO128: nat := 0x1_0000_0000_0000_0000_0000_0000_0000_0000

  /** (x + 1) & 0xffffffff. */
  function Incremented(w: Word): Word {
    ToWord((WordVal(w) + 1) % TWO32)
  }

  lemma IncrementedVal(w: Word)
    ensures WordVal(Incremented(w)) == if WordVal(w) + 1 == TWO32 then 0 else WordVal(w) + 1
  {
    hide WordVal, ToWord;
    WordRound((WordVal(w) + 1) % TWO32);
  }

  /** The carry from the last word up to a word that is not zero. */
  function Next(s: seq<Word>): (r: seq<Word>)
    requires |s| == 4
    ensures |r| == 4
  {
    var r := s[3 := Incremented(s[3])];
    if r[3] != ZERO then r
    else
      var r2 := r[2 := Incremented(s[2])];
      if r2[2] != ZERO then r2
      else
        var r1 := r2[1 := Incremented(s[1])];
        if r1[1] != ZERO then r1 else r1[0 := Incremented(s[0])]
  }

  /** Counting is addition of one modulo 2^128. */
  lemma NextVal(s: seq<Word>)
    requires |s| == 4
    ensures CounterVal(Next(s)) == if CounterVal(s) + 1 == TWO128 then 0 else CounterVal(s) + 1
  {
    hide WordVal, Incremented;
    IncrementedVal(s[0]);
    IncrementedVal(s[1]);
    IncrementedVal(s[2]);
    IncrementedVal(s[3]);
    ZeroWord(Incremented(s[0]));
    ZeroWord(Incremented(s[1]));
    ZeroWord(Incremented(s[2]));
    ZeroWord(Incremented(s[3]));
  }

  /** Counting on. */
  function Step(s: seq<Word>): (r: seq<Word>)
    ensures |s| == 4 ==> |r| == 4
  {
    if |s| == 4 then Next(s) else s
  }

  /** The m-th counter. */
  ghost function Counter(s: seq<Word>, m: nat): (r: seq<Word>)
    requires |s| == 4
    ensures |r| == 4
  {
    CounterLength(s, m);
    Ctr.Counter(Step, s, m)
  }

  lemma {:induction false} CounterLength(s: seq<Word>, m: nat)
    requires |s| == 4
    ensures |Ctr.Counter(Step, s, m)| == 4
  {
    hide Step;
    if m > 0 {
      CounterLength(s, m - 1);
    }
  }

  lemma CounterNext(s: seq<Word>, m: nat)
    requires |s| == 4
    ensures Counter(s, 0) == s && Counter(s, m + 1) == Next(Counter(s, m))
  {
    hide Next;
  }

  lemma {:induction false} CounterValue(s: seq<Word>, m: nat)
    requires |s| == 4
    ensures CounterVal(Counter(s, m)) == (CounterVal(s) + m) % TWO128
  {
    hide CounterVal, Next, TWO128, Counter;
    CounterNext(s, 0);
    Modulo(CounterVal(s));
    CounterBound(s);
    if m > 0 {
      CounterValue(s, m - 1);
      CounterNext(s, m - 1);
      NextVal(Counter(s, m - 1));
      Successor(CounterVal(s) + m - 1);
    }
  }

  lemma CounterBound(s: seq<Word>)
    requires |s| == 4
    ensures CounterVal(s) < TWO128
  {
    hide WordVal;
  }

  lemma Modulo(n: nat)
    ensures TWO128 > 0 && (n < TWO128 ==> n % TWO128 == n)
  {
  }

  lemma Successor(n: nat)
    ensures (n + 1) % TWO128 == if n % TWO128 + 1 == TWO128 then 0 else n % TWO128 + 1
  {
  }

  method CountUp(v: array<Word>)
    requires v.Length == 4
    modifies v
    ensures v[..] == Next(old(v[..]))
  {
    hide Incremented;
    var i := 3;
    while i >= 0
      invariant -1 <= i <= 3
      invariant forall j :: 0 <= j <= i ==> v[j] == old(v[j])
      invariant forall j :: i < j < 4 ==> v[j] == Incremented(old(v[j])) && v[j] == ZERO
    {
      v[i] := Incremented(v[i]);
      if v[i] != ZERO {
        break;
      }
      i := i - 1;
    }
  }

  ghost predicate MaskedTo(c: Cbc.Cipher<seq<Word>>, iv: seq<Word>, b0: seq<Byte>, b: seq<Byte>, at: nat, v: seq<Word>) {
    && at % 16 == 0 && at <= |b| == |b0| && b[at..] == b0[at..] && |v| == 4 && |iv| == 4
    && Blocks(b[..at]) == Ctr.Masked(c, Step, iv, Blocks(b0[..at])) && v == Counter(iv, at / 16)
  }

  lemma MaskStep(c: Cbc.Cipher<seq<Word>>, iv: seq<Word>, b0: seq<Byte>, b1: seq<Byte>, b2: seq<Byte>, at: nat,
                 v1: seq<Word>)
    requires MaskedTo(c, iv, b0, b1, at, v1) && at + 16 <= |b0| == |b2| && b2[..at] == b1[..at]
    requires b2[at + 16..] == b1[at + 16..]
    requires BlockAt(b2, at) == c.xor(c.encrypt(v1), BlockAt(b1, at))
    ensures MaskedTo(c, iv, b0, b2, at + 16, Next(v1))
  {
    hide Blocks, BlockAt, Ctr.Masked, Next, Ctr.Counter;
    BlocksSnoc(b0, at);
    BlocksSnoc(b2, at);
    UpTo(b0, b1, b2, at);
    Ctr.MaskedSnoc(c, Step, iv, Blocks(b0[..at]), BlockAt(b0, at));
    CounterNext(iv, at / 16);
    assert (at + 16) / 16 == at / 16 + 1;
  }

  lemma MaskNothing(c: Cbc.Cipher<seq<Word>>, iv: seq<Word>, b: seq<Byte>)
    requires |iv| == 4
    ensures MaskedTo(c, iv, b, b, 0, iv)
  {
    NoBlocks(b[..0], c, iv);
    CounterNext(iv, 0);
  }

  lemma MaskDone(c: Cbc.Cipher<seq<Word>>, iv: seq<Word>, b0: seq<Byte>, b: seq<Byte>, v: seq<Word>)
    requires |iv| == 4 && |b| % 16 == 0 && MaskedTo(c, iv, b0, b, |b|, v)
    ensures |b0| == |b| && Blocks(b) == Ctr.Masked(c, Step, iv, Blocks(b0)) && v == Counter(iv, |b| / 16)
  {
    hide Blocks, Ctr.Masked, Counter;
    assert b[..|b|] == b && b0[..|b|] == b0;
  }

  /** aes_sdctr. */
  method Sdctr(ctx: AesContext, blk: array<Byte>)
    requires ctx.Ready() && ctx.nb == 4 && blk.Length % 16 == 0
    modifies blk, ctx.iv
    ensures Blocks(blk[..]) == Ctr.Masked(ctx.Cipher(), Step, old(ctx.iv[..4]), old(Blocks(blk[..])))
    ensures ctx.iv[..4] == Counter(old(ctx.iv[..4]), blk.Length / 16)
  {
    hide AesContext.Ready, AesContext.Cipher, Blocks, Keys, BlockAt, MaskedTo, Next, Counter, Ctr.Masked;
    ctx.ReadyShape();
    ghost var c, iv0, b0 := ctx.Cipher(), ctx.iv[..4], blk[..];
    var v := Copy4(ctx.iv);
    var at := 0;
    MaskNothing(c, iv0, b0);
    while at < blk.Length
      invariant 0 <= at <= blk.Length && at % 16 == 0 && v.Length == 4 && fresh(v) && ctx.iv[..] == old(ctx.iv[..])
      invariant MaskedTo(c, iv0, b0, blk[..], at, v[..])
    {
      ghost var b1, v1 := blk[..], v[..];
      MaskBlock(ctx, v, blk, at);
      MaskStep(c, iv0, b0, b1, blk[..], at, v1);
      CountUp(v);
      at := at + 16;
    }
    MaskDone(c, iv0, b0, blk[..], v[..]);
    Store4(ctx.iv, v);
  }

  /** One block: the counter is encrypted aside and added to the data. */
  method MaskBlock(ctx: AesContext, v: array<Word>, blk: array<Byte>, at: nat)
    requires ctx.Ready() && ctx.nb == 4 && v.Length == 4 && at + 16 <= blk.Length
    modifies blk
    ensures BlockAt(blk[..], at) == ctx.Cipher().xor(ctx.Cipher().encrypt(v[..]), BlockAt(old(blk[..]), at))
    ensures blk[..at] == old(blk[..at]) && blk[at + 16..] == old(blk[at + 16..])
  {
    hide AesContext.Ready, AesContext.Cipher, Keys, BlockAt, AddKey, Enciphered;
    var b := Copy4(v);
    assert v[..4] == v[..];
    ghost var b0 := blk[..];
    ctx.Encrypt(b);
    ghost var b1 := b[..];
    XorIn(b, blk, at);
    PutBlock(blk, at, b);
    ctx.CipherIs(v[..], b1);
    ctx.CipherIs(b1, BlockAt(b0, at));
  }

  /** Applying the mode twice from the same counter gives back the data. */
  method SdctrTwice(ctx: AesContext, blk: array<Byte>)
    requires ctx.Ready() && ctx.nb == 4 && blk.Length % 16 == 0
    modifies blk, ctx.iv
    ensures blk[..] == old(blk[..])
  {
    hide AesContext.Ready, AesContext.Cipher, Blocks, Ctr.Masked, Cbc.IsCipher, Step;
    ctx.ReadyShape();
    ghost var b0 := blk[..];
    var start := Copy4(ctx.iv);
    ctx.CipherWorks();
    ctx.FourWords(ctx.Cipher(), b0, ctx.iv[..4]);
    FourAreBlocks(ctx);
    Sdctr(ctx, blk);
    Store4(ctx.iv, start);
    Sdctr(ctx, blk);
    Ctr.MaskedTwice(ctx.Cipher(), Step, start[..], Blocks(b0));
    BlocksDetermine(b0, blk[..]);
  }

  lemma FourAreBlocks(ctx: AesContext)
    requires ctx.Ready() && ctx.nb == 4
    ensures forall s: seq<Word> :: |s| == 4 <==> ctx.Cipher().block(s)
  {
    hide Keys, IsInverseSchedule;
  }
}
