/** detect_attack: repeated cipher blocks found through an open-addressing hash index. */
module CrcDetector {
  import opened Arith
  import opened Machine
  import opened ShiftRegister
  import opened CrcPattern
  import Crc32

  /** One 8-byte cipher block, as its two big-endian halves. */
  datatype Block = Block(hi: uint32, lo: uint32)

  const HASH_UNUSED: uint16 := 0xffff
  const HASH_IV: uint16 := 0xfffe
  const SSH_MAXBLOCKS := 32 * 1024
  const HASH_MINBLOCKS := 7
  const HASH_MINENTRIES := 4 * 1024

  function HashFactor(x: nat): nat {
    x * 3 / 2
  }

  /** HASH(x): the first four bytes. */
  function Hash(b: Block): uint32 {
    b.hi
  }

  const ONE: seq<bv8> := [1, 0, 0, 0]
  const ZERO: seq<bv8> := [0, 0, 0, 0]

  function Feed(crc: bv32, same: bool): bv32 {
    Crc32.Updated(Crc32.Updated(crc, if same then ONE else ZERO), ZERO)
  }

  /** The checksum of the pattern that block s makes in the packet. */
  function PatternCrc(crc: bv32, s: Block, buf: seq<Block>): bv32 {
    if buf == [] then crc
    else Feed(PatternCrc(crc, s, buf[..|buf| - 1]), s == buf[|buf| - 1])
  }

  /** The pattern of s, an equal IV counting as one occurrence in front, has checksum 0. */
  predicate Compensates(s: Block, buf: seq<Block>, iv: Option<Block>) {
    PatternCrc(if iv == Some(s) then Feed(0, true) else 0, s, buf) == 0
  }

  method CheckCrc(s: Block, buf: seq<Block>, iv: Option<Block>) returns (r: bool)
    ensures r == Compensates(s, buf, iv)
  {
    hide Crc32.Updated;
    var crc: bv32 := 0;
    if iv.Some? && s == iv.value {
      crc := Crc32.Update(crc, ONE);
      crc := Crc32.Update(crc, ZERO);
    }
    ghost var crc0 := crc;
    var c := 0;
    while c < |buf|
      invariant 0 <= c <= |buf| && crc == PatternCrc(crc0, s, buf[..c])
    {
      assert buf[..c + 1][..c] == buf[..c];
      if s == buf[c] {
        crc := Crc32.Update(crc, ONE);
        crc := Crc32.Update(crc, ZERO);
      } else {
        crc := Crc32.Update(crc, ZERO);
        crc := Crc32.Update(crc, ZERO);
      }
      c := c + 1;
    }
    assert buf[..c] == buf;
    r := crc == 0;
  }

  // The checksum as a function of the pattern.

  /** Where s stands among the blocks that are checked. */
  function Pattern(s: Block, buf: seq<Block>, iv: Option<Block>): seq<bool> {
    (if iv == Some(s) then [true] else []) + seq(|buf|, i requires 0 <= i < |buf| => s == buf[i])
  }

  /** Four bytes of which only the first may be nonzero: 32 steps. */
  lemma FourBytes(crc: bv32, p: seq<bv8>, b: bool)
    requires p == [if b then 1 else 0, 0, 0, 0]
    ensures Crc32.Updated(crc, p) == Steps(Xor(crc, Bit(b)), 32)
  {
    hide Eight, Xor, Steps;
    var s := Xor(crc, Bit(b));
    assert p[..3][..2] == p[..2] && p[..2][..1] == p[..1] && p[..1][..0] == [];
    assert Crc32.Updated(crc, p[..1]) == Eight(s);
    XorZero(Eight(s));
    assert Crc32.Updated(crc, p[..2]) == Eight(Eight(s));
    XorZero(Eight(Eight(s)));
    assert Crc32.Updated(crc, p[..3]) == Eight(Eight(Eight(s)));
    XorZero(Eight(Eight(Eight(s))));
    FourEights(s);
  }

  lemma FourEights(s: bv32)
    ensures Eight(Eight(Eight(Eight(s)))) == Steps(s, 32)
  {
    hide Eight, Steps;
    EightIs(s);
    EightIs(Eight(s));
    EightIs(Eight(Eight(s)));
    EightIs(Eight(Eight(Eight(s))));
    StepsAdd(s, 8, 8);
    StepsAdd(s, 16, 8);
    StepsAdd(s, 24, 8);
  }

  lemma FeedIs(crc: bv32, same: bool)
    ensures Feed(crc, same) == Steps(Xor(crc, Bit(same)), 64)
  {
    hide Xor, Steps, Crc32.Updated;
    var s := Steps(Xor(crc, Bit(same)), 32);
    FourBytes(crc, if same then ONE else ZERO, same);
    FourBytes(s, ZERO, false);
    XorZero(s);
    StepsAdd(Xor(crc, Bit(same)), 32, 32);
  }

  lemma {:induction false} PatternIs(s: Block, buf: seq<Block>, iv: Option<Block>)
    ensures PatternCrc(if iv == Some(s) then Feed(0, true) else 0, s, buf) == Wide(Pattern(s, buf, iv))
  {
    hide Feed, Xor, Steps, Bit;
    var b := Pattern(s, buf, iv);
    if buf == [] {
      if iv == Some(s) {
        assert b == [true] && b[..0] == [];
        FeedIs(0, true);
      }
    } else {
      var rest := buf[..|buf| - 1];
      PatternIs(s, rest, iv);
      assert b[..|b| - 1] == Pattern(s, rest, iv);
      FeedIs(PatternCrc(if iv == Some(s) then Feed(0, true) else 0, s, rest), s == buf[|buf| - 1]);
    }
  }

  /** A pattern compensates exactly when it is, as a polynomial, a multiple of that of the CRC. */
  lemma CompensatesIff(s: Block, buf: seq<Block>, iv: Option<Block>)
    ensures Compensates(s, buf, iv) <==> Narrow(Pattern(s, buf, iv)) == 0
  {
    hide Feed, PatternCrc, Wide, Narrow, Pattern;
    PatternIs(s, buf, iv);
    WideIff(Pattern(s, buf, iv));
  }

  /** No block of the packet compensates in fewer than 33 positions. */
  lemma NeverShort(buf: seq<Block>, iv: Option<Block>, j: nat)
    requires j < |buf| <= 31
    ensures !Compensates(buf[j], buf, iv)
  {
    hide Feed, PatternCrc, Wide;
    var s := buf[j];
    var b := Pattern(s, buf, iv);
    PatternIs(s, buf, iv);
    ShortPattern(b);
    assert b[|b| - |buf| + j];
  }

  /** Block j has been seen before: as the IV or earlier in the packet. */
  ghost predicate Repeated(buf: seq<Block>, iv: Option<Block>, j: nat)
    requires j < |buf|
  {
    iv == Some(buf[j]) || exists k :: 0 <= k < j && buf[k] == buf[j]
  }

  /** What the detector looks for: a repeated block whose pattern compensates. */
  ghost predicate Attack(buf: seq<Block>, iv: Option<Block>) {
    exists j :: 0 <= j < |buf| && Repeated(buf, iv, j) && Compensates(buf[j], buf, iv)
  }

  /** The scan for small packets sees block j unless a harmless match with the IV ended it before. */
  ghost predicate Reached(buf: seq<Block>, iv: Option<Block>, j: nat)
    requires j <= |buf|
  {
    forall k :: 0 <= k < j && iv == Some(buf[k]) ==> Compensates(buf[k], buf, iv)
  }

  ghost predicate SmallAttack(buf: seq<Block>, iv: Option<Block>) {
    exists j :: 0 <= j < |buf| && Repeated(buf, iv, j) && Compensates(buf[j], buf, iv) && Reached(buf, iv, j)
  }

  /** The quadratic scan used for packets of at most seven blocks. */
  method SmallScan(buf: seq<Block>, iv: Option<Block>) returns (found: bool)
    ensures found <==> SmallAttack(buf, iv)
  {
    var c := 0;
    while c < |buf|
      invariant 0 <= c <= |buf| && Reached(buf, iv, c)
      invariant forall j :: 0 <= j < c ==> !(Repeated(buf, iv, j) && Compensates(buf[j], buf, iv))
    {
      if iv.Some? && buf[c] == iv.value {
        var bad := CheckCrc(buf[c], buf, iv);
        if bad {
          return true;
        }
        break;
      }
      var d := 0;
      while d < c
        invariant 0 <= d <= c && forall k :: 0 <= k < d ==> buf[k] != buf[c]
      {
        if buf[c] == buf[d] {
          var bad := CheckCrc(buf[c], buf, iv);
          if bad {
            return true;
          }
          break;
        }
        d := d + 1;
      }
      c := c + 1;
    }
    found := false;
  }

  /** The early end of the scan misses nothing: packets this small hold no attack. */
  lemma SmallMeetsSpec(buf: seq<Block>, iv: Option<Block>)
    requires |buf| <= HASH_MINBLOCKS
    ensures !Attack(buf, iv) && !SmallAttack(buf, iv)
  {
    hide Compensates;
    forall j: nat | j < |buf| ensures !Compensates(buf[j], buf, iv) {
      NeverShort(buf, iv, j);
    }
  }

  // The shortest attacks.

  function Blocks(b: seq<bool>, s: Block, t: Block): seq<Block> {
    seq(|b|, i requires 0 <= i < |b| => if b[i] then s else t)
  }

  lemma BlocksPattern(b: seq<bool>, s: Block, t: Block, iv: Option<Block>)
    requires s != t
    ensures Pattern(s, Blocks(b, s, t), iv) == (if iv == Some(s) then [true] else []) + b
  {
    assert forall i :: 0 <= i < |b| ==> (s == Blocks(b, s, t)[i] <==> b[i]);
  }

  lemma PolyBits()
    ensures Narrow([true]) == POLY && |Bits(POLY, 32)| == 32 && Bits(POLY, 32)[5]
  {
    assert [true][..0] == [];
    OneBit();
    assert Bits(POLY, 32)[5] == Bits(0x76DC_4190, 31)[4] == Bits(0x3B6E_20C8, 30)[3] == Bits(0x1DB7_1064, 29)[2];
    assert Bits(0x1DB7_1064, 29)[2] == Bits(0x0EDB_8832, 28)[1] == Bits(0x076D_C419, 27)[0];
  }

  lemma OneBit()
    ensures Step(Xor(0, Bit(true))) == POLY
  {
  }

  /** The bits of the polynomial behind an equal IV: 32 blocks. */
  lemma ShortestAttack(s: Block, t: Block)
    requires s != t
    ensures |Blocks(Bits(POLY, 32), s, t)| == 32 && Attack(Blocks(Bits(POLY, 32), s, t), Some(s))
  {
    hide Wide, Narrow, Bits, Compensates;
    var b := Bits(POLY, 32);
    var buf := Blocks(b, s, t);
    PolyBits();
    BlocksPattern(b, s, t, Some(s));
    Compensated([true]);
    WideIff([true] + b);
    CompensatesIff(s, buf, Some(s));
    assert buf[5] == s && Repeated(buf, Some(s), 5);
  }

  lemma {:induction false} NoBits(n: nat)
    ensures Narrow(seq(n, _ => false)) == 0
  {
    if n > 0 {
      NoBits(n - 1);
      assert seq(n, _ => false)[..n - 1] == seq(n - 1, _ => false);
      hide Step, Xor, Bit;
      XorZero(0);
      StepZero();
      NoBit();
    }
  }

  lemma NoBit()
    ensures Bit(false) == 0
  {
  }

  /** Without an IV one block more is needed; any number of others may stand in front. */
  lemma LongerAttack(n: nat, s: Block, t: Block) returns (buf: seq<Block>)
    requires s != t && n >= 33
    ensures |buf| == n && Attack(buf, None)
  {
    hide Wide, Narrow, Bits, Compensates;
    var none := seq(n - 33, _ => false);
    var b := none + [true];
    var all := b + Bits(POLY, 32);
    PolyBits();
    NoBits(n - 33);
    FirstBit(none);
    buf := Blocks(all, s, t);
    BlocksPattern(all, s, t, None);
    assert [] + all == all;
    Compensated(b);
    WideIff(all);
    CompensatesIff(s, buf, None);
    assert buf[n - 33] == s && buf[n - 27] == s && Repeated(buf, None, n - 27);
  }

  lemma FirstBit(none: seq<bool>)
    requires Narrow(none) == 0
    ensures Narrow(none + [true]) == POLY
  {
    assert (none + [true])[..|none|] == none;
    hide Step, Xor, Bit;
    OneBit();
  }

  /** There are attacks of n blocks exactly from 32 blocks on. */
  lemma AttackLengths(n: nat)
    ensures (exists buf: seq<Block>, iv: Option<Block> :: |buf| == n && Attack(buf, iv)) <==> n >= 32
  {
    hide Compensates;
    if n >= 32 {
      if n == 32 {
        ShortestAttack(Block(0, 0), Block(0, 1));
      } else {
        var buf := LongerAttack(n, Block(0, 0), Block(0, 1));
      }
    } else {
      forall buf: seq<Block>, iv: Option<Block> | |buf| == n ensures !Attack(buf, iv) {
        forall j: nat | j < |buf| ensures !Compensates(buf[j], buf, iv) {
          NeverShort(buf, iv, j);
        }
      }
    }
  }

  // The hash index.

  /** Slot t places after the home of block b. */
  function Slot(b: Block, t: nat, n: nat): (i: nat)
    requires n > 0
    ensures i < n
  {
    (Hash(b) + t) % n
  }

  /** The block a used entry refers to: the IV, or a block of the packet met before block j. */
  ghost predicate RefersTo(e: uint16, b: Block, buf: seq<Block>, iv: Option<Block>, j: nat)
    requires j <= |buf|
  {
    (e == HASH_IV && iv == Some(b)) || (e < j && buf[e] == b)
  }

  /** b is found by probing: some slot refers to it and every slot from its home to there is used. */
  ghost predicate Findable(h: seq<uint16>, b: Block, t: nat, buf: seq<Block>, iv: Option<Block>, j: nat)
    requires j <= |buf| && |h| > 0
  {
    RefersTo(h[Slot(b, t, |h|)], b, buf, iv, j) && forall s :: 0 <= s < t ==> h[Slot(b, s, |h|)] != HASH_UNUSED
  }

  ghost predicate Known(b: Block, buf: seq<Block>, iv: Option<Block>, j: nat)
    requires j <= |buf|
  {
    iv == Some(b) || exists k :: 0 <= k < j && buf[k] == b
  }

  ghost predicate Indexed(h: seq<uint16>, b: Block, buf: seq<Block>, iv: Option<Block>, j: nat)
    requires j <= |buf| && |h| > 0
  {
    exists t: nat :: Findable(h, b, t, buf, iv, j)
  }

  /** Everything met so far is findable, used entries refer to what was met, and few slots are used. */
  ghost predicate Index(h: seq<uint16>, used: set<nat>, buf: seq<Block>, iv: Option<Block>, j: nat)
  {
    && j <= |buf| <= SSH_MAXBLOCKS && |h| > |buf| + 1
    && (forall i :: 0 <= i < |h| && h[i] != HASH_UNUSED ==> i in used)
    && |used| <= j + 1
    && (forall i :: 0 <= i < |h| && h[i] != HASH_UNUSED ==>
          (h[i] == HASH_IV && iv.Some?) || h[i] < j)
    && (forall b :: Known(b, buf, iv, j) ==> Indexed(h, b, buf, iv, j))
  }

  lemma {:induction false} SomeoneMissing(used: set<nat>, n: nat) returns (i: nat)
    requires |used| < n
    ensures i < n && i !in used
  {
    if n - 1 !in used {
      i := n - 1;
    } else {
      i := SomeoneMissing(used - {n - 1}, n - 1);
    }
  }

  /** The table keeps a free slot, so every probe sequence meets one. */
  lemma FreeSlotAhead(h: seq<uint16>, used: set<nat>, buf: seq<Block>, iv: Option<Block>, j: nat, b: Block) returns (t: nat)
    requires Index(h, used, buf, iv, j)
    ensures t < |h| && h[Slot(b, t, |h|)] == HASH_UNUSED
  {
    var f := SomeoneMissing(used, |h|);
    var n := |h|;
    var home := Hash(b) % n;
    DivMod(Hash(b), n);
    t := if f >= home then f - home else f - home + n;
    SlotAt(Hash(b), home, t, n, f);
  }

  lemma SlotAt(x: nat, home: nat, t: nat, n: nat, f: nat)
    requires n > 0 && home == x % n && f < n && t == (if f >= home then f - home else f - home + n)
    ensures (x + t) % n == f
  {
    DivMod(x, n);
    var q := x / n;
    Distrib(q, 1, n);
    DivModUnique(x + t, n, if f >= home then q else q + 1, f);
  }

  /** Stepping (i + 1) & (n - 1) moves one slot on. */
  lemma NextSlot(b: Block, t: nat, n: nat)
    requires n > 0
    ensures (Slot(b, t, n) + 1) % n == Slot(b, t + 1, n)
  {
    var x := Hash(b) + t;
    DivMod(x, n);
    DivMod(x % n + 1, n);
    var q, r := (x % n + 1) / n, (x % n + 1) % n;
    Distrib(x / n, q, n);
    DivModUnique(x + 1, n, x / n + q, r);
  }

  /** After memset and the entry for the IV. */
  lemma IndexStart(h: seq<uint16>, buf: seq<Block>, iv: Option<Block>) returns (used: set<nat>)
    requires |buf| <= SSH_MAXBLOCKS && |h| > |buf| + 1
    requires forall i :: 0 <= i < |h| && !(iv.Some? && i == Slot(iv.value, 0, |h|)) ==> h[i] == HASH_UNUSED
    requires iv.Some? ==> h[Slot(iv.value, 0, |h|)] == HASH_IV
    ensures Index(h, used, buf, iv, 0)
  {
    if iv.Some? {
      used := {Slot(iv.value, 0, |h|)};
      assert Findable(h, iv.value, 0, buf, iv, 0);
    } else {
      used := {};
    }
  }

  /** Where probing stopped: at an entry for the block itself, or at a free slot past everything the block could hide behind. */
  ghost predicate Stopped(h: seq<uint16>, c: Block, t: nat, buf: seq<Block>, iv: Option<Block>, j: nat, matched: bool)
    requires j <= |buf| && |h| > 0
  {
    && (forall s :: 0 <= s < t ==> h[Slot(c, s, |h|)] != HASH_UNUSED && !RefersTo(h[Slot(c, s, |h|)], c, buf, iv, j))
    && if matched then RefersTo(h[Slot(c, t, |h|)], c, buf, iv, j) else h[Slot(c, t, |h|)] == HASH_UNUSED
  }

  /** Probing finds a block exactly when it has been met. */
  lemma ProbeComplete(h: seq<uint16>, used: set<nat>, c: Block, t: nat, buf: seq<Block>, iv: Option<Block>, j: nat,
                      matched: bool)
    requires Index(h, used, buf, iv, j) && Stopped(h, c, t, buf, iv, j, matched)
    ensures matched <==> Known(c, buf, iv, j)
  {
    if Known(c, buf, iv, j) {
      assert Indexed(h, c, buf, iv, j);
      var tc: nat :| Findable(h, c, tc, buf, iv, j);
      assert t <= tc;
    }
  }

  /** Writing j where probing stopped keeps the index: an overwritten entry referred to the same content. */
  lemma IndexStep(h: seq<uint16>, used: set<nat>, t: nat, buf: seq<Block>, iv: Option<Block>, j: nat, matched: bool)
    requires Index(h, used, buf, iv, j) && j < |buf| && Stopped(h, buf[j], t, buf, iv, j, matched)
    ensures Index(h[Slot(buf[j], t, |h|) := j], used + {Slot(buf[j], t, |h|)}, buf, iv, j + 1)
  {
    var n := |h|;
    var c := buf[j];
    var p := Slot(c, t, n);
    var h' := h[p := j];
    if matched {
      assert p in used;
      assert used + {p} == used;
    }
    var j1 := j + 1;
    forall b | Known(b, buf, iv, j1) ensures Indexed(h', b, buf, iv, j1) {
      if b == c {
        assert Findable(h', c, t, buf, iv, j1);
      } else {
        assert Known(b, buf, iv, j) && Indexed(h, b, buf, iv, j);
        var tb: nat :| Findable(h, b, tb, buf, iv, j);
        assert Slot(b, tb, n) != p;
        assert Findable(h', b, tb, buf, iv, j1);
      }
    }
  }

  /** No block before j is a repeated one that compensates. */
  ghost predicate CleanSoFar(buf: seq<Block>, iv: Option<Block>, j: nat)
    requires j <= |buf|
  {
    forall k :: 0 <= k < j ==> !(Repeated(buf, iv, k) && Compensates(buf[k], buf, iv))
  }

  predicate PowerOfTwo(n: nat) {
    n == 1 || (n > 1 && n % 2 == 0 && PowerOfTwo(n / 2))
  }

  lemma Doubled()
    ensures PowerOfTwo(HASH_MINENTRIES)
  {
    assert PowerOfTwo(16);
    assert PowerOfTwo(256);
    assert PowerOfTwo(1024);
  }

  lemma TwiceDoubled(l: nat)
    requires PowerOfTwo(l)
    ensures PowerOfTwo(4 * l)
  {
    assert PowerOfTwo(2 * l);
    assert 4 * l / 2 == 2 * l;
  }

  /** struct crcda_ctx; n is a power of two, so that & (n - 1) below is % n. */
  class CrcdaCtx {
    var h: array?<uint16>
    var n: nat

    ghost predicate Valid()
      reads this
    {
      n >= HASH_MINENTRIES && PowerOfTwo(n) && (h != null ==> h.Length == n)
    }

    constructor ()
      ensures Valid() && h == null
    {
      h := null;
      n := HASH_MINENTRIES;
      new;
      Doubled();
    }

    /** Grows the table until it has three entries for every two blocks. */
    method Reserve(blocks: nat)
      requires Valid() && blocks <= SSH_MAXBLOCKS
      modifies this
      ensures Valid() && h != null && n >= HashFactor(blocks) && n >= old(n)
      ensures fresh(h) || h == old(h)
    {
      var l := n;
      while l < HashFactor(blocks)
        invariant l >= n && PowerOfTwo(l) && n == old(n) && h == old(h)
        decreases HashFactor(blocks) - l
      {
        TwiceDoubled(l);
        l := 4 * l;
      }
      if h == null {
        n := l;
        h := new uint16[l](_ => 0);
      } else if l > n {
        n := l;
        h := new uint16[l](_ => 0);
      }
    }

    /** The probe loop for block j; an attack found on the way ends it. */
    method Probe(buf: seq<Block>, iv: Option<Block>, j: nat, ghost used: set<nat>)
      returns (i: nat, found: bool, ghost t: nat, ghost matched: bool)
      requires Valid() && h != null && j < |buf| && Index(h[..], used, buf, iv, j)
      ensures i == Slot(buf[j], t, n) && Stopped(h[..], buf[j], t, buf, iv, j, matched)
      ensures found <==> matched && Compensates(buf[j], buf, iv)
    {
      var c := buf[j];
      ghost var free := FreeSlotAhead(h[..], used, buf, iv, j, c);
      i := Hash(c) % n;
      t, matched, found := 0, false, false;
      while h[i] != HASH_UNUSED
        invariant i == Slot(c, t, n) && t <= free
        invariant forall s :: 0 <= s < t ==> h[Slot(c, s, n)] != HASH_UNUSED && !RefersTo(h[Slot(c, s, n)], c, buf, iv, j)
        decreases free - t
      {
        assert h[..][i] == h[i];
        if h[i] == HASH_IV {
          if c == iv.value {
            found := CheckCrc(c, buf, iv);
            matched := true;
            break;
          }
        } else if c == buf[h[i]] {
          found := CheckCrc(c, buf, iv);
          matched := true;
          break;
        }
        NextSlot(c, t, n);
        i := (i + 1) % n;
        t := t + 1;
      }
    }

    /** Reports whether a repeated block compensates, for packets of any admissible size. */
    method DetectAttack(buf: seq<Block>, iv: Option<Block>) returns (found: bool)
      requires Valid() && |buf| <= SSH_MAXBLOCKS
      modifies this, h
      ensures Valid() && h != null
      ensures found <==> Attack(buf, iv)
    {
      Reserve(|buf|);
      if |buf| <= HASH_MINBLOCKS {
        found := SmallScan(buf, iv);
        SmallMeetsSpec(buf, iv);
        return;
      }
      found := ScanLarge(buf, iv);
    }

    /** The indexed scan. */
    method ScanLarge(buf: seq<Block>, iv: Option<Block>) returns (found: bool)
      requires Valid() && h != null && HASH_MINBLOCKS < |buf| <= SSH_MAXBLOCKS && n >= HashFactor(|buf|)
      modifies h
      ensures Valid() && (found <==> Attack(buf, iv))
    {
      hide Compensates, PowerOfTwo, Stopped, Findable, RefersTo;
      ClearTable();
      if iv.Some? {
        h[Hash(iv.value) % n] := HASH_IV;
      }
      ghost var used := IndexStart(h[..], buf, iv);
      var j := 0;
      while j < |buf|
        invariant 0 <= j <= |buf| && Index(h[..], used, buf, iv, j) && CleanSoFar(buf, iv, j)
      {
        ghost var t, matched;
        var i, bad;
        i, bad, t, matched := Probe(buf, iv, j, used);
        ProbeComplete(h[..], used, buf[j], t, buf, iv, j, matched);
        if bad {
          return true;
        }
        IndexStep(h[..], used, t, buf, iv, j, matched);
        ghost var s := h[..];
        h[i] := j;
        assert h[..] == s[i := j as uint16];
        used := used + {i};
        j := j + 1;
      }
      found := false;
    }

    /** memset(ctx->h, HASH_UNUSEDCHAR, ...). */
    method ClearTable()
      requires Valid() && h != null
      modifies h
      ensures forall i :: 0 <= i < n ==> h[i] == HASH_UNUSED
    {
      var i := 0;
      while i < n
        invariant 0 <= i <= n && forall k :: 0 <= k < i ==> h[k] == HASH_UNUSED
      {
        h[i] := HASH_UNUSED;
        i := i + 1;
      }
    }
  }
}
