/** The example vector of appendix C.1 of FIPS 197, through aes_setup and the core routines. */
module AesVectors {
  import opened Gf256
  import opened Aes
  import opened AesCore
  import opened AesTables
  import opened AesModes
  import FieldLaw

  // The steps of the cipher on machine bytes.

  datatype Col = Col(b0: bv8, b1: bv8, b2: bv8, b3: bv8)

  datatype State = State(c0: Col, c1: Col, c2: Col, c3: Col)

  function W(c: Col): Word {
    Word(At(c.b0), At(c.b1), At(c.b2), At(c.b3))
  }

  function St(s: State): seq<Word> {
    [W(s.c0), W(s.c1), W(s.c2), W(s.c3)]
  }

  /** c is the sum of a and b. */
  predicate Added(a: Col, b: Col, c: Col) {
    c.b0 == Sum(a.b0, b.b0) && c.b1 == Sum(a.b1, b.b1) && c.b2 == Sum(a.b2, b.b2) && c.b3 == Sum(a.b3, b.b3)
  }

  predicate Added4(a: State, b: State, c: State) {
    Added(a.c0, b.c0, c.c0) && Added(a.c1, b.c1, c.c1) && Added(a.c2, b.c2, c.c2) && Added(a.c3, b.c3, c.c3)
  }

  lemma AddedIs(a: Col, b: Col, c: Col)
    requires Added(a, b, c)
    ensures Xor(W(a), W(b)) == W(c)
  {
    hide At, Add, Sum;
    SumIs(a.b0, b.b0);
    SumIs(a.b1, b.b1);
    SumIs(a.b2, b.b2);
    SumIs(a.b3, b.b3);
  }

  lemma Added4Is(a: State, b: State, c: State)
    requires Added4(a, b, c)
    ensures AddKey(St(a), St(b)) == St(c)
  {
    hide W, Xor, Added;
    AddedIs(a.c0, b.c0, c.c0);
    AddedIs(a.c1, b.c1, c.c1);
    AddedIs(a.c2, b.c2, c.c2);
    AddedIs(a.c3, b.c3, c.c3);
  }

  /** b is a, byte by byte through the S-box, when its four bytes come from these columns. */
  predicate Boxed(w: Col, x: Col, y: Col, z: Col, b: Col) {
    b.b0 == Sbox(w.b0) && b.b1 == Sbox(x.b1) && b.b2 == Sbox(y.b2) && b.b3 == Sbox(z.b3)
  }

  lemma BoxedIs(t: Boxes, w: Col, x: Col, y: Col, z: Col, b: Col)
    requires Standard(t) && Boxed(w, x, y, z, b)
    ensures W(b) == Word(t.sbox(W(w).b0), t.sbox(W(x).b1), t.sbox(W(y).b2), t.sbox(W(z).b3))
  {
    hide At, Sbox, Standard;
    SboxIs(t, w.b0);
    SboxIs(t, x.b1);
    SboxIs(t, y.b2);
    SboxIs(t, z.b3);
  }

  /** The S-box of the tables. */
  ghost predicate Standard(t: Boxes) {
    forall v: bv8 :: t.sbox(At(v)) == At(Sbox(v))
  }

  lemma SboxIs(t: Boxes, v: bv8)
    requires Standard(t)
    ensures t.sbox(At(v)) == At(Sbox(v))
  {
    hide At, Sbox;
  }

  lemma AesStandard()
    ensures Standard(AES)
  {
    hide At, Index, Sbox;
    forall v: bv8 ensures AES.sbox(At(v)) == At(Sbox(v)) {
      IndexAt(v);
    }
  }

  /** SubBytes and ShiftRows. */
  predicate Boxed4(s: State, b: State) {
    && Boxed(s.c0, s.c1, s.c2, s.c3, b.c0) && Boxed(s.c1, s.c2, s.c3, s.c0, b.c1)
    && Boxed(s.c2, s.c3, s.c0, s.c1, b.c2) && Boxed(s.c3, s.c0, s.c1, s.c2, b.c3)
  }

  /** Rows 1, 2 and 3 of a block of four words turn by 1, 2 and 3. */
  lemma TurnsOfFour(t: Boxes, s: seq<Word>, i: nat)
    requires |s| == 4 && i < 4
    ensures SubShift(t, s)[i] == Word(t.sbox(s[i].b0), t.sbox(s[(i + 1) % 4].b1),
                                      t.sbox(s[(i + 2) % 4].b2), t.sbox(s[(i + 3) % 4].b3))
  {
  }

  lemma Boxed4Is(t: Boxes, s: State, b: State)
    requires Standard(t) && Boxed4(s, b)
    ensures SubShift(t, St(s)) == St(b)
  {
    hide Standard, W, Boxed, SubShift;
    TurnsOfFour(t, St(s), 0);
    TurnsOfFour(t, St(s), 1);
    TurnsOfFour(t, St(s), 2);
    TurnsOfFour(t, St(s), 3);
    BoxedIs(t, s.c0, s.c1, s.c2, s.c3, b.c0);
    BoxedIs(t, s.c1, s.c2, s.c3, s.c0, b.c1);
    BoxedIs(t, s.c2, s.c3, s.c0, s.c1, b.c2);
    BoxedIs(t, s.c3, s.c0, s.c1, s.c2, b.c3);
  }

  function Sum4Of(a: bv8, b: bv8, c: bv8, d: bv8): bv8 {
    Sum(Sum(Sum(a, b), c), d)
  }

  lemma Sum4Is(a: bv8, b: bv8, c: bv8, d: bv8)
    ensures At(Sum4Of(a, b, c, d)) == Sum4(At(a), At(b), At(c), At(d))
  {
    hide At, Add, Sum;
    SumIs(a, b);
    SumIs(Sum(a, b), c);
    SumIs(Sum(Sum(a, b), c), d);
  }

  /** MixColumns on one column. */
  function Mixed(a: bv8, b: bv8, c: bv8, d: bv8): Col {
    Col(Sum4Of(Twice(a), Times3(b), c, d), Sum4Of(a, Twice(b), Times3(c), d),
        Sum4Of(a, b, Twice(c), Times3(d)), Sum4Of(Times3(a), b, c, Twice(d)))
  }

  function MixedCol(c: Col): Col {
    Mixed(c.b0, c.b1, c.b2, c.b3)
  }

  lemma MixedIs(c: Col)
    ensures W(MixedCol(c)) == MixColumn(W(c))
  {
    hide At, Add, Sum, Sum4, Sum4Of, Twice, Times3, Mul2, Mul3, MixColumn;
    TwiceIs(c.b0);
    TwiceIs(c.b1);
    TwiceIs(c.b2);
    TwiceIs(c.b3);
    TimesAre(c.b0);
    TimesAre(c.b1);
    TimesAre(c.b2);
    TimesAre(c.b3);
    FieldLaw.MixBytes(W(c));
    Sum4Is(Twice(c.b0), Times3(c.b1), c.b2, c.b3);
    Sum4Is(c.b0, Twice(c.b1), Times3(c.b2), c.b3);
    Sum4Is(c.b0, c.b1, Twice(c.b2), Times3(c.b3));
    Sum4Is(Times3(c.b0), c.b1, c.b2, Twice(c.b3));
  }

  predicate Mixed4(s: State, m: State) {
    m.c0 == MixedCol(s.c0) && m.c1 == MixedCol(s.c1) && m.c2 == MixedCol(s.c2) && m.c3 == MixedCol(s.c3)
  }

  lemma Mixed4Is(s: State, m: State)
    requires Mixed4(s, m)
    ensures Mix(St(s)) == St(m)
  {
    hide W, MixColumn, MixedCol;
    MixedIs(s.c0);
    MixedIs(s.c1);
    MixedIs(s.c2);
    MixedIs(s.c3);
  }

  /** One round that mixes, from one state to the next. */
  lemma RoundTo(t: Boxes, k: seq<seq<Word>>, p: seq<Word>, r: nat, s: State, key: State, x: State, b: State, m: State)
    requires Standard(t) && IsSchedule(k, 4) && |p| == 4 && r + 1 < |k| && Rounds(t, k, p, r) == St(s) && k[r] == St(key)
    requires Added4(s, key, x) && Boxed4(x, b) && Mixed4(b, m)
    ensures Rounds(t, k, p, r + 1) == St(m)
  {
    hide Standard, AddKey, SubShift, Mix, Added4, Boxed4, Mixed4, St;
    Added4Is(s, key, x);
    Boxed4Is(t, x, b);
    Mixed4Is(b, m);
  }

  /** The last round. */
  lemma LastTo(t: Boxes, k: seq<seq<Word>>, p: seq<Word>, s: State, key: State, x: State, b: State, last: State, out: State)
    requires Standard(t) && IsSchedule(k, 4) && |p| == 4 && Rounds(t, k, p, |k| - 2) == St(s)
    requires k[|k| - 2] == St(key) && k[|k| - 1] == St(last)
    requires Added4(s, key, x) && Boxed4(x, b) && Added4(b, last, out)
    ensures Enciphered(t, k, p) == St(out)
  {
    hide Standard, AddKey, SubShift, Mix, Added4, Boxed4, St, Rounds;
    Added4Is(s, key, x);
    Boxed4Is(t, x, b);
    Added4Is(b, last, out);
  }

  // Key expansion.

  function RconOf(j: nat): bv8
    requires j >= 1
  {
    if j == 1 then 1 else Twice(RconOf(j - 1))
  }

  lemma {:induction false} RconOfIs(j: nat)
    requires j >= 1
    ensures At(RconOf(j)) == Rcon(j)
  {
    if j > 1 {
      hide At, Twice, Mul2;
      RconOfIs(j - 1);
      TwiceIs(RconOf(j - 1));
    }
  }

  /** Word i of a schedule, from word i - nk and, changed to temp, word i - 1; x is the byte before the round constant is added. */
  predicate Follows(back: Col, prev: Col, i: nat, nk: nat, temp: Col, x: bv8, next: Col)
    requires nk >= 1 && i >= nk
  {
    Quotient(i, nk);
    && (if i % nk == 0 then
          x == Sbox(prev.b1) && temp.b0 == Sum(x, RconOf(i / nk)) && temp.b1 == Sbox(prev.b2)
          && temp.b2 == Sbox(prev.b3) && temp.b3 == Sbox(prev.b0)
        else if nk > 6 && i % nk == 4 then
          temp.b0 == Sbox(prev.b0) && temp.b1 == Sbox(prev.b1) && temp.b2 == Sbox(prev.b2) && temp.b3 == Sbox(prev.b3)
        else temp == prev)
    && Added(back, temp, next)
  }

  lemma NextWord(t: Boxes, key: seq<Word>, w: seq<Word>, i: nat, back: Col, prev: Col, temp: Col, x: bv8, next: Col)
    requires Standard(t) && IsExpansion(t, key, w) && |key| <= i < |w|
    requires w[i - |key|] == W(back) && w[i - 1] == W(prev) && Follows(back, prev, i, |key|, temp, x, next)
    ensures w[i] == W(next)
  {
    hide Standard, Xor, Added, Rcon, RconOf, Sbox, At;
    var nk := |key|;
    Quotient(i, nk);
    AddedIs(back, temp, next);
    assert w[i] == ExpandedWord(t, key, w, i);
    if i % nk == 0 {
      SboxIs(t, prev.b0);
      SboxIs(t, prev.b1);
      SboxIs(t, prev.b2);
      SboxIs(t, prev.b3);
      RconOfIs(i / nk);
      FirstTemp(t, W(prev), x, temp, i / nk, prev);
    } else if nk > 6 && i % nk == 4 {
      SboxIs(t, prev.b0);
      SboxIs(t, prev.b1);
      SboxIs(t, prev.b2);
      SboxIs(t, prev.b3);
    }
  }

  lemma FirstTemp(t: Boxes, p: Word, x: bv8, temp: Col, j: nat, prev: Col)
    requires Standard(t) && j >= 1 && p == W(prev) && x == Sbox(prev.b1) && temp.b0 == Sum(x, RconOf(j))
    requires temp.b1 == Sbox(prev.b2) && temp.b2 == Sbox(prev.b3) && temp.b3 == Sbox(prev.b0)
    ensures Xor(SubWord(t, RotWord(p)), Word(Rcon(j), NIL, NIL, NIL)) == W(temp)
  {
    hide Standard, Rcon, RconOf, Sbox, At, Add, Sum;
    SboxIs(t, prev.b0);
    SboxIs(t, prev.b1);
    SboxIs(t, prev.b2);
    SboxIs(t, prev.b3);
    RconOfIs(j);
    SumIs(x, RconOf(j));
    AddNil(At(Sbox(prev.b2)));
    AddNil(At(Sbox(prev.b3)));
    AddNil(At(Sbox(prev.b0)));
  }

  /** The first words of a schedule are the key. */
  lemma FirstWords(t: Boxes, key: seq<Word>, w: seq<Word>)
    requires |w| >= |key| && IsExpansion(t, key, w)
    ensures w[0..|key|] == key
  {
    hide Temp, Xor;
    forall i | 0 <= i < |key| ensures w[i] == key[i] {
      assert w[i] == ExpandedWord(t, key, w, i);
    }
  }

  // The words of a schedule for 32 bytes of key up to the one that is substituted without being rotated.

  lemma LongFacts()
    ensures Sbox(0x1C) == 0x9C && Sbox(0x1D) == 0xA4 && Sbox(0x1E) == 0x72 && Sbox(0x1F) == 0xC0
    ensures RconOf(1) == 0x01 && Sum(0xA4, 0x01) == 0xA5 && Sum(0x00, 0xA5) == 0xA5 && Sum(0x01, 0x72) == 0x73
    ensures Sum(0x02, 0xC0) == 0xC2 && Sum(0x03, 0x9C) == 0x9F && Sum(0x04, 0xA5) == 0xA1 && Sum(0x05, 0x73) == 0x76
    ensures Sum(0x06, 0xC2) == 0xC4 && Sum(0x07, 0x9F) == 0x98 && Sum(0x08, 0xA1) == 0xA9 && Sum(0x09, 0x76) == 0x7F
    ensures Sum(0x0A, 0xC4) == 0xCE && Sum(0x0B, 0x98) == 0x93 && Sum(0x0C, 0xA9) == 0xA5 && Sum(0x0D, 0x7F) == 0x72
    ensures Sum(0x0E, 0xCE) == 0xC0 && Sum(0x0F, 0x93) == 0x9C && Sbox(0xA5) == 0x06 && Sbox(0x72) == 0x40
    ensures Sbox(0xC0) == 0xBA && Sbox(0x9C) == 0xDE && Sum(0x10, 0x06) == 0x16 && Sum(0x11, 0x40) == 0x51
    ensures Sum(0x12, 0xBA) == 0xA8 && Sum(0x13, 0xDE) == 0xCD
  {
  }

  /** The key 00 01 02 ... 1f of appendix C.3. */
  lemma LongKey(t: Boxes, key: seq<Word>, w: seq<Word>)
    requires Standard(t) && |key| == 8 && |w| == 60 && IsExpansion(t, key, w)
    requires key[..4] == St(State(Col(0x00, 0x01, 0x02, 0x03), Col(0x04, 0x05, 0x06, 0x07), Col(0x08, 0x09, 0x0A, 0x0B), Col(0x0C, 0x0D, 0x0E, 0x0F)))
    requires key[4..] == St(State(Col(0x10, 0x11, 0x12, 0x13), Col(0x14, 0x15, 0x16, 0x17), Col(0x18, 0x19, 0x1A, 0x1B), Col(0x1C, 0x1D, 0x1E, 0x1F)))
    ensures w[8..12] == St(State(Col(0xA5, 0x73, 0xC2, 0x9F), Col(0xA1, 0x76, 0xC4, 0x98), Col(0xA9, 0x7F, 0xCE, 0x93), Col(0xA5, 0x72, 0xC0, 0x9C))) && w[12] == W(Col(0x16, 0x51, 0xA8, 0xCD))
  {
    hide Standard, IsExpansion, W, Sbox, Sum, RconOf;
    FirstWords(t, key, w);
    var k0, k1 := key[..4], key[4..];
    assert key[0] == k0[0] && key[1] == k0[1] && key[2] == k0[2] && key[3] == k0[3];
    assert key[4] == k1[0] && key[5] == k1[1] && key[6] == k1[2] && key[7] == k1[3];
    assert w[0] == key[0] && w[1] == key[1] && w[2] == key[2] && w[3] == key[3] by { assert w[0..8][0] == w[0]; }
    assert w[4] == key[4] && w[7] == key[7] by { assert w[0..8][4] == w[4]; }
    LongFacts();
    NextWord(t, key, w, 8, Col(0x00, 0x01, 0x02, 0x03), Col(0x1C, 0x1D, 0x1E, 0x1F), Col(0xA5, 0x72, 0xC0, 0x9C), 0xA4, Col(0xA5, 0x73, 0xC2, 0x9F));
    NextWord(t, key, w, 9, Col(0x04, 0x05, 0x06, 0x07), Col(0xA5, 0x73, 0xC2, 0x9F), Col(0xA5, 0x73, 0xC2, 0x9F), 0x00, Col(0xA1, 0x76, 0xC4, 0x98));
    NextWord(t, key, w, 10, Col(0x08, 0x09, 0x0A, 0x0B), Col(0xA1, 0x76, 0xC4, 0x98), Col(0xA1, 0x76, 0xC4, 0x98), 0x00, Col(0xA9, 0x7F, 0xCE, 0x93));
    NextWord(t, key, w, 11, Col(0x0C, 0x0D, 0x0E, 0x0F), Col(0xA9, 0x7F, 0xCE, 0x93), Col(0xA9, 0x7F, 0xCE, 0x93), 0x00, Col(0xA5, 0x72, 0xC0, 0x9C));
    NextWord(t, key, w, 12, Col(0x10, 0x11, 0x12, 0x13), Col(0xA5, 0x72, 0xC0, 0x9C), Col(0x06, 0x40, 0xBA, 0xDE), 0x00, Col(0x16, 0x51, 0xA8, 0xCD));
  }

  // The key schedule of the vector, sum by sum.

  lemma Key1Facts()
    ensures Sbox(0x0C) == 0xFE && Sbox(0x0D) == 0xD7 && Sbox(0x0E) == 0xAB && Sbox(0x0F) == 0x76
    ensures RconOf(1) == 0x01 && Sum(0xD7, 0x01) == 0xD6 && Sum(0x00, 0xD6) == 0xD6 && Sum(0x01, 0xAB) == 0xAA
    ensures Sum(0x02, 0x76) == 0x74 && Sum(0x03, 0xFE) == 0xFD && Sum(0x04, 0xD6) == 0xD2 && Sum(0x05, 0xAA) == 0xAF
    ensures Sum(0x06, 0x74) == 0x72 && Sum(0x07, 0xFD) == 0xFA && Sum(0x08, 0xD2) == 0xDA && Sum(0x09, 0xAF) == 0xA6
    ensures Sum(0x0A, 0x72) == 0x78 && Sum(0x0B, 0xFA) == 0xF1 && Sum(0x0C, 0xDA) == 0xD6 && Sum(0x0D, 0xA6) == 0xAB
    ensures Sum(0x0E, 0x78) == 0x76 && Sum(0x0F, 0xF1) == 0xFE
  {
  }

  lemma Key2Facts()
    ensures Sbox(0xD6) == 0xF6 && Sbox(0xAB) == 0x62 && Sbox(0x76) == 0x38 && Sbox(0xFE) == 0xBB
    ensures RconOf(2) == 0x02 && Sum(0x62, 0x02) == 0x60 && Sum(0xD6, 0x60) == 0xB6 && Sum(0xAA, 0x38) == 0x92
    ensures Sum(0x74, 0xBB) == 0xCF && Sum(0xFD, 0xF6) == 0x0B && Sum(0xD2, 0xB6) == 0x64 && Sum(0xAF, 0x92) == 0x3D
    ensures Sum(0x72, 0xCF) == 0xBD && Sum(0xFA, 0x0B) == 0xF1 && Sum(0xDA, 0x64) == 0xBE && Sum(0xA6, 0x3D) == 0x9B
    ensures Sum(0x78, 0xBD) == 0xC5 && Sum(0xF1, 0xF1) == 0x00 && Sum(0xD6, 0xBE) == 0x68 && Sum(0xAB, 0x9B) == 0x30
    ensures Sum(0x76, 0xC5) == 0xB3 && Sum(0xFE, 0x00) == 0xFE
  {
  }

  lemma Key3Facts()
    ensures Sbox(0x68) == 0x45 && Sbox(0x30) == 0x04 && Sbox(0xB3) == 0x6D && Sbox(0xFE) == 0xBB
    ensures RconOf(3) == 0x04 && Sum(0x04, 0x04) == 0x00 && Sum(0xB6, 0x00) == 0xB6 && Sum(0x92, 0x6D) == 0xFF
    ensures Sum(0xCF, 0xBB) == 0x74 && Sum(0x0B, 0x45) == 0x4E && Sum(0x64, 0xB6) == 0xD2 && Sum(0x3D, 0xFF) == 0xC2
    ensures Sum(0xBD, 0x74) == 0xC9 && Sum(0xF1, 0x4E) == 0xBF && Sum(0xBE, 0xD2) == 0x6C && Sum(0x9B, 0xC2) == 0x59
    ensures Sum(0xC5, 0xC9) == 0x0C && Sum(0x00, 0xBF) == 0xBF && Sum(0x68, 0x6C) == 0x04 && Sum(0x30, 0x59) == 0x69
    ensures Sum(0xB3, 0x0C) == 0xBF && Sum(0xFE, 0xBF) == 0x41
  {
  }

  lemma Key4Facts()
    ensures Sbox(0x04) == 0xF2 && Sbox(0x69) == 0xF9 && Sbox(0xBF) == 0x08 && Sbox(0x41) == 0x83
    ensures RconOf(4) == 0x08 && Sum(0xF9, 0x08) == 0xF1 && Sum(0xB6, 0xF1) == 0x47 && Sum(0xFF, 0x08) == 0xF7
    ensures Sum(0x74, 0x83) == 0xF7 && Sum(0x4E, 0xF2) == 0xBC && Sum(0xD2, 0x47) == 0x95 && Sum(0xC2, 0xF7) == 0x35
    ensures Sum(0xC9, 0xF7) == 0x3E && Sum(0xBF, 0xBC) == 0x03 && Sum(0x6C, 0x95) == 0xF9 && Sum(0x59, 0x35) == 0x6C
    ensures Sum(0x0C, 0x3E) == 0x32 && Sum(0xBF, 0x03) == 0xBC && Sum(0x04, 0xF9) == 0xFD && Sum(0x69, 0x6C) == 0x05
    ensures Sum(0xBF, 0x32) == 0x8D && Sum(0x41, 0xBC) == 0xFD
  {
  }

  lemma Key5Facts()
    ensures Sbox(0xFD) == 0x54 && Sbox(0x05) == 0x6B && Sbox(0x8D) == 0x5D && RconOf(5) == 0x10
    ensures Sum(0x6B, 0x10) == 0x7B && Sum(0x47, 0x7B) == 0x3C && Sum(0xF7, 0x5D) == 0xAA && Sum(0xF7, 0x54) == 0xA3
    ensures Sum(0xBC, 0x54) == 0xE8 && Sum(0x95, 0x3C) == 0xA9 && Sum(0x35, 0xAA) == 0x9F && Sum(0x3E, 0xA3) == 0x9D
    ensures Sum(0x03, 0xE8) == 0xEB && Sum(0xF9, 0xA9) == 0x50 && Sum(0x6C, 0x9F) == 0xF3 && Sum(0x32, 0x9D) == 0xAF
    ensures Sum(0xBC, 0xEB) == 0x57 && Sum(0xFD, 0x50) == 0xAD && Sum(0x05, 0xF3) == 0xF6 && Sum(0x8D, 0xAF) == 0x22
    ensures Sum(0xFD, 0x57) == 0xAA
  {
  }

  lemma Key6Facts()
    ensures Sbox(0xAD) == 0x95 && Sbox(0xF6) == 0x42 && Sbox(0x22) == 0x93 && Sbox(0xAA) == 0xAC
    ensures RconOf(6) == 0x20 && Sum(0x42, 0x20) == 0x62 && Sum(0x3C, 0x62) == 0x5E && Sum(0xAA, 0x93) == 0x39
    ensures Sum(0xA3, 0xAC) == 0x0F && Sum(0xE8, 0x95) == 0x7D && Sum(0xA9, 0x5E) == 0xF7 && Sum(0x9F, 0x39) == 0xA6
    ensures Sum(0x9D, 0x0F) == 0x92 && Sum(0xEB, 0x7D) == 0x96 && Sum(0x50, 0xF7) == 0xA7 && Sum(0xF3, 0xA6) == 0x55
    ensures Sum(0xAF, 0x92) == 0x3D && Sum(0x57, 0x96) == 0xC1 && Sum(0xAD, 0xA7) == 0x0A && Sum(0xF6, 0x55) == 0xA3
    ensures Sum(0x22, 0x3D) == 0x1F && Sum(0xAA, 0xC1) == 0x6B
  {
  }

  lemma Key7Facts()
    ensures Sbox(0x0A) == 0x67 && Sbox(0xA3) == 0x0A && Sbox(0x1F) == 0xC0 && Sbox(0x6B) == 0x7F
    ensures RconOf(7) == 0x40 && Sum(0x0A, 0x40) == 0x4A && Sum(0x5E, 0x4A) == 0x14 && Sum(0x39, 0xC0) == 0xF9
    ensures Sum(0x0F, 0x7F) == 0x70 && Sum(0x7D, 0x67) == 0x1A && Sum(0xF7, 0x14) == 0xE3 && Sum(0xA6, 0xF9) == 0x5F
    ensures Sum(0x92, 0x70) == 0xE2 && Sum(0x96, 0x1A) == 0x8C && Sum(0xA7, 0xE3) == 0x44 && Sum(0x55, 0x5F) == 0x0A
    ensures Sum(0x3D, 0xE2) == 0xDF && Sum(0xC1, 0x8C) == 0x4D && Sum(0x0A, 0x44) == 0x4E && Sum(0xA3, 0x0A) == 0xA9
    ensures Sum(0x1F, 0xDF) == 0xC0 && Sum(0x6B, 0x4D) == 0x26
  {
  }

  lemma Key8Facts()
    ensures Sbox(0x4E) == 0x2F && Sbox(0xA9) == 0xD3 && Sbox(0xC0) == 0xBA && Sbox(0x26) == 0xF7
    ensures RconOf(8) == 0x80 && Sum(0xD3, 0x80) == 0x53 && Sum(0x14, 0x53) == 0x47 && Sum(0xF9, 0xBA) == 0x43
    ensures Sum(0x70, 0xF7) == 0x87 && Sum(0x1A, 0x2F) == 0x35 && Sum(0xE3, 0x47) == 0xA4 && Sum(0x5F, 0x43) == 0x1C
    ensures Sum(0xE2, 0x87) == 0x65 && Sum(0x8C, 0x35) == 0xB9 && Sum(0x44, 0xA4) == 0xE0 && Sum(0x0A, 0x1C) == 0x16
    ensures Sum(0xDF, 0x65) == 0xBA && Sum(0x4D, 0xB9) == 0xF4 && Sum(0x4E, 0xE0) == 0xAE && Sum(0xA9, 0x16) == 0xBF
    ensures Sum(0xC0, 0xBA) == 0x7A && Sum(0x26, 0xF4) == 0xD2
  {
  }

  lemma Key9Facts()
    ensures Sbox(0xAE) == 0xE4 && Sbox(0xBF) == 0x08 && Sbox(0x7A) == 0xDA && Sbox(0xD2) == 0xB5
    ensures RconOf(9) == 0x1B && Sum(0x08, 0x1B) == 0x13 && Sum(0x47, 0x13) == 0x54 && Sum(0x43, 0xDA) == 0x99
    ensures Sum(0x87, 0xB5) == 0x32 && Sum(0x35, 0xE4) == 0xD1 && Sum(0xA4, 0x54) == 0xF0 && Sum(0x1C, 0x99) == 0x85
    ensures Sum(0x65, 0x32) == 0x57 && Sum(0xB9, 0xD1) == 0x68 && Sum(0xE0, 0xF0) == 0x10 && Sum(0x16, 0x85) == 0x93
    ensures Sum(0xBA, 0x57) == 0xED && Sum(0xF4, 0x68) == 0x9C && Sum(0xAE, 0x10) == 0xBE && Sum(0xBF, 0x93) == 0x2C
    ensures Sum(0x7A, 0xED) == 0x97 && Sum(0xD2, 0x9C) == 0x4E
  {
  }

  lemma Key10Facts()
    ensures Sbox(0xBE) == 0xAE && Sbox(0x2C) == 0x71 && Sbox(0x97) == 0x88 && Sbox(0x4E) == 0x2F
    ensures RconOf(10) == 0x36 && Sum(0x71, 0x36) == 0x47 && Sum(0x54, 0x47) == 0x13 && Sum(0x99, 0x88) == 0x11
    ensures Sum(0x32, 0x2F) == 0x1D && Sum(0xD1, 0xAE) == 0x7F && Sum(0xF0, 0x13) == 0xE3 && Sum(0x85, 0x11) == 0x94
    ensures Sum(0x57, 0x1D) == 0x4A && Sum(0x68, 0x7F) == 0x17 && Sum(0x10, 0xE3) == 0xF3 && Sum(0x93, 0x94) == 0x07
    ensures Sum(0xED, 0x4A) == 0xA7 && Sum(0x9C, 0x17) == 0x8B && Sum(0xBE, 0xF3) == 0x4D && Sum(0x2C, 0x07) == 0x2B
    ensures Sum(0x97, 0xA7) == 0x30 && Sum(0x4E, 0x8B) == 0xC5
  {
  }

  lemma Key1(t: Boxes, key: seq<Word>, w: seq<Word>)
    requires Standard(t) && |key| == 4 && |w| == 44 && IsExpansion(t, key, w)
    requires w[0..4] == St(State(Col(0x00, 0x01, 0x02, 0x03), Col(0x04, 0x05, 0x06, 0x07), Col(0x08, 0x09, 0x0A, 0x0B), Col(0x0C, 0x0D, 0x0E, 0x0F)))
    ensures w[4..8] == St(State(Col(0xD6, 0xAA, 0x74, 0xFD), Col(0xD2, 0xAF, 0x72, 0xFA), Col(0xDA, 0xA6, 0x78, 0xF1), Col(0xD6, 0xAB, 0x76, 0xFE)))
  {
    hide Standard, IsExpansion, W, Sbox, Sum, RconOf;
    var k := w[0..4];
    assert w[0] == k[0] && w[1] == k[1] && w[2] == k[2] && w[3] == k[3];
    Key1Facts();
    NextWord(t, key, w, 4, Col(0x00, 0x01, 0x02, 0x03), Col(0x0C, 0x0D, 0x0E, 0x0F), Col(0xD6, 0xAB, 0x76, 0xFE), 0xD7, Col(0xD6, 0xAA, 0x74, 0xFD));
    NextWord(t, key, w, 5, Col(0x04, 0x05, 0x06, 0x07), Col(0xD6, 0xAA, 0x74, 0xFD), Col(0xD6, 0xAA, 0x74, 0xFD), 0x00, Col(0xD2, 0xAF, 0x72, 0xFA));
    NextWord(t, key, w, 6, Col(0x08, 0x09, 0x0A, 0x0B), Col(0xD2, 0xAF, 0x72, 0xFA), Col(0xD2, 0xAF, 0x72, 0xFA), 0x00, Col(0xDA, 0xA6, 0x78, 0xF1));
    NextWord(t, key, w, 7, Col(0x0C, 0x0D, 0x0E, 0x0F), Col(0xDA, 0xA6, 0x78, 0xF1), Col(0xDA, 0xA6, 0x78, 0xF1), 0x00, Col(0xD6, 0xAB, 0x76, 0xFE));
  }

  lemma Key2(t: Boxes, key: seq<Word>, w: seq<Word>)
    requires Standard(t) && |key| == 4 && |w| == 44 && IsExpansion(t, key, w)
    requires w[4..8] == St(State(Col(0xD6, 0xAA, 0x74, 0xFD), Col(0xD2, 0xAF, 0x72, 0xFA), Col(0xDA, 0xA6, 0x78, 0xF1), Col(0xD6, 0xAB, 0x76, 0xFE)))
    ensures w[8..12] == St(State(Col(0xB6, 0x92, 0xCF, 0x0B), Col(0x64, 0x3D, 0xBD, 0xF1), Col(0xBE, 0x9B, 0xC5, 0x00), Col(0x68, 0x30, 0xB3, 0xFE)))
  {
    hide Standard, IsExpansion, W, Sbox, Sum, RconOf;
    var k := w[4..8];
    assert w[4] == k[0] && w[5] == k[1] && w[6] == k[2] && w[7] == k[3];
    Key2Facts();
    NextWord(t, key, w, 8, Col(0xD6, 0xAA, 0x74, 0xFD), Col(0xD6, 0xAB, 0x76, 0xFE), Col(0x60, 0x38, 0xBB, 0xF6), 0x62, Col(0xB6, 0x92, 0xCF, 0x0B));
    NextWord(t, key, w, 9, Col(0xD2, 0xAF, 0x72, 0xFA), Col(0xB6, 0x92, 0xCF, 0x0B), Col(0xB6, 0x92, 0xCF, 0x0B), 0x00, Col(0x64, 0x3D, 0xBD, 0xF1));
    NextWord(t, key, w, 10, Col(0xDA, 0xA6, 0x78, 0xF1), Col(0x64, 0x3D, 0xBD, 0xF1), Col(0x64, 0x3D, 0xBD, 0xF1), 0x00, Col(0xBE, 0x9B, 0xC5, 0x00));
    NextWord(t, key, w, 11, Col(0xD6, 0xAB, 0x76, 0xFE), Col(0xBE, 0x9B, 0xC5, 0x00), Col(0xBE, 0x9B, 0xC5, 0x00), 0x00, Col(0x68, 0x30, 0xB3, 0xFE));
  }

  lemma Key3(t: Boxes, key: seq<Word>, w: seq<Word>)
    requires Standard(t) && |key| == 4 && |w| == 44 && IsExpansion(t, key, w)
    requires w[8..12] == St(State(Col(0xB6, 0x92, 0xCF, 0x0B), Col(0x64, 0x3D, 0xBD, 0xF1), Col(0xBE, 0x9B, 0xC5, 0x00), Col(0x68, 0x30, 0xB3, 0xFE)))
    ensures w[12..16] == St(State(Col(0xB6, 0xFF, 0x74, 0x4E), Col(0xD2, 0xC2, 0xC9, 0xBF), Col(0x6C, 0x59, 0x0C, 0xBF), Col(0x04, 0x69, 0xBF, 0x41)))
  {
    hide Standard, IsExpansion, W, Sbox, Sum, RconOf;
    var k := w[8..12];
    assert w[8] == k[0] && w[9] == k[1] && w[10] == k[2] && w[11] == k[3];
    Key3Facts();
    NextWord(t, key, w, 12, Col(0xB6, 0x92, 0xCF, 0x0B), Col(0x68, 0x30, 0xB3, 0xFE), Col(0x00, 0x6D, 0xBB, 0x45), 0x04, Col(0xB6, 0xFF, 0x74, 0x4E));
    NextWord(t, key, w, 13, Col(0x64, 0x3D, 0xBD, 0xF1), Col(0xB6, 0xFF, 0x74, 0x4E), Col(0xB6, 0xFF, 0x74, 0x4E), 0x00, Col(0xD2, 0xC2, 0xC9, 0xBF));
    NextWord(t, key, w, 14, Col(0xBE, 0x9B, 0xC5, 0x00), Col(0xD2, 0xC2, 0xC9, 0xBF), Col(0xD2, 0xC2, 0xC9, 0xBF), 0x00, Col(0x6C, 0x59, 0x0C, 0xBF));
    NextWord(t, key, w, 15, Col(0x68, 0x30, 0xB3, 0xFE), Col(0x6C, 0x59, 0x0C, 0xBF), Col(0x6C, 0x59, 0x0C, 0xBF), 0x00, Col(0x04, 0x69, 0xBF, 0x41));
  }

  lemma Key4(t: Boxes, key: seq<Word>, w: seq<Word>)
    requires Standard(t) && |key| == 4 && |w| == 44 && IsExpansion(t, key, w)
    requires w[12..16] == St(State(Col(0xB6, 0xFF, 0x74, 0x4E), Col(0xD2, 0xC2, 0xC9, 0xBF), Col(0x6C, 0x59, 0x0C, 0xBF), Col(0x04, 0x69, 0xBF, 0x41)))
    ensures w[16..20] == St(State(Col(0x47, 0xF7, 0xF7, 0xBC), Col(0x95, 0x35, 0x3E, 0x03), Col(0xF9, 0x6C, 0x32, 0xBC), Col(0xFD, 0x05, 0x8D, 0xFD)))
  {
    hide Standard, IsExpansion, W, Sbox, Sum, RconOf;
    var k := w[12..16];
    assert w[12] == k[0] && w[13] == k[1] && w[14] == k[2] && w[15] == k[3];
    Key4Facts();
    NextWord(t, key, w, 16, Col(0xB6, 0xFF, 0x74, 0x4E), Col(0x04, 0x69, 0xBF, 0x41), Col(0xF1, 0x08, 0x83, 0xF2), 0xF9, Col(0x47, 0xF7, 0xF7, 0xBC));
    NextWord(t, key, w, 17, Col(0xD2, 0xC2, 0xC9, 0xBF), Col(0x47, 0xF7, 0xF7, 0xBC), Col(0x47, 0xF7, 0xF7, 0xBC), 0x00, Col(0x95, 0x35, 0x3E, 0x03));
    NextWord(t, key, w, 18, Col(0x6C, 0x59, 0x0C, 0xBF), Col(0x95, 0x35, 0x3E, 0x03), Col(0x95, 0x35, 0x3E, 0x03), 0x00, Col(0xF9, 0x6C, 0x32, 0xBC));
    NextWord(t, key, w, 19, Col(0x04, 0x69, 0xBF, 0x41), Col(0xF9, 0x6C, 0x32, 0xBC), Col(0xF9, 0x6C, 0x32, 0xBC), 0x00, Col(0xFD, 0x05, 0x8D, 0xFD));
  }

  lemma Key5(t: Boxes, key: seq<Word>, w: seq<Word>)
    requires Standard(t) && |key| == 4 && |w| == 44 && IsExpansion(t, key, w)
    requires w[16..20] == St(State(Col(0x47, 0xF7, 0xF7, 0xBC), Col(0x95, 0x35, 0x3E, 0x03), Col(0xF9, 0x6C, 0x32, 0xBC), Col(0xFD, 0x05, 0x8D, 0xFD)))
    ensures w[20..24] == St(State(Col(0x3C, 0xAA, 0xA3, 0xE8), Col(0xA9, 0x9F, 0x9D, 0xEB), Col(0x50, 0xF3, 0xAF, 0x57), Col(0xAD, 0xF6, 0x22, 0xAA)))
  {
    hide Standard, IsExpansion, W, Sbox, Sum, RconOf;
    var k := w[16..20];
    assert w[16] == k[0] && w[17] == k[1] && w[18] == k[2] && w[19] == k[3];
    Key5Facts();
    NextWord(t, key, w, 20, Col(0x47, 0xF7, 0xF7, 0xBC), Col(0xFD, 0x05, 0x8D, 0xFD), Col(0x7B, 0x5D, 0x54, 0x54), 0x6B, Col(0x3C, 0xAA, 0xA3, 0xE8));
    NextWord(t, key, w, 21, Col(0x95, 0x35, 0x3E, 0x03), Col(0x3C, 0xAA, 0xA3, 0xE8), Col(0x3C, 0xAA, 0xA3, 0xE8), 0x00, Col(0xA9, 0x9F, 0x9D, 0xEB));
    NextWord(t, key, w, 22, Col(0xF9, 0x6C, 0x32, 0xBC), Col(0xA9, 0x9F, 0x9D, 0xEB), Col(0xA9, 0x9F, 0x9D, 0xEB), 0x00, Col(0x50, 0xF3, 0xAF, 0x57));
    NextWord(t, key, w, 23, Col(0xFD, 0x05, 0x8D, 0xFD), Col(0x50, 0xF3, 0xAF, 0x57), Col(0x50, 0xF3, 0xAF, 0x57), 0x00, Col(0xAD, 0xF6, 0x22, 0xAA));
  }

  lemma Key6(t: Boxes, key: seq<Word>, w: seq<Word>)
    requires Standard(t) && |key| == 4 && |w| == 44 && IsExpansion(t, key, w)
    requires w[20..24] == St(State(Col(0x3C, 0xAA, 0xA3, 0xE8), Col(0xA9, 0x9F, 0x9D, 0xEB), Col(0x50, 0xF3, 0xAF, 0x57), Col(0xAD, 0xF6, 0x22, 0xAA)))
    ensures w[24..28] == St(State(Col(0x5E, 0x39, 0x0F, 0x7D), Col(0xF7, 0xA6, 0x92, 0x96), Col(0xA7, 0x55, 0x3D, 0xC1), Col(0x0A, 0xA3, 0x1F, 0x6B)))
  {
    hide Standard, IsExpansion, W, Sbox, Sum, RconOf;
    var k := w[20..24];
    assert w[20] == k[0] && w[21] == k[1] && w[22] == k[2] && w[23] == k[3];
    Key6Facts();
    NextWord(t, key, w, 24, Col(0x3C, 0xAA, 0xA3, 0xE8), Col(0xAD, 0xF6, 0x22, 0xAA), Col(0x62, 0x93, 0xAC, 0x95), 0x42, Col(0x5E, 0x39, 0x0F, 0x7D));
    NextWord(t, key, w, 25, Col(0xA9, 0x9F, 0x9D, 0xEB), Col(0x5E, 0x39, 0x0F, 0x7D), Col(0x5E, 0x39, 0x0F, 0x7D), 0x00, Col(0xF7, 0xA6, 0x92, 0x96));
    NextWord(t, key, w, 26, Col(0x50, 0xF3, 0xAF, 0x57), Col(0xF7, 0xA6, 0x92, 0x96), Col(0xF7, 0xA6, 0x92, 0x96), 0x00, Col(0xA7, 0x55, 0x3D, 0xC1));
    NextWord(t, key, w, 27, Col(0xAD, 0xF6, 0x22, 0xAA), Col(0xA7, 0x55, 0x3D, 0xC1), Col(0xA7, 0x55, 0x3D, 0xC1), 0x00, Col(0x0A, 0xA3, 0x1F, 0x6B));
  }

  lemma Key7(t: Boxes, key: seq<Word>, w: seq<Word>)
    requires Standard(t) && |key| == 4 && |w| == 44 && IsExpansion(t, key, w)
    requires w[24..28] == St(State(Col(0x5E, 0x39, 0x0F, 0x7D), Col(0xF7, 0xA6, 0x92, 0x96), Col(0xA7, 0x55, 0x3D, 0xC1), Col(0x0A, 0xA3, 0x1F, 0x6B)))
    ensures w[28..32] == St(State(Col(0x14, 0xF9, 0x70, 0x1A), Col(0xE3, 0x5F, 0xE2, 0x8C), Col(0x44, 0x0A, 0xDF, 0x4D), Col(0x4E, 0xA9, 0xC0, 0x26)))
  {
    hide Standard, IsExpansion, W, Sbox, Sum, RconOf;
    var k := w[24..28];
    assert w[24] == k[0] && w[25] == k[1] && w[26] == k[2] && w[27] == k[3];
    Key7Facts();
    NextWord(t, key, w, 28, Col(0x5E, 0x39, 0x0F, 0x7D), Col(0x0A, 0xA3, 0x1F, 0x6B), Col(0x4A, 0xC0, 0x7F, 0x67), 0x0A, Col(0x14, 0xF9, 0x70, 0x1A));
    NextWord(t, key, w, 29, Col(0xF7, 0xA6, 0x92, 0x96), Col(0x14, 0xF9, 0x70, 0x1A), Col(0x14, 0xF9, 0x70, 0x1A), 0x00, Col(0xE3, 0x5F, 0xE2, 0x8C));
    NextWord(t, key, w, 30, Col(0xA7, 0x55, 0x3D, 0xC1), Col(0xE3, 0x5F, 0xE2, 0x8C), Col(0xE3, 0x5F, 0xE2, 0x8C), 0x00, Col(0x44, 0x0A, 0xDF, 0x4D));
    NextWord(t, key, w, 31, Col(0x0A, 0xA3, 0x1F, 0x6B), Col(0x44, 0x0A, 0xDF, 0x4D), Col(0x44, 0x0A, 0xDF, 0x4D), 0x00, Col(0x4E, 0xA9, 0xC0, 0x26));
  }

  lemma Key8(t: Boxes, key: seq<Word>, w: seq<Word>)
    requires Standard(t) && |key| == 4 && |w| == 44 && IsExpansion(t, key, w)
    requires w[28..32] == St(State(Col(0x14, 0xF9, 0x70, 0x1A), Col(0xE3, 0x5F, 0xE2, 0x8C), Col(0x44, 0x0A, 0xDF, 0x4D), Col(0x4E, 0xA9, 0xC0, 0x26)))
    ensures w[32..36] == St(State(Col(0x47, 0x43, 0x87, 0x35), Col(0xA4, 0x1C, 0x65, 0xB9), Col(0xE0, 0x16, 0xBA, 0xF4), Col(0xAE, 0xBF, 0x7A, 0xD2)))
  {
    hide Standard, IsExpansion, W, Sbox, Sum, RconOf;
    var k := w[28..32];
    assert w[28] == k[0] && w[29] == k[1] && w[30] == k[2] && w[31] == k[3];
    Key8Facts();
    NextWord(t, key, w, 32, Col(0x14, 0xF9, 0x70, 0x1A), Col(0x4E, 0xA9, 0xC0, 0x26), Col(0x53, 0xBA, 0xF7, 0x2F), 0xD3, Col(0x47, 0x43, 0x87, 0x35));
    NextWord(t, key, w, 33, Col(0xE3, 0x5F, 0xE2, 0x8C), Col(0x47, 0x43, 0x87, 0x35), Col(0x47, 0x43, 0x87, 0x35), 0x00, Col(0xA4, 0x1C, 0x65, 0xB9));
    NextWord(t, key, w, 34, Col(0x44, 0x0A, 0xDF, 0x4D), Col(0xA4, 0x1C, 0x65, 0xB9), Col(0xA4, 0x1C, 0x65, 0xB9), 0x00, Col(0xE0, 0x16, 0xBA, 0xF4));
    NextWord(t, key, w, 35, Col(0x4E, 0xA9, 0xC0, 0x26), Col(0xE0, 0x16, 0xBA, 0xF4), Col(0xE0, 0x16, 0xBA, 0xF4), 0x00, Col(0xAE, 0xBF, 0x7A, 0xD2));
  }

  lemma Key9(t: Boxes, key: seq<Word>, w: seq<Word>)
    requires Standard(t) && |key| == 4 && |w| == 44 && IsExpansion(t, key, w)
    requires w[32..36] == St(State(Col(0x47, 0x43, 0x87, 0x35), Col(0xA4, 0x1C, 0x65, 0xB9), Col(0xE0, 0x16, 0xBA, 0xF4), Col(0xAE, 0xBF, 0x7A, 0xD2)))
    ensures w[36..40] == St(State(Col(0x54, 0x99, 0x32, 0xD1), Col(0xF0, 0x85, 0x57, 0x68), Col(0x10, 0x93, 0xED, 0x9C), Col(0xBE, 0x2C, 0x97, 0x4E)))
  {
    hide Standard, IsExpansion, W, Sbox, Sum, RconOf;
    var k := w[32..36];
    assert w[32] == k[0] && w[33] == k[1] && w[34] == k[2] && w[35] == k[3];
    Key9Facts();
    NextWord(t, key, w, 36, Col(0x47, 0x43, 0x87, 0x35), Col(0xAE, 0xBF, 0x7A, 0xD2), Col(0x13, 0xDA, 0xB5, 0xE4), 0x08, Col(0x54, 0x99, 0x32, 0xD1));
    NextWord(t, key, w, 37, Col(0xA4, 0x1C, 0x65, 0xB9), Col(0x54, 0x99, 0x32, 0xD1), Col(0x54, 0x99, 0x32, 0xD1), 0x00, Col(0xF0, 0x85, 0x57, 0x68));
    NextWord(t, key, w, 38, Col(0xE0, 0x16, 0xBA, 0xF4), Col(0xF0, 0x85, 0x57, 0x68), Col(0xF0, 0x85, 0x57, 0x68), 0x00, Col(0x10, 0x93, 0xED, 0x9C));
    NextWord(t, key, w, 39, Col(0xAE, 0xBF, 0x7A, 0xD2), Col(0x10, 0x93, 0xED, 0x9C), Col(0x10, 0x93, 0xED, 0x9C), 0x00, Col(0xBE, 0x2C, 0x97, 0x4E));
  }

  lemma Key10(t: Boxes, key: seq<Word>, w: seq<Word>)
    requires Standard(t) && |key| == 4 && |w| == 44 && IsExpansion(t, key, w)
    requires w[36..40] == St(State(Col(0x54, 0x99, 0x32, 0xD1), Col(0xF0, 0x85, 0x57, 0x68), Col(0x10, 0x93, 0xED, 0x9C), Col(0xBE, 0x2C, 0x97, 0x4E)))
    ensures w[40..44] == St(State(Col(0x13, 0x11, 0x1D, 0x7F), Col(0xE3, 0x94, 0x4A, 0x17), Col(0xF3, 0x07, 0xA7, 0x8B), Col(0x4D, 0x2B, 0x30, 0xC5)))
  {
    hide Standard, IsExpansion, W, Sbox, Sum, RconOf;
    var k := w[36..40];
    assert w[36] == k[0] && w[37] == k[1] && w[38] == k[2] && w[39] == k[3];
    Key10Facts();
    NextWord(t, key, w, 40, Col(0x54, 0x99, 0x32, 0xD1), Col(0xBE, 0x2C, 0x97, 0x4E), Col(0x47, 0x88, 0x2F, 0xAE), 0x71, Col(0x13, 0x11, 0x1D, 0x7F));
    NextWord(t, key, w, 41, Col(0xF0, 0x85, 0x57, 0x68), Col(0x13, 0x11, 0x1D, 0x7F), Col(0x13, 0x11, 0x1D, 0x7F), 0x00, Col(0xE3, 0x94, 0x4A, 0x17));
    NextWord(t, key, w, 42, Col(0x10, 0x93, 0xED, 0x9C), Col(0xE3, 0x94, 0x4A, 0x17), Col(0xE3, 0x94, 0x4A, 0x17), 0x00, Col(0xF3, 0x07, 0xA7, 0x8B));
    NextWord(t, key, w, 43, Col(0xBE, 0x2C, 0x97, 0x4E), Col(0xF3, 0x07, 0xA7, 0x8B), Col(0xF3, 0x07, 0xA7, 0x8B), 0x00, Col(0x4D, 0x2B, 0x30, 0xC5));
  }

  // Its rounds.

  lemma Round0Sums()
    ensures Sum(0x00, 0x00) == 0x00 && Sum(0x11, 0x01) == 0x10 && Sum(0x22, 0x02) == 0x20 && Sum(0x33, 0x03) == 0x30
    ensures Sum(0x44, 0x04) == 0x40 && Sum(0x55, 0x05) == 0x50 && Sum(0x66, 0x06) == 0x60 && Sum(0x77, 0x07) == 0x70
    ensures Sum(0x88, 0x08) == 0x80 && Sum(0x99, 0x09) == 0x90 && Sum(0xAA, 0x0A) == 0xA0 && Sum(0xBB, 0x0B) == 0xB0
    ensures Sum(0xCC, 0x0C) == 0xC0 && Sum(0xDD, 0x0D) == 0xD0 && Sum(0xEE, 0x0E) == 0xE0 && Sum(0xFF, 0x0F) == 0xF0
  {
  }

  lemma Round0Facts()
    ensures Sbox(0x00) == 0x63 && Sbox(0x50) == 0x53 && Sbox(0xA0) == 0xE0 && Sbox(0xF0) == 0x8C
    ensures Sbox(0x40) == 0x09 && Sbox(0x90) == 0x60 && Sbox(0xE0) == 0xE1 && Sbox(0x30) == 0x04
    ensures Sbox(0x80) == 0xCD && Sbox(0xD0) == 0x70 && Sbox(0x20) == 0xB7 && Sbox(0x70) == 0x51
    ensures Sbox(0xC0) == 0xBA && Sbox(0x10) == 0xCA && Sbox(0x60) == 0xD0 && Sbox(0xB0) == 0xE7
  {
  }

  lemma Round0Mixed()
    ensures Mixed(0x63, 0x53, 0xE0, 0x8C) == Col(0x5F, 0x72, 0x64, 0x15) && Mixed(0x09, 0x60, 0xE1, 0x04) == Col(0x57, 0xF5, 0xBC, 0x92)
    ensures Mixed(0xCD, 0x70, 0xB7, 0x51) == Col(0xF7, 0xBE, 0x3B, 0x29) && Mixed(0xBA, 0xCA, 0xD0, 0xE7) == Col(0x1D, 0xB9, 0xF9, 0x1A)
  {
  }

  lemma Round0(t: Boxes, k: seq<seq<Word>>, p: seq<Word>)
    requires Standard(t) && IsSchedule(k, 4) && |p| == 4 && |k| == 11 && Rounds(t, k, p, 0) == St(State(Col(0x00, 0x11, 0x22, 0x33), Col(0x44, 0x55, 0x66, 0x77), Col(0x88, 0x99, 0xAA, 0xBB), Col(0xCC, 0xDD, 0xEE, 0xFF)))
    requires k[0] == St(State(Col(0x00, 0x01, 0x02, 0x03), Col(0x04, 0x05, 0x06, 0x07), Col(0x08, 0x09, 0x0A, 0x0B), Col(0x0C, 0x0D, 0x0E, 0x0F)))
    ensures Rounds(t, k, p, 1) == St(State(Col(0x5F, 0x72, 0x64, 0x15), Col(0x57, 0xF5, 0xBC, 0x92), Col(0xF7, 0xBE, 0x3B, 0x29), Col(0x1D, 0xB9, 0xF9, 0x1A)))
  {
    hide Standard, Rounds, St, Sbox, Sum, Mixed;
    Round0Sums();
    Round0Facts();
    Round0Mixed();
    RoundTo(t, k, p, 0, State(Col(0x00, 0x11, 0x22, 0x33), Col(0x44, 0x55, 0x66, 0x77), Col(0x88, 0x99, 0xAA, 0xBB), Col(0xCC, 0xDD, 0xEE, 0xFF)),
            State(Col(0x00, 0x01, 0x02, 0x03), Col(0x04, 0x05, 0x06, 0x07), Col(0x08, 0x09, 0x0A, 0x0B), Col(0x0C, 0x0D, 0x0E, 0x0F)),
            State(Col(0x00, 0x10, 0x20, 0x30), Col(0x40, 0x50, 0x60, 0x70), Col(0x80, 0x90, 0xA0, 0xB0), Col(0xC0, 0xD0, 0xE0, 0xF0)),
            State(Col(0x63, 0x53, 0xE0, 0x8C), Col(0x09, 0x60, 0xE1, 0x04), Col(0xCD, 0x70, 0xB7, 0x51), Col(0xBA, 0xCA, 0xD0, 0xE7)),
            State(Col(0x5F, 0x72, 0x64, 0x15), Col(0x57, 0xF5, 0xBC, 0x92), Col(0xF7, 0xBE, 0x3B, 0x29), Col(0x1D, 0xB9, 0xF9, 0x1A)));
  }

  lemma Round1Sums()
    ensures Sum(0x5F, 0xD6) == 0x89 && Sum(0x72, 0xAA) == 0xD8 && Sum(0x64, 0x74) == 0x10 && Sum(0x15, 0xFD) == 0xE8
    ensures Sum(0x57, 0xD2) == 0x85 && Sum(0xF5, 0xAF) == 0x5A && Sum(0xBC, 0x72) == 0xCE && Sum(0x92, 0xFA) == 0x68
    ensures Sum(0xF7, 0xDA) == 0x2D && Sum(0xBE, 0xA6) == 0x18 && Sum(0x3B, 0x78) == 0x43 && Sum(0x29, 0xF1) == 0xD8
    ensures Sum(0x1D, 0xD6) == 0xCB && Sum(0xB9, 0xAB) == 0x12 && Sum(0xF9, 0x76) == 0x8F && Sum(0x1A, 0xFE) == 0xE4
  {
  }

  lemma Round1Facts()
    ensures Sbox(0x89) == 0xA7 && Sbox(0x5A) == 0xBE && Sbox(0x43) == 0x1A && Sbox(0xE4) == 0x69
    ensures Sbox(0x85) == 0x97 && Sbox(0x18) == 0xAD && Sbox(0x8F) == 0x73 && Sbox(0xE8) == 0x9B
    ensures Sbox(0x2D) == 0xD8 && Sbox(0x12) == 0xC9 && Sbox(0x10) == 0xCA && Sbox(0x68) == 0x45
    ensures Sbox(0xCB) == 0x1F && Sbox(0xD8) == 0x61 && Sbox(0xCE) == 0x8B
  {
  }

  lemma Round1Mixed()
    ensures Mixed(0xA7, 0xBE, 0x1A, 0x69) == Col(0xFF, 0x87, 0x96, 0x84) && Mixed(0x97, 0xAD, 0x73, 0x9B) == Col(0x31, 0xD8, 0x6A, 0x51)
    ensures Mixed(0xD8, 0xC9, 0xCA, 0x45) == Col(0x64, 0x51, 0x51, 0xFA) && Mixed(0x1F, 0x61, 0x8B, 0x61) == Col(0x77, 0x3A, 0xD0, 0x09)
  {
  }

  lemma Round1(t: Boxes, k: seq<seq<Word>>, p: seq<Word>)
    requires Standard(t) && IsSchedule(k, 4) && |p| == 4 && |k| == 11 && Rounds(t, k, p, 1) == St(State(Col(0x5F, 0x72, 0x64, 0x15), Col(0x57, 0xF5, 0xBC, 0x92), Col(0xF7, 0xBE, 0x3B, 0x29), Col(0x1D, 0xB9, 0xF9, 0x1A)))
    requires k[1] == St(State(Col(0xD6, 0xAA, 0x74, 0xFD), Col(0xD2, 0xAF, 0x72, 0xFA), Col(0xDA, 0xA6, 0x78, 0xF1), Col(0xD6, 0xAB, 0x76, 0xFE)))
    ensures Rounds(t, k, p, 2) == St(State(Col(0xFF, 0x87, 0x96, 0x84), Col(0x31, 0xD8, 0x6A, 0x51), Col(0x64, 0x51, 0x51, 0xFA), Col(0x77, 0x3A, 0xD0, 0x09)))
  {
    hide Standard, Rounds, St, Sbox, Sum, Mixed;
    Round1Sums();
    Round1Facts();
    Round1Mixed();
    RoundTo(t, k, p, 1, State(Col(0x5F, 0x72, 0x64, 0x15), Col(0x57, 0xF5, 0xBC, 0x92), Col(0xF7, 0xBE, 0x3B, 0x29), Col(0x1D, 0xB9, 0xF9, 0x1A)),
            State(Col(0xD6, 0xAA, 0x74, 0xFD), Col(0xD2, 0xAF, 0x72, 0xFA), Col(0xDA, 0xA6, 0x78, 0xF1), Col(0xD6, 0xAB, 0x76, 0xFE)),
            State(Col(0x89, 0xD8, 0x10, 0xE8), Col(0x85, 0x5A, 0xCE, 0x68), Col(0x2D, 0x18, 0x43, 0xD8), Col(0xCB, 0x12, 0x8F, 0xE4)),
            State(Col(0xA7, 0xBE, 0x1A, 0x69), Col(0x97, 0xAD, 0x73, 0x9B), Col(0xD8, 0xC9, 0xCA, 0x45), Col(0x1F, 0x61, 0x8B, 0x61)),
            State(Col(0xFF, 0x87, 0x96, 0x84), Col(0x31, 0xD8, 0x6A, 0x51), Col(0x64, 0x51, 0x51, 0xFA), Col(0x77, 0x3A, 0xD0, 0x09)));
  }

  lemma Round2Sums()
    ensures Sum(0xFF, 0xB6) == 0x49 && Sum(0x87, 0x92) == 0x15 && Sum(0x96, 0xCF) == 0x59 && Sum(0x84, 0x0B) == 0x8F
    ensures Sum(0x31, 0x64) == 0x55 && Sum(0xD8, 0x3D) == 0xE5 && Sum(0x6A, 0xBD) == 0xD7 && Sum(0x51, 0xF1) == 0xA0
    ensures Sum(0x64, 0xBE) == 0xDA && Sum(0x51, 0x9B) == 0xCA && Sum(0x51, 0xC5) == 0x94 && Sum(0xFA, 0x00) == 0xFA
    ensures Sum(0x77, 0x68) == 0x1F && Sum(0x3A, 0x30) == 0x0A && Sum(0xD0, 0xB3) == 0x63 && Sum(0x09, 0xFE) == 0xF7
  {
  }

  lemma Round2Facts()
    ensures Sbox(0x49) == 0x3B && Sbox(0xE5) == 0xD9 && Sbox(0x94) == 0x22 && Sbox(0xF7) == 0x68
    ensures Sbox(0x55) == 0xFC && Sbox(0xCA) == 0x74 && Sbox(0x63) == 0xFB && Sbox(0x8F) == 0x73
    ensures Sbox(0xDA) == 0x57 && Sbox(0x0A) == 0x67 && Sbox(0x59) == 0xCB && Sbox(0xA0) == 0xE0
    ensures Sbox(0x1F) == 0xC0 && Sbox(0x15) == 0x59 && Sbox(0xD7) == 0x0E && Sbox(0xFA) == 0x2D
  {
  }

  lemma Round2Mixed()
    ensures Mixed(0x3B, 0xD9, 0x22, 0x68) == Col(0x4C, 0x9C, 0x1E, 0x66) && Mixed(0xFC, 0x74, 0xFB, 0x73) == Col(0xF7, 0x71, 0xF0, 0x76)
    ensures Mixed(0x57, 0x67, 0xCB, 0xE0) == Col(0x2C, 0x3F, 0x86, 0x8E) && Mixed(0xC0, 0x59, 0x0E, 0x2D) == Col(0x53, 0x4D, 0xF2, 0x56)
  {
  }

  lemma Round2(t: Boxes, k: seq<seq<Word>>, p: seq<Word>)
    requires Standard(t) && IsSchedule(k, 4) && |p| == 4 && |k| == 11 && Rounds(t, k, p, 2) == St(State(Col(0xFF, 0x87, 0x96, 0x84), Col(0x31, 0xD8, 0x6A, 0x51), Col(0x64, 0x51, 0x51, 0xFA), Col(0x77, 0x3A, 0xD0, 0x09)))
    requires k[2] == St(State(Col(0xB6, 0x92, 0xCF, 0x0B), Col(0x64, 0x3D, 0xBD, 0xF1), Col(0xBE, 0x9B, 0xC5, 0x00), Col(0x68, 0x30, 0xB3, 0xFE)))
    ensures Rounds(t, k, p, 3) == St(State(Col(0x4C, 0x9C, 0x1E, 0x66), Col(0xF7, 0x71, 0xF0, 0x76), Col(0x2C, 0x3F, 0x86, 0x8E), Col(0x53, 0x4D, 0xF2, 0x56)))
  {
    hide Standard, Rounds, St, Sbox, Sum, Mixed;
    Round2Sums();
    Round2Facts();
    Round2Mixed();
    RoundTo(t, k, p, 2, State(Col(0xFF, 0x87, 0x96, 0x84), Col(0x31, 0xD8, 0x6A, 0x51), Col(0x64, 0x51, 0x51, 0xFA), Col(0x77, 0x3A, 0xD0, 0x09)),
            State(Col(0xB6, 0x92, 0xCF, 0x0B), Col(0x64, 0x3D, 0xBD, 0xF1), Col(0xBE, 0x9B, 0xC5, 0x00), Col(0x68, 0x30, 0xB3, 0xFE)),
            State(Col(0x49, 0x15, 0x59, 0x8F), Col(0x55, 0xE5, 0xD7, 0xA0), Col(0xDA, 0xCA, 0x94, 0xFA), Col(0x1F, 0x0A, 0x63, 0xF7)),
            State(Col(0x3B, 0xD9, 0x22, 0x68), Col(0xFC, 0x74, 0xFB, 0x73), Col(0x57, 0x67, 0xCB, 0xE0), Col(0xC0, 0x59, 0x0E, 0x2D)),
            State(Col(0x4C, 0x9C, 0x1E, 0x66), Col(0xF7, 0x71, 0xF0, 0x76), Col(0x2C, 0x3F, 0x86, 0x8E), Col(0x53, 0x4D, 0xF2, 0x56)));
  }

  lemma Round3Sums()
    ensures Sum(0x4C, 0xB6) == 0xFA && Sum(0x9C, 0xFF) == 0x63 && Sum(0x1E, 0x74) == 0x6A && Sum(0x66, 0x4E) == 0x28
    ensures Sum(0xF7, 0xD2) == 0x25 && Sum(0x71, 0xC2) == 0xB3 && Sum(0xF0, 0xC9) == 0x39 && Sum(0x76, 0xBF) == 0xC9
    ensures Sum(0x2C, 0x6C) == 0x40 && Sum(0x3F, 0x59) == 0x66 && Sum(0x86, 0x0C) == 0x8A && Sum(0x8E, 0xBF) == 0x31
    ensures Sum(0x53, 0x04) == 0x57 && Sum(0x4D, 0x69) == 0x24 && Sum(0xF2, 0xBF) == 0x4D && Sum(0x56, 0x41) == 0x17
  {
  }

  lemma Round3Facts()
    ensures Sbox(0xFA) == 0x2D && Sbox(0xB3) == 0x6D && Sbox(0x8A) == 0x7E && Sbox(0x17) == 0xF0
    ensures Sbox(0x25) == 0x3F && Sbox(0x66) == 0x33 && Sbox(0x4D) == 0xE3 && Sbox(0x28) == 0x34
    ensures Sbox(0x40) == 0x09 && Sbox(0x24) == 0x36 && Sbox(0x6A) == 0x02 && Sbox(0xC9) == 0xDD
    ensures Sbox(0x57) == 0x5B && Sbox(0x63) == 0xFB && Sbox(0x39) == 0x12 && Sbox(0x31) == 0xC7
  {
  }

  lemma Round3Mixed()
    ensures Mixed(0x2D, 0x6D, 0x7E, 0xF0) == Col(0x63, 0x85, 0xB7, 0x9F) && Mixed(0x3F, 0x33, 0xE3, 0x34) == Col(0xFC, 0x53, 0x8D, 0xF9)
    ensures Mixed(0x09, 0x36, 0x02, 0xDD) == Col(0x97, 0xBE, 0x47, 0x8E) && Mixed(0x5B, 0xFB, 0x12, 0xC7) == Col(0x75, 0x47, 0xD6, 0x91)
  {
  }

  lemma Round3(t: Boxes, k: seq<seq<Word>>, p: seq<Word>)
    requires Standard(t) && IsSchedule(k, 4) && |p| == 4 && |k| == 11 && Rounds(t, k, p, 3) == St(State(Col(0x4C, 0x9C, 0x1E, 0x66), Col(0xF7, 0x71, 0xF0, 0x76), Col(0x2C, 0x3F, 0x86, 0x8E), Col(0x53, 0x4D, 0xF2, 0x56)))
    requires k[3] == St(State(Col(0xB6, 0xFF, 0x74, 0x4E), Col(0xD2, 0xC2, 0xC9, 0xBF), Col(0x6C, 0x59, 0x0C, 0xBF), Col(0x04, 0x69, 0xBF, 0x41)))
    ensures Rounds(t, k, p, 4) == St(State(Col(0x63, 0x85, 0xB7, 0x9F), Col(0xFC, 0x53, 0x8D, 0xF9), Col(0x97, 0xBE, 0x47, 0x8E), Col(0x75, 0x47, 0xD6, 0x91)))
  {
    hide Standard, Rounds, St, Sbox, Sum, Mixed;
    Round3Sums();
    Round3Facts();
    Round3Mixed();
    RoundTo(t, k, p, 3, State(Col(0x4C, 0x9C, 0x1E, 0x66), Col(0xF7, 0x71, 0xF0, 0x76), Col(0x2C, 0x3F, 0x86, 0x8E), Col(0x53, 0x4D, 0xF2, 0x56)),
            State(Col(0xB6, 0xFF, 0x74, 0x4E), Col(0xD2, 0xC2, 0xC9, 0xBF), Col(0x6C, 0x59, 0x0C, 0xBF), Col(0x04, 0x69, 0xBF, 0x41)),
            State(Col(0xFA, 0x63, 0x6A, 0x28), Col(0x25, 0xB3, 0x39, 0xC9), Col(0x40, 0x66, 0x8A, 0x31), Col(0x57, 0x24, 0x4D, 0x17)),
            State(Col(0x2D, 0x6D, 0x7E, 0xF0), Col(0x3F, 0x33, 0xE3, 0x34), Col(0x09, 0x36, 0x02, 0xDD), Col(0x5B, 0xFB, 0x12, 0xC7)),
            State(Col(0x63, 0x85, 0xB7, 0x9F), Col(0xFC, 0x53, 0x8D, 0xF9), Col(0x97, 0xBE, 0x47, 0x8E), Col(0x75, 0x47, 0xD6, 0x91)));
  }

  lemma Round4Sums()
    ensures Sum(0x63, 0x47) == 0x24 && Sum(0x85, 0xF7) == 0x72 && Sum(0xB7, 0xF7) == 0x40 && Sum(0x9F, 0xBC) == 0x23
    ensures Sum(0xFC, 0x95) == 0x69 && Sum(0x53, 0x35) == 0x66 && Sum(0x8D, 0x3E) == 0xB3 && Sum(0xF9, 0x03) == 0xFA
    ensures Sum(0x97, 0xF9) == 0x6E && Sum(0xBE, 0x6C) == 0xD2 && Sum(0x47, 0x32) == 0x75 && Sum(0x8E, 0xBC) == 0x32
    ensures Sum(0x75, 0xFD) == 0x88 && Sum(0x47, 0x05) == 0x42 && Sum(0xD6, 0x8D) == 0x5B && Sum(0x91, 0xFD) == 0x6C
  {
  }

  lemma Round4Facts()
    ensures Sbox(0x24) == 0x36 && Sbox(0x66) == 0x33 && Sbox(0x75) == 0x9D && Sbox(0x6C) == 0x50
    ensures Sbox(0x69) == 0xF9 && Sbox(0xD2) == 0xB5 && Sbox(0x5B) == 0x39 && Sbox(0x23) == 0x26
    ensures Sbox(0x6E) == 0x9F && Sbox(0x42) == 0x2C && Sbox(0x40) == 0x09 && Sbox(0xFA) == 0x2D
    ensures Sbox(0x88) == 0xC4 && Sbox(0x72) == 0x40 && Sbox(0xB3) == 0x6D && Sbox(0x32) == 0x23
  {
  }

  lemma Round4Mixed()
    ensures Mixed(0x36, 0x33, 0x9D, 0x50) == Col(0xF4, 0xBC, 0xD4, 0x54) && Mixed(0xF9, 0xB5, 0x39, 0x26) == Col(0x32, 0xE5, 0x54, 0xD0)
    ensures Mixed(0x9F, 0x2C, 0x09, 0x2D) == Col(0x75, 0xF1, 0xD6, 0xC5) && Mixed(0xC4, 0x40, 0x6D, 0x23) == Col(0x1D, 0xD0, 0x3B, 0x3C)
  {
  }

  lemma Round4(t: Boxes, k: seq<seq<Word>>, p: seq<Word>)
    requires Standard(t) && IsSchedule(k, 4) && |p| == 4 && |k| == 11 && Rounds(t, k, p, 4) == St(State(Col(0x63, 0x85, 0xB7, 0x9F), Col(0xFC, 0x53, 0x8D, 0xF9), Col(0x97, 0xBE, 0x47, 0x8E), Col(0x75, 0x47, 0xD6, 0x91)))
    requires k[4] == St(State(Col(0x47, 0xF7, 0xF7, 0xBC), Col(0x95, 0x35, 0x3E, 0x03), Col(0xF9, 0x6C, 0x32, 0xBC), Col(0xFD, 0x05, 0x8D, 0xFD)))
    ensures Rounds(t, k, p, 5) == St(State(Col(0xF4, 0xBC, 0xD4, 0x54), Col(0x32, 0xE5, 0x54, 0xD0), Col(0x75, 0xF1, 0xD6, 0xC5), Col(0x1D, 0xD0, 0x3B, 0x3C)))
  {
    hide Standard, Rounds, St, Sbox, Sum, Mixed;
    Round4Sums();
    Round4Facts();
    Round4Mixed();
    RoundTo(t, k, p, 4, State(Col(0x63, 0x85, 0xB7, 0x9F), Col(0xFC, 0x53, 0x8D, 0xF9), Col(0x97, 0xBE, 0x47, 0x8E), Col(0x75, 0x47, 0xD6, 0x91)),
            State(Col(0x47, 0xF7, 0xF7, 0xBC), Col(0x95, 0x35, 0x3E, 0x03), Col(0xF9, 0x6C, 0x32, 0xBC), Col(0xFD, 0x05, 0x8D, 0xFD)),
            State(Col(0x24, 0x72, 0x40, 0x23), Col(0x69, 0x66, 0xB3, 0xFA), Col(0x6E, 0xD2, 0x75, 0x32), Col(0x88, 0x42, 0x5B, 0x6C)),
            State(Col(0x36, 0x33, 0x9D, 0x50), Col(0xF9, 0xB5, 0x39, 0x26), Col(0x9F, 0x2C, 0x09, 0x2D), Col(0xC4, 0x40, 0x6D, 0x23)),
            State(Col(0xF4, 0xBC, 0xD4, 0x54), Col(0x32, 0xE5, 0x54, 0xD0), Col(0x75, 0xF1, 0xD6, 0xC5), Col(0x1D, 0xD0, 0x3B, 0x3C)));
  }

  lemma Round5Sums()
    ensures Sum(0xF4, 0x3C) == 0xC8 && Sum(0xBC, 0xAA) == 0x16 && Sum(0xD4, 0xA3) == 0x77 && Sum(0x54, 0xE8) == 0xBC
    ensures Sum(0x32, 0xA9) == 0x9B && Sum(0xE5, 0x9F) == 0x7A && Sum(0x54, 0x9D) == 0xC9 && Sum(0xD0, 0xEB) == 0x3B
    ensures Sum(0x75, 0x50) == 0x25 && Sum(0xF1, 0xF3) == 0x02 && Sum(0xD6, 0xAF) == 0x79 && Sum(0xC5, 0x57) == 0x92
    ensures Sum(0x1D, 0xAD) == 0xB0 && Sum(0xD0, 0xF6) == 0x26 && Sum(0x3B, 0x22) == 0x19 && Sum(0x3C, 0xAA) == 0x96
  {
  }

  lemma Round5Facts()
    ensures Sbox(0xC8) == 0xE8 && Sbox(0x7A) == 0xDA && Sbox(0x79) == 0xB6 && Sbox(0x96) == 0x90
    ensures Sbox(0x9B) == 0x14 && Sbox(0x02) == 0x77 && Sbox(0x19) == 0xD4 && Sbox(0xBC) == 0x65
    ensures Sbox(0x25) == 0x3F && Sbox(0x26) == 0xF7 && Sbox(0x77) == 0xF5 && Sbox(0x3B) == 0xE2
    ensures Sbox(0xB0) == 0xE7 && Sbox(0x16) == 0x47 && Sbox(0xC9) == 0xDD && Sbox(0x92) == 0x4F
  {
  }

  lemma Round5Mixed()
    ensures Mixed(0xE8, 0xDA, 0xB6, 0x90) == Col(0x98, 0x16, 0xEE, 0x74) && Mixed(0x14, 0x77, 0xD4, 0x65) == Col(0x00, 0xF8, 0x7F, 0x55)
    ensures Mixed(0x3F, 0xF7, 0xF5, 0xE2) == Col(0x6B, 0x2C, 0x04, 0x9C) && Mixed(0xE7, 0x47, 0xDD, 0x4F) == Col(0x8E, 0x5A, 0xD0, 0x36)
  {
  }

  lemma Round5(t: Boxes, k: seq<seq<Word>>, p: seq<Word>)
    requires Standard(t) && IsSchedule(k, 4) && |p| == 4 && |k| == 11 && Rounds(t, k, p, 5) == St(State(Col(0xF4, 0xBC, 0xD4, 0x54), Col(0x32, 0xE5, 0x54, 0xD0), Col(0x75, 0xF1, 0xD6, 0xC5), Col(0x1D, 0xD0, 0x3B, 0x3C)))
    requires k[5] == St(State(Col(0x3C, 0xAA, 0xA3, 0xE8), Col(0xA9, 0x9F, 0x9D, 0xEB), Col(0x50, 0xF3, 0xAF, 0x57), Col(0xAD, 0xF6, 0x22, 0xAA)))
    ensures Rounds(t, k, p, 6) == St(State(Col(0x98, 0x16, 0xEE, 0x74), Col(0x00, 0xF8, 0x7F, 0x55), Col(0x6B, 0x2C, 0x04, 0x9C), Col(0x8E, 0x5A, 0xD0, 0x36)))
  {
    hide Standard, Rounds, St, Sbox, Sum, Mixed;
    Round5Sums();
    Round5Facts();
    Round5Mixed();
    RoundTo(t, k, p, 5, State(Col(0xF4, 0xBC, 0xD4, 0x54), Col(0x32, 0xE5, 0x54, 0xD0), Col(0x75, 0xF1, 0xD6, 0xC5), Col(0x1D, 0xD0, 0x3B, 0x3C)),
            State(Col(0x3C, 0xAA, 0xA3, 0xE8), Col(0xA9, 0x9F, 0x9D, 0xEB), Col(0x50, 0xF3, 0xAF, 0x57), Col(0xAD, 0xF6, 0x22, 0xAA)),
            State(Col(0xC8, 0x16, 0x77, 0xBC), Col(0x9B, 0x7A, 0xC9, 0x3B), Col(0x25, 0x02, 0x79, 0x92), Col(0xB0, 0x26, 0x19, 0x96)),
            State(Col(0xE8, 0xDA, 0xB6, 0x90), Col(0x14, 0x77, 0xD4, 0x65), Col(0x3F, 0xF7, 0xF5, 0xE2), Col(0xE7, 0x47, 0xDD, 0x4F)),
            State(Col(0x98, 0x16, 0xEE, 0x74), Col(0x00, 0xF8, 0x7F, 0x55), Col(0x6B, 0x2C, 0x04, 0x9C), Col(0x8E, 0x5A, 0xD0, 0x36)));
  }

  lemma Round6Sums()
    ensures Sum(0x98, 0x5E) == 0xC6 && Sum(0x16, 0x39) == 0x2F && Sum(0xEE, 0x0F) == 0xE1 && Sum(0x74, 0x7D) == 0x09
    ensures Sum(0x00, 0xF7) == 0xF7 && Sum(0xF8, 0xA6) == 0x5E && Sum(0x7F, 0x92) == 0xED && Sum(0x55, 0x96) == 0xC3
    ensures Sum(0x6B, 0xA7) == 0xCC && Sum(0x2C, 0x55) == 0x79 && Sum(0x04, 0x3D) == 0x39 && Sum(0x9C, 0xC1) == 0x5D
    ensures Sum(0x8E, 0x0A) == 0x84 && Sum(0x5A, 0xA3) == 0xF9 && Sum(0xD0, 0x1F) == 0xCF && Sum(0x36, 0x6B) == 0x5D
  {
  }

  lemma Round6Facts()
    ensures Sbox(0xC6) == 0xB4 && Sbox(0x5E) == 0x58 && Sbox(0x39) == 0x12 && Sbox(0x5D) == 0x4C
    ensures Sbox(0xF7) == 0x68 && Sbox(0x79) == 0xB6 && Sbox(0xCF) == 0x8A && Sbox(0x09) == 0x01
    ensures Sbox(0xCC) == 0x4B && Sbox(0xF9) == 0x99 && Sbox(0xE1) == 0xF8 && Sbox(0xC3) == 0x2E
    ensures Sbox(0x84) == 0x5F && Sbox(0x2F) == 0x15 && Sbox(0xED) == 0x55
  {
  }

  lemma Round6Mixed()
    ensures Mixed(0xB4, 0x58, 0x12, 0x4C) == Col(0xC5, 0x7E, 0x1C, 0x15) && Mixed(0x68, 0xB6, 0x8A, 0x01) == Col(0x9A, 0x9B, 0xD2, 0x86)
    ensures Mixed(0x4B, 0x99, 0xF8, 0x2E) == Col(0xF0, 0x5F, 0x4B, 0xE0) && Mixed(0x5F, 0x15, 0x55, 0x4C) == Col(0x98, 0xC6, 0x34, 0x39)
  {
  }

  lemma Round6(t: Boxes, k: seq<seq<Word>>, p: seq<Word>)
    requires Standard(t) && IsSchedule(k, 4) && |p| == 4 && |k| == 11 && Rounds(t, k, p, 6) == St(State(Col(0x98, 0x16, 0xEE, 0x74), Col(0x00, 0xF8, 0x7F, 0x55), Col(0x6B, 0x2C, 0x04, 0x9C), Col(0x8E, 0x5A, 0xD0, 0x36)))
    requires k[6] == St(State(Col(0x5E, 0x39, 0x0F, 0x7D), Col(0xF7, 0xA6, 0x92, 0x96), Col(0xA7, 0x55, 0x3D, 0xC1), Col(0x0A, 0xA3, 0x1F, 0x6B)))
    ensures Rounds(t, k, p, 7) == St(State(Col(0xC5, 0x7E, 0x1C, 0x15), Col(0x9A, 0x9B, 0xD2, 0x86), Col(0xF0, 0x5F, 0x4B, 0xE0), Col(0x98, 0xC6, 0x34, 0x39)))
  {
    hide Standard, Rounds, St, Sbox, Sum, Mixed;
    Round6Sums();
    Round6Facts();
    Round6Mixed();
    RoundTo(t, k, p, 6, State(Col(0x98, 0x16, 0xEE, 0x74), Col(0x00, 0xF8, 0x7F, 0x55), Col(0x6B, 0x2C, 0x04, 0x9C), Col(0x8E, 0x5A, 0xD0, 0x36)),
            State(Col(0x5E, 0x39, 0x0F, 0x7D), Col(0xF7, 0xA6, 0x92, 0x96), Col(0xA7, 0x55, 0x3D, 0xC1), Col(0x0A, 0xA3, 0x1F, 0x6B)),
            State(Col(0xC6, 0x2F, 0xE1, 0x09), Col(0xF7, 0x5E, 0xED, 0xC3), Col(0xCC, 0x79, 0x39, 0x5D), Col(0x84, 0xF9, 0xCF, 0x5D)),
            State(Col(0xB4, 0x58, 0x12, 0x4C), Col(0x68, 0xB6, 0x8A, 0x01), Col(0x4B, 0x99, 0xF8, 0x2E), Col(0x5F, 0x15, 0x55, 0x4C)),
            State(Col(0xC5, 0x7E, 0x1C, 0x15), Col(0x9A, 0x9B, 0xD2, 0x86), Col(0xF0, 0x5F, 0x4B, 0xE0), Col(0x98, 0xC6, 0x34, 0x39)));
  }

  lemma Round7Sums()
    ensures Sum(0xC5, 0x14) == 0xD1 && Sum(0x7E, 0xF9) == 0x87 && Sum(0x1C, 0x70) == 0x6C && Sum(0x15, 0x1A) == 0x0F
    ensures Sum(0x9A, 0xE3) == 0x79 && Sum(0x9B, 0x5F) == 0xC4 && Sum(0xD2, 0xE2) == 0x30 && Sum(0x86, 0x8C) == 0x0A
    ensures Sum(0xF0, 0x44) == 0xB4 && Sum(0x5F, 0x0A) == 0x55 && Sum(0x4B, 0xDF) == 0x94 && Sum(0xE0, 0x4D) == 0xAD
    ensures Sum(0x98, 0x4E) == 0xD6 && Sum(0xC6, 0xA9) == 0x6F && Sum(0x34, 0xC0) == 0xF4 && Sum(0x39, 0x26) == 0x1F
  {
  }

  lemma Round7Facts()
    ensures Sbox(0xD1) == 0x3E && Sbox(0xC4) == 0x1C && Sbox(0x94) == 0x22 && Sbox(0x1F) == 0xC0
    ensures Sbox(0x79) == 0xB6 && Sbox(0x55) == 0xFC && Sbox(0xF4) == 0xBF && Sbox(0x0F) == 0x76
    ensures Sbox(0xB4) == 0x8D && Sbox(0x6F) == 0xA8 && Sbox(0x6C) == 0x50 && Sbox(0x0A) == 0x67
    ensures Sbox(0xD6) == 0xF6 && Sbox(0x87) == 0x17 && Sbox(0x30) == 0x04 && Sbox(0xAD) == 0x95
  {
  }

  lemma Round7Mixed()
    ensures Mixed(0x3E, 0x1C, 0x22, 0xC0) == Col(0xBA, 0xA0, 0x3D, 0xE7) && Mixed(0xB6, 0xFC, 0xBF, 0x76) == Col(0xA1, 0xF9, 0xB5, 0x6E)
    ensures Mixed(0x8D, 0xA8, 0x50, 0x67) == Col(0xD5, 0x51, 0x2C, 0xBA) && Mixed(0xF6, 0x17, 0x04, 0x95) == Col(0x5F, 0x41, 0x4D, 0x23)
  {
  }

  lemma Round7(t: Boxes, k: seq<seq<Word>>, p: seq<Word>)
    requires Standard(t) && IsSchedule(k, 4) && |p| == 4 && |k| == 11 && Rounds(t, k, p, 7) == St(State(Col(0xC5, 0x7E, 0x1C, 0x15), Col(0x9A, 0x9B, 0xD2, 0x86), Col(0xF0, 0x5F, 0x4B, 0xE0), Col(0x98, 0xC6, 0x34, 0x39)))
    requires k[7] == St(State(Col(0x14, 0xF9, 0x70, 0x1A), Col(0xE3, 0x5F, 0xE2, 0x8C), Col(0x44, 0x0A, 0xDF, 0x4D), Col(0x4E, 0xA9, 0xC0, 0x26)))
    ensures Rounds(t, k, p, 8) == St(State(Col(0xBA, 0xA0, 0x3D, 0xE7), Col(0xA1, 0xF9, 0xB5, 0x6E), Col(0xD5, 0x51, 0x2C, 0xBA), Col(0x5F, 0x41, 0x4D, 0x23)))
  {
    hide Standard, Rounds, St, Sbox, Sum, Mixed;
    Round7Sums();
    Round7Facts();
    Round7Mixed();
    RoundTo(t, k, p, 7, State(Col(0xC5, 0x7E, 0x1C, 0x15), Col(0x9A, 0x9B, 0xD2, 0x86), Col(0xF0, 0x5F, 0x4B, 0xE0), Col(0x98, 0xC6, 0x34, 0x39)),
            State(Col(0x14, 0xF9, 0x70, 0x1A), Col(0xE3, 0x5F, 0xE2, 0x8C), Col(0x44, 0x0A, 0xDF, 0x4D), Col(0x4E, 0xA9, 0xC0, 0x26)),
            State(Col(0xD1, 0x87, 0x6C, 0x0F), Col(0x79, 0xC4, 0x30, 0x0A), Col(0xB4, 0x55, 0x94, 0xAD), Col(0xD6, 0x6F, 0xF4, 0x1F)),
            State(Col(0x3E, 0x1C, 0x22, 0xC0), Col(0xB6, 0xFC, 0xBF, 0x76), Col(0x8D, 0xA8, 0x50, 0x67), Col(0xF6, 0x17, 0x04, 0x95)),
            State(Col(0xBA, 0xA0, 0x3D, 0xE7), Col(0xA1, 0xF9, 0xB5, 0x6E), Col(0xD5, 0x51, 0x2C, 0xBA), Col(0x5F, 0x41, 0x4D, 0x23)));
  }

  lemma Round8Sums()
    ensures Sum(0xBA, 0x47) == 0xFD && Sum(0xA0, 0x43) == 0xE3 && Sum(0x3D, 0x87) == 0xBA && Sum(0xE7, 0x35) == 0xD2
    ensures Sum(0xA1, 0xA4) == 0x05 && Sum(0xF9, 0x1C) == 0xE5 && Sum(0xB5, 0x65) == 0xD0 && Sum(0x6E, 0xB9) == 0xD7
    ensures Sum(0xD5, 0xE0) == 0x35 && Sum(0x51, 0x16) == 0x47 && Sum(0x2C, 0xBA) == 0x96 && Sum(0xBA, 0xF4) == 0x4E
    ensures Sum(0x5F, 0xAE) == 0xF1 && Sum(0x41, 0xBF) == 0xFE && Sum(0x4D, 0x7A) == 0x37 && Sum(0x23, 0xD2) == 0xF1
  {
  }

  lemma Round8Facts()
    ensures Sbox(0xFD) == 0x54 && Sbox(0xE5) == 0xD9 && Sbox(0x96) == 0x90 && Sbox(0xF1) == 0xA1
    ensures Sbox(0x05) == 0x6B && Sbox(0x47) == 0xA0 && Sbox(0x37) == 0x9A && Sbox(0xD2) == 0xB5
    ensures Sbox(0x35) == 0x96 && Sbox(0xFE) == 0xBB && Sbox(0xBA) == 0xF4 && Sbox(0xD7) == 0x0E
    ensures Sbox(0xE3) == 0x11 && Sbox(0xD0) == 0x70 && Sbox(0x4E) == 0x2F
  {
  }

  lemma Round8Mixed()
    ensures Mixed(0x54, 0xD9, 0x90, 0xA1) == Col(0xE9, 0xF7, 0x4E, 0xEC) && Mixed(0x6B, 0xA0, 0x9A, 0xB5) == Col(0x02, 0x30, 0x20, 0xF6)
    ensures Mixed(0x96, 0xBB, 0xF4, 0x0E) == Col(0x1B, 0xF2, 0xCC, 0xF2) && Mixed(0xA1, 0x11, 0x70, 0x2F) == Col(0x35, 0x3C, 0x21, 0xC7)
  {
  }

  lemma Round8(t: Boxes, k: seq<seq<Word>>, p: seq<Word>)
    requires Standard(t) && IsSchedule(k, 4) && |p| == 4 && |k| == 11 && Rounds(t, k, p, 8) == St(State(Col(0xBA, 0xA0, 0x3D, 0xE7), Col(0xA1, 0xF9, 0xB5, 0x6E), Col(0xD5, 0x51, 0x2C, 0xBA), Col(0x5F, 0x41, 0x4D, 0x23)))
    requires k[8] == St(State(Col(0x47, 0x43, 0x87, 0x35), Col(0xA4, 0x1C, 0x65, 0xB9), Col(0xE0, 0x16, 0xBA, 0xF4), Col(0xAE, 0xBF, 0x7A, 0xD2)))
    ensures Rounds(t, k, p, 9) == St(State(Col(0xE9, 0xF7, 0x4E, 0xEC), Col(0x02, 0x30, 0x20, 0xF6), Col(0x1B, 0xF2, 0xCC, 0xF2), Col(0x35, 0x3C, 0x21, 0xC7)))
  {
    hide Standard, Rounds, St, Sbox, Sum, Mixed;
    Round8Sums();
    Round8Facts();
    Round8Mixed();
    RoundTo(t, k, p, 8, State(Col(0xBA, 0xA0, 0x3D, 0xE7), Col(0xA1, 0xF9, 0xB5, 0x6E), Col(0xD5, 0x51, 0x2C, 0xBA), Col(0x5F, 0x41, 0x4D, 0x23)),
            State(Col(0x47, 0x43, 0x87, 0x35), Col(0xA4, 0x1C, 0x65, 0xB9), Col(0xE0, 0x16, 0xBA, 0xF4), Col(0xAE, 0xBF, 0x7A, 0xD2)),
            State(Col(0xFD, 0xE3, 0xBA, 0xD2), Col(0x05, 0xE5, 0xD0, 0xD7), Col(0x35, 0x47, 0x96, 0x4E), Col(0xF1, 0xFE, 0x37, 0xF1)),
            State(Col(0x54, 0xD9, 0x90, 0xA1), Col(0x6B, 0xA0, 0x9A, 0xB5), Col(0x96, 0xBB, 0xF4, 0x0E), Col(0xA1, 0x11, 0x70, 0x2F)),
            State(Col(0xE9, 0xF7, 0x4E, 0xEC), Col(0x02, 0x30, 0x20, 0xF6), Col(0x1B, 0xF2, 0xCC, 0xF2), Col(0x35, 0x3C, 0x21, 0xC7)));
  }

  lemma Round9Sums()
    ensures Sum(0xE9, 0x54) == 0xBD && Sum(0xF7, 0x99) == 0x6E && Sum(0x4E, 0x32) == 0x7C && Sum(0xEC, 0xD1) == 0x3D
    ensures Sum(0x02, 0xF0) == 0xF2 && Sum(0x30, 0x85) == 0xB5 && Sum(0x20, 0x57) == 0x77 && Sum(0xF6, 0x68) == 0x9E
    ensures Sum(0x1B, 0x10) == 0x0B && Sum(0xF2, 0x93) == 0x61 && Sum(0xCC, 0xED) == 0x21 && Sum(0xF2, 0x9C) == 0x6E
    ensures Sum(0x35, 0xBE) == 0x8B && Sum(0x3C, 0x2C) == 0x10 && Sum(0x21, 0x97) == 0xB6 && Sum(0xC7, 0x4E) == 0x89
  {
  }

  lemma Round9Facts()
    ensures Sbox(0xBD) == 0x7A && Sbox(0xB5) == 0xD5 && Sbox(0x21) == 0xFD && Sbox(0x89) == 0xA7
    ensures Sbox(0xF2) == 0x89 && Sbox(0x61) == 0xEF && Sbox(0xB6) == 0x4E && Sbox(0x3D) == 0x27
    ensures Sbox(0x0B) == 0x2B && Sbox(0x10) == 0xCA && Sbox(0x7C) == 0x10 && Sbox(0x9E) == 0x0B
    ensures Sbox(0x8B) == 0x3D && Sbox(0x6E) == 0x9F && Sbox(0x77) == 0xF5
  {
  }

  lemma Round9Mixed()
    ensures Sum(0x7A, 0x13) == 0x69 && Sum(0xD5, 0x11) == 0xC4 && Sum(0xFD, 0x1D) == 0xE0 && Sum(0xA7, 0x7F) == 0xD8
    ensures Sum(0x89, 0xE3) == 0x6A && Sum(0xEF, 0x94) == 0x7B && Sum(0x4E, 0x4A) == 0x04 && Sum(0x27, 0x17) == 0x30
    ensures Sum(0x2B, 0xF3) == 0xD8 && Sum(0xCA, 0x07) == 0xCD && Sum(0x10, 0xA7) == 0xB7 && Sum(0x0B, 0x8B) == 0x80
    ensures Sum(0x3D, 0x4D) == 0x70 && Sum(0x9F, 0x2B) == 0xB4 && Sum(0xF5, 0x30) == 0xC5 && Sum(0x9F, 0xC5) == 0x5A
  {
  }

  lemma Round9(t: Boxes, k: seq<seq<Word>>, p: seq<Word>)
    requires Standard(t) && IsSchedule(k, 4) && |p| == 4 && |k| == 11 && Rounds(t, k, p, 9) == St(State(Col(0xE9, 0xF7, 0x4E, 0xEC), Col(0x02, 0x30, 0x20, 0xF6), Col(0x1B, 0xF2, 0xCC, 0xF2), Col(0x35, 0x3C, 0x21, 0xC7)))
    requires k[9] == St(State(Col(0x54, 0x99, 0x32, 0xD1), Col(0xF0, 0x85, 0x57, 0x68), Col(0x10, 0x93, 0xED, 0x9C), Col(0xBE, 0x2C, 0x97, 0x4E)))
    requires k[10] == St(State(Col(0x13, 0x11, 0x1D, 0x7F), Col(0xE3, 0x94, 0x4A, 0x17), Col(0xF3, 0x07, 0xA7, 0x8B), Col(0x4D, 0x2B, 0x30, 0xC5)))
    ensures Enciphered(t, k, p) == St(State(Col(0x69, 0xC4, 0xE0, 0xD8), Col(0x6A, 0x7B, 0x04, 0x30), Col(0xD8, 0xCD, 0xB7, 0x80), Col(0x70, 0xB4, 0xC5, 0x5A)))
  {
    hide Standard, Rounds, St, Sbox, Sum, Mixed, Enciphered;
    Round9Sums();
    Round9Facts();
    Round9Mixed();
    LastTo(t, k, p, State(Col(0xE9, 0xF7, 0x4E, 0xEC), Col(0x02, 0x30, 0x20, 0xF6), Col(0x1B, 0xF2, 0xCC, 0xF2), Col(0x35, 0x3C, 0x21, 0xC7)),
           State(Col(0x54, 0x99, 0x32, 0xD1), Col(0xF0, 0x85, 0x57, 0x68), Col(0x10, 0x93, 0xED, 0x9C), Col(0xBE, 0x2C, 0x97, 0x4E)),
           State(Col(0xBD, 0x6E, 0x7C, 0x3D), Col(0xF2, 0xB5, 0x77, 0x9E), Col(0x0B, 0x61, 0x21, 0x6E), Col(0x8B, 0x10, 0xB6, 0x89)),
           State(Col(0x7A, 0xD5, 0xFD, 0xA7), Col(0x89, 0xEF, 0x4E, 0x27), Col(0x2B, 0xCA, 0x10, 0x0B), Col(0x3D, 0x9F, 0xF5, 0x9F)),
           State(Col(0x13, 0x11, 0x1D, 0x7F), Col(0xE3, 0x94, 0x4A, 0x17), Col(0xF3, 0x07, 0xA7, 0x8B), Col(0x4D, 0x2B, 0x30, 0xC5)),
           State(Col(0x69, 0xC4, 0xE0, 0xD8), Col(0x6A, 0x7B, 0x04, 0x30), Col(0xD8, 0xCD, 0xB7, 0x80), Col(0x70, 0xB4, 0xC5, 0x5A)));
  }

  /** The key 00 01 02 ... 0f. */
  const KEY: seq<Byte> := [
    At(0x00), At(0x01), At(0x02), At(0x03), At(0x04), At(0x05), At(0x06), At(0x07),
    At(0x08), At(0x09), At(0x0A), At(0x0B), At(0x0C), At(0x0D), At(0x0E), At(0x0F)
  ]

  lemma KeyIs16()
    ensures |KEY| == 16 && |KeyWords(KEY)| == 4 && KeyWords(KEY) == St(State(Col(0x00, 0x01, 0x02, 0x03), Col(0x04, 0x05, 0x06, 0x07), Col(0x08, 0x09, 0x0A, 0x0B), Col(0x0C, 0x0D, 0x0E, 0x0F)))
  {
    hide At;
  }

  lemma RoundKey(flat: seq<Word>, w: seq<Word>, r: nat)
    requires |flat| >= 44 && w == flat[..44] && r <= 10
    ensures (10 + 1) * 4 <= |flat| && Keys(flat, 4, 10)[r] == w[4 * r..4 * r + 4]
  {
    KeyIs(flat, 4, 10, r);
    assert r * 4 == 4 * r;
    assert flat[4 * r..4 * r + 4] == w[4 * r..4 * r + 4];
  }

  /** aes_setup with a key of 16 bytes. */
  method SetUp(key: seq<Byte>) returns (ctx: AesContext)
    requires |key| == 16
    ensures fresh(ctx) && fresh(ctx.keysched) && fresh(ctx.invkeysched) && ctx.Ready() && ctx.nb == 4 && ctx.nr == 10
    ensures Standard(ctx.t) && ctx.keysched.Length == MAX_WORDS
    ensures IsExpansion(ctx.t, KeyWords(key), ctx.keysched[..44])
  {
    hide AES, Standard, IsExpansion, Keys, KeyWords, IsInverseSchedule, AreInverse, AreTables;
    ctx := new AesContext();
    AesStandard();
    ctx.Setup(16, key);
    assert (ctx.nr + 1) * ctx.nb == 44;
  }

  /** And the encryption of 00 11 22 ... ff. */
  method Vector() returns (block: array<Word>)
    ensures block[..] == St(State(Col(0x69, 0xC4, 0xE0, 0xD8), Col(0x6A, 0x7B, 0x04, 0x30), Col(0xD8, 0xCD, 0xB7, 0x80), Col(0x70, 0xB4, 0xC5, 0x5A)))
  {
    hide Standard, IsExpansion, Keys, Enciphered, St, W, KeyWords, IsSchedule, AesContext.Ready;
    KeyIs16();
    var ctx := SetUp(KEY);
    block := new Word[4](i => ZERO);
    block[0], block[1] := W(Col(0x00, 0x11, 0x22, 0x33)), W(Col(0x44, 0x55, 0x66, 0x77));
    block[2], block[3] := W(Col(0x88, 0x99, 0xAA, 0xBB)), W(Col(0xCC, 0xDD, 0xEE, 0xFF));
    ghost var flat, p := ctx.keysched[..], block[..];
    BlockIs(p);
    VectorIs(ctx.t, flat, flat[..44], p);
    ctx.Encrypt(block);
  }

  lemma BlockIs(p: seq<Word>)
    requires p == [W(Col(0x00, 0x11, 0x22, 0x33)), W(Col(0x44, 0x55, 0x66, 0x77)), W(Col(0x88, 0x99, 0xAA, 0xBB)), W(Col(0xCC, 0xDD, 0xEE, 0xFF))]
    ensures p == St(State(Col(0x00, 0x11, 0x22, 0x33), Col(0x44, 0x55, 0x66, 0x77), Col(0x88, 0x99, 0xAA, 0xBB), Col(0xCC, 0xDD, 0xEE, 0xFF)))
  {
    hide W;
  }

  lemma VectorIs(t: Boxes, flat: seq<Word>, w: seq<Word>, p: seq<Word>)
    requires |flat| >= 44 && w == flat[..44] && Standard(t) && IsExpansion(t, KeyWords(KEY), w)
    requires p == St(State(Col(0x00, 0x11, 0x22, 0x33), Col(0x44, 0x55, 0x66, 0x77), Col(0x88, 0x99, 0xAA, 0xBB), Col(0xCC, 0xDD, 0xEE, 0xFF)))
    ensures (10 + 1) * 4 <= |flat| && IsSchedule(Keys(flat, 4, 10), 4)
    ensures Enciphered(t, Keys(flat, 4, 10), p) == St(State(Col(0x69, 0xC4, 0xE0, 0xD8), Col(0x6A, 0x7B, 0x04, 0x30), Col(0xD8, 0xCD, 0xB7, 0x80), Col(0x70, 0xB4, 0xC5, 0x5A)))
  {
    hide Standard, IsExpansion, Keys, Enciphered, KeyWords, IsSchedule, Rounds, W;
    var key := KeyWords(KEY);
    KeyIs16();
    FirstWords(t, key, w);
    Key1(t, key, w);
    Key2(t, key, w);
    Key3(t, key, w);
    Key4(t, key, w);
    Key5(t, key, w);
    Key6(t, key, w);
    Key7(t, key, w);
    Key8(t, key, w);
    Key9(t, key, w);
    Key10(t, key, w);
    KeysSchedule(flat, 4, 10);
    var k := Keys(flat, 4, 10);
    RoundKey(flat, w, 0);
    RoundKey(flat, w, 1);
    RoundKey(flat, w, 2);
    RoundKey(flat, w, 3);
    RoundKey(flat, w, 4);
    RoundKey(flat, w, 5);
    RoundKey(flat, w, 6);
    RoundKey(flat, w, 7);
    RoundKey(flat, w, 8);
    RoundKey(flat, w, 9);
    RoundKey(flat, w, 10);
    RoundsStart(t, k, p);
    Round0(t, k, p);
    Round1(t, k, p);
    Round2(t, k, p);
    Round3(t, k, p);
    Round4(t, k, p);
    Round5(t, k, p);
    Round6(t, k, p);
    Round7(t, k, p);
    Round8(t, k, p);
    Round9(t, k, p);
  }
}
