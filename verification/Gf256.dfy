/** GF(2^8) on bytes, and the MixColumns matrices of section 4.3 of FIPS 197 on words of four bytes. */
module Gf256 {

  /** A byte as its bits, most significant first. */
  datatype Byte = Byte(x7: bool, x6: bool, x5: bool, x4: bool, x3: bool, x2: bool, x1: bool, x0: bool)

  const NIL := Byte(false, false, false, false, false, false, false, false)

  function Add(x: Byte, y: Byte): Byte {
    Byte(x.x7 != y.x7, x.x6 != y.x6, x.x5 != y.x5, x.x4 != y.x4, x.x3 != y.x3, x.x2 != y.x2, x.x1 != y.x1, x.x0 != y.x0)
  }

  lemma AddComm(x: Byte, y: Byte)
    ensures Add(x, y) == Add(y, x)
  {
  }

  lemma AddAssoc(x: Byte, y: Byte, z: Byte)
    ensures Add(Add(x, y), z) == Add(x, Add(y, z))
  {
  }

  lemma AddSelf(x: Byte)
    ensures Add(x, x) == NIL
  {
  }

  lemma AddNil(x: Byte)
    ensures Add(x, NIL) == x && Add(NIL, x) == x
  {
    var r := Add(x, NIL);
    assert r.x7 == x.x7 && r.x6 == x.x6 && r.x5 == x.x5 && r.x4 == x.x4;
    assert r.x3 == x.x3 && r.x2 == x.x2 && r.x1 == x.x1 && r.x0 == x.x0;
    AddComm(x, NIL);
  }

  /** Sums of four, taken in pairs. */
  lemma AddFours(a: Byte, b: Byte, c: Byte, d: Byte, e: Byte, f: Byte, g: Byte, h: Byte)
    ensures Add(Add(Add(Add(a, e), Add(b, f)), Add(c, g)), Add(d, h))
            == Add(Add(Add(Add(a, b), c), d), Add(Add(Add(e, f), g), h))
  {
    hide Add;
    AddPairs(a, e, b, f);
    AddPairs(Add(a, b), Add(e, f), c, g);
    AddPairs(Add(Add(a, b), c), Add(Add(e, f), g), d, h);
  }

  lemma AddPairs(a: Byte, b: Byte, c: Byte, d: Byte)
    ensures Add(Add(a, b), Add(c, d)) == Add(Add(a, c), Add(b, d))
  {
  }

  /** A 32-bit word as its bytes, most significant first. */
  datatype Word = Word(b0: Byte, b1: Byte, b2: Byte, b3: Byte)

  const ZERO := Word(NIL, NIL, NIL, NIL)

  function Xor(v: Word, w: Word): Word {
    Word(Add(v.b0, w.b0), Add(v.b1, w.b1), Add(v.b2, w.b2), Add(v.b3, w.b3))
  }

  lemma XorTwice(v: Word, w: Word)
    ensures Xor(Xor(v, w), w) == v && Xor(v, Xor(v, w)) == w && Xor(v, w) == Xor(w, v)
  {
    AddTwice(v.b0, w.b0);
    AddTwice(v.b1, w.b1);
    AddTwice(v.b2, w.b2);
    AddTwice(v.b3, w.b3);
    hide Add;
  }

  lemma AddTwice(x: Byte, y: Byte)
    ensures Add(Add(x, y), y) == x && Add(x, Add(x, y)) == y && Add(x, y) == Add(y, x)
  {
    hide Add;
    AddAssoc(x, y, y);
    AddAssoc(x, x, y);
    AddSelf(x);
    AddSelf(y);
    AddNil(x);
    AddNil(y);
    AddComm(x, y);
  }

  /** mulby2: shifted left, with 0x1B added when the top bit falls off. */
  function Mul2(x: Byte): Byte {
    Byte(x.x6, x.x5, x.x4, x.x3 != x.x7, x.x2 != x.x7, x.x1, x.x0 != x.x7, x.x7)
  }

  function Mul3(x: Byte): Byte { Add(Mul2(x), x) }

  function Mul4(x: Byte): Byte { Mul2(Mul2(x)) }

  function Mul8(x: Byte): Byte { Mul2(Mul4(x)) }

  function Mul9(x: Byte): Byte { Add(Mul8(x), x) }

  function Mul11(x: Byte): Byte { Add(Mul8(x), Mul3(x)) }

  function Mul13(x: Byte): Byte { Add(Add(Mul8(x), Mul4(x)), x) }

  function Mul14(x: Byte): Byte { Add(Add(Mul8(x), Mul4(x)), Mul2(x)) }

  lemma Mul2Linear(x: Byte, y: Byte)
    ensures Mul2(Add(x, y)) == Add(Mul2(x), Mul2(y))
  {
  }

  /** Every constant multiple is linear. */
  lemma MulLinear(x: Byte, y: Byte)
    ensures Mul2(Add(x, y)) == Add(Mul2(x), Mul2(y)) && Mul3(Add(x, y)) == Add(Mul3(x), Mul3(y))
    ensures Mul9(Add(x, y)) == Add(Mul9(x), Mul9(y)) && Mul11(Add(x, y)) == Add(Mul11(x), Mul11(y))
    ensures Mul13(Add(x, y)) == Add(Mul13(x), Mul13(y)) && Mul14(Add(x, y)) == Add(Mul14(x), Mul14(y))
  {
    hide Mul2, Add;
    Mul2Linear(x, y);
    Mul2Linear(Mul2(x), Mul2(y));
    Mul2Linear(Mul4(x), Mul4(y));
    AddPairs(Mul2(x), Mul2(y), x, y);
    AddPairs(Mul8(x), Mul8(y), x, y);
    AddPairs(Mul8(x), Mul8(y), Mul3(x), Mul3(y));
    AddPairs(Mul8(x), Mul8(y), Mul4(x), Mul4(y));
    AddPairs(Add(Mul8(x), Mul4(x)), Add(Mul8(y), Mul4(y)), x, y);
    AddPairs(Add(Mul8(x), Mul4(x)), Add(Mul8(y), Mul4(y)), Mul2(x), Mul2(y));
  }

  /** The columns of the matrices: what one byte in each position contributes. */
  function Mix0(x: Byte): Word { Word(Mul2(x), x, x, Mul3(x)) }

  function Mix1(x: Byte): Word { Word(Mul3(x), Mul2(x), x, x) }

  function Mix2(x: Byte): Word { Word(x, Mul3(x), Mul2(x), x) }

  function Mix3(x: Byte): Word { Word(x, x, Mul3(x), Mul2(x)) }

  function InvMix0(x: Byte): Word { Word(Mul14(x), Mul9(x), Mul13(x), Mul11(x)) }

  function InvMix1(x: Byte): Word { Word(Mul11(x), Mul14(x), Mul9(x), Mul13(x)) }

  function InvMix2(x: Byte): Word { Word(Mul13(x), Mul11(x), Mul14(x), Mul9(x)) }

  function InvMix3(x: Byte): Word { Word(Mul9(x), Mul13(x), Mul11(x), Mul14(x)) }

  function MixColumn(w: Word): Word {
    Xor(Xor(Xor(Mix0(w.b0), Mix1(w.b1)), Mix2(w.b2)), Mix3(w.b3))
  }

  function InvMixColumn(w: Word): Word {
    Xor(Xor(Xor(InvMix0(w.b0), InvMix1(w.b1)), InvMix2(w.b2)), InvMix3(w.b3))
  }

  /** InvMixColumn is linear. */
  lemma InvMixXor(v: Word, w: Word)
    ensures InvMixColumn(Xor(v, w)) == Xor(InvMixColumn(v), InvMixColumn(w))
  {
    MulLinear(v.b0, w.b0);
    MulLinear(v.b1, w.b1);
    MulLinear(v.b2, w.b2);
    MulLinear(v.b3, w.b3);
    hide Mul9, Mul11, Mul13, Mul14, Mul2, Mul3, Add;
    XorFours(InvMix0(v.b0), InvMix1(v.b1), InvMix2(v.b2), InvMix3(v.b3),
             InvMix0(w.b0), InvMix1(w.b1), InvMix2(w.b2), InvMix3(w.b3));
  }

  lemma XorFours(a: Word, b: Word, c: Word, d: Word, e: Word, f: Word, g: Word, h: Word)
    ensures Xor(Xor(Xor(Xor(a, e), Xor(b, f)), Xor(c, g)), Xor(d, h))
            == Xor(Xor(Xor(Xor(a, b), c), d), Xor(Xor(Xor(e, f), g), h))
  {
    hide Add;
    AddFours(a.b0, b.b0, c.b0, d.b0, e.b0, f.b0, g.b0, h.b0);
    AddFours(a.b1, b.b1, c.b1, d.b1, e.b1, f.b1, g.b1, h.b1);
    AddFours(a.b2, b.b2, c.b2, d.b2, e.b2, f.b2, g.b2, h.b2);
    AddFours(a.b3, b.b3, c.b3, d.b3, e.b3, f.b3, g.b3, h.b3);
  }

  // InvMixColumn undoes MixColumn: on the column of each byte, and so on their sum.

  /** The sum of what the four bytes of a column contribute to one byte. */
  function Sum4(a: Byte, b: Byte, c: Byte, d: Byte): Byte {
    Add(Add(Add(a, b), c), d)
  }

  lemma SumTurns(a: Byte, b: Byte, c: Byte, d: Byte)
    ensures Sum4(a, b, c, d) == Sum4(b, c, d, a)
  {
    hide Add;
    AddAssoc(a, b, c);
    AddAssoc(a, Add(b, c), d);
    AddComm(a, Add(Add(b, c), d));
  }

  // The product of the two matrices: a byte meets itself with factor 1, the other three with factor 0.
  // The multiples by 16, 8, 4, 2 and 1 of the byte are p, q, r, t and x.

  lemma Cancel(a: Byte, b: Byte, c: Byte)
    ensures Add(Add(a, b), Add(b, c)) == Add(a, c)
  {
  }

  lemma Swap(a: Byte, b: Byte, c: Byte)
    ensures Add(Add(a, b), c) == Add(Add(a, c), b)
  {
    hide Add;
    AddAssoc(a, b, c);
    AddComm(b, c);
    AddAssoc(a, c, b);
  }

  lemma Sum0(p: Byte, q: Byte, r: Byte, t: Byte, x: Byte)
    ensures Sum4(Add(Add(p, q), r), Add(q, Add(t, x)), Add(Add(q, r), x), Add(Add(p, q), Add(t, x))) == x
  {
    hide Add;
    Sum0First(p, q, r, t, x);
    Sum0Second(p, q, r, t, x);
    AddAssoc(Add(p, q), t, x);
    AddTwice(Add(Add(p, q), t), x);
  }

  lemma Sum0First(p: Byte, q: Byte, r: Byte, t: Byte, x: Byte)
    ensures Add(Add(Add(p, q), r), Add(q, Add(t, x))) == Add(Add(p, r), Add(t, x))
  {
    hide Add;
    Swap(p, q, r);
    Cancel(Add(p, r), q, Add(t, x));
  }

  lemma Sum0Second(p: Byte, q: Byte, r: Byte, t: Byte, x: Byte)
    ensures Add(Add(Add(p, r), Add(t, x)), Add(Add(q, r), x)) == Add(Add(p, q), t)
  {
    hide Add;
    AddPairs(Add(p, r), Add(t, x), Add(q, r), x);
    AddComm(q, r);
    Cancel(p, r, q);
    AddTwice(t, x);
  }

  lemma Sum1(p: Byte, q: Byte, r: Byte, t: Byte, x: Byte)
    ensures Sum4(Add(p, t), Add(Add(q, r), t), Add(q, Add(t, x)), Add(Add(Add(p, q), Add(q, r)), Add(t, x))) == NIL
  {
    hide Add;
    AddComm(Add(q, r), t);
    Cancel(p, t, Add(q, r));
    AddAssoc(p, q, r);
    Sum0First(p, q, r, t, x);
    Cancel(p, q, r);
    AddSelf(Add(Add(p, r), Add(t, x)));
  }

  lemma Sum2(p: Byte, q: Byte, r: Byte, t: Byte, x: Byte)
    ensures Sum4(Add(Add(p, q), t), Add(q, x), Add(Add(q, r), t), Add(Add(p, q), Add(Add(r, t), Add(t, x)))) == NIL
  {
    hide Add;
    Sum2First(p, q, t, x);
    Sum2Second(p, q, r, t, x);
    Cancel(r, t, x);
    AddSelf(Add(Add(p, q), Add(r, x)));
  }

  lemma Sum2First(p: Byte, q: Byte, t: Byte, x: Byte)
    ensures Add(Add(Add(p, q), t), Add(q, x)) == Add(Add(p, t), x)
  {
    hide Add;
    Swap(p, q, t);
    Cancel(Add(p, t), q, x);
  }

  lemma Sum2Second(p: Byte, q: Byte, r: Byte, t: Byte, x: Byte)
    ensures Add(Add(Add(p, t), x), Add(Add(q, r), t)) == Add(Add(p, q), Add(r, x))
  {
    hide Add;
    Swap(p, t, x);
    AddComm(Add(q, r), t);
    Cancel(Add(p, x), t, Add(q, r));
    AddPairs(p, x, q, r);
    AddComm(x, r);
  }

  lemma Sum3(p: Byte, q: Byte, r: Byte, t: Byte, x: Byte)
    ensures Sum4(Add(p, Add(r, t)), Add(Add(q, r), x), Add(q, x), Add(Add(Add(p, q), Add(q, r)), Add(r, t))) == NIL
  {
    hide Add;
    Sum3First(p, q, r, t, x);
    AddTwice(Add(p, t), Add(q, x));
    Cancel(p, q, r);
    Cancel(p, r, t);
    AddSelf(Add(p, t));
  }

  lemma Sum3First(p: Byte, q: Byte, r: Byte, t: Byte, x: Byte)
    ensures Add(Add(p, Add(r, t)), Add(Add(q, r), x)) == Add(Add(p, t), Add(q, x))
  {
    hide Add;
    AddComm(r, t);
    AddAssoc(p, t, r);
    AddComm(q, r);
    AddAssoc(r, q, x);
    Cancel(Add(p, t), r, Add(q, x));
  }

  lemma Products(x: Byte)
    ensures Sum4(Mul14(Mul2(x)), Mul11(x), Mul13(x), Mul9(Mul3(x))) == x
    ensures Sum4(Mul9(Mul2(x)), Mul14(x), Mul11(x), Mul13(Mul3(x))) == NIL
    ensures Sum4(Mul13(Mul2(x)), Mul9(x), Mul14(x), Mul11(Mul3(x))) == NIL
    ensures Sum4(Mul11(Mul2(x)), Mul13(x), Mul9(x), Mul14(Mul3(x))) == NIL
  {
    hide Add, Mul2, Sum4;
    var p, q, r, t := Mul2(Mul8(x)), Mul8(x), Mul4(x), Mul2(x);
    Mul2Linear(t, x);
    Mul2Linear(r, t);
    Mul2Linear(q, r);
    Sum0(p, q, r, t, x);
    Sum1(p, q, r, t, x);
    Sum2(p, q, r, t, x);
    Sum3(p, q, r, t, x);
  }

  lemma InvMixBytes(w: Word)
    ensures InvMixColumn(w) == Word(
      Sum4(Mul14(w.b0), Mul11(w.b1), Mul13(w.b2), Mul9(w.b3)), Sum4(Mul9(w.b0), Mul14(w.b1), Mul11(w.b2), Mul13(w.b3)),
      Sum4(Mul13(w.b0), Mul9(w.b1), Mul14(w.b2), Mul11(w.b3)), Sum4(Mul11(w.b0), Mul13(w.b1), Mul9(w.b2), Mul14(w.b3)))
  {
    hide Add, Mul9, Mul11, Mul13, Mul14;
  }

  lemma InvMixOne(x: Byte)
    ensures InvMixColumn(Mix0(x)) == Word(x, NIL, NIL, NIL)
    ensures InvMixColumn(Mix1(x)) == Word(NIL, x, NIL, NIL)
    ensures InvMixColumn(Mix2(x)) == Word(NIL, NIL, x, NIL)
    ensures InvMixColumn(Mix3(x)) == Word(NIL, NIL, NIL, x)
  {
    hide Sum4, Mul2, Mul3, Mul9, Mul11, Mul13, Mul14, InvMixColumn;
    Products(x);
    InvMixBytes(Mix0(x));
    InvMixBytes(Mix1(x));
    InvMixBytes(Mix2(x));
    InvMixBytes(Mix3(x));
    Turns(Mul14(Mul2(x)), Mul11(x), Mul13(x), Mul9(Mul3(x)));
    Turns(Mul9(Mul2(x)), Mul14(x), Mul11(x), Mul13(Mul3(x)));
    Turns(Mul13(Mul2(x)), Mul9(x), Mul14(x), Mul11(Mul3(x)));
    Turns(Mul11(Mul2(x)), Mul13(x), Mul9(x), Mul14(Mul3(x)));
  }

  lemma Turns(a: Byte, b: Byte, c: Byte, d: Byte)
    ensures Sum4(a, b, c, d) == Sum4(b, c, d, a) == Sum4(c, d, a, b) == Sum4(d, a, b, c)
  {
    hide Sum4;
    SumTurns(a, b, c, d);
    SumTurns(b, c, d, a);
    SumTurns(c, d, a, b);
  }

  lemma InvMixMix(w: Word)
    ensures InvMixColumn(MixColumn(w)) == w
  {
    InvMixOne(w.b0);
    InvMixOne(w.b1);
    InvMixOne(w.b2);
    InvMixOne(w.b3);
    SumOfBytes(w);
    hide InvMixColumn, Mix0, Mix1, Mix2, Mix3, Xor;
    InvMixXor(Xor(Xor(Mix0(w.b0), Mix1(w.b1)), Mix2(w.b2)), Mix3(w.b3));
    InvMixXor(Xor(Mix0(w.b0), Mix1(w.b1)), Mix2(w.b2));
    InvMixXor(Mix0(w.b0), Mix1(w.b1));
  }

  lemma SumOfBytes(w: Word)
    ensures Xor(Xor(Xor(Word(w.b0, NIL, NIL, NIL), Word(NIL, w.b1, NIL, NIL)), Word(NIL, NIL, w.b2, NIL)),
                Word(NIL, NIL, NIL, w.b3)) == w
  {
    hide Add;
    AddNil(w.b0);
    AddNil(w.b1);
    AddNil(w.b2);
    AddNil(w.b3);
    AddNil(NIL);
  }
}
