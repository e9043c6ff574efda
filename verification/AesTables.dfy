/** The tables of sshaes.c, each of their literals against the field that FIPS 197 works in. */
module AesTables {
  import opened Gf256
  import opened Aes

  // Bytes and words as the machine holds them.

  function At(v: bv8): Byte {
    Byte(v & 0x80 != 0, v & 0x40 != 0, v & 0x20 != 0, v & 0x10 != 0, v & 8 != 0, v & 4 != 0, v & 2 != 0, v & 1 != 0)
  }

  function Index(x: Byte): bv8 {
    (if x.x7 then 0x80 else 0) | (if x.x6 then 0x40 else 0) | (if x.x5 then 0x20 else 0) | (if x.x4 then 0x10 else 0)
    | (if x.x3 then 8 else 0) | (if x.x2 then 4 else 0) | (if x.x1 then 2 else 0) | (if x.x0 then 1 else 0)
  }

  lemma AtIndex(x: Byte)
    ensures At(Index(x)) == x
  {
  }

  lemma IndexAt(v: bv8)
    ensures Index(At(v)) == v
  {
  }

  function Byte0(w: bv32): bv8 { (w >> 24) as bv8 }

  function Byte1(w: bv32): bv8 { ((w >> 16) & 0xFF) as bv8 }

  function Byte2(w: bv32): bv8 { ((w >> 8) & 0xFF) as bv8 }

  function Byte3(w: bv32): bv8 { (w & 0xFF) as bv8 }

  function Pack(a: bv8, b: bv8, c: bv8, d: bv8): bv32 {
    ((a as bv32) << 24) | ((b as bv32) << 16) | ((c as bv32) << 8) | (d as bv32)
  }

  function Unpack(w: bv32): Word {
    Word(At(Byte0(w)), At(Byte1(w)), At(Byte2(w)), At(Byte3(w)))
  }

  lemma PackBytes(a: bv8, b: bv8, c: bv8, d: bv8)
    ensures var w := Pack(a, b, c, d); Byte0(w) == a && Byte1(w) == b && Byte2(w) == c && Byte3(w) == d
  {
  }

  lemma UnpackPack(a: bv8, b: bv8, c: bv8, d: bv8)
    ensures Unpack(Pack(a, b, c, d)) == Word(At(a), At(b), At(c), At(d))
  {
    hide Pack, At, Byte0, Byte1, Byte2, Byte3;
    PackBytes(a, b, c, d);
  }

  /** mulby2. */
  function Twice(b: bv8): bv8 {
    if b & 0x80 != 0 then ((b & 0x7F) << 1) ^ 0x1B else (b & 0x7F) << 1
  }

  lemma TwiceIs(b: bv8)
    ensures At(Twice(b)) == Mul2(At(b))
  {
  }

  function Sum(a: bv8, b: bv8): bv8 {
    a ^ b
  }

  lemma SumIs(a: bv8, b: bv8)
    ensures At(Sum(a, b)) == Add(At(a), At(b))
  {
  }

  // Products with the constants of the two matrices, and their columns.

  function Times3(s: bv8): bv8 { Sum(Twice(s), s) }

  function Times8(s: bv8): bv8 { Twice(Twice(Twice(s))) }

  function Times9(s: bv8): bv8 { Sum(Times8(s), s) }

  function Times11(s: bv8): bv8 { Sum(Times8(s), Times3(s)) }

  function Times13(s: bv8): bv8 { Sum(Sum(Times8(s), Twice(Twice(s))), s) }

  function Times14(s: bv8): bv8 { Sum(Sum(Times8(s), Twice(Twice(s))), Twice(s)) }

  lemma TimesAre(s: bv8)
    ensures At(Times3(s)) == Mul3(At(s)) && At(Times9(s)) == Mul9(At(s)) && At(Times11(s)) == Mul11(At(s))
    ensures At(Times13(s)) == Mul13(At(s)) && At(Times14(s)) == Mul14(At(s))
  {
    hide At, Twice, Sum, Mul2, Add;
    var t, f := Twice(s), Twice(Twice(s));
    var e := Twice(f);
    TwiceIs(s);
    TwiceIs(t);
    TwiceIs(f);
    SumIs(t, s);
    SumIs(e, s);
    SumIs(e, Times3(s));
    SumIs(e, f);
    SumIs(Sum(e, f), s);
    SumIs(Sum(e, f), t);
  }

  /** What the four tables of one direction hold for one byte. */
  datatype Entries = Entries(t0: bv32, t1: bv32, t2: bv32, t3: bv32)

  function EColumns(s: bv8): Entries {
    var t, u := Twice(s), Times3(s);
    Entries(Pack(t, s, s, u), Pack(u, t, s, s), Pack(s, u, t, s), Pack(s, s, u, t))
  }

  function DColumns(s: bv8): Entries {
    var a, b, c, d := Times14(s), Times9(s), Times13(s), Times11(s);
    Entries(Pack(a, b, c, d), Pack(d, a, b, c), Pack(c, d, a, b), Pack(b, c, d, a))
  }

  // The S-box: the inverse in the field, and the affine map of section 5.1.1 of FIPS 197.

  /** One step of Horner's rule, for the next bit of the second factor. */
  function Horner(r: bv8, a: bv8, bit: bool): bv8 {
    Sum(Twice(r), if bit then a else 0)
  }

  function Product(a: bv8, b: bv8): bv8 {
    Horner(Horner(Horner(Horner(Horner(Horner(Horner(Horner(0, a, b & 0x80 != 0), a, b & 0x40 != 0), a, b & 0x20 != 0),
      a, b & 0x10 != 0), a, b & 8 != 0), a, b & 4 != 0), a, b & 2 != 0), a, b & 1 != 0)
  }

  function Affine(b: bv8): bv8 {
    b ^ ((b << 1) | (b >> 7)) ^ ((b << 2) | (b >> 6)) ^ ((b << 3) | (b >> 5)) ^ ((b << 4) | (b >> 4)) ^ 0x63
  }

  function Unaffine(b: bv8): bv8 {
    ((b << 1) | (b >> 7)) ^ ((b << 3) | (b >> 5)) ^ ((b << 6) | (b >> 2)) ^ 5
  }

  lemma AffineUnaffine(b: bv8)
    ensures Affine(Unaffine(b)) == b
  {
  }

  // Sixteen rows of sixteen entries for each table.

  function Sbox0(b: bv8): bv8 {
    match b
    case 0x00 => 0x63 case 0x01 => 0x7C case 0x02 => 0x77 case 0x03 => 0x7B
    case 0x04 => 0xF2 case 0x05 => 0x6B case 0x06 => 0x6F case 0x07 => 0xC5
    case 0x08 => 0x30 case 0x09 => 0x01 case 0x0A => 0x67 case 0x0B => 0x2B
    case 0x0C => 0xFE case 0x0D => 0xD7 case 0x0E => 0xAB case _ => 0x76
  }

  function Sbox1(b: bv8): bv8 {
    match b
    case 0x10 => 0xCA case 0x11 => 0x82 case 0x12 => 0xC9 case 0x13 => 0x7D
    case 0x14 => 0xFA case 0x15 => 0x59 case 0x16 => 0x47 case 0x17 => 0xF0
    case 0x18 => 0xAD case 0x19 => 0xD4 case 0x1A => 0xA2 case 0x1B => 0xAF
    case 0x1C => 0x9C case 0x1D => 0xA4 case 0x1E => 0x72 case _ => 0xC0
  }

  function Sbox2(b: bv8): bv8 {
    match b
    case 0x20 => 0xB7 case 0x21 => 0xFD case 0x22 => 0x93 case 0x23 => 0x26
    case 0x24 => 0x36 case 0x25 => 0x3F case 0x26 => 0xF7 case 0x27 => 0xCC
    case 0x28 => 0x34 case 0x29 => 0xA5 case 0x2A => 0xE5 case 0x2B => 0xF1
    case 0x2C => 0x71 case 0x2D => 0xD8 case 0x2E => 0x31 case _ => 0x15
  }

  function Sbox3(b: bv8): bv8 {
    match b
    case 0x30 => 0x04 case 0x31 => 0xC7 case 0x32 => 0x23 case 0x33 => 0xC3
    case 0x34 => 0x18 case 0x35 => 0x96 case 0x36 => 0x05 case 0x37 => 0x9A
    case 0x38 => 0x07 case 0x39 => 0x12 case 0x3A => 0x80 case 0x3B => 0xE2
    case 0x3C => 0xEB case 0x3D => 0x27 case 0x3E => 0xB2 case _ => 0x75
  }

  function Sbox4(b: bv8): bv8 {
    match b
    case 0x40 => 0x09 case 0x41 => 0x83 case 0x42 => 0x2C case 0x43 => 0x1A
    case 0x44 => 0x1B case 0x45 => 0x6E case 0x46 => 0x5A case 0x47 => 0xA0
    case 0x48 => 0x52 case 0x49 => 0x3B case 0x4A => 0xD6 case 0x4B => 0xB3
    case 0x4C => 0x29 case 0x4D => 0xE3 case 0x4E => 0x2F case _ => 0x84
  }

  function Sbox5(b: bv8): bv8 {
    match b
    case 0x50 => 0x53 case 0x51 => 0xD1 case 0x52 => 0x00 case 0x53 => 0xED
    case 0x54 => 0x20 case 0x55 => 0xFC case 0x56 => 0xB1 case 0x57 => 0x5B
    case 0x58 => 0x6A case 0x59 => 0xCB case 0x5A => 0xBE case 0x5B => 0x39
    case 0x5C => 0x4A case 0x5D => 0x4C case 0x5E => 0x58 case _ => 0xCF
  }

  function Sbox6(b: bv8): bv8 {
    match b
    case 0x60 => 0xD0 case 0x61 => 0xEF case 0x62 => 0xAA case 0x63 => 0xFB
    case 0x64 => 0x43 case 0x65 => 0x4D case 0x66 => 0x33 case 0x67 => 0x85
    case 0x68 => 0x45 case 0x69 => 0xF9 case 0x6A => 0x02 case 0x6B => 0x7F
    case 0x6C => 0x50 case 0x6D => 0x3C case 0x6E => 0x9F case _ => 0xA8
  }

  function Sbox7(b: bv8): bv8 {
    match b
    case 0x70 => 0x51 case 0x71 => 0xA3 case 0x72 => 0x40 case 0x73 => 0x8F
    case 0x74 => 0x92 case 0x75 => 0x9D case 0x76 => 0x38 case 0x77 => 0xF5
    case 0x78 => 0xBC case 0x79 => 0xB6 case 0x7A => 0xDA case 0x7B => 0x21
    case 0x7C => 0x10 case 0x7D => 0xFF case 0x7E => 0xF3 case _ => 0xD2
  }

  function Sbox8(b: bv8): bv8 {
    match b
    case 0x80 => 0xCD case 0x81 => 0x0C case 0x82 => 0x13 case 0x83 => 0xEC
    case 0x84 => 0x5F case 0x85 => 0x97 case 0x86 => 0x44 case 0x87 => 0x17
    case 0x88 => 0xC4 case 0x89 => 0xA7 case 0x8A => 0x7E case 0x8B => 0x3D
    case 0x8C => 0x64 case 0x8D => 0x5D case 0x8E => 0x19 case _ => 0x73
  }

  function Sbox9(b: bv8): bv8 {
    match b
    case 0x90 => 0x60 case 0x91 => 0x81 case 0x92 => 0x4F case 0x93 => 0xDC
    case 0x94 => 0x22 case 0x95 => 0x2A case 0x96 => 0x90 case 0x97 => 0x88
    case 0x98 => 0x46 case 0x99 => 0xEE case 0x9A => 0xB8 case 0x9B => 0x14
    case 0x9C => 0xDE case 0x9D => 0x5E case 0x9E => 0x0B case _ => 0xDB
  }

  function Sbox10(b: bv8): bv8 {
    match b
    case 0xA0 => 0xE0 case 0xA1 => 0x32 case 0xA2 => 0x3A case 0xA3 => 0x0A
    case 0xA4 => 0x49 case 0xA5 => 0x06 case 0xA6 => 0x24 case 0xA7 => 0x5C
    case 0xA8 => 0xC2 case 0xA9 => 0xD3 case 0xAA => 0xAC case 0xAB => 0x62
    case 0xAC => 0x91 case 0xAD => 0x95 case 0xAE => 0xE4 case _ => 0x79
  }

  function Sbox11(b: bv8): bv8 {
    match b
    case 0xB0 => 0xE7 case 0xB1 => 0xC8 case 0xB2 => 0x37 case 0xB3 => 0x6D
    case 0xB4 => 0x8D case 0xB5 => 0xD5 case 0xB6 => 0x4E case 0xB7 => 0xA9
    case 0xB8 => 0x6C case 0xB9 => 0x56 case 0xBA => 0xF4 case 0xBB => 0xEA
    case 0xBC => 0x65 case 0xBD => 0x7A case 0xBE => 0xAE case _ => 0x08
  }

  function Sbox12(b: bv8): bv8 {
    match b
    case 0xC0 => 0xBA case 0xC1 => 0x78 case 0xC2 => 0x25 case 0xC3 => 0x2E
    case 0xC4 => 0x1C case 0xC5 => 0xA6 case 0xC6 => 0xB4 case 0xC7 => 0xC6
    case 0xC8 => 0xE8 case 0xC9 => 0xDD case 0xCA => 0x74 case 0xCB => 0x1F
    case 0xCC => 0x4B case 0xCD => 0xBD case 0xCE => 0x8B case _ => 0x8A
  }

  function Sbox13(b: bv8): bv8 {
    match b
    case 0xD0 => 0x70 case 0xD1 => 0x3E case 0xD2 => 0xB5 case 0xD3 => 0x66
    case 0xD4 => 0x48 case 0xD5 => 0x03 case 0xD6 => 0xF6 case 0xD7 => 0x0E
    case 0xD8 => 0x61 case 0xD9 => 0x35 case 0xDA => 0x57 case 0xDB => 0xB9
    case 0xDC => 0x86 case 0xDD => 0xC1 case 0xDE => 0x1D case _ => 0x9E
  }

  function Sbox14(b: bv8): bv8 {
    match b
    case 0xE0 => 0xE1 case 0xE1 => 0xF8 case 0xE2 => 0x98 case 0xE3 => 0x11
    case 0xE4 => 0x69 case 0xE5 => 0xD9 case 0xE6 => 0x8E case 0xE7 => 0x94
    case 0xE8 => 0x9B case 0xE9 => 0x1E case 0xEA => 0x87 case 0xEB => 0xE9
    case 0xEC => 0xCE case 0xED => 0x55 case 0xEE => 0x28 case _ => 0xDF
  }

  function Sbox15(b: bv8): bv8 {
    match b
    case 0xF0 => 0x8C case 0xF1 => 0xA1 case 0xF2 => 0x89 case 0xF3 => 0x0D
    case 0xF4 => 0xBF case 0xF5 => 0xE6 case 0xF6 => 0x42 case 0xF7 => 0x68
    case 0xF8 => 0x41 case 0xF9 => 0x99 case 0xFA => 0x2D case 0xFB => 0x0F
    case 0xFC => 0xB0 case 0xFD => 0x54 case 0xFE => 0xBB case _ => 0x16
  }

  function Sbox(b: bv8): bv8 {
    if b < 0x10 then Sbox0(b)
    else if b < 0x20 then Sbox1(b)
    else if b < 0x30 then Sbox2(b)
    else if b < 0x40 then Sbox3(b)
    else if b < 0x50 then Sbox4(b)
    else if b < 0x60 then Sbox5(b)
    else if b < 0x70 then Sbox6(b)
    else if b < 0x80 then Sbox7(b)
    else if b < 0x90 then Sbox8(b)
    else if b < 0xA0 then Sbox9(b)
    else if b < 0xB0 then Sbox10(b)
    else if b < 0xC0 then Sbox11(b)
    else if b < 0xD0 then Sbox12(b)
    else if b < 0xE0 then Sbox13(b)
    else if b < 0xF0 then Sbox14(b)
    else Sbox15(b)
  }

  function Sboxinv0(b: bv8): bv8 {
    match b
    case 0x00 => 0x52 case 0x01 => 0x09 case 0x02 => 0x6A case 0x03 => 0xD5
    case 0x04 => 0x30 case 0x05 => 0x36 case 0x06 => 0xA5 case 0x07 => 0x38
    case 0x08 => 0xBF case 0x09 => 0x40 case 0x0A => 0xA3 case 0x0B => 0x9E
    case 0x0C => 0x81 case 0x0D => 0xF3 case 0x0E => 0xD7 case _ => 0xFB
  }

  function Sboxinv1(b: bv8): bv8 {
    match b
    case 0x10 => 0x7C case 0x11 => 0xE3 case 0x12 => 0x39 case 0x13 => 0x82
    case 0x14 => 0x9B case 0x15 => 0x2F case 0x16 => 0xFF case 0x17 => 0x87
    case 0x18 => 0x34 case 0x19 => 0x8E case 0x1A => 0x43 case 0x1B => 0x44
    case 0x1C => 0xC4 case 0x1D => 0xDE case 0x1E => 0xE9 case _ => 0xCB
  }

  function Sboxinv2(b: bv8): bv8 {
    match b
    case 0x20 => 0x54 case 0x21 => 0x7B case 0x22 => 0x94 case 0x23 => 0x32
    case 0x24 => 0xA6 case 0x25 => 0xC2 case 0x26 => 0x23 case 0x27 => 0x3D
    case 0x28 => 0xEE case 0x29 => 0x4C case 0x2A => 0x95 case 0x2B => 0x0B
    case 0x2C => 0x42 case 0x2D => 0xFA case 0x2E => 0xC3 case _ => 0x4E
  }

  function Sboxinv3(b: bv8): bv8 {
    match b
    case 0x30 => 0x08 case 0x31 => 0x2E case 0x32 => 0xA1 case 0x33 => 0x66
    case 0x34 => 0x28 case 0x35 => 0xD9 case 0x36 => 0x24 case 0x37 => 0xB2
    case 0x38 => 0x76 case 0x39 => 0x5B case 0x3A => 0xA2 case 0x3B => 0x49
    case 0x3C => 0x6D case 0x3D => 0x8B case 0x3E => 0xD1 case _ => 0x25
  }

  function Sboxinv4(b: bv8): bv8 {
    match b
    case 0x40 => 0x72 case 0x41 => 0xF8 case 0x42 => 0xF6 case 0x43 => 0x64
    case 0x44 => 0x86 case 0x45 => 0x68 case 0x46 => 0x98 case 0x47 => 0x16
    case 0x48 => 0xD4 case 0x49 => 0xA4 case 0x4A => 0x5C case 0x4B => 0xCC
    case 0x4C => 0x5D case 0x4D => 0x65 case 0x4E => 0xB6 case _ => 0x92
  }

  function Sboxinv5(b: bv8): bv8 {
    match b
    case 0x50 => 0x6C case 0x51 => 0x70 case 0x52 => 0x48 case 0x53 => 0x50
    case 0x54 => 0xFD case 0x55 => 0xED case 0x56 => 0xB9 case 0x57 => 0xDA
    case 0x58 => 0x5E case 0x59 => 0x15 case 0x5A => 0x46 case 0x5B => 0x57
    case 0x5C => 0xA7 case 0x5D => 0x8D case 0x5E => 0x9D case _ => 0x84
  }

  function Sboxinv6(b: bv8): bv8 {
    match b
    case 0x60 => 0x90 case 0x61 => 0xD8 case 0x62 => 0xAB case 0x63 => 0x00
    case 0x64 => 0x8C case 0x65 => 0xBC case 0x66 => 0xD3 case 0x67 => 0x0A
    case 0x68 => 0xF7 case 0x69 => 0xE4 case 0x6A => 0x58 case 0x6B => 0x05
    case 0x6C => 0xB8 case 0x6D => 0xB3 case 0x6E => 0x45 case _ => 0x06
  }

  function Sboxinv7(b: bv8): bv8 {
    match b
    case 0x70 => 0xD0 case 0x71 => 0x2C case 0x72 => 0x1E case 0x73 => 0x8F
    case 0x74 => 0xCA case 0x75 => 0x3F case 0x76 => 0x0F case 0x77 => 0x02
    case 0x78 => 0xC1 case 0x79 => 0xAF case 0x7A => 0xBD case 0x7B => 0x03
    case 0x7C => 0x01 case 0x7D => 0x13 case 0x7E => 0x8A case _ => 0x6B
  }

  function Sboxinv8(b: bv8): bv8 {
    match b
    case 0x80 => 0x3A case 0x81 => 0x91 case 0x82 => 0x11 case 0x83 => 0x41
    case 0x84 => 0x4F case 0x85 => 0x67 case 0x86 => 0xDC case 0x87 => 0xEA
    case 0x88 => 0x97 case 0x89 => 0xF2 case 0x8A => 0xCF case 0x8B => 0xCE
    case 0x8C => 0xF0 case 0x8D => 0xB4 case 0x8E => 0xE6 case _ => 0x73
  }

  function Sboxinv9(b: bv8): bv8 {
    match b
    case 0x90 => 0x96 case 0x91 => 0xAC case 0x92 => 0x74 case 0x93 => 0x22
    case 0x94 => 0xE7 case 0x95 => 0xAD case 0x96 => 0x35 case 0x97 => 0x85
    case 0x98 => 0xE2 case 0x99 => 0xF9 case 0x9A => 0x37 case 0x9B => 0xE8
    case 0x9C => 0x1C case 0x9D => 0x75 case 0x9E => 0xDF case _ => 0x6E
  }

  function Sboxinv10(b: bv8): bv8 {
    match b
    case 0xA0 => 0x47 case 0xA1 => 0xF1 case 0xA2 => 0x1A case 0xA3 => 0x71
    case 0xA4 => 0x1D case 0xA5 => 0x29 case 0xA6 => 0xC5 case 0xA7 => 0x89
    case 0xA8 => 0x6F case 0xA9 => 0xB7 case 0xAA => 0x62 case 0xAB => 0x0E
    case 0xAC => 0xAA case 0xAD => 0x18 case 0xAE => 0xBE case _ => 0x1B
  }

  function Sboxinv11(b: bv8): bv8 {
    match b
    case 0xB0 => 0xFC case 0xB1 => 0x56 case 0xB2 => 0x3E case 0xB3 => 0x4B
    case 0xB4 => 0xC6 case 0xB5 => 0xD2 case 0xB6 => 0x79 case 0xB7 => 0x20
    case 0xB8 => 0x9A case 0xB9 => 0xDB case 0xBA => 0xC0 case 0xBB => 0xFE
    case 0xBC => 0x78 case 0xBD => 0xCD case 0xBE => 0x5A case _ => 0xF4
  }

  function Sboxinv12(b: bv8): bv8 {
    match b
    case 0xC0 => 0x1F case 0xC1 => 0xDD case 0xC2 => 0xA8 case 0xC3 => 0x33
    case 0xC4 => 0x88 case 0xC5 => 0x07 case 0xC6 => 0xC7 case 0xC7 => 0x31
    case 0xC8 => 0xB1 case 0xC9 => 0x12 case 0xCA => 0x10 case 0xCB => 0x59
    case 0xCC => 0x27 case 0xCD => 0x80 case 0xCE => 0xEC case _ => 0x5F
  }

  function Sboxinv13(b: bv8): bv8 {
    match b
    case 0xD0 => 0x60 case 0xD1 => 0x51 case 0xD2 => 0x7F case 0xD3 => 0xA9
    case 0xD4 => 0x19 case 0xD5 => 0xB5 case 0xD6 => 0x4A case 0xD7 => 0x0D
    case 0xD8 => 0x2D case 0xD9 => 0xE5 case 0xDA => 0x7A case 0xDB => 0x9F
    case 0xDC => 0x93 case 0xDD => 0xC9 case 0xDE => 0x9C case _ => 0xEF
  }

  function Sboxinv14(b: bv8): bv8 {
    match b
    case 0xE0 => 0xA0 case 0xE1 => 0xE0 case 0xE2 => 0x3B case 0xE3 => 0x4D
    case 0xE4 => 0xAE case 0xE5 => 0x2A case 0xE6 => 0xF5 case 0xE7 => 0xB0
    case 0xE8 => 0xC8 case 0xE9 => 0xEB case 0xEA => 0xBB case 0xEB => 0x3C
    case 0xEC => 0x83 case 0xED => 0x53 case 0xEE => 0x99 case _ => 0x61
  }

  function Sboxinv15(b: bv8): bv8 {
    match b
    case 0xF0 => 0x17 case 0xF1 => 0x2B case 0xF2 => 0x04 case 0xF3 => 0x7E
    case 0xF4 => 0xBA case 0xF5 => 0x77 case 0xF6 => 0xD6 case 0xF7 => 0x26
    case 0xF8 => 0xE1 case 0xF9 => 0x69 case 0xFA => 0x14 case 0xFB => 0x63
    case 0xFC => 0x55 case 0xFD => 0x21 case 0xFE => 0x0C case _ => 0x7D
  }

  function Sboxinv(b: bv8): bv8 {
    if b < 0x10 then Sboxinv0(b)
    else if b < 0x20 then Sboxinv1(b)
    else if b < 0x30 then Sboxinv2(b)
    else if b < 0x40 then Sboxinv3(b)
    else if b < 0x50 then Sboxinv4(b)
    else if b < 0x60 then Sboxinv5(b)
    else if b < 0x70 then Sboxinv6(b)
    else if b < 0x80 then Sboxinv7(b)
    else if b < 0x90 then Sboxinv8(b)
    else if b < 0xA0 then Sboxinv9(b)
    else if b < 0xB0 then Sboxinv10(b)
    else if b < 0xC0 then Sboxinv11(b)
    else if b < 0xD0 then Sboxinv12(b)
    else if b < 0xE0 then Sboxinv13(b)
    else if b < 0xF0 then Sboxinv14(b)
    else Sboxinv15(b)
  }

  function E0(b: bv8): Entries {
    match b
    case 0x00 => Entries(0xC66363A5, 0xA5C66363, 0x63A5C663, 0x6363A5C6)
    case 0x01 => Entries(0xF87C7C84, 0x84F87C7C, 0x7C84F87C, 0x7C7C84F8)
    case 0x02 => Entries(0xEE777799, 0x99EE7777, 0x7799EE77, 0x777799EE)
    case 0x03 => Entries(0xF67B7B8D, 0x8DF67B7B, 0x7B8DF67B, 0x7B7B8DF6)
    case 0x04 => Entries(0xFFF2F20D, 0x0DFFF2F2, 0xF20DFFF2, 0xF2F20DFF)
    case 0x05 => Entries(0xD66B6BBD, 0xBDD66B6B, 0x6BBDD66B, 0x6B6BBDD6)
    case 0x06 => Entries(0xDE6F6FB1, 0xB1DE6F6F, 0x6FB1DE6F, 0x6F6FB1DE)
    case 0x07 => Entries(0x91C5C554, 0x5491C5C5, 0xC55491C5, 0xC5C55491)
    case 0x08 => Entries(0x60303050, 0x50603030, 0x30506030, 0x30305060)
    case 0x09 => Entries(0x02010103, 0x03020101, 0x01030201, 0x01010302)
    case 0x0A => Entries(0xCE6767A9, 0xA9CE6767, 0x67A9CE67, 0x6767A9CE)
    case 0x0B => Entries(0x562B2B7D, 0x7D562B2B, 0x2B7D562B, 0x2B2B7D56)
    case 0x0C => Entries(0xE7FEFE19, 0x19E7FEFE, 0xFE19E7FE, 0xFEFE19E7)
    case 0x0D => Entries(0xB5D7D762, 0x62B5D7D7, 0xD762B5D7, 0xD7D762B5)
    case 0x0E => Entries(0x4DABABE6, 0xE64DABAB, 0xABE64DAB, 0xABABE64D)
    case _ => Entries(0xEC76769A, 0x9AEC7676, 0x769AEC76, 0x76769AEC)
  }

  function E1(b: bv8): Entries {
    match b
    case 0x10 => Entries(0x8FCACA45, 0x458FCACA, 0xCA458FCA, 0xCACA458F)
    case 0x11 => Entries(0x1F82829D, 0x9D1F8282, 0x829D1F82, 0x82829D1F)
    case 0x12 => Entries(0x89C9C940, 0x4089C9C9, 0xC94089C9, 0xC9C94089)
    case 0x13 => Entries(0xFA7D7D87, 0x87FA7D7D, 0x7D87FA7D, 0x7D7D87FA)
    case 0x14 => Entries(0xEFFAFA15, 0x15EFFAFA, 0xFA15EFFA, 0xFAFA15EF)
    case 0x15 => Entries(0xB25959EB, 0xEBB25959, 0x59EBB259, 0x5959EBB2)
    case 0x16 => Entries(0x8E4747C9, 0xC98E4747, 0x47C98E47, 0x4747C98E)
    case 0x17 => Entries(0xFBF0F00B, 0x0BFBF0F0, 0xF00BFBF0, 0xF0F00BFB)
    case 0x18 => Entries(0x41ADADEC, 0xEC41ADAD, 0xADEC41AD, 0xADADEC41)
    case 0x19 => Entries(0xB3D4D467, 0x67B3D4D4, 0xD467B3D4, 0xD4D467B3)
    case 0x1A => Entries(0x5FA2A2FD, 0xFD5FA2A2, 0xA2FD5FA2, 0xA2A2FD5F)
    case 0x1B => Entries(0x45AFAFEA, 0xEA45AFAF, 0xAFEA45AF, 0xAFAFEA45)
    case 0x1C => Entries(0x239C9CBF, 0xBF239C9C, 0x9CBF239C, 0x9C9CBF23)
    case 0x1D => Entries(0x53A4A4F7, 0xF753A4A4, 0xA4F753A4, 0xA4A4F753)
    case 0x1E => Entries(0xE4727296, 0x96E47272, 0x7296E472, 0x727296E4)
    case _ => Entries(0x9BC0C05B, 0x5B9BC0C0, 0xC05B9BC0, 0xC0C05B9B)
  }

  function E2(b: bv8): Entries {
    match b
    case 0x20 => Entries(0x75B7B7C2, 0xC275B7B7, 0xB7C275B7, 0xB7B7C275)
    case 0x21 => Entries(0xE1FDFD1C, 0x1CE1FDFD, 0xFD1CE1FD, 0xFDFD1CE1)
    case 0x22 => Entries(0x3D9393AE, 0xAE3D9393, 0x93AE3D93, 0x9393AE3D)
    case 0x23 => Entries(0x4C26266A, 0x6A4C2626, 0x266A4C26, 0x26266A4C)
    case 0x24 => Entries(0x6C36365A, 0x5A6C3636, 0x365A6C36, 0x36365A6C)
    case 0x25 => Entries(0x7E3F3F41, 0x417E3F3F, 0x3F417E3F, 0x3F3F417E)
    case 0x26 => Entries(0xF5F7F702, 0x02F5F7F7, 0xF702F5F7, 0xF7F702F5)
    case 0x27 => Entries(0x83CCCC4F, 0x4F83CCCC, 0xCC4F83CC, 0xCCCC4F83)
    case 0x28 => Entries(0x6834345C, 0x5C683434, 0x345C6834, 0x34345C68)
    case 0x29 => Entries(0x51A5A5F4, 0xF451A5A5, 0xA5F451A5, 0xA5A5F451)
    case 0x2A => Entries(0xD1E5E534, 0x34D1E5E5, 0xE534D1E5, 0xE5E534D1)
    case 0x2B => Entries(0xF9F1F108, 0x08F9F1F1, 0xF108F9F1, 0xF1F108F9)
    case 0x2C => Entries(0xE2717193, 0x93E27171, 0x7193E271, 0x717193E2)
    case 0x2D => Entries(0xABD8D873, 0x73ABD8D8, 0xD873ABD8, 0xD8D873AB)
    case 0x2E => Entries(0x62313153, 0x53623131, 0x31536231, 0x31315362)
    case _ => Entries(0x2A15153F, 0x3F2A1515, 0x153F2A15, 0x15153F2A)
  }

  function E3(b: bv8): Entries {
    match b
    case 0x30 => Entries(0x0804040C, 0x0C080404, 0x040C0804, 0x04040C08)
    case 0x31 => Entries(0x95C7C752, 0x5295C7C7, 0xC75295C7, 0xC7C75295)
    case 0x32 => Entries(0x46232365, 0x65462323, 0x23654623, 0x23236546)
    case 0x33 => Entries(0x9DC3C35E, 0x5E9DC3C3, 0xC35E9DC3, 0xC3C35E9D)
    case 0x34 => Entries(0x30181828, 0x28301818, 0x18283018, 0x18182830)
    case 0x35 => Entries(0x379696A1, 0xA1379696, 0x96A13796, 0x9696A137)
    case 0x36 => Entries(0x0A05050F, 0x0F0A0505, 0x050F0A05, 0x05050F0A)
    case 0x37 => Entries(0x2F9A9AB5, 0xB52F9A9A, 0x9AB52F9A, 0x9A9AB52F)
    case 0x38 => Entries(0x0E070709, 0x090E0707, 0x07090E07, 0x0707090E)
    case 0x39 => Entries(0x24121236, 0x36241212, 0x12362412, 0x12123624)
    case 0x3A => Entries(0x1B80809B, 0x9B1B8080, 0x809B1B80, 0x80809B1B)
    case 0x3B => Entries(0xDFE2E23D, 0x3DDFE2E2, 0xE23DDFE2, 0xE2E23DDF)
    case 0x3C => Entries(0xCDEBEB26, 0x26CDEBEB, 0xEB26CDEB, 0xEBEB26CD)
    case 0x3D => Entries(0x4E272769, 0x694E2727, 0x27694E27, 0x2727694E)
    case 0x3E => Entries(0x7FB2B2CD, 0xCD7FB2B2, 0xB2CD7FB2, 0xB2B2CD7F)
    case _ => Entries(0xEA75759F, 0x9FEA7575, 0x759FEA75, 0x75759FEA)
  }

  function E4(b: bv8): Entries {
    match b
    case 0x40 => Entries(0x1209091B, 0x1B120909, 0x091B1209, 0x09091B12)
    case 0x41 => Entries(0x1D83839E, 0x9E1D8383, 0x839E1D83, 0x83839E1D)
    case 0x42 => Entries(0x582C2C74, 0x74582C2C, 0x2C74582C, 0x2C2C7458)
    case 0x43 => Entries(0x341A1A2E, 0x2E341A1A, 0x1A2E341A, 0x1A1A2E34)
    case 0x44 => Entries(0x361B1B2D, 0x2D361B1B, 0x1B2D361B, 0x1B1B2D36)
    case 0x45 => Entries(0xDC6E6EB2, 0xB2DC6E6E, 0x6EB2DC6E, 0x6E6EB2DC)
    case 0x46 => Entries(0xB45A5AEE, 0xEEB45A5A, 0x5AEEB45A, 0x5A5AEEB4)
    case 0x47 => Entries(0x5BA0A0FB, 0xFB5BA0A0, 0xA0FB5BA0, 0xA0A0FB5B)
    case 0x48 => Entries(0xA45252F6, 0xF6A45252, 0x52F6A452, 0x5252F6A4)
    case 0x49 => Entries(0x763B3B4D, 0x4D763B3B, 0x3B4D763B, 0x3B3B4D76)
    case 0x4A => Entries(0xB7D6D661, 0x61B7D6D6, 0xD661B7D6, 0xD6D661B7)
    case 0x4B => Entries(0x7DB3B3CE, 0xCE7DB3B3, 0xB3CE7DB3, 0xB3B3CE7D)
    case 0x4C => Entries(0x5229297B, 0x7B522929, 0x297B5229, 0x29297B52)
    case 0x4D => Entries(0xDDE3E33E, 0x3EDDE3E3, 0xE33EDDE3, 0xE3E33EDD)
    case 0x4E => Entries(0x5E2F2F71, 0x715E2F2F, 0x2F715E2F, 0x2F2F715E)
    case _ => Entries(0x13848497, 0x97138484, 0x84971384, 0x84849713)
  }

  function E5(b: bv8): Entries {
    match b
    case 0x50 => Entries(0xA65353F5, 0xF5A65353, 0x53F5A653, 0x5353F5A6)
    case 0x51 => Entries(0xB9D1D168, 0x68B9D1D1, 0xD168B9D1, 0xD1D168B9)
    case 0x52 => Entries(0x00000000, 0x00000000, 0x00000000, 0x00000000)
    case 0x53 => Entries(0xC1EDED2C, 0x2CC1EDED, 0xED2CC1ED, 0xEDED2CC1)
    case 0x54 => Entries(0x40202060, 0x60402020, 0x20604020, 0x20206040)
    case 0x55 => Entries(0xE3FCFC1F, 0x1FE3FCFC, 0xFC1FE3FC, 0xFCFC1FE3)
    case 0x56 => Entries(0x79B1B1C8, 0xC879B1B1, 0xB1C879B1, 0xB1B1C879)
    case 0x57 => Entries(0xB65B5BED, 0xEDB65B5B, 0x5BEDB65B, 0x5B5BEDB6)
    case 0x58 => Entries(0xD46A6ABE, 0xBED46A6A, 0x6ABED46A, 0x6A6ABED4)
    case 0x59 => Entries(0x8DCBCB46, 0x468DCBCB, 0xCB468DCB, 0xCBCB468D)
    case 0x5A => Entries(0x67BEBED9, 0xD967BEBE, 0xBED967BE, 0xBEBED967)
    case 0x5B => Entries(0x7239394B, 0x4B723939, 0x394B7239, 0x39394B72)
    case 0x5C => Entries(0x944A4ADE, 0xDE944A4A, 0x4ADE944A, 0x4A4ADE94)
    case 0x5D => Entries(0x984C4CD4, 0xD4984C4C, 0x4CD4984C, 0x4C4CD498)
    case 0x5E => Entries(0xB05858E8, 0xE8B05858, 0x58E8B058, 0x5858E8B0)
    case _ => Entries(0x85CFCF4A, 0x4A85CFCF, 0xCF4A85CF, 0xCFCF4A85)
  }

  function E6(b: bv8): Entries {
    match b
    case 0x60 => Entries(0xBBD0D06B, 0x6BBBD0D0, 0xD06BBBD0, 0xD0D06BBB)
    case 0x61 => Entries(0xC5EFEF2A, 0x2AC5EFEF, 0xEF2AC5EF, 0xEFEF2AC5)
    case 0x62 => Entries(0x4FAAAAE5, 0xE54FAAAA, 0xAAE54FAA, 0xAAAAE54F)
    case 0x63 => Entries(0xEDFBFB16, 0x16EDFBFB, 0xFB16EDFB, 0xFBFB16ED)
    case 0x64 => Entries(0x864343C5, 0xC5864343, 0x43C58643, 0x4343C586)
    case 0x65 => Entries(0x9A4D4DD7, 0xD79A4D4D, 0x4DD79A4D, 0x4D4DD79A)
    case 0x66 => Entries(0x66333355, 0x55663333, 0x33556633, 0x33335566)
    case 0x67 => Entries(0x11858594, 0x94118585, 0x85941185, 0x85859411)
    case 0x68 => Entries(0x8A4545CF, 0xCF8A4545, 0x45CF8A45, 0x4545CF8A)
    case 0x69 => Entries(0xE9F9F910, 0x10E9F9F9, 0xF910E9F9, 0xF9F910E9)
    case 0x6A => Entries(0x04020206, 0x06040202, 0x02060402, 0x02020604)
    case 0x6B => Entries(0xFE7F7F81, 0x81FE7F7F, 0x7F81FE7F, 0x7F7F81FE)
    case 0x6C => Entries(0xA05050F0, 0xF0A05050, 0x50F0A050, 0x5050F0A0)
    case 0x6D => Entries(0x783C3C44, 0x44783C3C, 0x3C44783C, 0x3C3C4478)
    case 0x6E => Entries(0x259F9FBA, 0xBA259F9F, 0x9FBA259F, 0x9F9FBA25)
    case _ => Entries(0x4BA8A8E3, 0xE34BA8A8, 0xA8E34BA8, 0xA8A8E34B)
  }

  function E7(b: bv8): Entries {
    match b
    case 0x70 => Entries(0xA25151F3, 0xF3A25151, 0x51F3A251, 0x5151F3A2)
    case 0x71 => Entries(0x5DA3A3FE, 0xFE5DA3A3, 0xA3FE5DA3, 0xA3A3FE5D)
    case 0x72 => Entries(0x804040C0, 0xC0804040, 0x40C08040, 0x4040C080)
    case 0x73 => Entries(0x058F8F8A, 0x8A058F8F, 0x8F8A058F, 0x8F8F8A05)
    case 0x74 => Entries(0x3F9292AD, 0xAD3F9292, 0x92AD3F92, 0x9292AD3F)
    case 0x75 => Entries(0x219D9DBC, 0xBC219D9D, 0x9DBC219D, 0x9D9DBC21)
    case 0x76 => Entries(0x70383848, 0x48703838, 0x38487038, 0x38384870)
    case 0x77 => Entries(0xF1F5F504, 0x04F1F5F5, 0xF504F1F5, 0xF5F504F1)
    case 0x78 => Entries(0x63BCBCDF, 0xDF63BCBC, 0xBCDF63BC, 0xBCBCDF63)
    case 0x79 => Entries(0x77B6B6C1, 0xC177B6B6, 0xB6C177B6, 0xB6B6C177)
    case 0x7A => Entries(0xAFDADA75, 0x75AFDADA, 0xDA75AFDA, 0xDADA75AF)
    case 0x7B => Entries(0x42212163, 0x63422121, 0x21634221, 0x21216342)
    case 0x7C => Entries(0x20101030, 0x30201010, 0x10302010, 0x10103020)
    case 0x7D => Entries(0xE5FFFF1A, 0x1AE5FFFF, 0xFF1AE5FF, 0xFFFF1AE5)
    case 0x7E => Entries(0xFDF3F30E, 0x0EFDF3F3, 0xF30EFDF3, 0xF3F30EFD)
    case _ => Entries(0xBFD2D26D, 0x6DBFD2D2, 0xD26DBFD2, 0xD2D26DBF)
  }

  function E8(b: bv8): Entries {
    match b
    case 0x80 => Entries(0x81CDCD4C, 0x4C81CDCD, 0xCD4C81CD, 0xCDCD4C81)
    case 0x81 => Entries(0x180C0C14, 0x14180C0C, 0x0C14180C, 0x0C0C1418)
    case 0x82 => Entries(0x26131335, 0x35261313, 0x13352613, 0x13133526)
    case 0x83 => Entries(0xC3ECEC2F, 0x2FC3ECEC, 0xEC2FC3EC, 0xECEC2FC3)
    case 0x84 => Entries(0xBE5F5FE1, 0xE1BE5F5F, 0x5FE1BE5F, 0x5F5FE1BE)
    case 0x85 => Entries(0x359797A2, 0xA2359797, 0x97A23597, 0x9797A235)
    case 0x86 => Entries(0x884444CC, 0xCC884444, 0x44CC8844, 0x4444CC88)
    case 0x87 => Entries(0x2E171739, 0x392E1717, 0x17392E17, 0x1717392E)
    case 0x88 => Entries(0x93C4C457, 0x5793C4C4, 0xC45793C4, 0xC4C45793)
    case 0x89 => Entries(0x55A7A7F2, 0xF255A7A7, 0xA7F255A7, 0xA7A7F255)
    case 0x8A => Entries(0xFC7E7E82, 0x82FC7E7E, 0x7E82FC7E, 0x7E7E82FC)
    case 0x8B => Entries(0x7A3D3D47, 0x477A3D3D, 0x3D477A3D, 0x3D3D477A)
    case 0x8C => Entries(0xC86464AC, 0xACC86464, 0x64ACC864, 0x6464ACC8)
    case 0x8D => Entries(0xBA5D5DE7, 0xE7BA5D5D, 0x5DE7BA5D, 0x5D5DE7BA)
    case 0x8E => Entries(0x3219192B, 0x2B321919, 0x192B3219, 0x19192B32)
    case _ => Entries(0xE6737395, 0x95E67373, 0x7395E673, 0x737395E6)
  }

  function E9(b: bv8): Entries {
    match b
    case 0x90 => Entries(0xC06060A0, 0xA0C06060, 0x60A0C060, 0x6060A0C0)
    case 0x91 => Entries(0x19818198, 0x98198181, 0x81981981, 0x81819819)
    case 0x92 => Entries(0x9E4F4FD1, 0xD19E4F4F, 0x4FD19E4F, 0x4F4FD19E)
    case 0x93 => Entries(0xA3DCDC7F, 0x7FA3DCDC, 0xDC7FA3DC, 0xDCDC7FA3)
    case 0x94 => Entries(0x44222266, 0x66442222, 0x22664422, 0x22226644)
    case 0x95 => Entries(0x542A2A7E, 0x7E542A2A, 0x2A7E542A, 0x2A2A7E54)
    case 0x96 => Entries(0x3B9090AB, 0xAB3B9090, 0x90AB3B90, 0x9090AB3B)
    case 0x97 => Entries(0x0B888883, 0x830B8888, 0x88830B88, 0x8888830B)
    case 0x98 => Entries(0x8C4646CA, 0xCA8C4646, 0x46CA8C46, 0x4646CA8C)
    case 0x99 => Entries(0xC7EEEE29, 0x29C7EEEE, 0xEE29C7EE, 0xEEEE29C7)
    case 0x9A => Entries(0x6BB8B8D3, 0xD36BB8B8, 0xB8D36BB8, 0xB8B8D36B)
    case 0x9B => Entries(0x2814143C, 0x3C281414, 0x143C2814, 0x14143C28)
    case 0x9C => Entries(0xA7DEDE79, 0x79A7DEDE, 0xDE79A7DE, 0xDEDE79A7)
    case 0x9D => Entries(0xBC5E5EE2, 0xE2BC5E5E, 0x5EE2BC5E, 0x5E5EE2BC)
    case 0x9E => Entries(0x160B0B1D, 0x1D160B0B, 0x0B1D160B, 0x0B0B1D16)
    case _ => Entries(0xADDBDB76, 0x76ADDBDB, 0xDB76ADDB, 0xDBDB76AD)
  }

  function E10(b: bv8): Entries {
    match b
    case 0xA0 => Entries(0xDBE0E03B, 0x3BDBE0E0, 0xE03BDBE0, 0xE0E03BDB)
    case 0xA1 => Entries(0x64323256, 0x56643232, 0x32566432, 0x32325664)
    case 0xA2 => Entries(0x743A3A4E, 0x4E743A3A, 0x3A4E743A, 0x3A3A4E74)
    case 0xA3 => Entries(0x140A0A1E, 0x1E140A0A, 0x0A1E140A, 0x0A0A1E14)
    case 0xA4 => Entries(0x924949DB, 0xDB924949, 0x49DB9249, 0x4949DB92)
    case 0xA5 => Entries(0x0C06060A, 0x0A0C0606, 0x060A0C06, 0x06060A0C)
    case 0xA6 => Entries(0x4824246C, 0x6C482424, 0x246C4824, 0x24246C48)
    case 0xA7 => Entries(0xB85C5CE4, 0xE4B85C5C, 0x5CE4B85C, 0x5C5CE4B8)
    case 0xA8 => Entries(0x9FC2C25D, 0x5D9FC2C2, 0xC25D9FC2, 0xC2C25D9F)
    case 0xA9 => Entries(0xBDD3D36E, 0x6EBDD3D3, 0xD36EBDD3, 0xD3D36EBD)
    case 0xAA => Entries(0x43ACACEF, 0xEF43ACAC, 0xACEF43AC, 0xACACEF43)
    case 0xAB => Entries(0xC46262A6, 0xA6C46262, 0x62A6C462, 0x6262A6C4)
    case 0xAC => Entries(0x399191A8, 0xA8399191, 0x91A83991, 0x9191A839)
    case 0xAD => Entries(0x319595A4, 0xA4319595, 0x95A43195, 0x9595A431)
    case 0xAE => Entries(0xD3E4E437, 0x37D3E4E4, 0xE437D3E4, 0xE4E437D3)
    case _ => Entries(0xF279798B, 0x8BF27979, 0x798BF279, 0x79798BF2)
  }

  function E11(b: bv8): Entries {
    match b
    case 0xB0 => Entries(0xD5E7E732, 0x32D5E7E7, 0xE732D5E7, 0xE7E732D5)
    case 0xB1 => Entries(0x8BC8C843, 0x438BC8C8, 0xC8438BC8, 0xC8C8438B)
    case 0xB2 => Entries(0x6E373759, 0x596E3737, 0x37596E37, 0x3737596E)
    case 0xB3 => Entries(0xDA6D6DB7, 0xB7DA6D6D, 0x6DB7DA6D, 0x6D6DB7DA)
    case 0xB4 => Entries(0x018D8D8C, 0x8C018D8D, 0x8D8C018D, 0x8D8D8C01)
    case 0xB5 => Entries(0xB1D5D564, 0x64B1D5D5, 0xD564B1D5, 0xD5D564B1)
    case 0xB6 => Entries(0x9C4E4ED2, 0xD29C4E4E, 0x4ED29C4E, 0x4E4ED29C)
    case 0xB7 => Entries(0x49A9A9E0, 0xE049A9A9, 0xA9E049A9, 0xA9A9E049)
    case 0xB8 => Entries(0xD86C6CB4, 0xB4D86C6C, 0x6CB4D86C, 0x6C6CB4D8)
    case 0xB9 => Entries(0xAC5656FA, 0xFAAC5656, 0x56FAAC56, 0x5656FAAC)
    case 0xBA => Entries(0xF3F4F407, 0x07F3F4F4, 0xF407F3F4, 0xF4F407F3)
    case 0xBB => Entries(0xCFEAEA25, 0x25CFEAEA, 0xEA25CFEA, 0xEAEA25CF)
    case 0xBC => Entries(0xCA6565AF, 0xAFCA6565, 0x65AFCA65, 0x6565AFCA)
    case 0xBD => Entries(0xF47A7A8E, 0x8EF47A7A, 0x7A8EF47A, 0x7A7A8EF4)
    case 0xBE => Entries(0x47AEAEE9, 0xE947AEAE, 0xAEE947AE, 0xAEAEE947)
    case _ => Entries(0x10080818, 0x18100808, 0x08181008, 0x08081810)
  }

  function E12(b: bv8): Entries {
    match b
    case 0xC0 => Entries(0x6FBABAD5, 0xD56FBABA, 0xBAD56FBA, 0xBABAD56F)
    case 0xC1 => Entries(0xF0787888, 0x88F07878, 0x7888F078, 0x787888F0)
    case 0xC2 => Entries(0x4A25256F, 0x6F4A2525, 0x256F4A25, 0x25256F4A)
    case 0xC3 => Entries(0x5C2E2E72, 0x725C2E2E, 0x2E725C2E, 0x2E2E725C)
    case 0xC4 => Entries(0x381C1C24, 0x24381C1C, 0x1C24381C, 0x1C1C2438)
    case 0xC5 => Entries(0x57A6A6F1, 0xF157A6A6, 0xA6F157A6, 0xA6A6F157)
    case 0xC6 => Entries(0x73B4B4C7, 0xC773B4B4, 0xB4C773B4, 0xB4B4C773)
    case 0xC7 => Entries(0x97C6C651, 0x5197C6C6, 0xC65197C6, 0xC6C65197)
    case 0xC8 => Entries(0xCBE8E823, 0x23CBE8E8, 0xE823CBE8, 0xE8E823CB)
    case 0xC9 => Entries(0xA1DDDD7C, 0x7CA1DDDD, 0xDD7CA1DD, 0xDDDD7CA1)
    case 0xCA => Entries(0xE874749C, 0x9CE87474, 0x749CE874, 0x74749CE8)
    case 0xCB => Entries(0x3E1F1F21, 0x213E1F1F, 0x1F213E1F, 0x1F1F213E)
    case 0xCC => Entries(0x964B4BDD, 0xDD964B4B, 0x4BDD964B, 0x4B4BDD96)
    case 0xCD => Entries(0x61BDBDDC, 0xDC61BDBD, 0xBDDC61BD, 0xBDBDDC61)
    case 0xCE => Entries(0x0D8B8B86, 0x860D8B8B, 0x8B860D8B, 0x8B8B860D)
    case _ => Entries(0x0F8A8A85, 0x850F8A8A, 0x8A850F8A, 0x8A8A850F)
  }

  function E13(b: bv8): Entries {
    match b
    case 0xD0 => Entries(0xE0707090, 0x90E07070, 0x7090E070, 0x707090E0)
    case 0xD1 => Entries(0x7C3E3E42, 0x427C3E3E, 0x3E427C3E, 0x3E3E427C)
    case 0xD2 => Entries(0x71B5B5C4, 0xC471B5B5, 0xB5C471B5, 0xB5B5C471)
    case 0xD3 => Entries(0xCC6666AA, 0xAACC6666, 0x66AACC66, 0x6666AACC)
    case 0xD4 => Entries(0x904848D8, 0xD8904848, 0x48D89048, 0x4848D890)
    case 0xD5 => Entries(0x06030305, 0x05060303, 0x03050603, 0x03030506)
    case 0xD6 => Entries(0xF7F6F601, 0x01F7F6F6, 0xF601F7F6, 0xF6F601F7)
    case 0xD7 => Entries(0x1C0E0E12, 0x121C0E0E, 0x0E121C0E, 0x0E0E121C)
    case 0xD8 => Entries(0xC26161A3, 0xA3C26161, 0x61A3C261, 0x6161A3C2)
    case 0xD9 => Entries(0x6A35355F, 0x5F6A3535, 0x355F6A35, 0x35355F6A)
    case 0xDA => Entries(0xAE5757F9, 0xF9AE5757, 0x57F9AE57, 0x5757F9AE)
    case 0xDB => Entries(0x69B9B9D0, 0xD069B9B9, 0xB9D069B9, 0xB9B9D069)
    case 0xDC => Entries(0x17868691, 0x91178686, 0x86911786, 0x86869117)
    case 0xDD => Entries(0x99C1C158, 0x5899C1C1, 0xC15899C1, 0xC1C15899)
    case 0xDE => Entries(0x3A1D1D27, 0x273A1D1D, 0x1D273A1D, 0x1D1D273A)
    case _ => Entries(0x279E9EB9, 0xB9279E9E, 0x9EB9279E, 0x9E9EB927)
  }

  function E14(b: bv8): Entries {
    match b
    case 0xE0 => Entries(0xD9E1E138, 0x38D9E1E1, 0xE138D9E1, 0xE1E138D9)
    case 0xE1 => Entries(0xEBF8F813, 0x13EBF8F8, 0xF813EBF8, 0xF8F813EB)
    case 0xE2 => Entries(0x2B9898B3, 0xB32B9898, 0x98B32B98, 0x9898B32B)
    case 0xE3 => Entries(0x22111133, 0x33221111, 0x11332211, 0x11113322)
    case 0xE4 => Entries(0xD26969BB, 0xBBD26969, 0x69BBD269, 0x6969BBD2)
    case 0xE5 => Entries(0xA9D9D970, 0x70A9D9D9, 0xD970A9D9, 0xD9D970A9)
    case 0xE6 => Entries(0x078E8E89, 0x89078E8E, 0x8E89078E, 0x8E8E8907)
    case 0xE7 => Entries(0x339494A7, 0xA7339494, 0x94A73394, 0x9494A733)
    case 0xE8 => Entries(0x2D9B9BB6, 0xB62D9B9B, 0x9BB62D9B, 0x9B9BB62D)
    case 0xE9 => Entries(0x3C1E1E22, 0x223C1E1E, 0x1E223C1E, 0x1E1E223C)
    case 0xEA => Entries(0x15878792, 0x92158787, 0x87921587, 0x87879215)
    case 0xEB => Entries(0xC9E9E920, 0x20C9E9E9, 0xE920C9E9, 0xE9E920C9)
    case 0xEC => Entries(0x87CECE49, 0x4987CECE, 0xCE4987CE, 0xCECE4987)
    case 0xED => Entries(0xAA5555FF, 0xFFAA5555, 0x55FFAA55, 0x5555FFAA)
    case 0xEE => Entries(0x50282878, 0x78502828, 0x28785028, 0x28287850)
    case _ => Entries(0xA5DFDF7A, 0x7AA5DFDF, 0xDF7AA5DF, 0xDFDF7AA5)
  }

  function E15(b: bv8): Entries {
    match b
    case 0xF0 => Entries(0x038C8C8F, 0x8F038C8C, 0x8C8F038C, 0x8C8C8F03)
    case 0xF1 => Entries(0x59A1A1F8, 0xF859A1A1, 0xA1F859A1, 0xA1A1F859)
    case 0xF2 => Entries(0x09898980, 0x80098989, 0x89800989, 0x89898009)
    case 0xF3 => Entries(0x1A0D0D17, 0x171A0D0D, 0x0D171A0D, 0x0D0D171A)
    case 0xF4 => Entries(0x65BFBFDA, 0xDA65BFBF, 0xBFDA65BF, 0xBFBFDA65)
    case 0xF5 => Entries(0xD7E6E631, 0x31D7E6E6, 0xE631D7E6, 0xE6E631D7)
    case 0xF6 => Entries(0x844242C6, 0xC6844242, 0x42C68442, 0x4242C684)
    case 0xF7 => Entries(0xD06868B8, 0xB8D06868, 0x68B8D068, 0x6868B8D0)
    case 0xF8 => Entries(0x824141C3, 0xC3824141, 0x41C38241, 0x4141C382)
    case 0xF9 => Entries(0x299999B0, 0xB0299999, 0x99B02999, 0x9999B029)
    case 0xFA => Entries(0x5A2D2D77, 0x775A2D2D, 0x2D775A2D, 0x2D2D775A)
    case 0xFB => Entries(0x1E0F0F11, 0x111E0F0F, 0x0F111E0F, 0x0F0F111E)
    case 0xFC => Entries(0x7BB0B0CB, 0xCB7BB0B0, 0xB0CB7BB0, 0xB0B0CB7B)
    case 0xFD => Entries(0xA85454FC, 0xFCA85454, 0x54FCA854, 0x5454FCA8)
    case 0xFE => Entries(0x6DBBBBD6, 0xD66DBBBB, 0xBBD66DBB, 0xBBBBD66D)
    case _ => Entries(0x2C16163A, 0x3A2C1616, 0x163A2C16, 0x16163A2C)
  }

  function E(b: bv8): Entries {
    if b < 0x10 then E0(b)
    else if b < 0x20 then E1(b)
    else if b < 0x30 then E2(b)
    else if b < 0x40 then E3(b)
    else if b < 0x50 then E4(b)
    else if b < 0x60 then E5(b)
    else if b < 0x70 then E6(b)
    else if b < 0x80 then E7(b)
    else if b < 0x90 then E8(b)
    else if b < 0xA0 then E9(b)
    else if b < 0xB0 then E10(b)
    else if b < 0xC0 then E11(b)
    else if b < 0xD0 then E12(b)
    else if b < 0xE0 then E13(b)
    else if b < 0xF0 then E14(b)
    else E15(b)
  }

  function D0(b: bv8): Entries {
    match b
    case 0x00 => Entries(0x51F4A750, 0x5051F4A7, 0xA75051F4, 0xF4A75051)
    case 0x01 => Entries(0x7E416553, 0x537E4165, 0x65537E41, 0x4165537E)
    case 0x02 => Entries(0x1A17A4C3, 0xC31A17A4, 0xA4C31A17, 0x17A4C31A)
    case 0x03 => Entries(0x3A275E96, 0x963A275E, 0x5E963A27, 0x275E963A)
    case 0x04 => Entries(0x3BAB6BCB, 0xCB3BAB6B, 0x6BCB3BAB, 0xAB6BCB3B)
    case 0x05 => Entries(0x1F9D45F1, 0xF11F9D45, 0x45F11F9D, 0x9D45F11F)
    case 0x06 => Entries(0xACFA58AB, 0xABACFA58, 0x58ABACFA, 0xFA58ABAC)
    case 0x07 => Entries(0x4BE30393, 0x934BE303, 0x03934BE3, 0xE303934B)
    case 0x08 => Entries(0x2030FA55, 0x552030FA, 0xFA552030, 0x30FA5520)
    case 0x09 => Entries(0xAD766DF6, 0xF6AD766D, 0x6DF6AD76, 0x766DF6AD)
    case 0x0A => Entries(0x88CC7691, 0x9188CC76, 0x769188CC, 0xCC769188)
    case 0x0B => Entries(0xF5024C25, 0x25F5024C, 0x4C25F502, 0x024C25F5)
    case 0x0C => Entries(0x4FE5D7FC, 0xFC4FE5D7, 0xD7FC4FE5, 0xE5D7FC4F)
    case 0x0D => Entries(0xC52ACBD7, 0xD7C52ACB, 0xCBD7C52A, 0x2ACBD7C5)
    case 0x0E => Entries(0x26354480, 0x80263544, 0x44802635, 0x35448026)
    case _ => Entries(0xB562A38F, 0x8FB562A3, 0xA38FB562, 0x62A38FB5)
  }

  function D1(b: bv8): Entries {
    match b
    case 0x10 => Entries(0xDEB15A49, 0x49DEB15A, 0x5A49DEB1, 0xB15A49DE)
    case 0x11 => Entries(0x25BA1B67, 0x6725BA1B, 0x1B6725BA, 0xBA1B6725)
    case 0x12 => Entries(0x45EA0E98, 0x9845EA0E, 0x0E9845EA, 0xEA0E9845)
    case 0x13 => Entries(0x5DFEC0E1, 0xE15DFEC0, 0xC0E15DFE, 0xFEC0E15D)
    case 0x14 => Entries(0xC32F7502, 0x02C32F75, 0x7502C32F, 0x2F7502C3)
    case 0x15 => Entries(0x814CF012, 0x12814CF0, 0xF012814C, 0x4CF01281)
    case 0x16 => Entries(0x8D4697A3, 0xA38D4697, 0x97A38D46, 0x4697A38D)
    case 0x17 => Entries(0x6BD3F9C6, 0xC66BD3F9, 0xF9C66BD3, 0xD3F9C66B)
    case 0x18 => Entries(0x038F5FE7, 0xE7038F5F, 0x5FE7038F, 0x8F5FE703)
    case 0x19 => Entries(0x15929C95, 0x9515929C, 0x9C951592, 0x929C9515)
    case 0x1A => Entries(0xBF6D7AEB, 0xEBBF6D7A, 0x7AEBBF6D, 0x6D7AEBBF)
    case 0x1B => Entries(0x955259DA, 0xDA955259, 0x59DA9552, 0x5259DA95)
    case 0x1C => Entries(0xD4BE832D, 0x2DD4BE83, 0x832DD4BE, 0xBE832DD4)
    case 0x1D => Entries(0x587421D3, 0xD3587421, 0x21D35874, 0x7421D358)
    case 0x1E => Entries(0x49E06929, 0x2949E069, 0x692949E0, 0xE0692949)
    case _ => Entries(0x8EC9C844, 0x448EC9C8, 0xC8448EC9, 0xC9C8448E)
  }

  function D2(b: bv8): Entries {
    match b
    case 0x20 => Entries(0x75C2896A, 0x6A75C289, 0x896A75C2, 0xC2896A75)
    case 0x21 => Entries(0xF48E7978, 0x78F48E79, 0x7978F48E, 0x8E7978F4)
    case 0x22 => Entries(0x99583E6B, 0x6B99583E, 0x3E6B9958, 0x583E6B99)
    case 0x23 => Entries(0x27B971DD, 0xDD27B971, 0x71DD27B9, 0xB971DD27)
    case 0x24 => Entries(0xBEE14FB6, 0xB6BEE14F, 0x4FB6BEE1, 0xE14FB6BE)
    case 0x25 => Entries(0xF088AD17, 0x17F088AD, 0xAD17F088, 0x88AD17F0)
    case 0x26 => Entries(0xC920AC66, 0x66C920AC, 0xAC66C920, 0x20AC66C9)
    case 0x27 => Entries(0x7DCE3AB4, 0xB47DCE3A, 0x3AB47DCE, 0xCE3AB47D)
    case 0x28 => Entries(0x63DF4A18, 0x1863DF4A, 0x4A1863DF, 0xDF4A1863)
    case 0x29 => Entries(0xE51A3182, 0x82E51A31, 0x3182E51A, 0x1A3182E5)
    case 0x2A => Entries(0x97513360, 0x60975133, 0x33609751, 0x51336097)
    case 0x2B => Entries(0x62537F45, 0x4562537F, 0x7F456253, 0x537F4562)
    case 0x2C => Entries(0xB16477E0, 0xE0B16477, 0x77E0B164, 0x6477E0B1)
    case 0x2D => Entries(0xBB6BAE84, 0x84BB6BAE, 0xAE84BB6B, 0x6BAE84BB)
    case 0x2E => Entries(0xFE81A01C, 0x1CFE81A0, 0xA01CFE81, 0x81A01CFE)
    case _ => Entries(0xF9082B94, 0x94F9082B, 0x2B94F908, 0x082B94F9)
  }

  function D3(b: bv8): Entries {
    match b
    case 0x30 => Entries(0x70486858, 0x58704868, 0x68587048, 0x48685870)
    case 0x31 => Entries(0x8F45FD19, 0x198F45FD, 0xFD198F45, 0x45FD198F)
    case 0x32 => Entries(0x94DE6C87, 0x8794DE6C, 0x6C8794DE, 0xDE6C8794)
    case 0x33 => Entries(0x527BF8B7, 0xB7527BF8, 0xF8B7527B, 0x7BF8B752)
    case 0x34 => Entries(0xAB73D323, 0x23AB73D3, 0xD323AB73, 0x73D323AB)
    case 0x35 => Entries(0x724B02E2, 0xE2724B02, 0x02E2724B, 0x4B02E272)
    case 0x36 => Entries(0xE31F8F57, 0x57E31F8F, 0x8F57E31F, 0x1F8F57E3)
    case 0x37 => Entries(0x6655AB2A, 0x2A6655AB, 0xAB2A6655, 0x55AB2A66)
    case 0x38 => Entries(0xB2EB2807, 0x07B2EB28, 0x2807B2EB, 0xEB2807B2)
    case 0x39 => Entries(0x2FB5C203, 0x032FB5C2, 0xC2032FB5, 0xB5C2032F)
    case 0x3A => Entries(0x86C57B9A, 0x9A86C57B, 0x7B9A86C5, 0xC57B9A86)
    case 0x3B => Entries(0xD33708A5, 0xA5D33708, 0x08A5D337, 0x3708A5D3)
    case 0x3C => Entries(0x302887F2, 0xF2302887, 0x87F23028, 0x2887F230)
    case 0x3D => Entries(0x23BFA5B2, 0xB223BFA5, 0xA5B223BF, 0xBFA5B223)
    case 0x3E => Entries(0x02036ABA, 0xBA02036A, 0x6ABA0203, 0x036ABA02)
    case _ => Entries(0xED16825C, 0x5CED1682, 0x825CED16, 0x16825CED)
  }

  function D4(b: bv8): Entries {
    match b
    case 0x40 => Entries(0x8ACF1C2B, 0x2B8ACF1C, 0x1C2B8ACF, 0xCF1C2B8A)
    case 0x41 => Entries(0xA779B492, 0x92A779B4, 0xB492A779, 0x79B492A7)
    case 0x42 => Entries(0xF307F2F0, 0xF0F307F2, 0xF2F0F307, 0x07F2F0F3)
    case 0x43 => Entries(0x4E69E2A1, 0xA14E69E2, 0xE2A14E69, 0x69E2A14E)
    case 0x44 => Entries(0x65DAF4CD, 0xCD65DAF4, 0xF4CD65DA, 0xDAF4CD65)
    case 0x45 => Entries(0x0605BED5, 0xD50605BE, 0xBED50605, 0x05BED506)
    case 0x46 => Entries(0xD134621F, 0x1FD13462, 0x621FD134, 0x34621FD1)
    case 0x47 => Entries(0xC4A6FE8A, 0x8AC4A6FE, 0xFE8AC4A6, 0xA6FE8AC4)
    case 0x48 => Entries(0x342E539D, 0x9D342E53, 0x539D342E, 0x2E539D34)
    case 0x49 => Entries(0xA2F355A0, 0xA0A2F355, 0x55A0A2F3, 0xF355A0A2)
    case 0x4A => Entries(0x058AE132, 0x32058AE1, 0xE132058A, 0x8AE13205)
    case 0x4B => Entries(0xA4F6EB75, 0x75A4F6EB, 0xEB75A4F6, 0xF6EB75A4)
    case 0x4C => Entries(0x0B83EC39, 0x390B83EC, 0xEC390B83, 0x83EC390B)
    case 0x4D => Entries(0x4060EFAA, 0xAA4060EF, 0xEFAA4060, 0x60EFAA40)
    case 0x4E => Entries(0x5E719F06, 0x065E719F, 0x9F065E71, 0x719F065E)
    case _ => Entries(0xBD6E1051, 0x51BD6E10, 0x1051BD6E, 0x6E1051BD)
  }

  function D5(b: bv8): Entries {
    match b
    case 0x50 => Entries(0x3E218AF9, 0xF93E218A, 0x8AF93E21, 0x218AF93E)
    case 0x51 => Entries(0x96DD063D, 0x3D96DD06, 0x063D96DD, 0xDD063D96)
    case 0x52 => Entries(0xDD3E05AE, 0xAEDD3E05, 0x05AEDD3E, 0x3E05AEDD)
    case 0x53 => Entries(0x4DE6BD46, 0x464DE6BD, 0xBD464DE6, 0xE6BD464D)
    case 0x54 => Entries(0x91548DB5, 0xB591548D, 0x8DB59154, 0x548DB591)
    case 0x55 => Entries(0x71C45D05, 0x0571C45D, 0x5D0571C4, 0xC45D0571)
    case 0x56 => Entries(0x0406D46F, 0x6F0406D4, 0xD46F0406, 0x06D46F04)
    case 0x57 => Entries(0x605015FF, 0xFF605015, 0x15FF6050, 0x5015FF60)
    case 0x58 => Entries(0x1998FB24, 0x241998FB, 0xFB241998, 0x98FB2419)
    case 0x59 => Entries(0xD6BDE997, 0x97D6BDE9, 0xE997D6BD, 0xBDE997D6)
    case 0x5A => Entries(0x894043CC, 0xCC894043, 0x43CC8940, 0x4043CC89)
    case 0x5B => Entries(0x67D99E77, 0x7767D99E, 0x9E7767D9, 0xD99E7767)
    case 0x5C => Entries(0xB0E842BD, 0xBDB0E842, 0x42BDB0E8, 0xE842BDB0)
    case 0x5D => Entries(0x07898B88, 0x8807898B, 0x8B880789, 0x898B8807)
    case 0x5E => Entries(0xE7195B38, 0x38E7195B, 0x5B38E719, 0x195B38E7)
    case _ => Entries(0x79C8EEDB, 0xDB79C8EE, 0xEEDB79C8, 0xC8EEDB79)
  }

  function D6(b: bv8): Entries {
    match b
    case 0x60 => Entries(0xA17C0A47, 0x47A17C0A, 0x0A47A17C, 0x7C0A47A1)
    case 0x61 => Entries(0x7C420FE9, 0xE97C420F, 0x0FE97C42, 0x420FE97C)
    case 0x62 => Entries(0xF8841EC9, 0xC9F8841E, 0x1EC9F884, 0x841EC9F8)
    case 0x63 => Entries(0x00000000, 0x00000000, 0x00000000, 0x00000000)
    case 0x64 => Entries(0x09808683, 0x83098086, 0x86830980, 0x80868309)
    case 0x65 => Entries(0x322BED48, 0x48322BED, 0xED48322B, 0x2BED4832)
    case 0x66 => Entries(0x1E1170AC, 0xAC1E1170, 0x70AC1E11, 0x1170AC1E)
    case 0x67 => Entries(0x6C5A724E, 0x4E6C5A72, 0x724E6C5A, 0x5A724E6C)
    case 0x68 => Entries(0xFD0EFFFB, 0xFBFD0EFF, 0xFFFBFD0E, 0x0EFFFBFD)
    case 0x69 => Entries(0x0F853856, 0x560F8538, 0x38560F85, 0x8538560F)
    case 0x6A => Entries(0x3DAED51E, 0x1E3DAED5, 0xD51E3DAE, 0xAED51E3D)
    case 0x6B => Entries(0x362D3927, 0x27362D39, 0x3927362D, 0x2D392736)
    case 0x6C => Entries(0x0A0FD964, 0x640A0FD9, 0xD9640A0F, 0x0FD9640A)
    case 0x6D => Entries(0x685CA621, 0x21685CA6, 0xA621685C, 0x5CA62168)
    case 0x6E => Entries(0x9B5B54D1, 0xD19B5B54, 0x54D19B5B, 0x5B54D19B)
    case _ => Entries(0x24362E3A, 0x3A24362E, 0x2E3A2436, 0x362E3A24)
  }

  function D7(b: bv8): Entries {
    match b
    case 0x70 => Entries(0x0C0A67B1, 0xB10C0A67, 0x67B10C0A, 0x0A67B10C)
    case 0x71 => Entries(0x9357E70F, 0x0F9357E7, 0xE70F9357, 0x57E70F93)
    case 0x72 => Entries(0xB4EE96D2, 0xD2B4EE96, 0x96D2B4EE, 0xEE96D2B4)
    case 0x73 => Entries(0x1B9B919E, 0x9E1B9B91, 0x919E1B9B, 0x9B919E1B)
    case 0x74 => Entries(0x80C0C54F, 0x4F80C0C5, 0xC54F80C0, 0xC0C54F80)
    case 0x75 => Entries(0x61DC20A2, 0xA261DC20, 0x20A261DC, 0xDC20A261)
    case 0x76 => Entries(0x5A774B69, 0x695A774B, 0x4B695A77, 0x774B695A)
    case 0x77 => Entries(0x1C121A16, 0x161C121A, 0x1A161C12, 0x121A161C)
    case 0x78 => Entries(0xE293BA0A, 0x0AE293BA, 0xBA0AE293, 0x93BA0AE2)
    case 0x79 => Entries(0xC0A02AE5, 0xE5C0A02A, 0x2AE5C0A0, 0xA02AE5C0)
    case 0x7A => Entries(0x3C22E043, 0x433C22E0, 0xE0433C22, 0x22E0433C)
    case 0x7B => Entries(0x121B171D, 0x1D121B17, 0x171D121B, 0x1B171D12)
    case 0x7C => Entries(0x0E090D0B, 0x0B0E090D, 0x0D0B0E09, 0x090D0B0E)
    case 0x7D => Entries(0xF28BC7AD, 0xADF28BC7, 0xC7ADF28B, 0x8BC7ADF2)
    case 0x7E => Entries(0x2DB6A8B9, 0xB92DB6A8, 0xA8B92DB6, 0xB6A8B92D)
    case _ => Entries(0x141EA9C8, 0xC8141EA9, 0xA9C8141E, 0x1EA9C814)
  }

  function D8(b: bv8): Entries {
    match b
    case 0x80 => Entries(0x57F11985, 0x8557F119, 0x198557F1, 0xF1198557)
    case 0x81 => Entries(0xAF75074C, 0x4CAF7507, 0x074CAF75, 0x75074CAF)
    case 0x82 => Entries(0xEE99DDBB, 0xBBEE99DD, 0xDDBBEE99, 0x99DDBBEE)
    case 0x83 => Entries(0xA37F60FD, 0xFDA37F60, 0x60FDA37F, 0x7F60FDA3)
    case 0x84 => Entries(0xF701269F, 0x9FF70126, 0x269FF701, 0x01269FF7)
    case 0x85 => Entries(0x5C72F5BC, 0xBC5C72F5, 0xF5BC5C72, 0x72F5BC5C)
    case 0x86 => Entries(0x44663BC5, 0xC544663B, 0x3BC54466, 0x663BC544)
    case 0x87 => Entries(0x5BFB7E34, 0x345BFB7E, 0x7E345BFB, 0xFB7E345B)
    case 0x88 => Entries(0x8B432976, 0x768B4329, 0x29768B43, 0x4329768B)
    case 0x89 => Entries(0xCB23C6DC, 0xDCCB23C6, 0xC6DCCB23, 0x23C6DCCB)
    case 0x8A => Entries(0xB6EDFC68, 0x68B6EDFC, 0xFC68B6ED, 0xEDFC68B6)
    case 0x8B => Entries(0xB8E4F163, 0x63B8E4F1, 0xF163B8E4, 0xE4F163B8)
    case 0x8C => Entries(0xD731DCCA, 0xCAD731DC, 0xDCCAD731, 0x31DCCAD7)
    case 0x8D => Entries(0x42638510, 0x10426385, 0x85104263, 0x63851042)
    case 0x8E => Entries(0x13972240, 0x40139722, 0x22401397, 0x97224013)
    case _ => Entries(0x84C61120, 0x2084C611, 0x112084C6, 0xC6112084)
  }

  function D9(b: bv8): Entries {
    match b
    case 0x90 => Entries(0x854A247D, 0x7D854A24, 0x247D854A, 0x4A247D85)
    case 0x91 => Entries(0xD2BB3DF8, 0xF8D2BB3D, 0x3DF8D2BB, 0xBB3DF8D2)
    case 0x92 => Entries(0xAEF93211, 0x11AEF932, 0x3211AEF9, 0xF93211AE)
    case 0x93 => Entries(0xC729A16D, 0x6DC729A1, 0xA16DC729, 0x29A16DC7)
    case 0x94 => Entries(0x1D9E2F4B, 0x4B1D9E2F, 0x2F4B1D9E, 0x9E2F4B1D)
    case 0x95 => Entries(0xDCB230F3, 0xF3DCB230, 0x30F3DCB2, 0xB230F3DC)
    case 0x96 => Entries(0x0D8652EC, 0xEC0D8652, 0x52EC0D86, 0x8652EC0D)
    case 0x97 => Entries(0x77C1E3D0, 0xD077C1E3, 0xE3D077C1, 0xC1E3D077)
    case 0x98 => Entries(0x2BB3166C, 0x6C2BB316, 0x166C2BB3, 0xB3166C2B)
    case 0x99 => Entries(0xA970B999, 0x99A970B9, 0xB999A970, 0x70B999A9)
    case 0x9A => Entries(0x119448FA, 0xFA119448, 0x48FA1194, 0x9448FA11)
    case 0x9B => Entries(0x47E96422, 0x2247E964, 0x642247E9, 0xE9642247)
    case 0x9C => Entries(0xA8FC8CC4, 0xC4A8FC8C, 0x8CC4A8FC, 0xFC8CC4A8)
    case 0x9D => Entries(0xA0F03F1A, 0x1AA0F03F, 0x3F1AA0F0, 0xF03F1AA0)
    case 0x9E => Entries(0x567D2CD8, 0xD8567D2C, 0x2CD8567D, 0x7D2CD856)
    case _ => Entries(0x223390EF, 0xEF223390, 0x90EF2233, 0x3390EF22)
  }

  function D10(b: bv8): Entries {
    match b
    case 0xA0 => Entries(0x87494EC7, 0xC787494E, 0x4EC78749, 0x494EC787)
    case 0xA1 => Entries(0xD938D1C1, 0xC1D938D1, 0xD1C1D938, 0x38D1C1D9)
    case 0xA2 => Entries(0x8CCAA2FE, 0xFE8CCAA2, 0xA2FE8CCA, 0xCAA2FE8C)
    case 0xA3 => Entries(0x98D40B36, 0x3698D40B, 0x0B3698D4, 0xD40B3698)
    case 0xA4 => Entries(0xA6F581CF, 0xCFA6F581, 0x81CFA6F5, 0xF581CFA6)
    case 0xA5 => Entries(0xA57ADE28, 0x28A57ADE, 0xDE28A57A, 0x7ADE28A5)
    case 0xA6 => Entries(0xDAB78E26, 0x26DAB78E, 0x8E26DAB7, 0xB78E26DA)
    case 0xA7 => Entries(0x3FADBFA4, 0xA43FADBF, 0xBFA43FAD, 0xADBFA43F)
    case 0xA8 => Entries(0x2C3A9DE4, 0xE42C3A9D, 0x9DE42C3A, 0x3A9DE42C)
    case 0xA9 => Entries(0x5078920D, 0x0D507892, 0x920D5078, 0x78920D50)
    case 0xAA => Entries(0x6A5FCC9B, 0x9B6A5FCC, 0xCC9B6A5F, 0x5FCC9B6A)
    case 0xAB => Entries(0x547E4662, 0x62547E46, 0x4662547E, 0x7E466254)
    case 0xAC => Entries(0xF68D13C2, 0xC2F68D13, 0x13C2F68D, 0x8D13C2F6)
    case 0xAD => Entries(0x90D8B8E8, 0xE890D8B8, 0xB8E890D8, 0xD8B8E890)
    case 0xAE => Entries(0x2E39F75E, 0x5E2E39F7, 0xF75E2E39, 0x39F75E2E)
    case _ => Entries(0x82C3AFF5, 0xF582C3AF, 0xAFF582C3, 0xC3AFF582)
  }

  function D11(b: bv8): Entries {
    match b
    case 0xB0 => Entries(0x9F5D80BE, 0xBE9F5D80, 0x80BE9F5D, 0x5D80BE9F)
    case 0xB1 => Entries(0x69D0937C, 0x7C69D093, 0x937C69D0, 0xD0937C69)
    case 0xB2 => Entries(0x6FD52DA9, 0xA96FD52D, 0x2DA96FD5, 0xD52DA96F)
    case 0xB3 => Entries(0xCF2512B3, 0xB3CF2512, 0x12B3CF25, 0x2512B3CF)
    case 0xB4 => Entries(0xC8AC993B, 0x3BC8AC99, 0x993BC8AC, 0xAC993BC8)
    case 0xB5 => Entries(0x10187DA7, 0xA710187D, 0x7DA71018, 0x187DA710)
    case 0xB6 => Entries(0xE89C636E, 0x6EE89C63, 0x636EE89C, 0x9C636EE8)
    case 0xB7 => Entries(0xDB3BBB7B, 0x7BDB3BBB, 0xBB7BDB3B, 0x3BBB7BDB)
    case 0xB8 => Entries(0xCD267809, 0x09CD2678, 0x7809CD26, 0x267809CD)
    case 0xB9 => Entries(0x6E5918F4, 0xF46E5918, 0x18F46E59, 0x5918F46E)
    case 0xBA => Entries(0xEC9AB701, 0x01EC9AB7, 0xB701EC9A, 0x9AB701EC)
    case 0xBB => Entries(0x834F9AA8, 0xA8834F9A, 0x9AA8834F, 0x4F9AA883)
    case 0xBC => Entries(0xE6956E65, 0x65E6956E, 0x6E65E695, 0x956E65E6)
    case 0xBD => Entries(0xAAFFE67E, 0x7EAAFFE6, 0xE67EAAFF, 0xFFE67EAA)
    case 0xBE => Entries(0x21BCCF08, 0x0821BCCF, 0xCF0821BC, 0xBCCF0821)
    case _ => Entries(0xEF15E8E6, 0xE6EF15E8, 0xE8E6EF15, 0x15E8E6EF)
  }

  function D12(b: bv8): Entries {
    match b
    case 0xC0 => Entries(0xBAE79BD9, 0xD9BAE79B, 0x9BD9BAE7, 0xE79BD9BA)
    case 0xC1 => Entries(0x4A6F36CE, 0xCE4A6F36, 0x36CE4A6F, 0x6F36CE4A)
    case 0xC2 => Entries(0xEA9F09D4, 0xD4EA9F09, 0x09D4EA9F, 0x9F09D4EA)
    case 0xC3 => Entries(0x29B07CD6, 0xD629B07C, 0x7CD629B0, 0xB07CD629)
    case 0xC4 => Entries(0x31A4B2AF, 0xAF31A4B2, 0xB2AF31A4, 0xA4B2AF31)
    case 0xC5 => Entries(0x2A3F2331, 0x312A3F23, 0x23312A3F, 0x3F23312A)
    case 0xC6 => Entries(0xC6A59430, 0x30C6A594, 0x9430C6A5, 0xA59430C6)
    case 0xC7 => Entries(0x35A266C0, 0xC035A266, 0x66C035A2, 0xA266C035)
    case 0xC8 => Entries(0x744EBC37, 0x37744EBC, 0xBC37744E, 0x4EBC3774)
    case 0xC9 => Entries(0xFC82CAA6, 0xA6FC82CA, 0xCAA6FC82, 0x82CAA6FC)
    case 0xCA => Entries(0xE090D0B0, 0xB0E090D0, 0xD0B0E090, 0x90D0B0E0)
    case 0xCB => Entries(0x33A7D815, 0x1533A7D8, 0xD81533A7, 0xA7D81533)
    case 0xCC => Entries(0xF104984A, 0x4AF10498, 0x984AF104, 0x04984AF1)
    case 0xCD => Entries(0x41ECDAF7, 0xF741ECDA, 0xDAF741EC, 0xECDAF741)
    case 0xCE => Entries(0x7FCD500E, 0x0E7FCD50, 0x500E7FCD, 0xCD500E7F)
    case _ => Entries(0x1791F62F, 0x2F1791F6, 0xF62F1791, 0x91F62F17)
  }

  function D13(b: bv8): Entries {
    match b
    case 0xD0 => Entries(0x764DD68D, 0x8D764DD6, 0xD68D764D, 0x4DD68D76)
    case 0xD1 => Entries(0x43EFB04D, 0x4D43EFB0, 0xB04D43EF, 0xEFB04D43)
    case 0xD2 => Entries(0xCCAA4D54, 0x54CCAA4D, 0x4D54CCAA, 0xAA4D54CC)
    case 0xD3 => Entries(0xE49604DF, 0xDFE49604, 0x04DFE496, 0x9604DFE4)
    case 0xD4 => Entries(0x9ED1B5E3, 0xE39ED1B5, 0xB5E39ED1, 0xD1B5E39E)
    case 0xD5 => Entries(0x4C6A881B, 0x1B4C6A88, 0x881B4C6A, 0x6A881B4C)
    case 0xD6 => Entries(0xC12C1FB8, 0xB8C12C1F, 0x1FB8C12C, 0x2C1FB8C1)
    case 0xD7 => Entries(0x4665517F, 0x7F466551, 0x517F4665, 0x65517F46)
    case 0xD8 => Entries(0x9D5EEA04, 0x049D5EEA, 0xEA049D5E, 0x5EEA049D)
    case 0xD9 => Entries(0x018C355D, 0x5D018C35, 0x355D018C, 0x8C355D01)
    case 0xDA => Entries(0xFA877473, 0x73FA8774, 0x7473FA87, 0x877473FA)
    case 0xDB => Entries(0xFB0B412E, 0x2EFB0B41, 0x412EFB0B, 0x0B412EFB)
    case 0xDC => Entries(0xB3671D5A, 0x5AB3671D, 0x1D5AB367, 0x671D5AB3)
    case 0xDD => Entries(0x92DBD252, 0x5292DBD2, 0xD25292DB, 0xDBD25292)
    case 0xDE => Entries(0xE9105633, 0x33E91056, 0x5633E910, 0x105633E9)
    case _ => Entries(0x6DD64713, 0x136DD647, 0x47136DD6, 0xD647136D)
  }

  function D14(b: bv8): Entries {
    match b
    case 0xE0 => Entries(0x9AD7618C, 0x8C9AD761, 0x618C9AD7, 0xD7618C9A)
    case 0xE1 => Entries(0x37A10C7A, 0x7A37A10C, 0x0C7A37A1, 0xA10C7A37)
    case 0xE2 => Entries(0x59F8148E, 0x8E59F814, 0x148E59F8, 0xF8148E59)
    case 0xE3 => Entries(0xEB133C89, 0x89EB133C, 0x3C89EB13, 0x133C89EB)
    case 0xE4 => Entries(0xCEA927EE, 0xEECEA927, 0x27EECEA9, 0xA927EECE)
    case 0xE5 => Entries(0xB761C935, 0x35B761C9, 0xC935B761, 0x61C935B7)
    case 0xE6 => Entries(0xE11CE5ED, 0xEDE11CE5, 0xE5EDE11C, 0x1CE5EDE1)
    case 0xE7 => Entries(0x7A47B13C, 0x3C7A47B1, 0xB13C7A47, 0x47B13C7A)
    case 0xE8 => Entries(0x9CD2DF59, 0x599CD2DF, 0xDF599CD2, 0xD2DF599C)
    case 0xE9 => Entries(0x55F2733F, 0x3F55F273, 0x733F55F2, 0xF2733F55)
    case 0xEA => Entries(0x1814CE79, 0x791814CE, 0xCE791814, 0x14CE7918)
    case 0xEB => Entries(0x73C737BF, 0xBF73C737, 0x37BF73C7, 0xC737BF73)
    case 0xEC => Entries(0x53F7CDEA, 0xEA53F7CD, 0xCDEA53F7, 0xF7CDEA53)
    case 0xED => Entries(0x5FFDAA5B, 0x5B5FFDAA, 0xAA5B5FFD, 0xFDAA5B5F)
    case 0xEE => Entries(0xDF3D6F14, 0x14DF3D6F, 0x6F14DF3D, 0x3D6F14DF)
    case _ => Entries(0x7844DB86, 0x867844DB, 0xDB867844, 0x44DB8678)
  }

  function D15(b: bv8): Entries {
    match b
    case 0xF0 => Entries(0xCAAFF381, 0x81CAAFF3, 0xF381CAAF, 0xAFF381CA)
    case 0xF1 => Entries(0xB968C43E, 0x3EB968C4, 0xC43EB968, 0x68C43EB9)
    case 0xF2 => Entries(0x3824342C, 0x2C382434, 0x342C3824, 0x24342C38)
    case 0xF3 => Entries(0xC2A3405F, 0x5FC2A340, 0x405FC2A3, 0xA3405FC2)
    case 0xF4 => Entries(0x161DC372, 0x72161DC3, 0xC372161D, 0x1DC37216)
    case 0xF5 => Entries(0xBCE2250C, 0x0CBCE225, 0x250CBCE2, 0xE2250CBC)
    case 0xF6 => Entries(0x283C498B, 0x8B283C49, 0x498B283C, 0x3C498B28)
    case 0xF7 => Entries(0xFF0D9541, 0x41FF0D95, 0x9541FF0D, 0x0D9541FF)
    case 0xF8 => Entries(0x39A80171, 0x7139A801, 0x017139A8, 0xA8017139)
    case 0xF9 => Entries(0x080CB3DE, 0xDE080CB3, 0xB3DE080C, 0x0CB3DE08)
    case 0xFA => Entries(0xD8B4E49C, 0x9CD8B4E4, 0xE49CD8B4, 0xB4E49CD8)
    case 0xFB => Entries(0x6456C190, 0x906456C1, 0xC1906456, 0x56C19064)
    case 0xFC => Entries(0x7BCB8461, 0x617BCB84, 0x84617BCB, 0xCB84617B)
    case 0xFD => Entries(0xD532B670, 0x70D532B6, 0xB670D532, 0x32B670D5)
    case 0xFE => Entries(0x486C5C74, 0x74486C5C, 0x5C74486C, 0x6C5C7448)
    case _ => Entries(0xD0B85742, 0x42D0B857, 0x5742D0B8, 0xB85742D0)
  }

  function D(b: bv8): Entries {
    if b < 0x10 then D0(b)
    else if b < 0x20 then D1(b)
    else if b < 0x30 then D2(b)
    else if b < 0x40 then D3(b)
    else if b < 0x50 then D4(b)
    else if b < 0x60 then D5(b)
    else if b < 0x70 then D6(b)
    else if b < 0x80 then D7(b)
    else if b < 0x90 then D8(b)
    else if b < 0xA0 then D9(b)
    else if b < 0xB0 then D10(b)
    else if b < 0xC0 then D11(b)
    else if b < 0xD0 then D12(b)
    else if b < 0xE0 then D13(b)
    else if b < 0xF0 then D14(b)
    else D15(b)
  }

  // The literals, row by row.

  lemma E0Values()
    ensures EColumns(0x63) == Entries(0xC66363A5, 0xA5C66363, 0x63A5C663, 0x6363A5C6)
    ensures EColumns(0x7C) == Entries(0xF87C7C84, 0x84F87C7C, 0x7C84F87C, 0x7C7C84F8)
    ensures EColumns(0x77) == Entries(0xEE777799, 0x99EE7777, 0x7799EE77, 0x777799EE)
    ensures EColumns(0x7B) == Entries(0xF67B7B8D, 0x8DF67B7B, 0x7B8DF67B, 0x7B7B8DF6)
    ensures EColumns(0xF2) == Entries(0xFFF2F20D, 0x0DFFF2F2, 0xF20DFFF2, 0xF2F20DFF)
    ensures EColumns(0x6B) == Entries(0xD66B6BBD, 0xBDD66B6B, 0x6BBDD66B, 0x6B6BBDD6)
    ensures EColumns(0x6F) == Entries(0xDE6F6FB1, 0xB1DE6F6F, 0x6FB1DE6F, 0x6F6FB1DE)
    ensures EColumns(0xC5) == Entries(0x91C5C554, 0x5491C5C5, 0xC55491C5, 0xC5C55491)
    ensures EColumns(0x30) == Entries(0x60303050, 0x50603030, 0x30506030, 0x30305060)
    ensures EColumns(0x01) == Entries(0x02010103, 0x03020101, 0x01030201, 0x01010302)
    ensures EColumns(0x67) == Entries(0xCE6767A9, 0xA9CE6767, 0x67A9CE67, 0x6767A9CE)
    ensures EColumns(0x2B) == Entries(0x562B2B7D, 0x7D562B2B, 0x2B7D562B, 0x2B2B7D56)
    ensures EColumns(0xFE) == Entries(0xE7FEFE19, 0x19E7FEFE, 0xFE19E7FE, 0xFEFE19E7)
    ensures EColumns(0xD7) == Entries(0xB5D7D762, 0x62B5D7D7, 0xD762B5D7, 0xD7D762B5)
    ensures EColumns(0xAB) == Entries(0x4DABABE6, 0xE64DABAB, 0xABE64DAB, 0xABABE64D)
    ensures EColumns(0x76) == Entries(0xEC76769A, 0x9AEC7676, 0x769AEC76, 0x76769AEC)
  {
  }

  lemma D0First()
    ensures DColumns(0x52) == Entries(0x51F4A750, 0x5051F4A7, 0xA75051F4, 0xF4A75051)
    ensures DColumns(0x09) == Entries(0x7E416553, 0x537E4165, 0x65537E41, 0x4165537E)
    ensures DColumns(0x6A) == Entries(0x1A17A4C3, 0xC31A17A4, 0xA4C31A17, 0x17A4C31A)
    ensures DColumns(0xD5) == Entries(0x3A275E96, 0x963A275E, 0x5E963A27, 0x275E963A)
    ensures DColumns(0x30) == Entries(0x3BAB6BCB, 0xCB3BAB6B, 0x6BCB3BAB, 0xAB6BCB3B)
    ensures DColumns(0x36) == Entries(0x1F9D45F1, 0xF11F9D45, 0x45F11F9D, 0x9D45F11F)
    ensures DColumns(0xA5) == Entries(0xACFA58AB, 0xABACFA58, 0x58ABACFA, 0xFA58ABAC)
    ensures DColumns(0x38) == Entries(0x4BE30393, 0x934BE303, 0x03934BE3, 0xE303934B)
  {
  }

  lemma D0Second()
    ensures DColumns(0xBF) == Entries(0x2030FA55, 0x552030FA, 0xFA552030, 0x30FA5520)
    ensures DColumns(0x40) == Entries(0xAD766DF6, 0xF6AD766D, 0x6DF6AD76, 0x766DF6AD)
    ensures DColumns(0xA3) == Entries(0x88CC7691, 0x9188CC76, 0x769188CC, 0xCC769188)
    ensures DColumns(0x9E) == Entries(0xF5024C25, 0x25F5024C, 0x4C25F502, 0x024C25F5)
    ensures DColumns(0x81) == Entries(0x4FE5D7FC, 0xFC4FE5D7, 0xD7FC4FE5, 0xE5D7FC4F)
    ensures DColumns(0xF3) == Entries(0xC52ACBD7, 0xD7C52ACB, 0xCBD7C52A, 0x2ACBD7C5)
    ensures DColumns(0xD7) == Entries(0x26354480, 0x80263544, 0x44802635, 0x35448026)
    ensures DColumns(0xFB) == Entries(0xB562A38F, 0x8FB562A3, 0xA38FB562, 0x62A38FB5)
  {
  }

  lemma Sbox0Values()
    ensures Unaffine(0x63) == 0 && Product(0x01, Unaffine(0x7C)) == 1
    ensures Product(0x02, Unaffine(0x77)) == 1 && Product(0x03, Unaffine(0x7B)) == 1
    ensures Product(0x04, Unaffine(0xF2)) == 1 && Product(0x05, Unaffine(0x6B)) == 1
    ensures Product(0x06, Unaffine(0x6F)) == 1 && Product(0x07, Unaffine(0xC5)) == 1
    ensures Product(0x08, Unaffine(0x30)) == 1 && Product(0x09, Unaffine(0x01)) == 1
    ensures Product(0x0A, Unaffine(0x67)) == 1 && Product(0x0B, Unaffine(0x2B)) == 1
    ensures Product(0x0C, Unaffine(0xFE)) == 1 && Product(0x0D, Unaffine(0xD7)) == 1
    ensures Product(0x0E, Unaffine(0xAB)) == 1 && Product(0x0F, Unaffine(0x76)) == 1
  {
  }

  lemma Sbox0Inverse()
    ensures Sboxinv(0x63) == 0x00 && Sboxinv(0x7C) == 0x01 && Sboxinv(0x77) == 0x02 && Sboxinv(0x7B) == 0x03
    ensures Sboxinv(0xF2) == 0x04 && Sboxinv(0x6B) == 0x05 && Sboxinv(0x6F) == 0x06 && Sboxinv(0xC5) == 0x07
    ensures Sboxinv(0x30) == 0x08 && Sboxinv(0x01) == 0x09 && Sboxinv(0x67) == 0x0A && Sboxinv(0x2B) == 0x0B
    ensures Sboxinv(0xFE) == 0x0C && Sboxinv(0xD7) == 0x0D && Sboxinv(0xAB) == 0x0E && Sboxinv(0x76) == 0x0F
  {
  }

  lemma Row0E(b: bv8)
    requires 0x00 <= b < 0x10
    ensures E0(b) == EColumns(Sbox0(b))
  {
    hide EColumns;
    E0Values();
  }

  lemma Row0D(b: bv8)
    requires 0x00 <= b < 0x10
    ensures D0(b) == DColumns(Sboxinv0(b))
  {
    hide DColumns;
    D0First();
    D0Second();
  }

  lemma Row0Boxes(b: bv8)
    requires 0x00 <= b < 0x10
    ensures Sboxinv(Sbox0(b)) == b
    ensures if b == 0 then Unaffine(Sbox0(b)) == 0 else Product(b, Unaffine(Sbox0(b))) == 1
  {
    hide Product, Unaffine, Sboxinv;
    Sbox0Values();
    Sbox0Inverse();
  }

  lemma E1Values()
    ensures EColumns(0xCA) == Entries(0x8FCACA45, 0x458FCACA, 0xCA458FCA, 0xCACA458F)
    ensures EColumns(0x82) == Entries(0x1F82829D, 0x9D1F8282, 0x829D1F82, 0x82829D1F)
    ensures EColumns(0xC9) == Entries(0x89C9C940, 0x4089C9C9, 0xC94089C9, 0xC9C94089)
    ensures EColumns(0x7D) == Entries(0xFA7D7D87, 0x87FA7D7D, 0x7D87FA7D, 0x7D7D87FA)
    ensures EColumns(0xFA) == Entries(0xEFFAFA15, 0x15EFFAFA, 0xFA15EFFA, 0xFAFA15EF)
    ensures EColumns(0x59) == Entries(0xB25959EB, 0xEBB25959, 0x59EBB259, 0x5959EBB2)
    ensures EColumns(0x47) == Entries(0x8E4747C9, 0xC98E4747, 0x47C98E47, 0x4747C98E)
    ensures EColumns(0xF0) == Entries(0xFBF0F00B, 0x0BFBF0F0, 0xF00BFBF0, 0xF0F00BFB)
    ensures EColumns(0xAD) == Entries(0x41ADADEC, 0xEC41ADAD, 0xADEC41AD, 0xADADEC41)
    ensures EColumns(0xD4) == Entries(0xB3D4D467, 0x67B3D4D4, 0xD467B3D4, 0xD4D467B3)
    ensures EColumns(0xA2) == Entries(0x5FA2A2FD, 0xFD5FA2A2, 0xA2FD5FA2, 0xA2A2FD5F)
    ensures EColumns(0xAF) == Entries(0x45AFAFEA, 0xEA45AFAF, 0xAFEA45AF, 0xAFAFEA45)
    ensures EColumns(0x9C) == Entries(0x239C9CBF, 0xBF239C9C, 0x9CBF239C, 0x9C9CBF23)
    ensures EColumns(0xA4) == Entries(0x53A4A4F7, 0xF753A4A4, 0xA4F753A4, 0xA4A4F753)
    ensures EColumns(0x72) == Entries(0xE4727296, 0x96E47272, 0x7296E472, 0x727296E4)
    ensures EColumns(0xC0) == Entries(0x9BC0C05B, 0x5B9BC0C0, 0xC05B9BC0, 0xC0C05B9B)
  {
  }

  lemma D1First()
    ensures DColumns(0x7C) == Entries(0xDEB15A49, 0x49DEB15A, 0x5A49DEB1, 0xB15A49DE)
    ensures DColumns(0xE3) == Entries(0x25BA1B67, 0x6725BA1B, 0x1B6725BA, 0xBA1B6725)
    ensures DColumns(0x39) == Entries(0x45EA0E98, 0x9845EA0E, 0x0E9845EA, 0xEA0E9845)
    ensures DColumns(0x82) == Entries(0x5DFEC0E1, 0xE15DFEC0, 0xC0E15DFE, 0xFEC0E15D)
    ensures DColumns(0x9B) == Entries(0xC32F7502, 0x02C32F75, 0x7502C32F, 0x2F7502C3)
    ensures DColumns(0x2F) == Entries(0x814CF012, 0x12814CF0, 0xF012814C, 0x4CF01281)
    ensures DColumns(0xFF) == Entries(0x8D4697A3, 0xA38D4697, 0x97A38D46, 0x4697A38D)
    ensures DColumns(0x87) == Entries(0x6BD3F9C6, 0xC66BD3F9, 0xF9C66BD3, 0xD3F9C66B)
  {
  }

  lemma D1Second()
    ensures DColumns(0x34) == Entries(0x038F5FE7, 0xE7038F5F, 0x5FE7038F, 0x8F5FE703)
    ensures DColumns(0x8E) == Entries(0x15929C95, 0x9515929C, 0x9C951592, 0x929C9515)
    ensures DColumns(0x43) == Entries(0xBF6D7AEB, 0xEBBF6D7A, 0x7AEBBF6D, 0x6D7AEBBF)
    ensures DColumns(0x44) == Entries(0x955259DA, 0xDA955259, 0x59DA9552, 0x5259DA95)
    ensures DColumns(0xC4) == Entries(0xD4BE832D, 0x2DD4BE83, 0x832DD4BE, 0xBE832DD4)
    ensures DColumns(0xDE) == Entries(0x587421D3, 0xD3587421, 0x21D35874, 0x7421D358)
    ensures DColumns(0xE9) == Entries(0x49E06929, 0x2949E069, 0x692949E0, 0xE0692949)
    ensures DColumns(0xCB) == Entries(0x8EC9C844, 0x448EC9C8, 0xC8448EC9, 0xC9C8448E)
  {
  }

  lemma Sbox1Values()
    ensures Product(0x10, Unaffine(0xCA)) == 1 && Product(0x11, Unaffine(0x82)) == 1
    ensures Product(0x12, Unaffine(0xC9)) == 1 && Product(0x13, Unaffine(0x7D)) == 1
    ensures Product(0x14, Unaffine(0xFA)) == 1 && Product(0x15, Unaffine(0x59)) == 1
    ensures Product(0x16, Unaffine(0x47)) == 1 && Product(0x17, Unaffine(0xF0)) == 1
    ensures Product(0x18, Unaffine(0xAD)) == 1 && Product(0x19, Unaffine(0xD4)) == 1
    ensures Product(0x1A, Unaffine(0xA2)) == 1 && Product(0x1B, Unaffine(0xAF)) == 1
    ensures Product(0x1C, Unaffine(0x9C)) == 1 && Product(0x1D, Unaffine(0xA4)) == 1
    ensures Product(0x1E, Unaffine(0x72)) == 1 && Product(0x1F, Unaffine(0xC0)) == 1
  {
  }

  lemma Sbox1Inverse()
    ensures Sboxinv(0xCA) == 0x10 && Sboxinv(0x82) == 0x11 && Sboxinv(0xC9) == 0x12 && Sboxinv(0x7D) == 0x13
    ensures Sboxinv(0xFA) == 0x14 && Sboxinv(0x59) == 0x15 && Sboxinv(0x47) == 0x16 && Sboxinv(0xF0) == 0x17
    ensures Sboxinv(0xAD) == 0x18 && Sboxinv(0xD4) == 0x19 && Sboxinv(0xA2) == 0x1A && Sboxinv(0xAF) == 0x1B
    ensures Sboxinv(0x9C) == 0x1C && Sboxinv(0xA4) == 0x1D && Sboxinv(0x72) == 0x1E && Sboxinv(0xC0) == 0x1F
  {
  }

  lemma Row1E(b: bv8)
    requires 0x10 <= b < 0x20
    ensures E1(b) == EColumns(Sbox1(b))
  {
    hide EColumns;
    E1Values();
  }

  lemma Row1D(b: bv8)
    requires 0x10 <= b < 0x20
    ensures D1(b) == DColumns(Sboxinv1(b))
  {
    hide DColumns;
    D1First();
    D1Second();
  }

  lemma Row1Boxes(b: bv8)
    requires 0x10 <= b < 0x20
    ensures Sboxinv(Sbox1(b)) == b
    ensures if b == 0 then Unaffine(Sbox1(b)) == 0 else Product(b, Unaffine(Sbox1(b))) == 1
  {
    hide Product, Unaffine, Sboxinv;
    Sbox1Values();
    Sbox1Inverse();
  }

  lemma E2Values()
    ensures EColumns(0xB7) == Entries(0x75B7B7C2, 0xC275B7B7, 0xB7C275B7, 0xB7B7C275)
    ensures EColumns(0xFD) == Entries(0xE1FDFD1C, 0x1CE1FDFD, 0xFD1CE1FD, 0xFDFD1CE1)
    ensures EColumns(0x93) == Entries(0x3D9393AE, 0xAE3D9393, 0x93AE3D93, 0x9393AE3D)
    ensures EColumns(0x26) == Entries(0x4C26266A, 0x6A4C2626, 0x266A4C26, 0x26266A4C)
    ensures EColumns(0x36) == Entries(0x6C36365A, 0x5A6C3636, 0x365A6C36, 0x36365A6C)
    ensures EColumns(0x3F) == Entries(0x7E3F3F41, 0x417E3F3F, 0x3F417E3F, 0x3F3F417E)
    ensures EColumns(0xF7) == Entries(0xF5F7F702, 0x02F5F7F7, 0xF702F5F7, 0xF7F702F5)
    ensures EColumns(0xCC) == Entries(0x83CCCC4F, 0x4F83CCCC, 0xCC4F83CC, 0xCCCC4F83)
    ensures EColumns(0x34) == Entries(0x6834345C, 0x5C683434, 0x345C6834, 0x34345C68)
    ensures EColumns(0xA5) == Entries(0x51A5A5F4, 0xF451A5A5, 0xA5F451A5, 0xA5A5F451)
    ensures EColumns(0xE5) == Entries(0xD1E5E534, 0x34D1E5E5, 0xE534D1E5, 0xE5E534D1)
    ensures EColumns(0xF1) == Entries(0xF9F1F108, 0x08F9F1F1, 0xF108F9F1, 0xF1F108F9)
    ensures EColumns(0x71) == Entries(0xE2717193, 0x93E27171, 0x7193E271, 0x717193E2)
    ensures EColumns(0xD8) == Entries(0xABD8D873, 0x73ABD8D8, 0xD873ABD8, 0xD8D873AB)
    ensures EColumns(0x31) == Entries(0x62313153, 0x53623131, 0x31536231, 0x31315362)
    ensures EColumns(0x15) == Entries(0x2A15153F, 0x3F2A1515, 0x153F2A15, 0x15153F2A)
  {
  }

  lemma D2First()
    ensures DColumns(0x54) == Entries(0x75C2896A, 0x6A75C289, 0x896A75C2, 0xC2896A75)
    ensures DColumns(0x7B) == Entries(0xF48E7978, 0x78F48E79, 0x7978F48E, 0x8E7978F4)
    ensures DColumns(0x94) == Entries(0x99583E6B, 0x6B99583E, 0x3E6B9958, 0x583E6B99)
    ensures DColumns(0x32) == Entries(0x27B971DD, 0xDD27B971, 0x71DD27B9, 0xB971DD27)
    ensures DColumns(0xA6) == Entries(0xBEE14FB6, 0xB6BEE14F, 0x4FB6BEE1, 0xE14FB6BE)
    ensures DColumns(0xC2) == Entries(0xF088AD17, 0x17F088AD, 0xAD17F088, 0x88AD17F0)
    ensures DColumns(0x23) == Entries(0xC920AC66, 0x66C920AC, 0xAC66C920, 0x20AC66C9)
    ensures DColumns(0x3D) == Entries(0x7DCE3AB4, 0xB47DCE3A, 0x3AB47DCE, 0xCE3AB47D)
  {
  }

  lemma D2Second()
    ensures DColumns(0xEE) == Entries(0x63DF4A18, 0x1863DF4A, 0x4A1863DF, 0xDF4A1863)
    ensures DColumns(0x4C) == Entries(0xE51A3182, 0x82E51A31, 0x3182E51A, 0x1A3182E5)
    ensures DColumns(0x95) == Entries(0x97513360, 0x60975133, 0x33609751, 0x51336097)
    ensures DColumns(0x0B) == Entries(0x62537F45, 0x4562537F, 0x7F456253, 0x537F4562)
    ensures DColumns(0x42) == Entries(0xB16477E0, 0xE0B16477, 0x77E0B164, 0x6477E0B1)
    ensures DColumns(0xFA) == Entries(0xBB6BAE84, 0x84BB6BAE, 0xAE84BB6B, 0x6BAE84BB)
    ensures DColumns(0xC3) == Entries(0xFE81A01C, 0x1CFE81A0, 0xA01CFE81, 0x81A01CFE)
    ensures DColumns(0x4E) == Entries(0xF9082B94, 0x94F9082B, 0x2B94F908, 0x082B94F9)
  {
  }

  lemma Sbox2Values()
    ensures Product(0x20, Unaffine(0xB7)) == 1 && Product(0x21, Unaffine(0xFD)) == 1
    ensures Product(0x22, Unaffine(0x93)) == 1 && Product(0x23, Unaffine(0x26)) == 1
    ensures Product(0x24, Unaffine(0x36)) == 1 && Product(0x25, Unaffine(0x3F)) == 1
    ensures Product(0x26, Unaffine(0xF7)) == 1 && Product(0x27, Unaffine(0xCC)) == 1
    ensures Product(0x28, Unaffine(0x34)) == 1 && Product(0x29, Unaffine(0xA5)) == 1
    ensures Product(0x2A, Unaffine(0xE5)) == 1 && Product(0x2B, Unaffine(0xF1)) == 1
    ensures Product(0x2C, Unaffine(0x71)) == 1 && Product(0x2D, Unaffine(0xD8)) == 1
    ensures Product(0x2E, Unaffine(0x31)) == 1 && Product(0x2F, Unaffine(0x15)) == 1
  {
  }

  lemma Sbox2Inverse()
    ensures Sboxinv(0xB7) == 0x20 && Sboxinv(0xFD) == 0x21 && Sboxinv(0x93) == 0x22 && Sboxinv(0x26) == 0x23
    ensures Sboxinv(0x36) == 0x24 && Sboxinv(0x3F) == 0x25 && Sboxinv(0xF7) == 0x26 && Sboxinv(0xCC) == 0x27
    ensures Sboxinv(0x34) == 0x28 && Sboxinv(0xA5) == 0x29 && Sboxinv(0xE5) == 0x2A && Sboxinv(0xF1) == 0x2B
    ensures Sboxinv(0x71) == 0x2C && Sboxinv(0xD8) == 0x2D && Sboxinv(0x31) == 0x2E && Sboxinv(0x15) == 0x2F
  {
  }

  lemma Row2E(b: bv8)
    requires 0x20 <= b < 0x30
    ensures E2(b) == EColumns(Sbox2(b))
  {
    hide EColumns;
    E2Values();
  }

  lemma Row2D(b: bv8)
    requires 0x20 <= b < 0x30
    ensures D2(b) == DColumns(Sboxinv2(b))
  {
    hide DColumns;
    D2First();
    D2Second();
  }

  lemma Row2Boxes(b: bv8)
    requires 0x20 <= b < 0x30
    ensures Sboxinv(Sbox2(b)) == b
    ensures if b == 0 then Unaffine(Sbox2(b)) == 0 else Product(b, Unaffine(Sbox2(b))) == 1
  {
    hide Product, Unaffine, Sboxinv;
    Sbox2Values();
    Sbox2Inverse();
  }

  lemma E3Values()
    ensures EColumns(0x04) == Entries(0x0804040C, 0x0C080404, 0x040C0804, 0x04040C08)
    ensures EColumns(0xC7) == Entries(0x95C7C752, 0x5295C7C7, 0xC75295C7, 0xC7C75295)
    ensures EColumns(0x23) == Entries(0x46232365, 0x65462323, 0x23654623, 0x23236546)
    ensures EColumns(0xC3) == Entries(0x9DC3C35E, 0x5E9DC3C3, 0xC35E9DC3, 0xC3C35E9D)
    ensures EColumns(0x18) == Entries(0x30181828, 0x28301818, 0x18283018, 0x18182830)
    ensures EColumns(0x96) == Entries(0x379696A1, 0xA1379696, 0x96A13796, 0x9696A137)
    ensures EColumns(0x05) == Entries(0x0A05050F, 0x0F0A0505, 0x050F0A05, 0x05050F0A)
    ensures EColumns(0x9A) == Entries(0x2F9A9AB5, 0xB52F9A9A, 0x9AB52F9A, 0x9A9AB52F)
    ensures EColumns(0x07) == Entries(0x0E070709, 0x090E0707, 0x07090E07, 0x0707090E)
    ensures EColumns(0x12) == Entries(0x24121236, 0x36241212, 0x12362412, 0x12123624)
    ensures EColumns(0x80) == Entries(0x1B80809B, 0x9B1B8080, 0x809B1B80, 0x80809B1B)
    ensures EColumns(0xE2) == Entries(0xDFE2E23D, 0x3DDFE2E2, 0xE23DDFE2, 0xE2E23DDF)
    ensures EColumns(0xEB) == Entries(0xCDEBEB26, 0x26CDEBEB, 0xEB26CDEB, 0xEBEB26CD)
    ensures EColumns(0x27) == Entries(0x4E272769, 0x694E2727, 0x27694E27, 0x2727694E)
    ensures EColumns(0xB2) == Entries(0x7FB2B2CD, 0xCD7FB2B2, 0xB2CD7FB2, 0xB2B2CD7F)
    ensures EColumns(0x75) == Entries(0xEA75759F, 0x9FEA7575, 0x759FEA75, 0x75759FEA)
  {
  }

  lemma D3First()
    ensures DColumns(0x08) == Entries(0x70486858, 0x58704868, 0x68587048, 0x48685870)
    ensures DColumns(0x2E) == Entries(0x8F45FD19, 0x198F45FD, 0xFD198F45, 0x45FD198F)
    ensures DColumns(0xA1) == Entries(0x94DE6C87, 0x8794DE6C, 0x6C8794DE, 0xDE6C8794)
    ensures DColumns(0x66) == Entries(0x527BF8B7, 0xB7527BF8, 0xF8B7527B, 0x7BF8B752)
    ensures DColumns(0x28) == Entries(0xAB73D323, 0x23AB73D3, 0xD323AB73, 0x73D323AB)
    ensures DColumns(0xD9) == Entries(0x724B02E2, 0xE2724B02, 0x02E2724B, 0x4B02E272)
    ensures DColumns(0x24) == Entries(0xE31F8F57, 0x57E31F8F, 0x8F57E31F, 0x1F8F57E3)
    ensures DColumns(0xB2) == Entries(0x6655AB2A, 0x2A6655AB, 0xAB2A6655, 0x55AB2A66)
  {
  }

  lemma D3Second()
    ensures DColumns(0x76) == Entries(0xB2EB2807, 0x07B2EB28, 0x2807B2EB, 0xEB2807B2)
    ensures DColumns(0x5B) == Entries(0x2FB5C203, 0x032FB5C2, 0xC2032FB5, 0xB5C2032F)
    ensures DColumns(0xA2) == Entries(0x86C57B9A, 0x9A86C57B, 0x7B9A86C5, 0xC57B9A86)
    ensures DColumns(0x49) == Entries(0xD33708A5, 0xA5D33708, 0x08A5D337, 0x3708A5D3)
    ensures DColumns(0x6D) == Entries(0x302887F2, 0xF2302887, 0x87F23028, 0x2887F230)
    ensures DColumns(0x8B) == Entries(0x23BFA5B2, 0xB223BFA5, 0xA5B223BF, 0xBFA5B223)
    ensures DColumns(0xD1) == Entries(0x02036ABA, 0xBA02036A, 0x6ABA0203, 0x036ABA02)
    ensures DColumns(0x25) == Entries(0xED16825C, 0x5CED1682, 0x825CED16, 0x16825CED)
  {
  }

  lemma Sbox3Values()
    ensures Product(0x30, Unaffine(0x04)) == 1 && Product(0x31, Unaffine(0xC7)) == 1
    ensures Product(0x32, Unaffine(0x23)) == 1 && Product(0x33, Unaffine(0xC3)) == 1
    ensures Product(0x34, Unaffine(0x18)) == 1 && Product(0x35, Unaffine(0x96)) == 1
    ensures Product(0x36, Unaffine(0x05)) == 1 && Product(0x37, Unaffine(0x9A)) == 1
    ensures Product(0x38, Unaffine(0x07)) == 1 && Product(0x39, Unaffine(0x12)) == 1
    ensures Product(0x3A, Unaffine(0x80)) == 1 && Product(0x3B, Unaffine(0xE2)) == 1
    ensures Product(0x3C, Unaffine(0xEB)) == 1 && Product(0x3D, Unaffine(0x27)) == 1
    ensures Product(0x3E, Unaffine(0xB2)) == 1 && Product(0x3F, Unaffine(0x75)) == 1
  {
  }

  lemma Sbox3Inverse()
    ensures Sboxinv(0x04) == 0x30 && Sboxinv(0xC7) == 0x31 && Sboxinv(0x23) == 0x32 && Sboxinv(0xC3) == 0x33
    ensures Sboxinv(0x18) == 0x34 && Sboxinv(0x96) == 0x35 && Sboxinv(0x05) == 0x36 && Sboxinv(0x9A) == 0x37
    ensures Sboxinv(0x07) == 0x38 && Sboxinv(0x12) == 0x39 && Sboxinv(0x80) == 0x3A && Sboxinv(0xE2) == 0x3B
    ensures Sboxinv(0xEB) == 0x3C && Sboxinv(0x27) == 0x3D && Sboxinv(0xB2) == 0x3E && Sboxinv(0x75) == 0x3F
  {
  }

  lemma Row3E(b: bv8)
    requires 0x30 <= b < 0x40
    ensures E3(b) == EColumns(Sbox3(b))
  {
    hide EColumns;
    E3Values();
  }

  lemma Row3D(b: bv8)
    requires 0x30 <= b < 0x40
    ensures D3(b) == DColumns(Sboxinv3(b))
  {
    hide DColumns;
    D3First();
    D3Second();
  }

  lemma Row3Boxes(b: bv8)
    requires 0x30 <= b < 0x40
    ensures Sboxinv(Sbox3(b)) == b
    ensures if b == 0 then Unaffine(Sbox3(b)) == 0 else Product(b, Unaffine(Sbox3(b))) == 1
  {
    hide Product, Unaffine, Sboxinv;
    Sbox3Values();
    Sbox3Inverse();
  }

  lemma E4Values()
    ensures EColumns(0x09) == Entries(0x1209091B, 0x1B120909, 0x091B1209, 0x09091B12)
    ensures EColumns(0x83) == Entries(0x1D83839E, 0x9E1D8383, 0x839E1D83, 0x83839E1D)
    ensures EColumns(0x2C) == Entries(0x582C2C74, 0x74582C2C, 0x2C74582C, 0x2C2C7458)
    ensures EColumns(0x1A) == Entries(0x341A1A2E, 0x2E341A1A, 0x1A2E341A, 0x1A1A2E34)
    ensures EColumns(0x1B) == Entries(0x361B1B2D, 0x2D361B1B, 0x1B2D361B, 0x1B1B2D36)
    ensures EColumns(0x6E) == Entries(0xDC6E6EB2, 0xB2DC6E6E, 0x6EB2DC6E, 0x6E6EB2DC)
    ensures EColumns(0x5A) == Entries(0xB45A5AEE, 0xEEB45A5A, 0x5AEEB45A, 0x5A5AEEB4)
    ensures EColumns(0xA0) == Entries(0x5BA0A0FB, 0xFB5BA0A0, 0xA0FB5BA0, 0xA0A0FB5B)
    ensures EColumns(0x52) == Entries(0xA45252F6, 0xF6A45252, 0x52F6A452, 0x5252F6A4)
    ensures EColumns(0x3B) == Entries(0x763B3B4D, 0x4D763B3B, 0x3B4D763B, 0x3B3B4D76)
    ensures EColumns(0xD6) == Entries(0xB7D6D661, 0x61B7D6D6, 0xD661B7D6, 0xD6D661B7)
    ensures EColumns(0xB3) == Entries(0x7DB3B3CE, 0xCE7DB3B3, 0xB3CE7DB3, 0xB3B3CE7D)
    ensures EColumns(0x29) == Entries(0x5229297B, 0x7B522929, 0x297B5229, 0x29297B52)
    ensures EColumns(0xE3) == Entries(0xDDE3E33E, 0x3EDDE3E3, 0xE33EDDE3, 0xE3E33EDD)
    ensures EColumns(0x2F) == Entries(0x5E2F2F71, 0x715E2F2F, 0x2F715E2F, 0x2F2F715E)
    ensures EColumns(0x84) == Entries(0x13848497, 0x97138484, 0x84971384, 0x84849713)
  {
  }

  lemma D4First()
    ensures DColumns(0x72) == Entries(0x8ACF1C2B, 0x2B8ACF1C, 0x1C2B8ACF, 0xCF1C2B8A)
    ensures DColumns(0xF8) == Entries(0xA779B492, 0x92A779B4, 0xB492A779, 0x79B492A7)
    ensures DColumns(0xF6) == Entries(0xF307F2F0, 0xF0F307F2, 0xF2F0F307, 0x07F2F0F3)
    ensures DColumns(0x64) == Entries(0x4E69E2A1, 0xA14E69E2, 0xE2A14E69, 0x69E2A14E)
    ensures DColumns(0x86) == Entries(0x65DAF4CD, 0xCD65DAF4, 0xF4CD65DA, 0xDAF4CD65)
    ensures DColumns(0x68) == Entries(0x0605BED5, 0xD50605BE, 0xBED50605, 0x05BED506)
    ensures DColumns(0x98) == Entries(0xD134621F, 0x1FD13462, 0x621FD134, 0x34621FD1)
    ensures DColumns(0x16) == Entries(0xC4A6FE8A, 0x8AC4A6FE, 0xFE8AC4A6, 0xA6FE8AC4)
  {
  }

  lemma D4Second()
    ensures DColumns(0xD4) == Entries(0x342E539D, 0x9D342E53, 0x539D342E, 0x2E539D34)
    ensures DColumns(0xA4) == Entries(0xA2F355A0, 0xA0A2F355, 0x55A0A2F3, 0xF355A0A2)
    ensures DColumns(0x5C) == Entries(0x058AE132, 0x32058AE1, 0xE132058A, 0x8AE13205)
    ensures DColumns(0xCC) == Entries(0xA4F6EB75, 0x75A4F6EB, 0xEB75A4F6, 0xF6EB75A4)
    ensures DColumns(0x5D) == Entries(0x0B83EC39, 0x390B83EC, 0xEC390B83, 0x83EC390B)
    ensures DColumns(0x65) == Entries(0x4060EFAA, 0xAA4060EF, 0xEFAA4060, 0x60EFAA40)
    ensures DColumns(0xB6) == Entries(0x5E719F06, 0x065E719F, 0x9F065E71, 0x719F065E)
    ensures DColumns(0x92) == Entries(0xBD6E1051, 0x51BD6E10, 0x1051BD6E, 0x6E1051BD)
  {
  }

  lemma Sbox4Values()
    ensures Product(0x40, Unaffine(0x09)) == 1 && Product(0x41, Unaffine(0x83)) == 1
    ensures Product(0x42, Unaffine(0x2C)) == 1 && Product(0x43, Unaffine(0x1A)) == 1
    ensures Product(0x44, Unaffine(0x1B)) == 1 && Product(0x45, Unaffine(0x6E)) == 1
    ensures Product(0x46, Unaffine(0x5A)) == 1 && Product(0x47, Unaffine(0xA0)) == 1
    ensures Product(0x48, Unaffine(0x52)) == 1 && Product(0x49, Unaffine(0x3B)) == 1
    ensures Product(0x4A, Unaffine(0xD6)) == 1 && Product(0x4B, Unaffine(0xB3)) == 1
    ensures Product(0x4C, Unaffine(0x29)) == 1 && Product(0x4D, Unaffine(0xE3)) == 1
    ensures Product(0x4E, Unaffine(0x2F)) == 1 && Product(0x4F, Unaffine(0x84)) == 1
  {
  }

  lemma Sbox4Inverse()
    ensures Sboxinv(0x09) == 0x40 && Sboxinv(0x83) == 0x41 && Sboxinv(0x2C) == 0x42 && Sboxinv(0x1A) == 0x43
    ensures Sboxinv(0x1B) == 0x44 && Sboxinv(0x6E) == 0x45 && Sboxinv(0x5A) == 0x46 && Sboxinv(0xA0) == 0x47
    ensures Sboxinv(0x52) == 0x48 && Sboxinv(0x3B) == 0x49 && Sboxinv(0xD6) == 0x4A && Sboxinv(0xB3) == 0x4B
    ensures Sboxinv(0x29) == 0x4C && Sboxinv(0xE3) == 0x4D && Sboxinv(0x2F) == 0x4E && Sboxinv(0x84) == 0x4F
  {
  }

  lemma Row4E(b: bv8)
    requires 0x40 <= b < 0x50
    ensures E4(b) == EColumns(Sbox4(b))
  {
    hide EColumns;
    E4Values();
  }

  lemma Row4D(b: bv8)
    requires 0x40 <= b < 0x50
    ensures D4(b) == DColumns(Sboxinv4(b))
  {
    hide DColumns;
    D4First();
    D4Second();
  }

  lemma Row4Boxes(b: bv8)
    requires 0x40 <= b < 0x50
    ensures Sboxinv(Sbox4(b)) == b
    ensures if b == 0 then Unaffine(Sbox4(b)) == 0 else Product(b, Unaffine(Sbox4(b))) == 1
  {
    hide Product, Unaffine, Sboxinv;
    Sbox4Values();
    Sbox4Inverse();
  }

  lemma E5Values()
    ensures EColumns(0x53) == Entries(0xA65353F5, 0xF5A65353, 0x53F5A653, 0x5353F5A6)
    ensures EColumns(0xD1) == Entries(0xB9D1D168, 0x68B9D1D1, 0xD168B9D1, 0xD1D168B9)
    ensures EColumns(0x00) == Entries(0x00000000, 0x00000000, 0x00000000, 0x00000000)
    ensures EColumns(0xED) == Entries(0xC1EDED2C, 0x2CC1EDED, 0xED2CC1ED, 0xEDED2CC1)
    ensures EColumns(0x20) == Entries(0x40202060, 0x60402020, 0x20604020, 0x20206040)
    ensures EColumns(0xFC) == Entries(0xE3FCFC1F, 0x1FE3FCFC, 0xFC1FE3FC, 0xFCFC1FE3)
    ensures EColumns(0xB1) == Entries(0x79B1B1C8, 0xC879B1B1, 0xB1C879B1, 0xB1B1C879)
    ensures EColumns(0x5B) == Entries(0xB65B5BED, 0xEDB65B5B, 0x5BEDB65B, 0x5B5BEDB6)
    ensures EColumns(0x6A) == Entries(0xD46A6ABE, 0xBED46A6A, 0x6ABED46A, 0x6A6ABED4)
    ensures EColumns(0xCB) == Entries(0x8DCBCB46, 0x468DCBCB, 0xCB468DCB, 0xCBCB468D)
    ensures EColumns(0xBE) == Entries(0x67BEBED9, 0xD967BEBE, 0xBED967BE, 0xBEBED967)
    ensures EColumns(0x39) == Entries(0x7239394B, 0x4B723939, 0x394B7239, 0x39394B72)
    ensures EColumns(0x4A) == Entries(0x944A4ADE, 0xDE944A4A, 0x4ADE944A, 0x4A4ADE94)
    ensures EColumns(0x4C) == Entries(0x984C4CD4, 0xD4984C4C, 0x4CD4984C, 0x4C4CD498)
    ensures EColumns(0x58) == Entries(0xB05858E8, 0xE8B05858, 0x58E8B058, 0x5858E8B0)
    ensures EColumns(0xCF) == Entries(0x85CFCF4A, 0x4A85CFCF, 0xCF4A85CF, 0xCFCF4A85)
  {
  }

  lemma D5First()
    ensures DColumns(0x6C) == Entries(0x3E218AF9, 0xF93E218A, 0x8AF93E21, 0x218AF93E)
    ensures DColumns(0x70) == Entries(0x96DD063D, 0x3D96DD06, 0x063D96DD, 0xDD063D96)
    ensures DColumns(0x48) == Entries(0xDD3E05AE, 0xAEDD3E05, 0x05AEDD3E, 0x3E05AEDD)
    ensures DColumns(0x50) == Entries(0x4DE6BD46, 0x464DE6BD, 0xBD464DE6, 0xE6BD464D)
    ensures DColumns(0xFD) == Entries(0x91548DB5, 0xB591548D, 0x8DB59154, 0x548DB591)
    ensures DColumns(0xED) == Entries(0x71C45D05, 0x0571C45D, 0x5D0571C4, 0xC45D0571)
    ensures DColumns(0xB9) == Entries(0x0406D46F, 0x6F0406D4, 0xD46F0406, 0x06D46F04)
    ensures DColumns(0xDA) == Entries(0x605015FF, 0xFF605015, 0x15FF6050, 0x5015FF60)
  {
  }

  lemma D5Second()
    ensures DColumns(0x5E) == Entries(0x1998FB24, 0x241998FB, 0xFB241998, 0x98FB2419)
    ensures DColumns(0x15) == Entries(0xD6BDE997, 0x97D6BDE9, 0xE997D6BD, 0xBDE997D6)
    ensures DColumns(0x46) == Entries(0x894043CC, 0xCC894043, 0x43CC8940, 0x4043CC89)
    ensures DColumns(0x57) == Entries(0x67D99E77, 0x7767D99E, 0x9E7767D9, 0xD99E7767)
    ensures DColumns(0xA7) == Entries(0xB0E842BD, 0xBDB0E842, 0x42BDB0E8, 0xE842BDB0)
    ensures DColumns(0x8D) == Entries(0x07898B88, 0x8807898B, 0x8B880789, 0x898B8807)
    ensures DColumns(0x9D) == Entries(0xE7195B38, 0x38E7195B, 0x5B38E719, 0x195B38E7)
    ensures DColumns(0x84) == Entries(0x79C8EEDB, 0xDB79C8EE, 0xEEDB79C8, 0xC8EEDB79)
  {
  }

  lemma Sbox5Values()
    ensures Product(0x50, Unaffine(0x53)) == 1 && Product(0x51, Unaffine(0xD1)) == 1
    ensures Product(0x52, Unaffine(0x00)) == 1 && Product(0x53, Unaffine(0xED)) == 1
    ensures Product(0x54, Unaffine(0x20)) == 1 && Product(0x55, Unaffine(0xFC)) == 1
    ensures Product(0x56, Unaffine(0xB1)) == 1 && Product(0x57, Unaffine(0x5B)) == 1
    ensures Product(0x58, Unaffine(0x6A)) == 1 && Product(0x59, Unaffine(0xCB)) == 1
    ensures Product(0x5A, Unaffine(0xBE)) == 1 && Product(0x5B, Unaffine(0x39)) == 1
    ensures Product(0x5C, Unaffine(0x4A)) == 1 && Product(0x5D, Unaffine(0x4C)) == 1
    ensures Product(0x5E, Unaffine(0x58)) == 1 && Product(0x5F, Unaffine(0xCF)) == 1
  {
  }

  lemma Sbox5Inverse()
    ensures Sboxinv(0x53) == 0x50 && Sboxinv(0xD1) == 0x51 && Sboxinv(0x00) == 0x52 && Sboxinv(0xED) == 0x53
    ensures Sboxinv(0x20) == 0x54 && Sboxinv(0xFC) == 0x55 && Sboxinv(0xB1) == 0x56 && Sboxinv(0x5B) == 0x57
    ensures Sboxinv(0x6A) == 0x58 && Sboxinv(0xCB) == 0x59 && Sboxinv(0xBE) == 0x5A && Sboxinv(0x39) == 0x5B
    ensures Sboxinv(0x4A) == 0x5C && Sboxinv(0x4C) == 0x5D && Sboxinv(0x58) == 0x5E && Sboxinv(0xCF) == 0x5F
  {
  }

  lemma Row5E(b: bv8)
    requires 0x50 <= b < 0x60
    ensures E5(b) == EColumns(Sbox5(b))
  {
    hide EColumns;
    E5Values();
  }

  lemma Row5D(b: bv8)
    requires 0x50 <= b < 0x60
    ensures D5(b) == DColumns(Sboxinv5(b))
  {
    hide DColumns;
    D5First();
    D5Second();
  }

  lemma Row5Boxes(b: bv8)
    requires 0x50 <= b < 0x60
    ensures Sboxinv(Sbox5(b)) == b
    ensures if b == 0 then Unaffine(Sbox5(b)) == 0 else Product(b, Unaffine(Sbox5(b))) == 1
  {
    hide Product, Unaffine, Sboxinv;
    Sbox5Values();
    Sbox5Inverse();
  }

  lemma E6Values()
    ensures EColumns(0xD0) == Entries(0xBBD0D06B, 0x6BBBD0D0, 0xD06BBBD0, 0xD0D06BBB)
    ensures EColumns(0xEF) == Entries(0xC5EFEF2A, 0x2AC5EFEF, 0xEF2AC5EF, 0xEFEF2AC5)
    ensures EColumns(0xAA) == Entries(0x4FAAAAE5, 0xE54FAAAA, 0xAAE54FAA, 0xAAAAE54F)
    ensures EColumns(0xFB) == Entries(0xEDFBFB16, 0x16EDFBFB, 0xFB16EDFB, 0xFBFB16ED)
    ensures EColumns(0x43) == Entries(0x864343C5, 0xC5864343, 0x43C58643, 0x4343C586)
    ensures EColumns(0x4D) == Entries(0x9A4D4DD7, 0xD79A4D4D, 0x4DD79A4D, 0x4D4DD79A)
    ensures EColumns(0x33) == Entries(0x66333355, 0x55663333, 0x33556633, 0x33335566)
    ensures EColumns(0x85) == Entries(0x11858594, 0x94118585, 0x85941185, 0x85859411)
    ensures EColumns(0x45) == Entries(0x8A4545CF, 0xCF8A4545, 0x45CF8A45, 0x4545CF8A)
    ensures EColumns(0xF9) == Entries(0xE9F9F910, 0x10E9F9F9, 0xF910E9F9, 0xF9F910E9)
    ensures EColumns(0x02) == Entries(0x04020206, 0x06040202, 0x02060402, 0x02020604)
    ensures EColumns(0x7F) == Entries(0xFE7F7F81, 0x81FE7F7F, 0x7F81FE7F, 0x7F7F81FE)
    ensures EColumns(0x50) == Entries(0xA05050F0, 0xF0A05050, 0x50F0A050, 0x5050F0A0)
    ensures EColumns(0x3C) == Entries(0x783C3C44, 0x44783C3C, 0x3C44783C, 0x3C3C4478)
    ensures EColumns(0x9F) == Entries(0x259F9FBA, 0xBA259F9F, 0x9FBA259F, 0x9F9FBA25)
    ensures EColumns(0xA8) == Entries(0x4BA8A8E3, 0xE34BA8A8, 0xA8E34BA8, 0xA8A8E34B)
  {
  }

  lemma D6First()
    ensures DColumns(0x90) == Entries(0xA17C0A47, 0x47A17C0A, 0x0A47A17C, 0x7C0A47A1)
    ensures DColumns(0xD8) == Entries(0x7C420FE9, 0xE97C420F, 0x0FE97C42, 0x420FE97C)
    ensures DColumns(0xAB) == Entries(0xF8841EC9, 0xC9F8841E, 0x1EC9F884, 0x841EC9F8)
    ensures DColumns(0x00) == Entries(0x00000000, 0x00000000, 0x00000000, 0x00000000)
    ensures DColumns(0x8C) == Entries(0x09808683, 0x83098086, 0x86830980, 0x80868309)
    ensures DColumns(0xBC) == Entries(0x322BED48, 0x48322BED, 0xED48322B, 0x2BED4832)
    ensures DColumns(0xD3) == Entries(0x1E1170AC, 0xAC1E1170, 0x70AC1E11, 0x1170AC1E)
    ensures DColumns(0x0A) == Entries(0x6C5A724E, 0x4E6C5A72, 0x724E6C5A, 0x5A724E6C)
  {
  }

  lemma D6Second()
    ensures DColumns(0xF7) == Entries(0xFD0EFFFB, 0xFBFD0EFF, 0xFFFBFD0E, 0x0EFFFBFD)
    ensures DColumns(0xE4) == Entries(0x0F853856, 0x560F8538, 0x38560F85, 0x8538560F)
    ensures DColumns(0x58) == Entries(0x3DAED51E, 0x1E3DAED5, 0xD51E3DAE, 0xAED51E3D)
    ensures DColumns(0x05) == Entries(0x362D3927, 0x27362D39, 0x3927362D, 0x2D392736)
    ensures DColumns(0xB8) == Entries(0x0A0FD964, 0x640A0FD9, 0xD9640A0F, 0x0FD9640A)
    ensures DColumns(0xB3) == Entries(0x685CA621, 0x21685CA6, 0xA621685C, 0x5CA62168)
    ensures DColumns(0x45) == Entries(0x9B5B54D1, 0xD19B5B54, 0x54D19B5B, 0x5B54D19B)
    ensures DColumns(0x06) == Entries(0x24362E3A, 0x3A24362E, 0x2E3A2436, 0x362E3A24)
  {
  }

  lemma Sbox6Values()
    ensures Product(0x60, Unaffine(0xD0)) == 1 && Product(0x61, Unaffine(0xEF)) == 1
    ensures Product(0x62, Unaffine(0xAA)) == 1 && Product(0x63, Unaffine(0xFB)) == 1
    ensures Product(0x64, Unaffine(0x43)) == 1 && Product(0x65, Unaffine(0x4D)) == 1
    ensures Product(0x66, Unaffine(0x33)) == 1 && Product(0x67, Unaffine(0x85)) == 1
    ensures Product(0x68, Unaffine(0x45)) == 1 && Product(0x69, Unaffine(0xF9)) == 1
    ensures Product(0x6A, Unaffine(0x02)) == 1 && Product(0x6B, Unaffine(0x7F)) == 1
    ensures Product(0x6C, Unaffine(0x50)) == 1 && Product(0x6D, Unaffine(0x3C)) == 1
    ensures Product(0x6E, Unaffine(0x9F)) == 1 && Product(0x6F, Unaffine(0xA8)) == 1
  {
  }

  lemma Sbox6Inverse()
    ensures Sboxinv(0xD0) == 0x60 && Sboxinv(0xEF) == 0x61 && Sboxinv(0xAA) == 0x62 && Sboxinv(0xFB) == 0x63
    ensures Sboxinv(0x43) == 0x64 && Sboxinv(0x4D) == 0x65 && Sboxinv(0x33) == 0x66 && Sboxinv(0x85) == 0x67
    ensures Sboxinv(0x45) == 0x68 && Sboxinv(0xF9) == 0x69 && Sboxinv(0x02) == 0x6A && Sboxinv(0x7F) == 0x6B
    ensures Sboxinv(0x50) == 0x6C && Sboxinv(0x3C) == 0x6D && Sboxinv(0x9F) == 0x6E && Sboxinv(0xA8) == 0x6F
  {
  }

  lemma Row6E(b: bv8)
    requires 0x60 <= b < 0x70
    ensures E6(b) == EColumns(Sbox6(b))
  {
    hide EColumns;
    E6Values();
  }

  lemma Row6D(b: bv8)
    requires 0x60 <= b < 0x70
    ensures D6(b) == DColumns(Sboxinv6(b))
  {
    hide DColumns;
    D6First();
    D6Second();
  }

  lemma Row6Boxes(b: bv8)
    requires 0x60 <= b < 0x70
    ensures Sboxinv(Sbox6(b)) == b
    ensures if b == 0 then Unaffine(Sbox6(b)) == 0 else Product(b, Unaffine(Sbox6(b))) == 1
  {
    hide Product, Unaffine, Sboxinv;
    Sbox6Values();
    Sbox6Inverse();
  }

  lemma E7Values()
    ensures EColumns(0x51) == Entries(0xA25151F3, 0xF3A25151, 0x51F3A251, 0x5151F3A2)
    ensures EColumns(0xA3) == Entries(0x5DA3A3FE, 0xFE5DA3A3, 0xA3FE5DA3, 0xA3A3FE5D)
    ensures EColumns(0x40) == Entries(0x804040C0, 0xC0804040, 0x40C08040, 0x4040C080)
    ensures EColumns(0x8F) == Entries(0x058F8F8A, 0x8A058F8F, 0x8F8A058F, 0x8F8F8A05)
    ensures EColumns(0x92) == Entries(0x3F9292AD, 0xAD3F9292, 0x92AD3F92, 0x9292AD3F)
    ensures EColumns(0x9D) == Entries(0x219D9DBC, 0xBC219D9D, 0x9DBC219D, 0x9D9DBC21)
    ensures EColumns(0x38) == Entries(0x70383848, 0x48703838, 0x38487038, 0x38384870)
    ensures EColumns(0xF5) == Entries(0xF1F5F504, 0x04F1F5F5, 0xF504F1F5, 0xF5F504F1)
    ensures EColumns(0xBC) == Entries(0x63BCBCDF, 0xDF63BCBC, 0xBCDF63BC, 0xBCBCDF63)
    ensures EColumns(0xB6) == Entries(0x77B6B6C1, 0xC177B6B6, 0xB6C177B6, 0xB6B6C177)
    ensures EColumns(0xDA) == Entries(0xAFDADA75, 0x75AFDADA, 0xDA75AFDA, 0xDADA75AF)
    ensures EColumns(0x21) == Entries(0x42212163, 0x63422121, 0x21634221, 0x21216342)
    ensures EColumns(0x10) == Entries(0x20101030, 0x30201010, 0x10302010, 0x10103020)
    ensures EColumns(0xFF) == Entries(0xE5FFFF1A, 0x1AE5FFFF, 0xFF1AE5FF, 0xFFFF1AE5)
    ensures EColumns(0xF3) == Entries(0xFDF3F30E, 0x0EFDF3F3, 0xF30EFDF3, 0xF3F30EFD)
    ensures EColumns(0xD2) == Entries(0xBFD2D26D, 0x6DBFD2D2, 0xD26DBFD2, 0xD2D26DBF)
  {
  }

  lemma D7First()
    ensures DColumns(0xD0) == Entries(0x0C0A67B1, 0xB10C0A67, 0x67B10C0A, 0x0A67B10C)
    ensures DColumns(0x2C) == Entries(0x9357E70F, 0x0F9357E7, 0xE70F9357, 0x57E70F93)
    ensures DColumns(0x1E) == Entries(0xB4EE96D2, 0xD2B4EE96, 0x96D2B4EE, 0xEE96D2B4)
    ensures DColumns(0x8F) == Entries(0x1B9B919E, 0x9E1B9B91, 0x919E1B9B, 0x9B919E1B)
    ensures DColumns(0xCA) == Entries(0x80C0C54F, 0x4F80C0C5, 0xC54F80C0, 0xC0C54F80)
    ensures DColumns(0x3F) == Entries(0x61DC20A2, 0xA261DC20, 0x20A261DC, 0xDC20A261)
    ensures DColumns(0x0F) == Entries(0x5A774B69, 0x695A774B, 0x4B695A77, 0x774B695A)
    ensures DColumns(0x02) == Entries(0x1C121A16, 0x161C121A, 0x1A161C12, 0x121A161C)
  {
  }

  lemma D7Second()
    ensures DColumns(0xC1) == Entries(0xE293BA0A, 0x0AE293BA, 0xBA0AE293, 0x93BA0AE2)
    ensures DColumns(0xAF) == Entries(0xC0A02AE5, 0xE5C0A02A, 0x2AE5C0A0, 0xA02AE5C0)
    ensures DColumns(0xBD) == Entries(0x3C22E043, 0x433C22E0, 0xE0433C22, 0x22E0433C)
    ensures DColumns(0x03) == Entries(0x121B171D, 0x1D121B17, 0x171D121B, 0x1B171D12)
    ensures DColumns(0x01) == Entries(0x0E090D0B, 0x0B0E090D, 0x0D0B0E09, 0x090D0B0E)
    ensures DColumns(0x13) == Entries(0xF28BC7AD, 0xADF28BC7, 0xC7ADF28B, 0x8BC7ADF2)
    ensures DColumns(0x8A) == Entries(0x2DB6A8B9, 0xB92DB6A8, 0xA8B92DB6, 0xB6A8B92D)
    ensures DColumns(0x6B) == Entries(0x141EA9C8, 0xC8141EA9, 0xA9C8141E, 0x1EA9C814)
  {
  }

  lemma Sbox7Values()
    ensures Product(0x70, Unaffine(0x51)) == 1 && Product(0x71, Unaffine(0xA3)) == 1
    ensures Product(0x72, Unaffine(0x40)) == 1 && Product(0x73, Unaffine(0x8F)) == 1
    ensures Product(0x74, Unaffine(0x92)) == 1 && Product(0x75, Unaffine(0x9D)) == 1
    ensures Product(0x76, Unaffine(0x38)) == 1 && Product(0x77, Unaffine(0xF5)) == 1
    ensures Product(0x78, Unaffine(0xBC)) == 1 && Product(0x79, Unaffine(0xB6)) == 1
    ensures Product(0x7A, Unaffine(0xDA)) == 1 && Product(0x7B, Unaffine(0x21)) == 1
    ensures Product(0x7C, Unaffine(0x10)) == 1 && Product(0x7D, Unaffine(0xFF)) == 1
    ensures Product(0x7E, Unaffine(0xF3)) == 1 && Product(0x7F, Unaffine(0xD2)) == 1
  {
  }

  lemma Sbox7Inverse()
    ensures Sboxinv(0x51) == 0x70 && Sboxinv(0xA3) == 0x71 && Sboxinv(0x40) == 0x72 && Sboxinv(0x8F) == 0x73
    ensures Sboxinv(0x92) == 0x74 && Sboxinv(0x9D) == 0x75 && Sboxinv(0x38) == 0x76 && Sboxinv(0xF5) == 0x77
    ensures Sboxinv(0xBC) == 0x78 && Sboxinv(0xB6) == 0x79 && Sboxinv(0xDA) == 0x7A && Sboxinv(0x21) == 0x7B
    ensures Sboxinv(0x10) == 0x7C && Sboxinv(0xFF) == 0x7D && Sboxinv(0xF3) == 0x7E && Sboxinv(0xD2) == 0x7F
  {
  }

  lemma Row7E(b: bv8)
    requires 0x70 <= b < 0x80
    ensures E7(b) == EColumns(Sbox7(b))
  {
    hide EColumns;
    E7Values();
  }

  lemma Row7D(b: bv8)
    requires 0x70 <= b < 0x80
    ensures D7(b) == DColumns(Sboxinv7(b))
  {
    hide DColumns;
    D7First();
    D7Second();
  }

  lemma Row7Boxes(b: bv8)
    requires 0x70 <= b < 0x80
    ensures Sboxinv(Sbox7(b)) == b
    ensures if b == 0 then Unaffine(Sbox7(b)) == 0 else Product(b, Unaffine(Sbox7(b))) == 1
  {
    hide Product, Unaffine, Sboxinv;
    Sbox7Values();
    Sbox7Inverse();
  }

  lemma E8Values()
    ensures EColumns(0xCD) == Entries(0x81CDCD4C, 0x4C81CDCD, 0xCD4C81CD, 0xCDCD4C81)
    ensures EColumns(0x0C) == Entries(0x180C0C14, 0x14180C0C, 0x0C14180C, 0x0C0C1418)
    ensures EColumns(0x13) == Entries(0x26131335, 0x35261313, 0x13352613, 0x13133526)
    ensures EColumns(0xEC) == Entries(0xC3ECEC2F, 0x2FC3ECEC, 0xEC2FC3EC, 0xECEC2FC3)
    ensures EColumns(0x5F) == Entries(0xBE5F5FE1, 0xE1BE5F5F, 0x5FE1BE5F, 0x5F5FE1BE)
    ensures EColumns(0x97) == Entries(0x359797A2, 0xA2359797, 0x97A23597, 0x9797A235)
    ensures EColumns(0x44) == Entries(0x884444CC, 0xCC884444, 0x44CC8844, 0x4444CC88)
    ensures EColumns(0x17) == Entries(0x2E171739, 0x392E1717, 0x17392E17, 0x1717392E)
    ensures EColumns(0xC4) == Entries(0x93C4C457, 0x5793C4C4, 0xC45793C4, 0xC4C45793)
    ensures EColumns(0xA7) == Entries(0x55A7A7F2, 0xF255A7A7, 0xA7F255A7, 0xA7A7F255)
    ensures EColumns(0x7E) == Entries(0xFC7E7E82, 0x82FC7E7E, 0x7E82FC7E, 0x7E7E82FC)
    ensures EColumns(0x3D) == Entries(0x7A3D3D47, 0x477A3D3D, 0x3D477A3D, 0x3D3D477A)
    ensures EColumns(0x64) == Entries(0xC86464AC, 0xACC86464, 0x64ACC864, 0x6464ACC8)
    ensures EColumns(0x5D) == Entries(0xBA5D5DE7, 0xE7BA5D5D, 0x5DE7BA5D, 0x5D5DE7BA)
    ensures EColumns(0x19) == Entries(0x3219192B, 0x2B321919, 0x192B3219, 0x19192B32)
    ensures EColumns(0x73) == Entries(0xE6737395, 0x95E67373, 0x7395E673, 0x737395E6)
  {
  }

  lemma D8First()
    ensures DColumns(0x3A) == Entries(0x57F11985, 0x8557F119, 0x198557F1, 0xF1198557)
    ensures DColumns(0x91) == Entries(0xAF75074C, 0x4CAF7507, 0x074CAF75, 0x75074CAF)
    ensures DColumns(0x11) == Entries(0xEE99DDBB, 0xBBEE99DD, 0xDDBBEE99, 0x99DDBBEE)
    ensures DColumns(0x41) == Entries(0xA37F60FD, 0xFDA37F60, 0x60FDA37F, 0x7F60FDA3)
    ensures DColumns(0x4F) == Entries(0xF701269F, 0x9FF70126, 0x269FF701, 0x01269FF7)
    ensures DColumns(0x67) == Entries(0x5C72F5BC, 0xBC5C72F5, 0xF5BC5C72, 0x72F5BC5C)
    ensures DColumns(0xDC) == Entries(0x44663BC5, 0xC544663B, 0x3BC54466, 0x663BC544)
    ensures DColumns(0xEA) == Entries(0x5BFB7E34, 0x345BFB7E, 0x7E345BFB, 0xFB7E345B)
  {
  }

  lemma D8Second()
    ensures DColumns(0x97) == Entries(0x8B432976, 0x768B4329, 0x29768B43, 0x4329768B)
    ensures DColumns(0xF2) == Entries(0xCB23C6DC, 0xDCCB23C6, 0xC6DCCB23, 0x23C6DCCB)
    ensures DColumns(0xCF) == Entries(0xB6EDFC68, 0x68B6EDFC, 0xFC68B6ED, 0xEDFC68B6)
    ensures DColumns(0xCE) == Entries(0xB8E4F163, 0x63B8E4F1, 0xF163B8E4, 0xE4F163B8)
    ensures DColumns(0xF0) == Entries(0xD731DCCA, 0xCAD731DC, 0xDCCAD731, 0x31DCCAD7)
    ensures DColumns(0xB4) == Entries(0x42638510, 0x10426385, 0x85104263, 0x63851042)
    ensures DColumns(0xE6) == Entries(0x13972240, 0x40139722, 0x22401397, 0x97224013)
    ensures DColumns(0x73) == Entries(0x84C61120, 0x2084C611, 0x112084C6, 0xC6112084)
  {
  }

  lemma Sbox8Values()
    ensures Product(0x80, Unaffine(0xCD)) == 1 && Product(0x81, Unaffine(0x0C)) == 1
    ensures Product(0x82, Unaffine(0x13)) == 1 && Product(0x83, Unaffine(0xEC)) == 1
    ensures Product(0x84, Unaffine(0x5F)) == 1 && Product(0x85, Unaffine(0x97)) == 1
    ensures Product(0x86, Unaffine(0x44)) == 1 && Product(0x87, Unaffine(0x17)) == 1
    ensures Product(0x88, Unaffine(0xC4)) == 1 && Product(0x89, Unaffine(0xA7)) == 1
    ensures Product(0x8A, Unaffine(0x7E)) == 1 && Product(0x8B, Unaffine(0x3D)) == 1
    ensures Product(0x8C, Unaffine(0x64)) == 1 && Product(0x8D, Unaffine(0x5D)) == 1
    ensures Product(0x8E, Unaffine(0x19)) == 1 && Product(0x8F, Unaffine(0x73)) == 1
  {
  }

  lemma Sbox8Inverse()
    ensures Sboxinv(0xCD) == 0x80 && Sboxinv(0x0C) == 0x81 && Sboxinv(0x13) == 0x82 && Sboxinv(0xEC) == 0x83
    ensures Sboxinv(0x5F) == 0x84 && Sboxinv(0x97) == 0x85 && Sboxinv(0x44) == 0x86 && Sboxinv(0x17) == 0x87
    ensures Sboxinv(0xC4) == 0x88 && Sboxinv(0xA7) == 0x89 && Sboxinv(0x7E) == 0x8A && Sboxinv(0x3D) == 0x8B
    ensures Sboxinv(0x64) == 0x8C && Sboxinv(0x5D) == 0x8D && Sboxinv(0x19) == 0x8E && Sboxinv(0x73) == 0x8F
  {
  }

  lemma Row8E(b: bv8)
    requires 0x80 <= b < 0x90
    ensures E8(b) == EColumns(Sbox8(b))
  {
    hide EColumns;
    E8Values();
  }

  lemma Row8D(b: bv8)
    requires 0x80 <= b < 0x90
    ensures D8(b) == DColumns(Sboxinv8(b))
  {
    hide DColumns;
    D8First();
    D8Second();
  }

  lemma Row8Boxes(b: bv8)
    requires 0x80 <= b < 0x90
    ensures Sboxinv(Sbox8(b)) == b
    ensures if b == 0 then Unaffine(Sbox8(b)) == 0 else Product(b, Unaffine(Sbox8(b))) == 1
  {
    hide Product, Unaffine, Sboxinv;
    Sbox8Values();
    Sbox8Inverse();
  }

  lemma E9Values()
    ensures EColumns(0x60) == Entries(0xC06060A0, 0xA0C06060, 0x60A0C060, 0x6060A0C0)
    ensures EColumns(0x81) == Entries(0x19818198, 0x98198181, 0x81981981, 0x81819819)
    ensures EColumns(0x4F) == Entries(0x9E4F4FD1, 0xD19E4F4F, 0x4FD19E4F, 0x4F4FD19E)
    ensures EColumns(0xDC) == Entries(0xA3DCDC7F, 0x7FA3DCDC, 0xDC7FA3DC, 0xDCDC7FA3)
    ensures EColumns(0x22) == Entries(0x44222266, 0x66442222, 0x22664422, 0x22226644)
    ensures EColumns(0x2A) == Entries(0x542A2A7E, 0x7E542A2A, 0x2A7E542A, 0x2A2A7E54)
    ensures EColumns(0x90) == Entries(0x3B9090AB, 0xAB3B9090, 0x90AB3B90, 0x9090AB3B)
    ensures EColumns(0x88) == Entries(0x0B888883, 0x830B8888, 0x88830B88, 0x8888830B)
    ensures EColumns(0x46) == Entries(0x8C4646CA, 0xCA8C4646, 0x46CA8C46, 0x4646CA8C)
    ensures EColumns(0xEE) == Entries(0xC7EEEE29, 0x29C7EEEE, 0xEE29C7EE, 0xEEEE29C7)
    ensures EColumns(0xB8) == Entries(0x6BB8B8D3, 0xD36BB8B8, 0xB8D36BB8, 0xB8B8D36B)
    ensures EColumns(0x14) == Entries(0x2814143C, 0x3C281414, 0x143C2814, 0x14143C28)
    ensures EColumns(0xDE) == Entries(0xA7DEDE79, 0x79A7DEDE, 0xDE79A7DE, 0xDEDE79A7)
    ensures EColumns(0x5E) == Entries(0xBC5E5EE2, 0xE2BC5E5E, 0x5EE2BC5E, 0x5E5EE2BC)
    ensures EColumns(0x0B) == Entries(0x160B0B1D, 0x1D160B0B, 0x0B1D160B, 0x0B0B1D16)
    ensures EColumns(0xDB) == Entries(0xADDBDB76, 0x76ADDBDB, 0xDB76ADDB, 0xDBDB76AD)
  {
  }

  lemma D9First()
    ensures DColumns(0x96) == Entries(0x854A247D, 0x7D854A24, 0x247D854A, 0x4A247D85)
    ensures DColumns(0xAC) == Entries(0xD2BB3DF8, 0xF8D2BB3D, 0x3DF8D2BB, 0xBB3DF8D2)
    ensures DColumns(0x74) == Entries(0xAEF93211, 0x11AEF932, 0x3211AEF9, 0xF93211AE)
    ensures DColumns(0x22) == Entries(0xC729A16D, 0x6DC729A1, 0xA16DC729, 0x29A16DC7)
    ensures DColumns(0xE7) == Entries(0x1D9E2F4B, 0x4B1D9E2F, 0x2F4B1D9E, 0x9E2F4B1D)
    ensures DColumns(0xAD) == Entries(0xDCB230F3, 0xF3DCB230, 0x30F3DCB2, 0xB230F3DC)
    ensures DColumns(0x35) == Entries(0x0D8652EC, 0xEC0D8652, 0x52EC0D86, 0x8652EC0D)
    ensures DColumns(0x85) == Entries(0x77C1E3D0, 0xD077C1E3, 0xE3D077C1, 0xC1E3D077)
  {
  }

  lemma D9Second()
    ensures DColumns(0xE2) == Entries(0x2BB3166C, 0x6C2BB316, 0x166C2BB3, 0xB3166C2B)
    ensures DColumns(0xF9) == Entries(0xA970B999, 0x99A970B9, 0xB999A970, 0x70B999A9)
    ensures DColumns(0x37) == Entries(0x119448FA, 0xFA119448, 0x48FA1194, 0x9448FA11)
    ensures DColumns(0xE8) == Entries(0x47E96422, 0x2247E964, 0x642247E9, 0xE9642247)
    ensures DColumns(0x1C) == Entries(0xA8FC8CC4, 0xC4A8FC8C, 0x8CC4A8FC, 0xFC8CC4A8)
    ensures DColumns(0x75) == Entries(0xA0F03F1A, 0x1AA0F03F, 0x3F1AA0F0, 0xF03F1AA0)
    ensures DColumns(0xDF) == Entries(0x567D2CD8, 0xD8567D2C, 0x2CD8567D, 0x7D2CD856)
    ensures DColumns(0x6E) == Entries(0x223390EF, 0xEF223390, 0x90EF2233, 0x3390EF22)
  {
  }

  lemma Sbox9Values()
    ensures Product(0x90, Unaffine(0x60)) == 1 && Product(0x91, Unaffine(0x81)) == 1
    ensures Product(0x92, Unaffine(0x4F)) == 1 && Product(0x93, Unaffine(0xDC)) == 1
    ensures Product(0x94, Unaffine(0x22)) == 1 && Product(0x95, Unaffine(0x2A)) == 1
    ensures Product(0x96, Unaffine(0x90)) == 1 && Product(0x97, Unaffine(0x88)) == 1
    ensures Product(0x98, Unaffine(0x46)) == 1 && Product(0x99, Unaffine(0xEE)) == 1
    ensures Product(0x9A, Unaffine(0xB8)) == 1 && Product(0x9B, Unaffine(0x14)) == 1
    ensures Product(0x9C, Unaffine(0xDE)) == 1 && Product(0x9D, Unaffine(0x5E)) == 1
    ensures Product(0x9E, Unaffine(0x0B)) == 1 && Product(0x9F, Unaffine(0xDB)) == 1
  {
  }

  lemma Sbox9Inverse()
    ensures Sboxinv(0x60) == 0x90 && Sboxinv(0x81) == 0x91 && Sboxinv(0x4F) == 0x92 && Sboxinv(0xDC) == 0x93
    ensures Sboxinv(0x22) == 0x94 && Sboxinv(0x2A) == 0x95 && Sboxinv(0x90) == 0x96 && Sboxinv(0x88) == 0x97
    ensures Sboxinv(0x46) == 0x98 && Sboxinv(0xEE) == 0x99 && Sboxinv(0xB8) == 0x9A && Sboxinv(0x14) == 0x9B
    ensures Sboxinv(0xDE) == 0x9C && Sboxinv(0x5E) == 0x9D && Sboxinv(0x0B) == 0x9E && Sboxinv(0xDB) == 0x9F
  {
  }

  lemma Row9E(b: bv8)
    requires 0x90 <= b < 0xA0
    ensures E9(b) == EColumns(Sbox9(b))
  {
    hide EColumns;
    E9Values();
  }

  lemma Row9D(b: bv8)
    requires 0x90 <= b < 0xA0
    ensures D9(b) == DColumns(Sboxinv9(b))
  {
    hide DColumns;
    D9First();
    D9Second();
  }

  lemma Row9Boxes(b: bv8)
    requires 0x90 <= b < 0xA0
    ensures Sboxinv(Sbox9(b)) == b
    ensures if b == 0 then Unaffine(Sbox9(b)) == 0 else Product(b, Unaffine(Sbox9(b))) == 1
  {
    hide Product, Unaffine, Sboxinv;
    Sbox9Values();
    Sbox9Inverse();
  }

  lemma E10Values()
    ensures EColumns(0xE0) == Entries(0xDBE0E03B, 0x3BDBE0E0, 0xE03BDBE0, 0xE0E03BDB)
    ensures EColumns(0x32) == Entries(0x64323256, 0x56643232, 0x32566432, 0x32325664)
    ensures EColumns(0x3A) == Entries(0x743A3A4E, 0x4E743A3A, 0x3A4E743A, 0x3A3A4E74)
    ensures EColumns(0x0A) == Entries(0x140A0A1E, 0x1E140A0A, 0x0A1E140A, 0x0A0A1E14)
    ensures EColumns(0x49) == Entries(0x924949DB, 0xDB924949, 0x49DB9249, 0x4949DB92)
    ensures EColumns(0x06) == Entries(0x0C06060A, 0x0A0C0606, 0x060A0C06, 0x06060A0C)
    ensures EColumns(0x24) == Entries(0x4824246C, 0x6C482424, 0x246C4824, 0x24246C48)
    ensures EColumns(0x5C) == Entries(0xB85C5CE4, 0xE4B85C5C, 0x5CE4B85C, 0x5C5CE4B8)
    ensures EColumns(0xC2) == Entries(0x9FC2C25D, 0x5D9FC2C2, 0xC25D9FC2, 0xC2C25D9F)
    ensures EColumns(0xD3) == Entries(0xBDD3D36E, 0x6EBDD3D3, 0xD36EBDD3, 0xD3D36EBD)
    ensures EColumns(0xAC) == Entries(0x43ACACEF, 0xEF43ACAC, 0xACEF43AC, 0xACACEF43)
    ensures EColumns(0x62) == Entries(0xC46262A6, 0xA6C46262, 0x62A6C462, 0x6262A6C4)
    ensures EColumns(0x91) == Entries(0x399191A8, 0xA8399191, 0x91A83991, 0x9191A839)
    ensures EColumns(0x95) == Entries(0x319595A4, 0xA4319595, 0x95A43195, 0x9595A431)
    ensures EColumns(0xE4) == Entries(0xD3E4E437, 0x37D3E4E4, 0xE437D3E4, 0xE4E437D3)
    ensures EColumns(0x79) == Entries(0xF279798B, 0x8BF27979, 0x798BF279, 0x79798BF2)
  {
  }

  lemma D10First()
    ensures DColumns(0x47) == Entries(0x87494EC7, 0xC787494E, 0x4EC78749, 0x494EC787)
    ensures DColumns(0xF1) == Entries(0xD938D1C1, 0xC1D938D1, 0xD1C1D938, 0x38D1C1D9)
    ensures DColumns(0x1A) == Entries(0x8CCAA2FE, 0xFE8CCAA2, 0xA2FE8CCA, 0xCAA2FE8C)
    ensures DColumns(0x71) == Entries(0x98D40B36, 0x3698D40B, 0x0B3698D4, 0xD40B3698)
    ensures DColumns(0x1D) == Entries(0xA6F581CF, 0xCFA6F581, 0x81CFA6F5, 0xF581CFA6)
    ensures DColumns(0x29) == Entries(0xA57ADE28, 0x28A57ADE, 0xDE28A57A, 0x7ADE28A5)
    ensures DColumns(0xC5) == Entries(0xDAB78E26, 0x26DAB78E, 0x8E26DAB7, 0xB78E26DA)
    ensures DColumns(0x89) == Entries(0x3FADBFA4, 0xA43FADBF, 0xBFA43FAD, 0xADBFA43F)
  {
  }

  lemma D10Second()
    ensures DColumns(0x6F) == Entries(0x2C3A9DE4, 0xE42C3A9D, 0x9DE42C3A, 0x3A9DE42C)
    ensures DColumns(0xB7) == Entries(0x5078920D, 0x0D507892, 0x920D5078, 0x78920D50)
    ensures DColumns(0x62) == Entries(0x6A5FCC9B, 0x9B6A5FCC, 0xCC9B6A5F, 0x5FCC9B6A)
    ensures DColumns(0x0E) == Entries(0x547E4662, 0x62547E46, 0x4662547E, 0x7E466254)
    ensures DColumns(0xAA) == Entries(0xF68D13C2, 0xC2F68D13, 0x13C2F68D, 0x8D13C2F6)
    ensures DColumns(0x18) == Entries(0x90D8B8E8, 0xE890D8B8, 0xB8E890D8, 0xD8B8E890)
    ensures DColumns(0xBE) == Entries(0x2E39F75E, 0x5E2E39F7, 0xF75E2E39, 0x39F75E2E)
    ensures DColumns(0x1B) == Entries(0x82C3AFF5, 0xF582C3AF, 0xAFF582C3, 0xC3AFF582)
  {
  }

  lemma Sbox10Values()
    ensures Product(0xA0, Unaffine(0xE0)) == 1 && Product(0xA1, Unaffine(0x32)) == 1
    ensures Product(0xA2, Unaffine(0x3A)) == 1 && Product(0xA3, Unaffine(0x0A)) == 1
    ensures Product(0xA4, Unaffine(0x49)) == 1 && Product(0xA5, Unaffine(0x06)) == 1
    ensures Product(0xA6, Unaffine(0x24)) == 1 && Product(0xA7, Unaffine(0x5C)) == 1
    ensures Product(0xA8, Unaffine(0xC2)) == 1 && Product(0xA9, Unaffine(0xD3)) == 1
    ensures Product(0xAA, Unaffine(0xAC)) == 1 && Product(0xAB, Unaffine(0x62)) == 1
    ensures Product(0xAC, Unaffine(0x91)) == 1 && Product(0xAD, Unaffine(0x95)) == 1
    ensures Product(0xAE, Unaffine(0xE4)) == 1 && Product(0xAF, Unaffine(0x79)) == 1
  {
  }

  lemma Sbox10Inverse()
    ensures Sboxinv(0xE0) == 0xA0 && Sboxinv(0x32) == 0xA1 && Sboxinv(0x3A) == 0xA2 && Sboxinv(0x0A) == 0xA3
    ensures Sboxinv(0x49) == 0xA4 && Sboxinv(0x06) == 0xA5 && Sboxinv(0x24) == 0xA6 && Sboxinv(0x5C) == 0xA7
    ensures Sboxinv(0xC2) == 0xA8 && Sboxinv(0xD3) == 0xA9 && Sboxinv(0xAC) == 0xAA && Sboxinv(0x62) == 0xAB
    ensures Sboxinv(0x91) == 0xAC && Sboxinv(0x95) == 0xAD && Sboxinv(0xE4) == 0xAE && Sboxinv(0x79) == 0xAF
  {
  }

  lemma Row10E(b: bv8)
    requires 0xA0 <= b < 0xB0
    ensures E10(b) == EColumns(Sbox10(b))
  {
    hide EColumns;
    E10Values();
  }

  lemma Row10D(b: bv8)
    requires 0xA0 <= b < 0xB0
    ensures D10(b) == DColumns(Sboxinv10(b))
  {
    hide DColumns;
    D10First();
    D10Second();
  }

  lemma Row10Boxes(b: bv8)
    requires 0xA0 <= b < 0xB0
    ensures Sboxinv(Sbox10(b)) == b
    ensures if b == 0 then Unaffine(Sbox10(b)) == 0 else Product(b, Unaffine(Sbox10(b))) == 1
  {
    hide Product, Unaffine, Sboxinv;
    Sbox10Values();
    Sbox10Inverse();
  }

  lemma E11Values()
    ensures EColumns(0xE7) == Entries(0xD5E7E732, 0x32D5E7E7, 0xE732D5E7, 0xE7E732D5)
    ensures EColumns(0xC8) == Entries(0x8BC8C843, 0x438BC8C8, 0xC8438BC8, 0xC8C8438B)
    ensures EColumns(0x37) == Entries(0x6E373759, 0x596E3737, 0x37596E37, 0x3737596E)
    ensures EColumns(0x6D) == Entries(0xDA6D6DB7, 0xB7DA6D6D, 0x6DB7DA6D, 0x6D6DB7DA)
    ensures EColumns(0x8D) == Entries(0x018D8D8C, 0x8C018D8D, 0x8D8C018D, 0x8D8D8C01)
    ensures EColumns(0xD5) == Entries(0xB1D5D564, 0x64B1D5D5, 0xD564B1D5, 0xD5D564B1)
    ensures EColumns(0x4E) == Entries(0x9C4E4ED2, 0xD29C4E4E, 0x4ED29C4E, 0x4E4ED29C)
    ensures EColumns(0xA9) == Entries(0x49A9A9E0, 0xE049A9A9, 0xA9E049A9, 0xA9A9E049)
    ensures EColumns(0x6C) == Entries(0xD86C6CB4, 0xB4D86C6C, 0x6CB4D86C, 0x6C6CB4D8)
    ensures EColumns(0x56) == Entries(0xAC5656FA, 0xFAAC5656, 0x56FAAC56, 0x5656FAAC)
    ensures EColumns(0xF4) == Entries(0xF3F4F407, 0x07F3F4F4, 0xF407F3F4, 0xF4F407F3)
    ensures EColumns(0xEA) == Entries(0xCFEAEA25, 0x25CFEAEA, 0xEA25CFEA, 0xEAEA25CF)
    ensures EColumns(0x65) == Entries(0xCA6565AF, 0xAFCA6565, 0x65AFCA65, 0x6565AFCA)
    ensures EColumns(0x7A) == Entries(0xF47A7A8E, 0x8EF47A7A, 0x7A8EF47A, 0x7A7A8EF4)
    ensures EColumns(0xAE) == Entries(0x47AEAEE9, 0xE947AEAE, 0xAEE947AE, 0xAEAEE947)
    ensures EColumns(0x08) == Entries(0x10080818, 0x18100808, 0x08181008, 0x08081810)
  {
  }

  lemma D11First()
    ensures DColumns(0xFC) == Entries(0x9F5D80BE, 0xBE9F5D80, 0x80BE9F5D, 0x5D80BE9F)
    ensures DColumns(0x56) == Entries(0x69D0937C, 0x7C69D093, 0x937C69D0, 0xD0937C69)
    ensures DColumns(0x3E) == Entries(0x6FD52DA9, 0xA96FD52D, 0x2DA96FD5, 0xD52DA96F)
    ensures DColumns(0x4B) == Entries(0xCF2512B3, 0xB3CF2512, 0x12B3CF25, 0x2512B3CF)
    ensures DColumns(0xC6) == Entries(0xC8AC993B, 0x3BC8AC99, 0x993BC8AC, 0xAC993BC8)
    ensures DColumns(0xD2) == Entries(0x10187DA7, 0xA710187D, 0x7DA71018, 0x187DA710)
    ensures DColumns(0x79) == Entries(0xE89C636E, 0x6EE89C63, 0x636EE89C, 0x9C636EE8)
    ensures DColumns(0x20) == Entries(0xDB3BBB7B, 0x7BDB3BBB, 0xBB7BDB3B, 0x3BBB7BDB)
  {
  }

  lemma D11Second()
    ensures DColumns(0x9A) == Entries(0xCD267809, 0x09CD2678, 0x7809CD26, 0x267809CD)
    ensures DColumns(0xDB) == Entries(0x6E5918F4, 0xF46E5918, 0x18F46E59, 0x5918F46E)
    ensures DColumns(0xC0) == Entries(0xEC9AB701, 0x01EC9AB7, 0xB701EC9A, 0x9AB701EC)
    ensures DColumns(0xFE) == Entries(0x834F9AA8, 0xA8834F9A, 0x9AA8834F, 0x4F9AA883)
    ensures DColumns(0x78) == Entries(0xE6956E65, 0x65E6956E, 0x6E65E695, 0x956E65E6)
    ensures DColumns(0xCD) == Entries(0xAAFFE67E, 0x7EAAFFE6, 0xE67EAAFF, 0xFFE67EAA)
    ensures DColumns(0x5A) == Entries(0x21BCCF08, 0x0821BCCF, 0xCF0821BC, 0xBCCF0821)
    ensures DColumns(0xF4) == Entries(0xEF15E8E6, 0xE6EF15E8, 0xE8E6EF15, 0x15E8E6EF)
  {
  }

  lemma Sbox11Values()
    ensures Product(0xB0, Unaffine(0xE7)) == 1 && Product(0xB1, Unaffine(0xC8)) == 1
    ensures Product(0xB2, Unaffine(0x37)) == 1 && Product(0xB3, Unaffine(0x6D)) == 1
    ensures Product(0xB4, Unaffine(0x8D)) == 1 && Product(0xB5, Unaffine(0xD5)) == 1
    ensures Product(0xB6, Unaffine(0x4E)) == 1 && Product(0xB7, Unaffine(0xA9)) == 1
    ensures Product(0xB8, Unaffine(0x6C)) == 1 && Product(0xB9, Unaffine(0x56)) == 1
    ensures Product(0xBA, Unaffine(0xF4)) == 1 && Product(0xBB, Unaffine(0xEA)) == 1
    ensures Product(0xBC, Unaffine(0x65)) == 1 && Product(0xBD, Unaffine(0x7A)) == 1
    ensures Product(0xBE, Unaffine(0xAE)) == 1 && Product(0xBF, Unaffine(0x08)) == 1
  {
  }

  lemma Sbox11Inverse()
    ensures Sboxinv(0xE7) == 0xB0 && Sboxinv(0xC8) == 0xB1 && Sboxinv(0x37) == 0xB2 && Sboxinv(0x6D) == 0xB3
    ensures Sboxinv(0x8D) == 0xB4 && Sboxinv(0xD5) == 0xB5 && Sboxinv(0x4E) == 0xB6 && Sboxinv(0xA9) == 0xB7
    ensures Sboxinv(0x6C) == 0xB8 && Sboxinv(0x56) == 0xB9 && Sboxinv(0xF4) == 0xBA && Sboxinv(0xEA) == 0xBB
    ensures Sboxinv(0x65) == 0xBC && Sboxinv(0x7A) == 0xBD && Sboxinv(0xAE) == 0xBE && Sboxinv(0x08) == 0xBF
  {
  }

  lemma Row11E(b: bv8)
    requires 0xB0 <= b < 0xC0
    ensures E11(b) == EColumns(Sbox11(b))
  {
    hide EColumns;
    E11Values();
  }

  lemma Row11D(b: bv8)
    requires 0xB0 <= b < 0xC0
    ensures D11(b) == DColumns(Sboxinv11(b))
  {
    hide DColumns;
    D11First();
    D11Second();
  }

  lemma Row11Boxes(b: bv8)
    requires 0xB0 <= b < 0xC0
    ensures Sboxinv(Sbox11(b)) == b
    ensures if b == 0 then Unaffine(Sbox11(b)) == 0 else Product(b, Unaffine(Sbox11(b))) == 1
  {
    hide Product, Unaffine, Sboxinv;
    Sbox11Values();
    Sbox11Inverse();
  }

  lemma E12Values()
    ensures EColumns(0xBA) == Entries(0x6FBABAD5, 0xD56FBABA, 0xBAD56FBA, 0xBABAD56F)
    ensures EColumns(0x78) == Entries(0xF0787888, 0x88F07878, 0x7888F078, 0x787888F0)
    ensures EColumns(0x25) == Entries(0x4A25256F, 0x6F4A2525, 0x256F4A25, 0x25256F4A)
    ensures EColumns(0x2E) == Entries(0x5C2E2E72, 0x725C2E2E, 0x2E725C2E, 0x2E2E725C)
    ensures EColumns(0x1C) == Entries(0x381C1C24, 0x24381C1C, 0x1C24381C, 0x1C1C2438)
    ensures EColumns(0xA6) == Entries(0x57A6A6F1, 0xF157A6A6, 0xA6F157A6, 0xA6A6F157)
    ensures EColumns(0xB4) == Entries(0x73B4B4C7, 0xC773B4B4, 0xB4C773B4, 0xB4B4C773)
    ensures EColumns(0xC6) == Entries(0x97C6C651, 0x5197C6C6, 0xC65197C6, 0xC6C65197)
    ensures EColumns(0xE8) == Entries(0xCBE8E823, 0x23CBE8E8, 0xE823CBE8, 0xE8E823CB)
    ensures EColumns(0xDD) == Entries(0xA1DDDD7C, 0x7CA1DDDD, 0xDD7CA1DD, 0xDDDD7CA1)
    ensures EColumns(0x74) == Entries(0xE874749C, 0x9CE87474, 0x749CE874, 0x74749CE8)
    ensures EColumns(0x1F) == Entries(0x3E1F1F21, 0x213E1F1F, 0x1F213E1F, 0x1F1F213E)
    ensures EColumns(0x4B) == Entries(0x964B4BDD, 0xDD964B4B, 0x4BDD964B, 0x4B4BDD96)
    ensures EColumns(0xBD) == Entries(0x61BDBDDC, 0xDC61BDBD, 0xBDDC61BD, 0xBDBDDC61)
    ensures EColumns(0x8B) == Entries(0x0D8B8B86, 0x860D8B8B, 0x8B860D8B, 0x8B8B860D)
    ensures EColumns(0x8A) == Entries(0x0F8A8A85, 0x850F8A8A, 0x8A850F8A, 0x8A8A850F)
  {
  }

  lemma D12First()
    ensures DColumns(0x1F) == Entries(0xBAE79BD9, 0xD9BAE79B, 0x9BD9BAE7, 0xE79BD9BA)
    ensures DColumns(0xDD) == Entries(0x4A6F36CE, 0xCE4A6F36, 0x36CE4A6F, 0x6F36CE4A)
    ensures DColumns(0xA8) == Entries(0xEA9F09D4, 0xD4EA9F09, 0x09D4EA9F, 0x9F09D4EA)
    ensures DColumns(0x33) == Entries(0x29B07CD6, 0xD629B07C, 0x7CD629B0, 0xB07CD629)
    ensures DColumns(0x88) == Entries(0x31A4B2AF, 0xAF31A4B2, 0xB2AF31A4, 0xA4B2AF31)
    ensures DColumns(0x07) == Entries(0x2A3F2331, 0x312A3F23, 0x23312A3F, 0x3F23312A)
    ensures DColumns(0xC7) == Entries(0xC6A59430, 0x30C6A594, 0x9430C6A5, 0xA59430C6)
    ensures DColumns(0x31) == Entries(0x35A266C0, 0xC035A266, 0x66C035A2, 0xA266C035)
  {
  }

  lemma D12Second()
    ensures DColumns(0xB1) == Entries(0x744EBC37, 0x37744EBC, 0xBC37744E, 0x4EBC3774)
    ensures DColumns(0x12) == Entries(0xFC82CAA6, 0xA6FC82CA, 0xCAA6FC82, 0x82CAA6FC)
    ensures DColumns(0x10) == Entries(0xE090D0B0, 0xB0E090D0, 0xD0B0E090, 0x90D0B0E0)
    ensures DColumns(0x59) == Entries(0x33A7D815, 0x1533A7D8, 0xD81533A7, 0xA7D81533)
    ensures DColumns(0x27) == Entries(0xF104984A, 0x4AF10498, 0x984AF104, 0x04984AF1)
    ensures DColumns(0x80) == Entries(0x41ECDAF7, 0xF741ECDA, 0xDAF741EC, 0xECDAF741)
    ensures DColumns(0xEC) == Entries(0x7FCD500E, 0x0E7FCD50, 0x500E7FCD, 0xCD500E7F)
    ensures DColumns(0x5F) == Entries(0x1791F62F, 0x2F1791F6, 0xF62F1791, 0x91F62F17)
  {
  }

  lemma Sbox12Values()
    ensures Product(0xC0, Unaffine(0xBA)) == 1 && Product(0xC1, Unaffine(0x78)) == 1
    ensures Product(0xC2, Unaffine(0x25)) == 1 && Product(0xC3, Unaffine(0x2E)) == 1
    ensures Product(0xC4, Unaffine(0x1C)) == 1 && Product(0xC5, Unaffine(0xA6)) == 1
    ensures Product(0xC6, Unaffine(0xB4)) == 1 && Product(0xC7, Unaffine(0xC6)) == 1
    ensures Product(0xC8, Unaffine(0xE8)) == 1 && Product(0xC9, Unaffine(0xDD)) == 1
    ensures Product(0xCA, Unaffine(0x74)) == 1 && Product(0xCB, Unaffine(0x1F)) == 1
    ensures Product(0xCC, Unaffine(0x4B)) == 1 && Product(0xCD, Unaffine(0xBD)) == 1
    ensures Product(0xCE, Unaffine(0x8B)) == 1 && Product(0xCF, Unaffine(0x8A)) == 1
  {
  }

  lemma Sbox12Inverse()
    ensures Sboxinv(0xBA) == 0xC0 && Sboxinv(0x78) == 0xC1 && Sboxinv(0x25) == 0xC2 && Sboxinv(0x2E) == 0xC3
    ensures Sboxinv(0x1C) == 0xC4 && Sboxinv(0xA6) == 0xC5 && Sboxinv(0xB4) == 0xC6 && Sboxinv(0xC6) == 0xC7
    ensures Sboxinv(0xE8) == 0xC8 && Sboxinv(0xDD) == 0xC9 && Sboxinv(0x74) == 0xCA && Sboxinv(0x1F) == 0xCB
    ensures Sboxinv(0x4B) == 0xCC && Sboxinv(0xBD) == 0xCD && Sboxinv(0x8B) == 0xCE && Sboxinv(0x8A) == 0xCF
  {
  }

  lemma Row12E(b: bv8)
    requires 0xC0 <= b < 0xD0
    ensures E12(b) == EColumns(Sbox12(b))
  {
    hide EColumns;
    E12Values();
  }

  lemma Row12D(b: bv8)
    requires 0xC0 <= b < 0xD0
    ensures D12(b) == DColumns(Sboxinv12(b))
  {
    hide DColumns;
    D12First();
    D12Second();
  }

  lemma Row12Boxes(b: bv8)
    requires 0xC0 <= b < 0xD0
    ensures Sboxinv(Sbox12(b)) == b
    ensures if b == 0 then Unaffine(Sbox12(b)) == 0 else Product(b, Unaffine(Sbox12(b))) == 1
  {
    hide Product, Unaffine, Sboxinv;
    Sbox12Values();
    Sbox12Inverse();
  }

  lemma E13Values()
    ensures EColumns(0x70) == Entries(0xE0707090, 0x90E07070, 0x7090E070, 0x707090E0)
    ensures EColumns(0x3E) == Entries(0x7C3E3E42, 0x427C3E3E, 0x3E427C3E, 0x3E3E427C)
    ensures EColumns(0xB5) == Entries(0x71B5B5C4, 0xC471B5B5, 0xB5C471B5, 0xB5B5C471)
    ensures EColumns(0x66) == Entries(0xCC6666AA, 0xAACC6666, 0x66AACC66, 0x6666AACC)
    ensures EColumns(0x48) == Entries(0x904848D8, 0xD8904848, 0x48D89048, 0x4848D890)
    ensures EColumns(0x03) == Entries(0x06030305, 0x05060303, 0x03050603, 0x03030506)
    ensures EColumns(0xF6) == Entries(0xF7F6F601, 0x01F7F6F6, 0xF601F7F6, 0xF6F601F7)
    ensures EColumns(0x0E) == Entries(0x1C0E0E12, 0x121C0E0E, 0x0E121C0E, 0x0E0E121C)
    ensures EColumns(0x61) == Entries(0xC26161A3, 0xA3C26161, 0x61A3C261, 0x6161A3C2)
    ensures EColumns(0x35) == Entries(0x6A35355F, 0x5F6A3535, 0x355F6A35, 0x35355F6A)
    ensures EColumns(0x57) == Entries(0xAE5757F9, 0xF9AE5757, 0x57F9AE57, 0x5757F9AE)
    ensures EColumns(0xB9) == Entries(0x69B9B9D0, 0xD069B9B9, 0xB9D069B9, 0xB9B9D069)
    ensures EColumns(0x86) == Entries(0x17868691, 0x91178686, 0x86911786, 0x86869117)
    ensures EColumns(0xC1) == Entries(0x99C1C158, 0x5899C1C1, 0xC15899C1, 0xC1C15899)
    ensures EColumns(0x1D) == Entries(0x3A1D1D27, 0x273A1D1D, 0x1D273A1D, 0x1D1D273A)
    ensures EColumns(0x9E) == Entries(0x279E9EB9, 0xB9279E9E, 0x9EB9279E, 0x9E9EB927)
  {
  }

  lemma D13First()
    ensures DColumns(0x60) == Entries(0x764DD68D, 0x8D764DD6, 0xD68D764D, 0x4DD68D76)
    ensures DColumns(0x51) == Entries(0x43EFB04D, 0x4D43EFB0, 0xB04D43EF, 0xEFB04D43)
    ensures DColumns(0x7F) == Entries(0xCCAA4D54, 0x54CCAA4D, 0x4D54CCAA, 0xAA4D54CC)
    ensures DColumns(0xA9) == Entries(0xE49604DF, 0xDFE49604, 0x04DFE496, 0x9604DFE4)
    ensures DColumns(0x19) == Entries(0x9ED1B5E3, 0xE39ED1B5, 0xB5E39ED1, 0xD1B5E39E)
    ensures DColumns(0xB5) == Entries(0x4C6A881B, 0x1B4C6A88, 0x881B4C6A, 0x6A881B4C)
    ensures DColumns(0x4A) == Entries(0xC12C1FB8, 0xB8C12C1F, 0x1FB8C12C, 0x2C1FB8C1)
    ensures DColumns(0x0D) == Entries(0x4665517F, 0x7F466551, 0x517F4665, 0x65517F46)
  {
  }

  lemma D13Second()
    ensures DColumns(0x2D) == Entries(0x9D5EEA04, 0x049D5EEA, 0xEA049D5E, 0x5EEA049D)
    ensures DColumns(0xE5) == Entries(0x018C355D, 0x5D018C35, 0x355D018C, 0x8C355D01)
    ensures DColumns(0x7A) == Entries(0xFA877473, 0x73FA8774, 0x7473FA87, 0x877473FA)
    ensures DColumns(0x9F) == Entries(0xFB0B412E, 0x2EFB0B41, 0x412EFB0B, 0x0B412EFB)
    ensures DColumns(0x93) == Entries(0xB3671D5A, 0x5AB3671D, 0x1D5AB367, 0x671D5AB3)
    ensures DColumns(0xC9) == Entries(0x92DBD252, 0x5292DBD2, 0xD25292DB, 0xDBD25292)
    ensures DColumns(0x9C) == Entries(0xE9105633, 0x33E91056, 0x5633E910, 0x105633E9)
    ensures DColumns(0xEF) == Entries(0x6DD64713, 0x136DD647, 0x47136DD6, 0xD647136D)
  {
  }

  lemma Sbox13Values()
    ensures Product(0xD0, Unaffine(0x70)) == 1 && Product(0xD1, Unaffine(0x3E)) == 1
    ensures Product(0xD2, Unaffine(0xB5)) == 1 && Product(0xD3, Unaffine(0x66)) == 1
    ensures Product(0xD4, Unaffine(0x48)) == 1 && Product(0xD5, Unaffine(0x03)) == 1
    ensures Product(0xD6, Unaffine(0xF6)) == 1 && Product(0xD7, Unaffine(0x0E)) == 1
    ensures Product(0xD8, Unaffine(0x61)) == 1 && Product(0xD9, Unaffine(0x35)) == 1
    ensures Product(0xDA, Unaffine(0x57)) == 1 && Product(0xDB, Unaffine(0xB9)) == 1
    ensures Product(0xDC, Unaffine(0x86)) == 1 && Product(0xDD, Unaffine(0xC1)) == 1
    ensures Product(0xDE, Unaffine(0x1D)) == 1 && Product(0xDF, Unaffine(0x9E)) == 1
  {
  }

  lemma Sbox13Inverse()
    ensures Sboxinv(0x70) == 0xD0 && Sboxinv(0x3E) == 0xD1 && Sboxinv(0xB5) == 0xD2 && Sboxinv(0x66) == 0xD3
    ensures Sboxinv(0x48) == 0xD4 && Sboxinv(0x03) == 0xD5 && Sboxinv(0xF6) == 0xD6 && Sboxinv(0x0E) == 0xD7
    ensures Sboxinv(0x61) == 0xD8 && Sboxinv(0x35) == 0xD9 && Sboxinv(0x57) == 0xDA && Sboxinv(0xB9) == 0xDB
    ensures Sboxinv(0x86) == 0xDC && Sboxinv(0xC1) == 0xDD && Sboxinv(0x1D) == 0xDE && Sboxinv(0x9E) == 0xDF
  {
  }

  lemma Row13E(b: bv8)
    requires 0xD0 <= b < 0xE0
    ensures E13(b) == EColumns(Sbox13(b))
  {
    hide EColumns;
    E13Values();
  }

  lemma Row13D(b: bv8)
    requires 0xD0 <= b < 0xE0
    ensures D13(b) == DColumns(Sboxinv13(b))
  {
    hide DColumns;
    D13First();
    D13Second();
  }

  lemma Row13Boxes(b: bv8)
    requires 0xD0 <= b < 0xE0
    ensures Sboxinv(Sbox13(b)) == b
    ensures if b == 0 then Unaffine(Sbox13(b)) == 0 else Product(b, Unaffine(Sbox13(b))) == 1
  {
    hide Product, Unaffine, Sboxinv;
    Sbox13Values();
    Sbox13Inverse();
  }

  lemma E14Values()
    ensures EColumns(0xE1) == Entries(0xD9E1E138, 0x38D9E1E1, 0xE138D9E1, 0xE1E138D9)
    ensures EColumns(0xF8) == Entries(0xEBF8F813, 0x13EBF8F8, 0xF813EBF8, 0xF8F813EB)
    ensures EColumns(0x98) == Entries(0x2B9898B3, 0xB32B9898, 0x98B32B98, 0x9898B32B)
    ensures EColumns(0x11) == Entries(0x22111133, 0x33221111, 0x11332211, 0x11113322)
    ensures EColumns(0x69) == Entries(0xD26969BB, 0xBBD26969, 0x69BBD269, 0x6969BBD2)
    ensures EColumns(0xD9) == Entries(0xA9D9D970, 0x70A9D9D9, 0xD970A9D9, 0xD9D970A9)
    ensures EColumns(0x8E) == Entries(0x078E8E89, 0x89078E8E, 0x8E89078E, 0x8E8E8907)
    ensures EColumns(0x94) == Entries(0x339494A7, 0xA7339494, 0x94A73394, 0x9494A733)
    ensures EColumns(0x9B) == Entries(0x2D9B9BB6, 0xB62D9B9B, 0x9BB62D9B, 0x9B9BB62D)
    ensures EColumns(0x1E) == Entries(0x3C1E1E22, 0x223C1E1E, 0x1E223C1E, 0x1E1E223C)
    ensures EColumns(0x87) == Entries(0x15878792, 0x92158787, 0x87921587, 0x87879215)
    ensures EColumns(0xE9) == Entries(0xC9E9E920, 0x20C9E9E9, 0xE920C9E9, 0xE9E920C9)
    ensures EColumns(0xCE) == Entries(0x87CECE49, 0x4987CECE, 0xCE4987CE, 0xCECE4987)
    ensures EColumns(0x55) == Entries(0xAA5555FF, 0xFFAA5555, 0x55FFAA55, 0x5555FFAA)
    ensures EColumns(0x28) == Entries(0x50282878, 0x78502828, 0x28785028, 0x28287850)
    ensures EColumns(0xDF) == Entries(0xA5DFDF7A, 0x7AA5DFDF, 0xDF7AA5DF, 0xDFDF7AA5)
  {
  }

  lemma D14First()
    ensures DColumns(0xA0) == Entries(0x9AD7618C, 0x8C9AD761, 0x618C9AD7, 0xD7618C9A)
    ensures DColumns(0xE0) == Entries(0x37A10C7A, 0x7A37A10C, 0x0C7A37A1, 0xA10C7A37)
    ensures DColumns(0x3B) == Entries(0x59F8148E, 0x8E59F814, 0x148E59F8, 0xF8148E59)
    ensures DColumns(0x4D) == Entries(0xEB133C89, 0x89EB133C, 0x3C89EB13, 0x133C89EB)
    ensures DColumns(0xAE) == Entries(0xCEA927EE, 0xEECEA927, 0x27EECEA9, 0xA927EECE)
    ensures DColumns(0x2A) == Entries(0xB761C935, 0x35B761C9, 0xC935B761, 0x61C935B7)
    ensures DColumns(0xF5) == Entries(0xE11CE5ED, 0xEDE11CE5, 0xE5EDE11C, 0x1CE5EDE1)
    ensures DColumns(0xB0) == Entries(0x7A47B13C, 0x3C7A47B1, 0xB13C7A47, 0x47B13C7A)
  {
  }

  lemma D14Second()
    ensures DColumns(0xC8) == Entries(0x9CD2DF59, 0x599CD2DF, 0xDF599CD2, 0xD2DF599C)
    ensures DColumns(0xEB) == Entries(0x55F2733F, 0x3F55F273, 0x733F55F2, 0xF2733F55)
    ensures DColumns(0xBB) == Entries(0x1814CE79, 0x791814CE, 0xCE791814, 0x14CE7918)
    ensures DColumns(0x3C) == Entries(0x73C737BF, 0xBF73C737, 0x37BF73C7, 0xC737BF73)
    ensures DColumns(0x83) == Entries(0x53F7CDEA, 0xEA53F7CD, 0xCDEA53F7, 0xF7CDEA53)
    ensures DColumns(0x53) == Entries(0x5FFDAA5B, 0x5B5FFDAA, 0xAA5B5FFD, 0xFDAA5B5F)
    ensures DColumns(0x99) == Entries(0xDF3D6F14, 0x14DF3D6F, 0x6F14DF3D, 0x3D6F14DF)
    ensures DColumns(0x61) == Entries(0x7844DB86, 0x867844DB, 0xDB867844, 0x44DB8678)
  {
  }

  lemma Sbox14Values()
    ensures Product(0xE0, Unaffine(0xE1)) == 1 && Product(0xE1, Unaffine(0xF8)) == 1
    ensures Product(0xE2, Unaffine(0x98)) == 1 && Product(0xE3, Unaffine(0x11)) == 1
    ensures Product(0xE4, Unaffine(0x69)) == 1 && Product(0xE5, Unaffine(0xD9)) == 1
    ensures Product(0xE6, Unaffine(0x8E)) == 1 && Product(0xE7, Unaffine(0x94)) == 1
    ensures Product(0xE8, Unaffine(0x9B)) == 1 && Product(0xE9, Unaffine(0x1E)) == 1
    ensures Product(0xEA, Unaffine(0x87)) == 1 && Product(0xEB, Unaffine(0xE9)) == 1
    ensures Product(0xEC, Unaffine(0xCE)) == 1 && Product(0xED, Unaffine(0x55)) == 1
    ensures Product(0xEE, Unaffine(0x28)) == 1 && Product(0xEF, Unaffine(0xDF)) == 1
  {
  }

  lemma Sbox14Inverse()
    ensures Sboxinv(0xE1) == 0xE0 && Sboxinv(0xF8) == 0xE1 && Sboxinv(0x98) == 0xE2 && Sboxinv(0x11) == 0xE3
    ensures Sboxinv(0x69) == 0xE4 && Sboxinv(0xD9) == 0xE5 && Sboxinv(0x8E) == 0xE6 && Sboxinv(0x94) == 0xE7
    ensures Sboxinv(0x9B) == 0xE8 && Sboxinv(0x1E) == 0xE9 && Sboxinv(0x87) == 0xEA && Sboxinv(0xE9) == 0xEB
    ensures Sboxinv(0xCE) == 0xEC && Sboxinv(0x55) == 0xED && Sboxinv(0x28) == 0xEE && Sboxinv(0xDF) == 0xEF
  {
  }

  lemma Row14E(b: bv8)
    requires 0xE0 <= b < 0xF0
    ensures E14(b) == EColumns(Sbox14(b))
  {
    hide EColumns;
    E14Values();
  }

  lemma Row14D(b: bv8)
    requires 0xE0 <= b < 0xF0
    ensures D14(b) == DColumns(Sboxinv14(b))
  {
    hide DColumns;
    D14First();
    D14Second();
  }

  lemma Row14Boxes(b: bv8)
    requires 0xE0 <= b < 0xF0
    ensures Sboxinv(Sbox14(b)) == b
    ensures if b == 0 then Unaffine(Sbox14(b)) == 0 else Product(b, Unaffine(Sbox14(b))) == 1
  {
    hide Product, Unaffine, Sboxinv;
    Sbox14Values();
    Sbox14Inverse();
  }

  lemma E15Values()
    ensures EColumns(0x8C) == Entries(0x038C8C8F, 0x8F038C8C, 0x8C8F038C, 0x8C8C8F03)
    ensures EColumns(0xA1) == Entries(0x59A1A1F8, 0xF859A1A1, 0xA1F859A1, 0xA1A1F859)
    ensures EColumns(0x89) == Entries(0x09898980, 0x80098989, 0x89800989, 0x89898009)
    ensures EColumns(0x0D) == Entries(0x1A0D0D17, 0x171A0D0D, 0x0D171A0D, 0x0D0D171A)
    ensures EColumns(0xBF) == Entries(0x65BFBFDA, 0xDA65BFBF, 0xBFDA65BF, 0xBFBFDA65)
    ensures EColumns(0xE6) == Entries(0xD7E6E631, 0x31D7E6E6, 0xE631D7E6, 0xE6E631D7)
    ensures EColumns(0x42) == Entries(0x844242C6, 0xC6844242, 0x42C68442, 0x4242C684)
    ensures EColumns(0x68) == Entries(0xD06868B8, 0xB8D06868, 0x68B8D068, 0x6868B8D0)
    ensures EColumns(0x41) == Entries(0x824141C3, 0xC3824141, 0x41C38241, 0x4141C382)
    ensures EColumns(0x99) == Entries(0x299999B0, 0xB0299999, 0x99B02999, 0x9999B029)
    ensures EColumns(0x2D) == Entries(0x5A2D2D77, 0x775A2D2D, 0x2D775A2D, 0x2D2D775A)
    ensures EColumns(0x0F) == Entries(0x1E0F0F11, 0x111E0F0F, 0x0F111E0F, 0x0F0F111E)
    ensures EColumns(0xB0) == Entries(0x7BB0B0CB, 0xCB7BB0B0, 0xB0CB7BB0, 0xB0B0CB7B)
    ensures EColumns(0x54) == Entries(0xA85454FC, 0xFCA85454, 0x54FCA854, 0x5454FCA8)
    ensures EColumns(0xBB) == Entries(0x6DBBBBD6, 0xD66DBBBB, 0xBBD66DBB, 0xBBBBD66D)
    ensures EColumns(0x16) == Entries(0x2C16163A, 0x3A2C1616, 0x163A2C16, 0x16163A2C)
  {
  }

  lemma D15First()
    ensures DColumns(0x17) == Entries(0xCAAFF381, 0x81CAAFF3, 0xF381CAAF, 0xAFF381CA)
    ensures DColumns(0x2B) == Entries(0xB968C43E, 0x3EB968C4, 0xC43EB968, 0x68C43EB9)
    ensures DColumns(0x04) == Entries(0x3824342C, 0x2C382434, 0x342C3824, 0x24342C38)
    ensures DColumns(0x7E) == Entries(0xC2A3405F, 0x5FC2A340, 0x405FC2A3, 0xA3405FC2)
    ensures DColumns(0xBA) == Entries(0x161DC372, 0x72161DC3, 0xC372161D, 0x1DC37216)
    ensures DColumns(0x77) == Entries(0xBCE2250C, 0x0CBCE225, 0x250CBCE2, 0xE2250CBC)
    ensures DColumns(0xD6) == Entries(0x283C498B, 0x8B283C49, 0x498B283C, 0x3C498B28)
    ensures DColumns(0x26) == Entries(0xFF0D9541, 0x41FF0D95, 0x9541FF0D, 0x0D9541FF)
  {
  }

  lemma D15Second()
    ensures DColumns(0xE1) == Entries(0x39A80171, 0x7139A801, 0x017139A8, 0xA8017139)
    ensures DColumns(0x69) == Entries(0x080CB3DE, 0xDE080CB3, 0xB3DE080C, 0x0CB3DE08)
    ensures DColumns(0x14) == Entries(0xD8B4E49C, 0x9CD8B4E4, 0xE49CD8B4, 0xB4E49CD8)
    ensures DColumns(0x63) == Entries(0x6456C190, 0x906456C1, 0xC1906456, 0x56C19064)
    ensures DColumns(0x55) == Entries(0x7BCB8461, 0x617BCB84, 0x84617BCB, 0xCB84617B)
    ensures DColumns(0x21) == Entries(0xD532B670, 0x70D532B6, 0xB670D532, 0x32B670D5)
    ensures DColumns(0x0C) == Entries(0x486C5C74, 0x74486C5C, 0x5C74486C, 0x6C5C7448)
    ensures DColumns(0x7D) == Entries(0xD0B85742, 0x42D0B857, 0x5742D0B8, 0xB85742D0)
  {
  }

  lemma Sbox15Values()
    ensures Product(0xF0, Unaffine(0x8C)) == 1 && Product(0xF1, Unaffine(0xA1)) == 1
    ensures Product(0xF2, Unaffine(0x89)) == 1 && Product(0xF3, Unaffine(0x0D)) == 1
    ensures Product(0xF4, Unaffine(0xBF)) == 1 && Product(0xF5, Unaffine(0xE6)) == 1
    ensures Product(0xF6, Unaffine(0x42)) == 1 && Product(0xF7, Unaffine(0x68)) == 1
    ensures Product(0xF8, Unaffine(0x41)) == 1 && Product(0xF9, Unaffine(0x99)) == 1
    ensures Product(0xFA, Unaffine(0x2D)) == 1 && Product(0xFB, Unaffine(0x0F)) == 1
    ensures Product(0xFC, Unaffine(0xB0)) == 1 && Product(0xFD, Unaffine(0x54)) == 1
    ensures Product(0xFE, Unaffine(0xBB)) == 1 && Product(0xFF, Unaffine(0x16)) == 1
  {
  }

  lemma Sbox15Inverse()
    ensures Sboxinv(0x8C) == 0xF0 && Sboxinv(0xA1) == 0xF1 && Sboxinv(0x89) == 0xF2 && Sboxinv(0x0D) == 0xF3
    ensures Sboxinv(0xBF) == 0xF4 && Sboxinv(0xE6) == 0xF5 && Sboxinv(0x42) == 0xF6 && Sboxinv(0x68) == 0xF7
    ensures Sboxinv(0x41) == 0xF8 && Sboxinv(0x99) == 0xF9 && Sboxinv(0x2D) == 0xFA && Sboxinv(0x0F) == 0xFB
    ensures Sboxinv(0xB0) == 0xFC && Sboxinv(0x54) == 0xFD && Sboxinv(0xBB) == 0xFE && Sboxinv(0x16) == 0xFF
  {
  }

  lemma Row15E(b: bv8)
    requires 0xF0 <= b
    ensures E15(b) == EColumns(Sbox15(b))
  {
    hide EColumns;
    E15Values();
  }

  lemma Row15D(b: bv8)
    requires 0xF0 <= b
    ensures D15(b) == DColumns(Sboxinv15(b))
  {
    hide DColumns;
    D15First();
    D15Second();
  }

  lemma Row15Boxes(b: bv8)
    requires 0xF0 <= b
    ensures Sboxinv(Sbox15(b)) == b
    ensures if b == 0 then Unaffine(Sbox15(b)) == 0 else Product(b, Unaffine(Sbox15(b))) == 1
  {
    hide Product, Unaffine, Sboxinv;
    Sbox15Values();
    Sbox15Inverse();
  }

  /** Every literal of the ten tables: the columns of the matrices, the two S-boxes inverse, and the S-box as defined. */
  lemma TablesRight(b: bv8)
    ensures E(b) == EColumns(Sbox(b)) && D(b) == DColumns(Sboxinv(b)) && Sboxinv(Sbox(b)) == b
    ensures var u := Unaffine(Sbox(b)); Sbox(b) == Affine(u) && (if b == 0 then u == 0 else Product(b, u) == 1)
  {
    hide EColumns, DColumns, Product, Unaffine, Affine, Sboxinv;
    hide Sbox0, Sbox1, Sbox2, Sbox3, Sbox4, Sbox5, Sbox6, Sbox7, Sbox8, Sbox9, Sbox10, Sbox11, Sbox12, Sbox13, Sbox14, Sbox15;
    hide Sboxinv0, Sboxinv1, Sboxinv2, Sboxinv3, Sboxinv4, Sboxinv5, Sboxinv6, Sboxinv7, Sboxinv8, Sboxinv9, Sboxinv10, Sboxinv11, Sboxinv12, Sboxinv13, Sboxinv14, Sboxinv15;
    hide E0, E1, E2, E3, E4, E5, E6, E7, E8, E9, E10, E11, E12, E13, E14, E15;
    hide D0, D1, D2, D3, D4, D5, D6, D7, D8, D9, D10, D11, D12, D13, D14, D15;
    AffineUnaffine(Sbox(b));
    SboxinvRow(b);
    if b < 0x10 {
      Row0E(b);
      Row0D(b);
      Row0Boxes(b);
    } else if b < 0x20 {
      Row1E(b);
      Row1D(b);
      Row1Boxes(b);
    } else if b < 0x30 {
      Row2E(b);
      Row2D(b);
      Row2Boxes(b);
    } else if b < 0x40 {
      Row3E(b);
      Row3D(b);
      Row3Boxes(b);
    } else if b < 0x50 {
      Row4E(b);
      Row4D(b);
      Row4Boxes(b);
    } else if b < 0x60 {
      Row5E(b);
      Row5D(b);
      Row5Boxes(b);
    } else if b < 0x70 {
      Row6E(b);
      Row6D(b);
      Row6Boxes(b);
    } else if b < 0x80 {
      Row7E(b);
      Row7D(b);
      Row7Boxes(b);
    } else if b < 0x90 {
      Row8E(b);
      Row8D(b);
      Row8Boxes(b);
    } else if b < 0xA0 {
      Row9E(b);
      Row9D(b);
      Row9Boxes(b);
    } else if b < 0xB0 {
      Row10E(b);
      Row10D(b);
      Row10Boxes(b);
    } else if b < 0xC0 {
      Row11E(b);
      Row11D(b);
      Row11Boxes(b);
    } else if b < 0xD0 {
      Row12E(b);
      Row12D(b);
      Row12Boxes(b);
    } else if b < 0xE0 {
      Row13E(b);
      Row13D(b);
      Row13Boxes(b);
    } else if b < 0xF0 {
      Row14E(b);
      Row14D(b);
      Row14Boxes(b);
    } else {
      Row15E(b);
      Row15D(b);
      Row15Boxes(b);
    }
  }

  lemma SboxinvRow(b: bv8)
    ensures Sboxinv(b) == 
              if b < 0x10 then Sboxinv0(b)
              else if b < 0x20 then Sboxinv1(b)
              else if b < 0x30 then Sboxinv2(b)
              else if b < 0x40 then Sboxinv3(b)
              else if b < 0x50 then Sboxinv4(b)
              else if b < 0x60 then Sboxinv5(b)
              else if b < 0x70 then Sboxinv6(b)
              else if b < 0x80 then Sboxinv7(b)
              else if b < 0x90 then Sboxinv8(b)
              else if b < 0xA0 then Sboxinv9(b)
              else if b < 0xB0 then Sboxinv10(b)
              else if b < 0xC0 then Sboxinv11(b)
              else if b < 0xD0 then Sboxinv12(b)
              else if b < 0xE0 then Sboxinv13(b)
              else if b < 0xF0 then Sboxinv14(b)
              else Sboxinv15(b)
  {
    hide Sboxinv0, Sboxinv1, Sboxinv2, Sboxinv3, Sboxinv4, Sboxinv5, Sboxinv6, Sboxinv7, Sboxinv8, Sboxinv9, Sboxinv10, Sboxinv11, Sboxinv12, Sboxinv13, Sboxinv14, Sboxinv15;
  }

  // The tables as the cipher uses them.

  const AES: Boxes := Boxes(
    (x: Byte) => At(Sbox(Index(x))), (x: Byte) => At(Sboxinv(Index(x))),
    (x: Byte) => Unpack(E(Index(x)).t0), (x: Byte) => Unpack(E(Index(x)).t1),
    (x: Byte) => Unpack(E(Index(x)).t2), (x: Byte) => Unpack(E(Index(x)).t3),
    (x: Byte) => Unpack(D(Index(x)).t0), (x: Byte) => Unpack(D(Index(x)).t1),
    (x: Byte) => Unpack(D(Index(x)).t2), (x: Byte) => Unpack(D(Index(x)).t3))

  lemma EColumnsAre(s: bv8)
    ensures var e, x := EColumns(s), At(s);
            && Unpack(e.t0) == Mix0(x) && Unpack(e.t1) == Mix1(x) && Unpack(e.t2) == Mix2(x) && Unpack(e.t3) == Mix3(x)
  {
    hide At, Twice, Times3, Pack, Unpack, Mul2, Mul3;
    var t, u := Twice(s), Times3(s);
    TwiceIs(s);
    TimesAre(s);
    UnpackPack(t, s, s, u);
    UnpackPack(u, t, s, s);
    UnpackPack(s, u, t, s);
    UnpackPack(s, s, u, t);
  }

  lemma DColumnsAre(s: bv8)
    ensures var e, x := DColumns(s), At(s);
            && Unpack(e.t0) == InvMix0(x) && Unpack(e.t1) == InvMix1(x)
            && Unpack(e.t2) == InvMix2(x) && Unpack(e.t3) == InvMix3(x)
  {
    hide At, Times9, Times11, Times13, Times14, Pack, Unpack, Mul9, Mul11, Mul13, Mul14;
    var a, b, c, d := Times14(s), Times9(s), Times13(s), Times11(s);
    TimesAre(s);
    UnpackPack(a, b, c, d);
    UnpackPack(d, a, b, c);
    UnpackPack(c, d, a, b);
    UnpackPack(b, c, d, a);
  }

  lemma AesAt(x: Byte)
    ensures AES.sboxinv(AES.sbox(x)) == x
    ensures AES.e0(x) == Mix0(AES.sbox(x)) && AES.e1(x) == Mix1(AES.sbox(x))
    ensures AES.e2(x) == Mix2(AES.sbox(x)) && AES.e3(x) == Mix3(AES.sbox(x))
    ensures AES.d0(x) == InvMix0(AES.sboxinv(x)) && AES.d1(x) == InvMix1(AES.sboxinv(x))
    ensures AES.d2(x) == InvMix2(AES.sboxinv(x)) && AES.d3(x) == InvMix3(AES.sboxinv(x))
  {
    hide At, Index, Unpack, Sbox, Sboxinv, E, D, EColumns, DColumns, Mix0, Mix1, Mix2, Mix3, InvMix0, InvMix1, InvMix2, InvMix3,
         Product, Affine, Unaffine;
    var b := Index(x);
    TablesRight(b);
    AtIndex(x);
    IndexAt(Sbox(b));
    EColumnsAre(Sbox(b));
    DColumnsAre(Sboxinv(b));
  }

  /** The two S-boxes are inverse, and the other tables are the columns of the matrices over them. */
  lemma AllRight()
    ensures AreInverse(AES) && AreTables(AES)
  {
    hide AES, Mix0, Mix1, Mix2, Mix3, InvMix0, InvMix1, InvMix2, InvMix3;
    forall x: Byte
      ensures AES.sboxinv(AES.sbox(x)) == x
      ensures AES.e0(x) == Mix0(AES.sbox(x)) && AES.e1(x) == Mix1(AES.sbox(x))
      ensures AES.e2(x) == Mix2(AES.sbox(x)) && AES.e3(x) == Mix3(AES.sbox(x))
      ensures AES.d0(x) == InvMix0(AES.sboxinv(x)) && AES.d1(x) == InvMix1(AES.sboxinv(x))
      ensures AES.d2(x) == InvMix2(AES.sboxinv(x)) && AES.d3(x) == InvMix3(AES.sboxinv(x))
    {
      AesAt(x);
    }
  }
}
