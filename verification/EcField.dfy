/** The field operations of sshecc.c, on residues of which the proof remembers the integers they stand for. */
module EcField {
  import opened Arith
  import opened Machine
  import opened Modular
  import opened NumberTheory

  /** The residue r stands for the integer x. */
  ghost predicate Is(r: nat, x: int, p: nat) {
    r < p && Cong(r, x, p)
  }

  /** Every integer that is not divisible by p has an inverse, which is what a prime p is for here. */
  ghost predicate IsField(p: nat) {
    p > 3 && forall x: int :: !Cong(x, 0, p) ==> Unit(x, p)
  }

  lemma IsSelf(r: nat, p: nat)
    requires r < p
    ensures Is(r, r, p)
  {
    CongRefl(r, p);
  }

  lemma IsCong(r: nat, x: int, y: int, p: nat)
    requires Is(r, x, p) && Cong(x, y, p)
    ensures Is(r, y, p)
  {
    CongTrans(r, x, y, p);
  }

  /** A residue is determined by what it stands for. */
  lemma IsUnique(r: nat, s: nat, x: int, p: nat)
    requires Is(r, x, p) && Is(s, x, p)
    ensures r == s
  {
    CongSym(s, x, p);
    CongTrans(r, x, s, p);
    CongUnique(r, s, p);
  }

  lemma IsMod(x: int, p: nat)
    requires p > 0
    ensures Is(x % p, x, p)
  {
    CongMod(x, p);
  }

  function ModMul(a: nat, b: nat, p: nat): (r: nat)
    requires p > 0
    ensures Is(r, Mul(a, b), p)
  {
    IsMod(a * b, p);
    MulNonNeg(a, b);
    (a * b) % p
  }

  method Multiply(a: nat, b: nat, p: nat, ghost x: int, ghost y: int) returns (r: nat)
    requires Is(a, x, p) && Is(b, y, p)
    ensures Is(r, Mul(x, y), p)
  {
    r := ModMul(a, b, p);
    CongMul(a, x, b, y, p);
    IsCong(r, Mul(a, b), Mul(x, y), p);
  }

  /** ecf_square. */
  method Square(a: nat, p: nat, ghost x: int) returns (r: nat)
    requires Is(a, x, p)
    ensures Is(r, Mul(x, x), p)
  {
    r := Multiply(a, a, p, x, x);
  }

  /** modsub. */
  method Subtract(a: nat, b: nat, p: nat, ghost x: int, ghost y: int) returns (r: nat)
    requires p > 0 && Cong(a, x, p) && Cong(b, y, p)
    ensures Is(r, x - y, p)
  {
    var a1 := if a >= p then a % p else a;
    var b1 := if b >= p then b % p else b;
    Reduced(a, a1, x, p);
    Reduced(b, b1, y, p);
    CongSub(a1, x, b1, y, p);
    if a1 >= b1 {
      r := a1 - b1;
    } else {
      r := (p - b1) + a1;
      CongBy(r, a1 - b1, p, 1);
      CongTrans(r, a1 - b1, x - y, p);
    }
  }

  lemma Reduced(a: nat, a1: nat, x: int, p: nat)
    requires p > 0 && Cong(a, x, p) && a1 == if a >= p then a % p else a
    ensures Is(a1, x, p)
  {
    CongMod(a, p);
    CongRefl(a, p);
    CongTrans(a1, a, x, p);
  }

  /** ecf_add. */
  method Add(a: nat, b: nat, p: nat, ghost x: int, ghost y: int) returns (r: nat)
    requires p > 0 && Cong(a, x, p) && Cong(b, y, p)
    ensures Is(r, x + y, p)
  {
    CongMod(a, p);
    CongMod(b, p);
    CongTrans(a % p, a, x, p);
    CongTrans(b % p, b, y, p);
    CongAdd(a % p, x, b % p, y, p);
    IsMod(a % p + b % p, p);
    r := (a % p + b % p) % p;
    IsCong(r, a % p + b % p, x + y, p);
  }

  /** ecf_double: one conditional subtraction. */
  method Double(a: nat, p: nat, ghost x: int) returns (r: nat)
    requires Is(a, x, p)
    ensures Is(r, 2 * x, p)
  {
    CongAdd(a, x, a, x, p);
    r := 2 * a;
    if r >= p {
      r := r - p;
      CongBy(r, 2 * a, p, -1);
      CongTrans(r, 2 * a, 2 * x, p);
    }
  }

  /** ecf_treble: subtraction until it fits. */
  method Treble(a: nat, p: nat, ghost x: int) returns (r: nat)
    requires Is(a, x, p)
    ensures Is(r, 3 * x, p)
  {
    CongAdd(a, x, a, x, p);
    CongAdd(a + a, x + x, a, x, p);
    r := 2 * a + a;
    while r >= p
      invariant Cong(r, 3 * x, p)
    {
      CongBy(r - p, r, p, -1);
      CongTrans(r - p, r, 3 * x, p);
      r := r - p;
    }
  }

  /** b is a residue with v * b = 1. */
  predicate Inverts(v: nat, b: nat, p: nat)
    requires p > 0
  {
    b < p && (v * b) % p == 1
  }

  /** modinv behind its assertion that the number is not zero: the inverse when there is one. */
  function ModInverse(v: nat, p: nat): (r: Option<nat>)
    requires p > 1 && v > 0
    ensures r.Some? <==> Unit(v, p)
    ensures r.Some? ==> r.value < p && Cong(Mul(v, r.value), 1, p)
  {
    UnitIff(v, p);
    InverseUnique(v, p);
    if exists b: nat | b < p :: Inverts(v, b, p) then
      var b: nat :| b < p && Inverts(v, b, p);
      InvertsIff(v, b, p);
      Some(b)
    else None
  }

  lemma InvertsIff(v: nat, b: nat, p: nat)
    requires p > 1
    ensures Inverts(v, b, p) <==> b < p && Cong(Mul(v, b), 1, p)
  {
    DivModUnique(1, p, 0, 1);
    CongIffMod(v * b, 1, p);
  }

  lemma UnitIff(v: nat, p: nat)
    requires p > 1
    ensures Unit(v, p) <==> exists b: nat | b < p :: Inverts(v, b, p)
  {
    hide *;
    if exists b: nat | b < p :: Inverts(v, b, p) {
      var b: nat :| b < p && Inverts(v, b, p);
      InvertsIff(v, b, p);
      UnitBy(v, b, p);
    }
    if Unit(v, p) {
      ResidueInverse(v, p);
    }
  }

  lemma ResidueInverse(v: nat, p: nat)
    requires p > 1 && Unit(v, p)
    ensures exists b: nat | b < p :: Inverts(v, b, p)
  {
    hide Inverts, Mul, Cong;
    var y: int :| Cong(Mul(v, y), 1, p);
    CongMod(y, p);
    var b: nat := y % p;
    CongScale(b, y, v, p);
    CongTrans(Mul(v, b), Mul(v, y), 1, p);
    InvertsIff(v, b, p);
    assert b < p && Inverts(v, b, p);
  }

  lemma InverseUnique(v: nat, p: nat)
    requires p > 1
    ensures forall b: nat, c: nat :: Inverts(v, b, p) && Inverts(v, c, p) ==> b == c
  {
    hide *;
    forall b: nat, c: nat | Inverts(v, b, p) && Inverts(v, c, p) ensures b == c {
      InvertsIff(v, b, p);
      InvertsIff(v, c, p);
      CongSym(Mul(v, c), 1, p);
      CongTrans(Mul(v, b), 1, Mul(v, c), p);
      MulComm(v, b);
      MulComm(v, c);
      CongCancel(b, c, v, b, p);
      CongUnique(b, c, p);
    }
  }
}
