// The S-boxes of ARIA by their formulas: affine images of the inverse and of its eighth power (the
// 247th power) over GF(2^8), whose elements are polynomials modulo x^8 + x^4 + x^3 + x + 1.
module AriaField {
  import opened AriaTables

  function Double(a: bv8): bv8 {
    (a << 1) ^ (if a & 0x80 == 0 then 0 else 0x1b)
  }

  // The summand for bit k of a factor.
  function Selected(b: bv8, k: bv8, a: bv8): bv8
    requires k < 8
  {
    if (b >> k) & 1 == 1 then a else 0
  }

  function Sum8(b: bv8, a0: bv8, a1: bv8, a2: bv8, a3: bv8, a4: bv8, a5: bv8, a6: bv8, a7: bv8): bv8 {
    Selected(b, 0, a0) ^ Selected(b, 1, a1) ^ Selected(b, 2, a2) ^ Selected(b, 3, a3)
    ^ Selected(b, 4, a4) ^ Selected(b, 5, a5) ^ Selected(b, 6, a6) ^ Selected(b, 7, a7)
  }

  function Product(a: bv8, b: bv8): bv8 {
    var a1 := Double(a);
    var a2 := Double(a1);
    var a3 := Double(a2);
    var a4 := Double(a3);
    var a5 := Double(a4);
    var a6 := Double(a5);
    Sum8(b, a, a1, a2, a3, a4, a5, a6, Double(a6))
  }

  function Square(a: bv8): bv8 {
    Product(a, a)
  }

  // Zero counts as its own inverse.
  predicate IsInverse(x: bv8, z: bv8) {
    if x == 0 then z == 0 else Product(z, x) == 1
  }

  // The two matrices, by their columns.
  function Affine0(z: bv8): bv8 {
    Sum8(z, 0x1f, 0x3e, 0x7c, 0xf8, 0xf1, 0xe3, 0xc7, 0x8f) ^ 0x63
  }

  function Affine1(z: bv8): bv8 {
    Sum8(z, 0xac, 0xc5, 0x12, 0xcf, 0x5b, 0x5f, 0x85, 0xee) ^ 0xe2
  }

  // The inverse of the first one.
  function Undone0(y: bv8): bv8 {
    Sum8(y ^ 0x63, 0x4a, 0x94, 0x29, 0x52, 0xa4, 0x49, 0x92, 0x25)
  }

  lemma Box0Undone(x: bv8)
    ensures IsInverse(x, Undone0(Box0(x)))
  {
  }

  lemma Affine0Undone(y: bv8)
    ensures Affine0(Undone0(y)) == y
  {
  }

  // The second table is an affine image of the first one.
  function Box0To1(y: bv8): bv8 {
    Sum8(y, 0x85, 0xbf, 0x88, 0x20, 0x3e, 0xd4, 0x84, 0xcd) ^ 0x88
  }

  lemma Box1FromBox0(x: bv8)
    ensures Box1(x) == Box0To1(Box0(x))
  {
  }

  lemma SquareIsLinear(a: bv8)
    ensures Square(a) == Sum8(a, 0x01, 0x04, 0x10, 0x40, 0x1b, 0x6c, 0xab, 0x9a)
  {
  }

  lemma Power4IsLinear(a: bv8)
    ensures Square(Square(a)) == Sum8(a, 0x01, 0x10, 0x1b, 0xab, 0x5e, 0x97, 0xb3, 0xc5)
  {
    hide Square;
    SquareIsLinear(a);
    SquareIsLinear(Square(a));
  }

  lemma Power8IsLinear(a: bv8)
    ensures Square(Square(Square(a))) == Sum8(a, 0x01, 0x1b, 0x5e, 0xb3, 0xe4, 0x94, 0xe8, 0x20)
  {
    hide Square, Sum8;
    Power4IsLinear(a);
    SquareIsLinear(Square(Square(a)));
    SquareOfPower4(a);
  }

  lemma SquareOfPower4(a: bv8)
    ensures Sum8(Sum8(a, 0x01, 0x10, 0x1b, 0xab, 0x5e, 0x97, 0xb3, 0xc5), 0x01, 0x04, 0x10, 0x40, 0x1b, 0x6c, 0xab, 0x9a)
      == Sum8(a, 0x01, 0x1b, 0x5e, 0xb3, 0xe4, 0x94, 0xe8, 0x20)
  {
  }

  lemma Power8IsAffine(y: bv8)
    ensures Affine1(Square(Square(Square(Undone0(y))))) == Box0To1(y)
  {
    hide Square;
    Power8IsLinear(Undone0(y));
  }

  // For every x, the inverse gives the entries of both tables.
  lemma BoxFormulas(x: bv8) returns (z: bv8)
    ensures IsInverse(x, z) && Box0(x) == Affine0(z) && Box1(x) == Affine1(Square(Square(Square(z))))
  {
    hide *;
    z := Undone0(Box0(x));
    Box0Undone(x);
    Affine0Undone(Box0(x));
    Box1FromBox0(x);
    Power8IsAffine(Box0(x));
  }
}
