// The diffusion layer of ARIA (section 2.4.3 of RFC 5794) as a 16 x 16 matrix over GF(2).
//
// The layer is its own inverse and linear. Both facts are proved on the matrix: the matrix
// squares to the identity, and a sum of input bytes through the layer is the sum through
// the squared matrix. The solver never sees a chain of 49 exclusive ors.
module AriaDiffusion {

  import opened Blocks

  // Input byte i takes part in output byte j.
  predicate Row(j: bv4, i: bv4) {
    (if j < 8 then
     (if j < 4 then
      (if j < 2 then
       (if j < 1 then
        (i == 3 || i == 4 || i == 6 || i == 8 || i == 9 || i == 13 || i == 14)
       else
        (i == 2 || i == 5 || i == 7 || i == 8 || i == 9 || i == 12 || i == 15))
      else
       (if j < 3 then
        (i == 1 || i == 4 || i == 6 || i == 10 || i == 11 || i == 12 || i == 15)
       else
        (i == 0 || i == 5 || i == 7 || i == 10 || i == 11 || i == 13 || i == 14)))
     else
      (if j < 6 then
       (if j < 5 then
        (i == 0 || i == 2 || i == 5 || i == 8 || i == 11 || i == 14 || i == 15)
       else
        (i == 1 || i == 3 || i == 4 || i == 9 || i == 10 || i == 14 || i == 15))
      else
       (if j < 7 then
        (i == 0 || i == 2 || i == 7 || i == 9 || i == 10 || i == 12 || i == 13)
       else
        (i == 1 || i == 3 || i == 6 || i == 8 || i == 11 || i == 12 || i == 13))))
    else
     (if j < 12 then
      (if j < 10 then
       (if j < 9 then
        (i == 0 || i == 1 || i == 4 || i == 7 || i == 10 || i == 13 || i == 15)
       else
        (i == 0 || i == 1 || i == 5 || i == 6 || i == 11 || i == 12 || i == 14))
      else
       (if j < 11 then
        (i == 2 || i == 3 || i == 5 || i == 6 || i == 8 || i == 13 || i == 15)
       else
        (i == 2 || i == 3 || i == 4 || i == 7 || i == 9 || i == 12 || i == 14)))
     else
      (if j < 14 then
       (if j < 13 then
        (i == 1 || i == 2 || i == 6 || i == 7 || i == 9 || i == 11 || i == 12)
       else
        (i == 0 || i == 3 || i == 6 || i == 7 || i == 8 || i == 10 || i == 13))
      else
       (if j < 15 then
        (i == 0 || i == 3 || i == 4 || i == 5 || i == 9 || i == 11 || i == 14)
       else
        (i == 1 || i == 2 || i == 4 || i == 5 || i == 8 || i == 10 || i == 15)))))
  }

  function Nibble(n: nat): bv4 {
    if n == 0 then 0 else if n == 1 then 1 else if n == 2 then 2 else if n == 3 then 3 else
    if n == 4 then 4 else if n == 5 then 5 else if n == 6 then 6 else if n == 7 then 7 else
    if n == 8 then 8 else if n == 9 then 9 else if n == 10 then 10 else if n == 11 then 11 else
    if n == 12 then 12 else if n == 13 then 13 else if n == 14 then 14 else 15
  }

  lemma NibbleInjective(i: nat, j: nat)
    requires i < 16 && j < 16
    ensures (Nibble(i) == Nibble(j)) == (i == j)
  {
  }

  // A selection of input bytes.
  type Mask = m: seq<bool> | |m| == 16 witness seq(16, _ => false)

  function RowMask(j: nat): (m: Mask)
    ensures forall i :: 0 <= i < 16 ==> m[i] == Row(Nibble(j), Nibble(i))
  {
    seq(16, i requires 0 <= i < 16 => Row(Nibble(j), Nibble(i)))
  }

  // The exclusive or of the selected bytes among the first n.
  function Sum(x: Block, m: Mask, n: nat): bv8
    requires n <= 16
    decreases n
  {
    if n == 0 then 0 else if m[n - 1] then Add(Sum(x, m, n - 1), x.at[n - 1]) else Sum(x, m, n - 1)
  }

  function Total(x: Block, m: Mask): bv8 {
    Sum(x, m, |m|)
  }

  function Diffuse(x: Block): Block {
    Bytes(seq(16, j requires 0 <= j < 16 => Total(x, RowMask(j))))
  }

  // ---------------------------------------------------------------------------------------
  // Algebra of sums

  lemma {:induction false} SumXor(x: Block, a: Mask, b: Mask, c: Mask, n: nat)
    requires n <= 16
    requires forall i :: 0 <= i < 16 ==> c[i] == (a[i] != b[i])
    ensures Sum(x, c, n) == Add(Sum(x, a, n), Sum(x, b, n))
  {
    hide Add;
    AddZero(0);
    if n > 0 {
      SumXor(x, a, b, c, n - 1);
      AddLaws(Sum(x, a, n - 1), Sum(x, b, n - 1), x.at[n - 1], 0);
    }
  }

  lemma {:induction false} SumOne(x: Block, m: Mask, j: nat, n: nat)
    requires j < 16 && n <= 16
    requires forall i :: 0 <= i < 16 ==> m[i] == (i == j)
    ensures Sum(x, m, n) == if j < n then x.at[j] else 0
  {
    hide Add;
    if n > 0 {
      SumOne(x, m, j, n - 1);
      AddZero(x.at[n - 1]);
    }
  }

  lemma {:induction false} SumSkip(x: Block, m: Mask, lo: nat, hi: nat)
    requires lo <= hi <= 16
    requires forall i :: lo <= i < hi ==> !m[i]
    ensures Sum(x, m, hi) == Sum(x, m, lo)
  {
    hide Add;
    if lo < hi {
      SumSkip(x, m, lo, hi - 1);
    }
  }

  lemma {:induction false} SumLinear(a: Block, b: Block, m: Mask, n: nat)
    requires n <= 16
    ensures Sum(Xor(a, b), m, n) == Add(Sum(a, m, n), Sum(b, m, n))
  {
    hide Add;
    AddZero(0);
    if n > 0 {
      SumLinear(a, b, m, n - 1);
      AddLaws(Sum(a, m, n - 1), Sum(b, m, n - 1), a.at[n - 1], b.at[n - 1]);
    }
  }

  // Four bytes added together: the shape of every line of ARIA_core.c:110-129.
  function Mix(a: bv8, b: bv8, c: bv8, d: bv8): bv8 {
    Add(Add(Add(a, b), c), d)
  }

  lemma {:induction false} SumRemove(x: Block, m: Mask, p: nat, n: nat)
    requires p < 16 && n <= 16 && m[p]
    ensures Sum(x, m, n) == if p < n then Add(x.at[p], Sum(x, m[p := false], n)) else Sum(x, m[p := false], n)
  {
    hide Add;
    if n > 0 {
      SumRemove(x, m, p, n - 1);
      var s := Sum(x, m[p := false], n - 1);
      AddLaws(x.at[p], s, x.at[n - 1], 0);
      AddIsCommutative(x.at[p], s);
      assert Sum(x, m[p := false], n) == if m[n - 1] && p != n - 1 then Add(s, x.at[n - 1]) else s;
    }
  }

  lemma TotalRemove(x: Block, m: Mask, p: nat, m': Mask)
    requires p < 16 && m[p] && m' == m[p := false]
    ensures Total(x, m) == Add(x.at[p], Total(x, m'))
  {
    SumRemove(x, m, p, |m|);
  }

  // Three bytes taken out of a sum.
  lemma TotalRemoveThree(x: Block, m: Mask, a: nat, b: nat, c: nat, m1: Mask, m2: Mask, m3: Mask)
    requires a < 16 && b < 16 && c < 16
    requires m[a] && m1 == m[a := false] && m1[b] && m2 == m1[b := false] && m2[c] && m3 == m2[c := false]
    ensures Total(x, m) == Mix(x.at[a], x.at[b], x.at[c], Total(x, m3))
  {
    TotalRemove(x, m, a, m1);
    TotalRemove(x, m1, b, m2);
    TotalRemove(x, m2, c, m3);
    MixOfThree(x, m, a, b, c, m1, m2, m3);
  }

  lemma MixOfThree(x: Block, m: Mask, a: nat, b: nat, c: nat, m1: Mask, m2: Mask, m3: Mask)
    requires a < 16 && b < 16 && c < 16
    requires Total(x, m) == Add(x.at[a], Total(x, m1)) && Total(x, m1) == Add(x.at[b], Total(x, m2))
    requires Total(x, m2) == Add(x.at[c], Total(x, m3))
    ensures Total(x, m) == Mix(x.at[a], x.at[b], x.at[c], Total(x, m3))
  {
    hide Add;
    AddLaws(x.at[a], x.at[b], Total(x, m2), 0);
    AddLaws(Add(x.at[a], x.at[b]), x.at[c], Total(x, m3), 0);
  }

  lemma SevenMembers(x: Block, m: Mask, m1: Mask, m2: Mask, m3: Mask, m4: Mask, m5: Mask, m6: Mask,
                     p: nat, q: nat, r: nat, a: nat, b: nat, c: nat, d: nat)
    requires p < 16 && q < 16 && r < 16 && a < 16 && b < 16 && c < 16 && d < 16
    requires m[p] && m1[q] && m2[r] && m3[a] && m4[b] && m5[c]
    requires m1 == m[p := false] && m2 == m1[q := false] && m3 == m2[r := false]
    requires m4 == m3[a := false] && m5 == m4[b := false] && m6 == m5[c := false]
    requires forall i :: 0 <= i < 16 ==> m6[i] == (i == d)
    ensures Total(x, m) == Mix(x.at[p], x.at[q], x.at[r], Mix(x.at[a], x.at[b], x.at[c], x.at[d]))
  {
    hide Add, Sum;
    TotalRemoveThree(x, m, p, q, r, m1, m2, m3);
    TotalRemoveThree(x, m3, a, b, c, m4, m5, m6);
    SumOne(x, m6, d, |m|);
  }

  // A mask with exactly seven members, in any order.
  lemma TotalOfSeven(x: Block, m: Mask, p: nat, q: nat, r: nat, a: nat, b: nat, c: nat, d: nat)
    requires p < 16 && q < 16 && r < 16 && a < 16 && b < 16 && c < 16 && d < 16
    requires a != b && a != c && a != d && b != c && b != d && c != d
    requires p != q && p != r && q != r
    requires p != a && p != b && p != c && p != d
    requires q != a && q != b && q != c && q != d
    requires r != a && r != b && r != c && r != d
    requires forall i :: 0 <= i < 16 ==>
      m[i] == (i == p || i == q || i == r || i == a || i == b || i == c || i == d)
    ensures Total(x, m) == Mix(x.at[p], x.at[q], x.at[r], Mix(x.at[a], x.at[b], x.at[c], x.at[d]))
  {
    var m1 := m[p := false];
    var m2 := m1[q := false];
    var m3 := m2[r := false];
    var m4 := m3[a := false];
    var m5 := m4[b := false];
    var m6 := m5[c := false];
    SevenMembers(x, m, m1, m2, m3, m4, m5, m6, p, q, r, a, b, c, d);
  }

  predicate IsOneOf(i: bv4, p: nat, q: nat, r: nat, a: nat, b: nat, c: nat, d: nat) {
    || i == Nibble(p) || i == Nibble(q) || i == Nibble(r)
    || i == Nibble(a) || i == Nibble(b) || i == Nibble(c) || i == Nibble(d)
  }

  // Output byte j, when row j of the matrix has these seven members.
  lemma OutputByte(x: Block, j: nat, p: nat, q: nat, r: nat, a: nat, b: nat, c: nat, d: nat)
    requires j < 16
    requires p < 16 && q < 16 && r < 16 && a < 16 && b < 16 && c < 16 && d < 16
    requires a != b && a != c && a != d && b != c && b != d && c != d
    requires p != q && p != r && q != r
    requires p != a && p != b && p != c && p != d
    requires q != a && q != b && q != c && q != d
    requires r != a && r != b && r != c && r != d
    requires forall i: bv4 :: Row(Nibble(j), i) == IsOneOf(i, p, q, r, a, b, c, d)
    ensures Diffuse(x).at[j] == Mix(x.at[p], x.at[q], x.at[r], Mix(x.at[a], x.at[b], x.at[c], x.at[d]))
  {
    var m := RowMask(j);
    forall i | 0 <= i < 16
      ensures m[i] == (i == p || i == q || i == r || i == a || i == b || i == c || i == d)
    {
      NibbleInjective(i, p);
      NibbleInjective(i, q);
      NibbleInjective(i, r);
      NibbleInjective(i, a);
      NibbleInjective(i, b);
      NibbleInjective(i, c);
      NibbleInjective(i, d);
    }
    TotalOfSeven(x, m, p, q, r, a, b, c, d);
  }

  // ---------------------------------------------------------------------------------------
  // The matrix squares to the identity

  predicate Parity(v: Mask, n: nat)
    requires n <= 16
  {
    n > 0 && Parity(v, n - 1) != v[n - 1]
  }

  // The intermediate bytes on the two-step paths to input i from a sum selected by m.
  function Edges(m: Mask, i: nat): (v: Mask)
    requires i < 16
  {
    seq(16, k requires 0 <= k < 16 => m[k] && RowMask(k)[i])
  }

  function PathMask(m: Mask, n: nat): (r: Mask)
    requires n <= 16
    ensures forall i :: 0 <= i < 16 ==> r[i] == Parity(Edges(m, i), n)
  {
    seq(16, i requires 0 <= i < 16 => Parity(Edges(m, i), n))
  }

  lemma ParityUnrolled(v: Mask)
    ensures Parity(v, 16) == ((((((((((((((((v[0] != v[1]) != v[2]) != v[3]) != v[4]) != v[5]) != v[6]) != v[7])
         != v[8]) != v[9]) != v[10]) != v[11]) != v[12]) != v[13]) != v[14]) != v[15]))
  {
    assert Parity(v, 1) == v[0];
    assert Parity(v, 3) == ((Parity(v, 1) != v[1]) != v[2]);
    assert Parity(v, 5) == ((Parity(v, 3) != v[3]) != v[4]);
    assert Parity(v, 7) == ((Parity(v, 5) != v[5]) != v[6]);
    assert Parity(v, 9) == ((Parity(v, 7) != v[7]) != v[8]);
    assert Parity(v, 11) == ((Parity(v, 9) != v[9]) != v[10]);
    assert Parity(v, 13) == ((Parity(v, 11) != v[11]) != v[12]);
    assert Parity(v, 15) == ((Parity(v, 13) != v[13]) != v[14]);
  }

  predicate Via(j: bv4, k: bv4, i: bv4) {
    Row(j, k) && Row(k, i)
  }

  predicate TwoSteps(j: bv4, i: bv4) {
    (((((((((((((((Via(j, 0, i) != Via(j, 1, i)) != Via(j, 2, i)) != Via(j, 3, i)) != Via(j, 4, i)) != Via(j, 5, i)) != Via(j, 6, i)) != Via(j, 7, i))
     != Via(j, 8, i)) != Via(j, 9, i)) != Via(j, 10, i)) != Via(j, 11, i)) != Via(j, 12, i)) != Via(j, 13, i)) != Via(j, 14, i)) != Via(j, 15, i))
  }

  lemma RowsSquare0(j: bv4, i: bv4)
    requires j < 4
    ensures TwoSteps(j, i) == (i == j)
  {
  }

  lemma RowsSquare1(j: bv4, i: bv4)
    requires 4 <= j < 8
    ensures TwoSteps(j, i) == (i == j)
  {
  }

  lemma RowsSquare2(j: bv4, i: bv4)
    requires 8 <= j < 12
    ensures TwoSteps(j, i) == (i == j)
  {
  }

  lemma RowsSquare3(j: bv4, i: bv4)
    requires 12 <= j
    ensures TwoSteps(j, i) == (i == j)
  {
  }

  lemma ParityIsTwoSteps(j: bv4, i: bv4, v: Mask)
    requires forall k :: 0 <= k < 16 ==> v[k] == Via(j, Nibble(k), i)
    ensures Parity(v, 16) == TwoSteps(j, i)
  {
    ParityUnrolled(v);
  }

  lemma RowsSquareToIdentity(j: bv4, i: bv4, v: Mask)
    requires forall k :: 0 <= k < 16 ==> v[k] == Via(j, Nibble(k), i)
    ensures Parity(v, 16) == (i == j)
  {
    ParityIsTwoSteps(j, i, v);
    hide TwoSteps;
    if j < 4 {
      RowsSquare0(j, i);
    } else if j < 8 {
      RowsSquare1(j, i);
    } else if j < 12 {
      RowsSquare2(j, i);
    } else {
      RowsSquare3(j, i);
    }
  }

  lemma PathsOfRow(j: nat, i: nat)
    requires i < 16 && j < 16
    ensures Parity(Edges(RowMask(j), i), 16) == (i == j)
  {
    RowsSquareToIdentity(Nibble(j), Nibble(i), Edges(RowMask(j), i));
    NibbleInjective(i, j);
  }

  lemma PathStep(x: Block, m: Mask, n: nat)
    requires 0 < n <= 16
    ensures Total(x, PathMask(m, n))
         == if m[n - 1] then Add(Total(x, PathMask(m, n - 1)), Total(x, RowMask(n - 1))) else Total(x, PathMask(m, n - 1))
  {
    hide Add;
    if m[n - 1] {
      SumXor(x, PathMask(m, n - 1), RowMask(n - 1), PathMask(m, n), |m|);
    } else {
      assert PathMask(m, n) == PathMask(m, n - 1);
    }
  }

  lemma NoPaths(m: Mask)
    ensures forall i :: 0 <= i < 16 ==> !PathMask(m, 0)[i]
  {
  }

  // A sum of diffused bytes is the sum of input bytes along two-step paths.
  lemma {:induction false} SumDiffuse(x: Block, y: Block, m: Mask, n: nat)
    requires n <= 16
    requires forall j :: 0 <= j < 16 ==> y.at[j] == Total(x, RowMask(j))
    ensures Sum(y, m, n) == Total(x, PathMask(m, n))
  {
    hide Add, PathMask, RowMask;
    if n == 0 {
      NoPaths(m);
      SumSkip(x, PathMask(m, 0), 0, |m|);
    } else {
      SumDiffuse(x, y, m, n - 1);
      PathStep(x, m, n);
    }
  }

  // ---------------------------------------------------------------------------------------
  // The two laws of the layer

  lemma DiffuseInvolution(x: Block)
    ensures Diffuse(Diffuse(x)) == x
  {
    assert Diffuse(Diffuse(x)).at == x.at by {
      DiffuseTwice(x);
    }
  }

  lemma DiffuseTwice(x: Block)
    ensures forall j :: 0 <= j < 16 ==> Diffuse(Diffuse(x)).at[j] == x.at[j]
  {
    hide Add, Sum, Row, Parity;
    forall j | 0 <= j < 16
      ensures Diffuse(Diffuse(x)).at[j] == x.at[j]
    {
      var m := PathMask(RowMask(j), 16);
      SumDiffuse(x, Diffuse(x), RowMask(j), |m|);
      forall i | 0 <= i < 16
        ensures m[i] == (i == j)
      {
        PathsOfRow(j, i);
      }
      SumOne(x, m, j, |m|);
    }
  }

  lemma DiffuseLinear(a: Block, b: Block)
    ensures Diffuse(Xor(a, b)) == Xor(Diffuse(a), Diffuse(b))
  {
    forall j | 0 <= j < 16
      ensures Diffuse(Xor(a, b)).at[j] == Xor(Diffuse(a), Diffuse(b)).at[j]
    {
      SumLinear(a, b, RowMask(j), |RowMask(j)|);
    }
    assert Diffuse(Xor(a, b)).at == Xor(Diffuse(a), Diffuse(b)).at;
  }

  // The four groups of output bytes that ARIA_core.c:110-129 computes from a shared term.

  lemma Output0(x: Block)
    ensures Diffuse(x).at[0] == Mix(x.at[6], x.at[8], x.at[13], Mix(x.at[3], x.at[4], x.at[9], x.at[14]))
  {
    hide Add, Sum, Diffuse, Mix;
    OutputByte(x, 0, 6, 8, 13, 3, 4, 9, 14);
  }

  lemma Output5(x: Block)
    ensures Diffuse(x).at[5] == Mix(x.at[1], x.at[10], x.at[15], Mix(x.at[3], x.at[4], x.at[9], x.at[14]))
  {
    hide Add, Sum, Diffuse, Mix;
    OutputByte(x, 5, 1, 10, 15, 3, 4, 9, 14);
  }

  lemma Output11(x: Block)
    ensures Diffuse(x).at[11] == Mix(x.at[2], x.at[7], x.at[12], Mix(x.at[3], x.at[4], x.at[9], x.at[14]))
  {
    hide Add, Sum, Diffuse, Mix;
    OutputByte(x, 11, 2, 7, 12, 3, 4, 9, 14);
  }

  lemma Output14(x: Block)
    ensures Diffuse(x).at[14] == Mix(x.at[0], x.at[5], x.at[11], Mix(x.at[3], x.at[4], x.at[9], x.at[14]))
  {
    hide Add, Sum, Diffuse, Mix;
    OutputByte(x, 14, 0, 5, 11, 3, 4, 9, 14);
  }

  lemma Output1(x: Block)
    ensures Diffuse(x).at[1] == Mix(x.at[7], x.at[9], x.at[12], Mix(x.at[2], x.at[5], x.at[8], x.at[15]))
  {
    hide Add, Sum, Diffuse, Mix;
    OutputByte(x, 1, 7, 9, 12, 2, 5, 8, 15);
  }

  lemma Output4(x: Block)
    ensures Diffuse(x).at[4] == Mix(x.at[0], x.at[11], x.at[14], Mix(x.at[2], x.at[5], x.at[8], x.at[15]))
  {
    hide Add, Sum, Diffuse, Mix;
    OutputByte(x, 4, 0, 11, 14, 2, 5, 8, 15);
  }

  lemma Output10(x: Block)
    ensures Diffuse(x).at[10] == Mix(x.at[3], x.at[6], x.at[13], Mix(x.at[2], x.at[5], x.at[8], x.at[15]))
  {
    hide Add, Sum, Diffuse, Mix;
    OutputByte(x, 10, 3, 6, 13, 2, 5, 8, 15);
  }

  lemma Output15(x: Block)
    ensures Diffuse(x).at[15] == Mix(x.at[1], x.at[4], x.at[10], Mix(x.at[2], x.at[5], x.at[8], x.at[15]))
  {
    hide Add, Sum, Diffuse, Mix;
    OutputByte(x, 15, 1, 4, 10, 2, 5, 8, 15);
  }

  lemma Output2(x: Block)
    ensures Diffuse(x).at[2] == Mix(x.at[4], x.at[10], x.at[15], Mix(x.at[1], x.at[6], x.at[11], x.at[12]))
  {
    hide Add, Sum, Diffuse, Mix;
    OutputByte(x, 2, 4, 10, 15, 1, 6, 11, 12);
  }

  lemma Output7(x: Block)
    ensures Diffuse(x).at[7] == Mix(x.at[3], x.at[8], x.at[13], Mix(x.at[1], x.at[6], x.at[11], x.at[12]))
  {
    hide Add, Sum, Diffuse, Mix;
    OutputByte(x, 7, 3, 8, 13, 1, 6, 11, 12);
  }

  lemma Output9(x: Block)
    ensures Diffuse(x).at[9] == Mix(x.at[0], x.at[5], x.at[14], Mix(x.at[1], x.at[6], x.at[11], x.at[12]))
  {
    hide Add, Sum, Diffuse, Mix;
    OutputByte(x, 9, 0, 5, 14, 1, 6, 11, 12);
  }

  lemma Output12(x: Block)
    ensures Diffuse(x).at[12] == Mix(x.at[2], x.at[7], x.at[9], Mix(x.at[1], x.at[6], x.at[11], x.at[12]))
  {
    hide Add, Sum, Diffuse, Mix;
    OutputByte(x, 12, 2, 7, 9, 1, 6, 11, 12);
  }

  lemma Output3(x: Block)
    ensures Diffuse(x).at[3] == Mix(x.at[5], x.at[11], x.at[14], Mix(x.at[0], x.at[7], x.at[10], x.at[13]))
  {
    hide Add, Sum, Diffuse, Mix;
    OutputByte(x, 3, 5, 11, 14, 0, 7, 10, 13);
  }

  lemma Output6(x: Block)
    ensures Diffuse(x).at[6] == Mix(x.at[2], x.at[9], x.at[12], Mix(x.at[0], x.at[7], x.at[10], x.at[13]))
  {
    hide Add, Sum, Diffuse, Mix;
    OutputByte(x, 6, 2, 9, 12, 0, 7, 10, 13);
  }

  lemma Output8(x: Block)
    ensures Diffuse(x).at[8] == Mix(x.at[1], x.at[4], x.at[15], Mix(x.at[0], x.at[7], x.at[10], x.at[13]))
  {
    hide Add, Sum, Diffuse, Mix;
    OutputByte(x, 8, 1, 4, 15, 0, 7, 10, 13);
  }

  lemma Output13(x: Block)
    ensures Diffuse(x).at[13] == Mix(x.at[3], x.at[6], x.at[8], Mix(x.at[0], x.at[7], x.at[10], x.at[13]))
  {
    hide Add, Sum, Diffuse, Mix;
    OutputByte(x, 13, 3, 6, 8, 0, 7, 10, 13);
  }
}
