// Known answers of ARIA: the three examples of appendix A of RFC 5794, round by round. Blocks are
// written as four words.
module AriaVectors {
  import opened AriaTables
  import opened Blocks
  import opened AriaDiffusion
  import opened AriaCipher
  import opened AriaSchedule

  datatype Quad = Quad(a: bv32, b: bv32, c: bv32, d: bv32)

  function First(w: bv32): bv8 {
    (w >> 24) as bv8
  }

  function Second(w: bv32): bv8 {
    ((w >> 16) & 0xff) as bv8
  }

  function Third(w: bv32): bv8 {
    ((w >> 8) & 0xff) as bv8
  }

  function Fourth(w: bv32): bv8 {
    (w & 0xff) as bv8
  }

  // A block as four words.
  predicate Has(x: Block, q: Quad) {
    && x.at[0] == First(q.a) && x.at[1] == Second(q.a) && x.at[2] == Third(q.a) && x.at[3] == Fourth(q.a)
    && x.at[4] == First(q.b) && x.at[5] == Second(q.b) && x.at[6] == Third(q.b) && x.at[7] == Fourth(q.b)
    && x.at[8] == First(q.c) && x.at[9] == Second(q.c) && x.at[10] == Third(q.c) && x.at[11] == Fourth(q.c)
    && x.at[12] == First(q.d) && x.at[13] == Second(q.d) && x.at[14] == Third(q.d) && x.at[15] == Fourth(q.d)
  }

  // ---------------------------------------------------------------------------------------
  // The operations on words

  function XorQuad(x: Quad, y: Quad): Quad {
    Quad(XorWord(x.a, y.a), XorWord(x.b, y.b), XorWord(x.c, y.c), XorWord(x.d, y.d))
  }

  function XorWord(v: bv32, w: bv32): bv32 {
    v ^ w
  }

  lemma FirstXor(v: bv32, w: bv32)
    ensures First(XorWord(v, w)) == Add(First(v), First(w))
  {
  }

  lemma SecondXor(v: bv32, w: bv32)
    ensures Second(XorWord(v, w)) == Add(Second(v), Second(w))
  {
  }

  lemma ThirdXor(v: bv32, w: bv32)
    ensures Third(XorWord(v, w)) == Add(Third(v), Third(w))
  {
  }

  lemma FourthXor(v: bv32, w: bv32)
    ensures Fourth(XorWord(v, w)) == Add(Fourth(v), Fourth(w))
  {
  }

  lemma BytesXor(v: bv32, w: bv32)
    ensures First(XorWord(v, w)) == Add(First(v), First(w)) && Second(XorWord(v, w)) == Add(Second(v), Second(w))
    ensures Third(XorWord(v, w)) == Add(Third(v), Third(w)) && Fourth(XorWord(v, w)) == Add(Fourth(v), Fourth(w))
  {
    hide *;
    FirstXor(v, w);
    SecondXor(v, w);
    ThirdXor(v, w);
    FourthXor(v, w);
  }

  lemma XorHas(x: Block, q: Quad, y: Block, r: Quad)
    requires Has(x, q) && Has(y, r)
    ensures Has(Xor(x, y), XorQuad(q, r))
  {
    hide First, Second, Third, Fourth, Add, XorWord;
    BytesXor(q.a, r.a);
    BytesXor(q.b, r.b);
    BytesXor(q.c, r.c);
    BytesXor(q.d, r.d);
  }

  function Packed(b0: bv8, b1: bv8, b2: bv8, b3: bv8): bv32 {
    ((b0 as bv32) << 24) | ((b1 as bv32) << 16) | ((b2 as bv32) << 8) | (b3 as bv32)
  }

  lemma PackedBytes(b0: bv8, b1: bv8, b2: bv8, b3: bv8)
    ensures First(Packed(b0, b1, b2, b3)) == b0 && Second(Packed(b0, b1, b2, b3)) == b1
    ensures Third(Packed(b0, b1, b2, b3)) == b2 && Fourth(Packed(b0, b1, b2, b3)) == b3
  {
  }

  // The substitution layers, alike in every word.
  function OddWord(w: bv32): bv32 {
    Packed(Box0(First(w)), Box1(Second(w)), Box2(Third(w)), Box3(Fourth(w)))
  }

  function EvenWord(w: bv32): bv32 {
    Packed(Box2(First(w)), Box3(Second(w)), Box0(Third(w)), Box1(Fourth(w)))
  }

  function SubstituteQuad(odd: bool, q: Quad): Quad {
    if odd then Quad(OddWord(q.a), OddWord(q.b), OddWord(q.c), OddWord(q.d))
    else Quad(EvenWord(q.a), EvenWord(q.b), EvenWord(q.c), EvenWord(q.d))
  }

  lemma WordBytes(w: bv32)
    ensures First(OddWord(w)) == Box0(First(w)) && Second(OddWord(w)) == Box1(Second(w))
    ensures Third(OddWord(w)) == Box2(Third(w)) && Fourth(OddWord(w)) == Box3(Fourth(w))
    ensures First(EvenWord(w)) == Box2(First(w)) && Second(EvenWord(w)) == Box3(Second(w))
    ensures Third(EvenWord(w)) == Box0(Third(w)) && Fourth(EvenWord(w)) == Box1(Fourth(w))
  {
    hide First, Second, Third, Fourth, Packed, Box0, Box1, Box2, Box3;
    PackedBytes(Box0(First(w)), Box1(Second(w)), Box2(Third(w)), Box3(Fourth(w)));
    PackedBytes(Box2(First(w)), Box3(Second(w)), Box0(Third(w)), Box1(Fourth(w)));
  }

  lemma SubstituteHas(odd: bool, x: Block, q: Quad)
    requires Has(x, q)
    ensures Has(Substitute(odd, x), SubstituteQuad(odd, q))
  {
    hide First, Second, Third, Fourth, OddWord, EvenWord, Box0, Box1, Box2, Box3, Substitute;
    WordBytes(q.a);
    WordBytes(q.b);
    WordBytes(q.c);
    WordBytes(q.d);
    OddLayer(x);
    EvenLayer(x);
  }

  // Seven bytes added together.
  function Sum7(a: bv8, b: bv8, c: bv8, d: bv8, e: bv8, f: bv8, g: bv8): bv8 {
    a ^ b ^ c ^ (d ^ e ^ f ^ g)
  }

  lemma MixesAreSums(a: bv8, b: bv8, c: bv8, d: bv8, e: bv8, f: bv8, g: bv8)
    ensures Mix(a, b, c, Mix(d, e, f, g)) == Sum7(a, b, c, d, e, f, g)
  {
  }

  // The diffusion layer, section 2.4.3.
  predicate Diffused(s: Quad, y: Quad) {
    && First(y.a) == Sum7(Third(s.b), First(s.c), Second(s.d), Fourth(s.a), First(s.b), Second(s.c), Third(s.d))
    && Second(y.a) == Sum7(Fourth(s.b), Second(s.c), First(s.d), Third(s.a), Second(s.b), First(s.c), Fourth(s.d))
    && Third(y.a) == Sum7(First(s.b), Third(s.c), Fourth(s.d), Second(s.a), Third(s.b), Fourth(s.c), First(s.d))
    && Fourth(y.a) == Sum7(Second(s.b), Fourth(s.c), Third(s.d), First(s.a), Fourth(s.b), Third(s.c), Second(s.d))
    && First(y.b) == Sum7(First(s.a), Fourth(s.c), Third(s.d), Third(s.a), Second(s.b), First(s.c), Fourth(s.d))
    && Second(y.b) == Sum7(Second(s.a), Third(s.c), Fourth(s.d), Fourth(s.a), First(s.b), Second(s.c), Third(s.d))
    && Third(y.b) == Sum7(Third(s.a), Second(s.c), First(s.d), First(s.a), Fourth(s.b), Third(s.c), Second(s.d))
    && Fourth(y.b) == Sum7(Fourth(s.a), First(s.c), Second(s.d), Second(s.a), Third(s.b), Fourth(s.c), First(s.d))
    && First(y.c) == Sum7(Second(s.a), First(s.b), Fourth(s.d), First(s.a), Fourth(s.b), Third(s.c), Second(s.d))
    && Second(y.c) == Sum7(First(s.a), Second(s.b), Third(s.d), Second(s.a), Third(s.b), Fourth(s.c), First(s.d))
    && Third(y.c) == Sum7(Fourth(s.a), Third(s.b), Second(s.d), Third(s.a), Second(s.b), First(s.c), Fourth(s.d))
    && Fourth(y.c) == Sum7(Third(s.a), Fourth(s.b), First(s.d), Fourth(s.a), First(s.b), Second(s.c), Third(s.d))
    && First(y.d) == Sum7(Third(s.a), Fourth(s.b), Second(s.c), Second(s.a), Third(s.b), Fourth(s.c), First(s.d))
    && Second(y.d) == Sum7(Fourth(s.a), Third(s.b), First(s.c), First(s.a), Fourth(s.b), Third(s.c), Second(s.d))
    && Third(y.d) == Sum7(First(s.a), Second(s.b), Fourth(s.c), Fourth(s.a), First(s.b), Second(s.c), Third(s.d))
    && Fourth(y.d) == Sum7(Second(s.a), First(s.b), Third(s.c), Third(s.a), Second(s.b), First(s.c), Fourth(s.d))
  }

  lemma DiffusedGroup0(x: Block, s: Quad, y: Quad)
    requires Has(x, s) && Diffused(s, y)
    ensures var z := Diffuse(x);
      z.at[0] == First(y.a) && z.at[5] == Second(y.b) && z.at[11] == Fourth(y.c) && z.at[14] == Third(y.d)
  {
    hide Diffuse, Mix, Sum7, First, Second, Third, Fourth;
    Output0(x);
    MixesAreSums(x.at[6], x.at[8], x.at[13], x.at[3], x.at[4], x.at[9], x.at[14]);
    Output5(x);
    MixesAreSums(x.at[1], x.at[10], x.at[15], x.at[3], x.at[4], x.at[9], x.at[14]);
    Output11(x);
    MixesAreSums(x.at[2], x.at[7], x.at[12], x.at[3], x.at[4], x.at[9], x.at[14]);
    Output14(x);
    MixesAreSums(x.at[0], x.at[5], x.at[11], x.at[3], x.at[4], x.at[9], x.at[14]);
  }

  lemma DiffusedGroup1(x: Block, s: Quad, y: Quad)
    requires Has(x, s) && Diffused(s, y)
    ensures var z := Diffuse(x);
      z.at[1] == Second(y.a) && z.at[4] == First(y.b) && z.at[10] == Third(y.c) && z.at[15] == Fourth(y.d)
  {
    hide Diffuse, Mix, Sum7, First, Second, Third, Fourth;
    Output1(x);
    MixesAreSums(x.at[7], x.at[9], x.at[12], x.at[2], x.at[5], x.at[8], x.at[15]);
    Output4(x);
    MixesAreSums(x.at[0], x.at[11], x.at[14], x.at[2], x.at[5], x.at[8], x.at[15]);
    Output10(x);
    MixesAreSums(x.at[3], x.at[6], x.at[13], x.at[2], x.at[5], x.at[8], x.at[15]);
    Output15(x);
    MixesAreSums(x.at[1], x.at[4], x.at[10], x.at[2], x.at[5], x.at[8], x.at[15]);
  }

  lemma DiffusedGroup2(x: Block, s: Quad, y: Quad)
    requires Has(x, s) && Diffused(s, y)
    ensures var z := Diffuse(x);
      z.at[2] == Third(y.a) && z.at[7] == Fourth(y.b) && z.at[9] == Second(y.c) && z.at[12] == First(y.d)
  {
    hide Diffuse, Mix, Sum7, First, Second, Third, Fourth;
    Output2(x);
    MixesAreSums(x.at[4], x.at[10], x.at[15], x.at[1], x.at[6], x.at[11], x.at[12]);
    Output7(x);
    MixesAreSums(x.at[3], x.at[8], x.at[13], x.at[1], x.at[6], x.at[11], x.at[12]);
    Output9(x);
    MixesAreSums(x.at[0], x.at[5], x.at[14], x.at[1], x.at[6], x.at[11], x.at[12]);
    Output12(x);
    MixesAreSums(x.at[2], x.at[7], x.at[9], x.at[1], x.at[6], x.at[11], x.at[12]);
  }

  lemma DiffusedGroup3(x: Block, s: Quad, y: Quad)
    requires Has(x, s) && Diffused(s, y)
    ensures var z := Diffuse(x);
      z.at[3] == Fourth(y.a) && z.at[6] == Third(y.b) && z.at[8] == First(y.c) && z.at[13] == Second(y.d)
  {
    hide Diffuse, Mix, Sum7, First, Second, Third, Fourth;
    Output3(x);
    MixesAreSums(x.at[5], x.at[11], x.at[14], x.at[0], x.at[7], x.at[10], x.at[13]);
    Output6(x);
    MixesAreSums(x.at[2], x.at[9], x.at[12], x.at[0], x.at[7], x.at[10], x.at[13]);
    Output8(x);
    MixesAreSums(x.at[1], x.at[4], x.at[15], x.at[0], x.at[7], x.at[10], x.at[13]);
    Output13(x);
    MixesAreSums(x.at[3], x.at[6], x.at[8], x.at[0], x.at[7], x.at[10], x.at[13]);
  }

  lemma DiffuseHas(x: Block, s: Quad, y: Quad)
    requires Has(x, s) && Diffused(s, y)
    ensures Has(Diffuse(x), y)
  {
    hide Diffuse, Diffused, First, Second, Third, Fourth;
    DiffusedGroup0(x, s, y);
    DiffusedGroup1(x, s, y);
    DiffusedGroup2(x, s, y);
    DiffusedGroup3(x, s, y);
  }

  // A round on words.
  predicate RoundGives(odd: bool, x: Quad, k: Quad, y: Quad) {
    Diffused(SubstituteQuad(odd, XorQuad(k, x)), y)
  }

  lemma RoundHas(odd: bool, x: Block, q: Quad, key: Block, k: Quad, y: Quad)
    requires Has(x, q) && Has(key, k) && RoundGives(odd, q, k, y)
    ensures Has(Round(odd, x, key), y)
  {
    hide Has, Diffused, XorQuad, SubstituteQuad, Xor, Substitute, Diffuse;
    XorHas(key, k, x, q);
    SubstituteHas(odd, Xor(key, x), XorQuad(k, q));
    DiffuseHas(Substitute(odd, Xor(key, x)), SubstituteQuad(odd, XorQuad(k, q)), y);
  }

  // ---------------------------------------------------------------------------------------
  // Rotations on words

  // The low bits of one word and the high bits of the next.
  function Shift(v: bv32, w: bv32, left: bv32, right: bv32): bv32
    requires left <= 32 && right <= 32
  {
    (v << left) | (w >> right)
  }

  function Right19(q: Quad): Quad {
    Quad(Shift(q.d, q.a, 13, 19), Shift(q.a, q.b, 13, 19), Shift(q.b, q.c, 13, 19), Shift(q.c, q.d, 13, 19))
  }

  lemma Right19Has(x: Block, q: Quad)
    requires Has(x, q)
    ensures Has(RotateRight(x, 19), Right19(q))
  {
    hide First, Second, Third, Fourth, Join, Shift;
    Word19(q.d, q.a);
    Word19(q.a, q.b);
    Word19(q.b, q.c);
    Word19(q.c, q.d);
  }

  function Right31(q: Quad): Quad {
    Quad(Shift(q.d, q.a, 1, 31), Shift(q.a, q.b, 1, 31), Shift(q.b, q.c, 1, 31), Shift(q.c, q.d, 1, 31))
  }

  lemma Right31Has(x: Block, q: Quad)
    requires Has(x, q)
    ensures Has(RotateRight(x, 31), Right31(q))
  {
    hide First, Second, Third, Fourth, Join, Shift;
    Word31(q.d, q.a);
    Word31(q.a, q.b);
    Word31(q.b, q.c);
    Word31(q.c, q.d);
  }

  function Right67(q: Quad): Quad {
    Quad(Shift(q.b, q.c, 29, 3), Shift(q.c, q.d, 29, 3), Shift(q.d, q.a, 29, 3), Shift(q.a, q.b, 29, 3))
  }

  lemma Right67Has(x: Block, q: Quad)
    requires Has(x, q)
    ensures Has(RotateRight(x, 67), Right67(q))
  {
    hide First, Second, Third, Fourth, Join, Shift;
    Word67(q.b, q.c);
    Word67(q.c, q.d);
    Word67(q.d, q.a);
    Word67(q.a, q.b);
  }

  function Right97(q: Quad): Quad {
    Quad(Shift(q.a, q.b, 31, 1), Shift(q.b, q.c, 31, 1), Shift(q.c, q.d, 31, 1), Shift(q.d, q.a, 31, 1))
  }

  lemma Right97Has(x: Block, q: Quad)
    requires Has(x, q)
    ensures Has(RotateRight(x, 97), Right97(q))
  {
    hide First, Second, Third, Fourth, Join, Shift;
    Word97(q.a, q.b);
    Word97(q.b, q.c);
    Word97(q.c, q.d);
    Word97(q.d, q.a);
  }

  function Right109(q: Quad): Quad {
    Quad(Shift(q.a, q.b, 19, 13), Shift(q.b, q.c, 19, 13), Shift(q.c, q.d, 19, 13), Shift(q.d, q.a, 19, 13))
  }

  lemma Right109Has(x: Block, q: Quad)
    requires Has(x, q)
    ensures Has(RotateRight(x, 109), Right109(q))
  {
    hide First, Second, Third, Fourth, Join, Shift;
    Word109(q.a, q.b);
    Word109(q.b, q.c);
    Word109(q.c, q.d);
    Word109(q.d, q.a);
  }

  lemma Word19(v: bv32, w: bv32)
    ensures var y := Shift(v, w, 13, 19);
      First(y) == Join(Second(v), Third(v), 3) && Second(y) == Join(Third(v), Fourth(v), 3) && Third(y) == Join(Fourth(v), First(w), 3) && Fourth(y) == Join(First(w), Second(w), 3)
  {
  }

  lemma Word31(v: bv32, w: bv32)
    ensures var y := Shift(v, w, 1, 31);
      First(y) == Join(First(v), Second(v), 7) && Second(y) == Join(Second(v), Third(v), 7) && Third(y) == Join(Third(v), Fourth(v), 7) && Fourth(y) == Join(Fourth(v), First(w), 7)
  {
    hide First, Second, Third, Fourth, Join;
    Word31Front(v, w);
    Word31Back(v, w);
  }

  lemma Word31Front(v: bv32, w: bv32)
    ensures var y := Shift(v, w, 1, 31);
      First(y) == Join(First(v), Second(v), 7) && Second(y) == Join(Second(v), Third(v), 7)
  {
  }

  lemma Word31Back(v: bv32, w: bv32)
    ensures var y := Shift(v, w, 1, 31);
      Third(y) == Join(Third(v), Fourth(v), 7) && Fourth(y) == Join(Fourth(v), First(w), 7)
  {
  }

  lemma Word67(v: bv32, w: bv32)
    ensures var y := Shift(v, w, 29, 3);
      First(y) == Join(Fourth(v), First(w), 3) && Second(y) == Join(First(w), Second(w), 3) && Third(y) == Join(Second(w), Third(w), 3) && Fourth(y) == Join(Third(w), Fourth(w), 3)
  {
  }

  lemma Word97(v: bv32, w: bv32)
    ensures var y := Shift(v, w, 31, 1);
      First(y) == Join(Fourth(v), First(w), 1) && Second(y) == Join(First(w), Second(w), 1) && Third(y) == Join(Second(w), Third(w), 1) && Fourth(y) == Join(Third(w), Fourth(w), 1)
  {
  }

  lemma Word109(v: bv32, w: bv32)
    ensures var y := Shift(v, w, 19, 13);
      First(y) == Join(Third(v), Fourth(v), 5) && Second(y) == Join(Fourth(v), First(w), 5) && Third(y) == Join(First(w), Second(w), 5) && Fourth(y) == Join(Second(w), Third(w), 5)
  {
  }

  // ---------------------------------------------------------------------------------------
  // Keys and rounds

  datatype Registers = Registers(w0: Quad, w1: Quad, w2: Quad, w3: Quad)

  ghost predicate HasRegisters(key: MasterKey, w: Registers) {
    Has(W0(key), w.w0) && Has(W1(key), w.w1) && Has(W2(key), w.w2) && Has(W3(key), w.w3)
  }

  const D1 := Quad(0x517c_c1b7, 0x2722_0a94, 0xfe13_abe8, 0xfa9a_6ee0)
  const D2 := Quad(0x6db1_4acc, 0x9e21_c820, 0xff28_b1d5, 0xef5d_e2b0)
  const D3 := Quad(0xdb92_371d, 0x2126_e970, 0x0324_9775, 0x04e8_c90e)

  // With the constants in the order c, d and e.
  predicate RegistersGive(second: Quad, c: Quad, d: Quad, e: Quad, w: Registers) {
    && RoundGives(true, w.w0, c, XorQuad(w.w1, second))
    && RoundGives(false, w.w1, d, XorQuad(w.w2, w.w0))
    && RoundGives(true, w.w2, e, XorQuad(w.w3, w.w1))
  }

  // The round keys, section 2.2.
  function KeyQuad(w: Registers, i: nat): Quad {
    if i == 0 then XorQuad(w.w0, Right19(w.w1))
    else if i == 1 then XorQuad(w.w1, Right19(w.w2))
    else if i == 2 then XorQuad(w.w2, Right19(w.w3))
    else if i == 3 then XorQuad(w.w3, Right19(w.w0))
    else if i == 4 then XorQuad(w.w0, Right31(w.w1))
    else if i == 5 then XorQuad(w.w1, Right31(w.w2))
    else if i == 6 then XorQuad(w.w2, Right31(w.w3))
    else if i == 7 then XorQuad(w.w3, Right31(w.w0))
    else if i == 8 then XorQuad(w.w0, Right67(w.w1))
    else if i == 9 then XorQuad(w.w1, Right67(w.w2))
    else if i == 10 then XorQuad(w.w2, Right67(w.w3))
    else if i == 11 then XorQuad(w.w3, Right67(w.w0))
    else if i == 12 then XorQuad(w.w0, Right97(w.w1))
    else if i == 13 then XorQuad(w.w1, Right97(w.w2))
    else if i == 14 then XorQuad(w.w2, Right97(w.w3))
    else if i == 15 then XorQuad(w.w3, Right97(w.w0))
    else XorQuad(w.w0, Right109(w.w1))
  }

  lemma KeyHas(key: MasterKey, w: Registers, i: nat)
    requires HasRegisters(key, w) && i < |EncryptionKeys(key)|
    ensures Has(EncryptionKeys(key)[i], KeyQuad(w, i))
  {
    hide Has, XorQuad, W0, W1, W2, W3, RoundKey, AllRoundKeys, Right19, Right31, Right67, Right97, Right109;
    var a, b, c, d := W0(key), W1(key), W2(key), W3(key);
    AllRoundKeysAt(a, b, c, d);
    KeysHave(a, b, w.w0, w.w1);
    KeysHave(b, c, w.w1, w.w2);
    KeysHave(c, d, w.w2, w.w3);
    KeysHave(d, a, w.w3, w.w0);
  }

  lemma KeysHave(a: Block, b: Block, p: Quad, q: Quad)
    requires Has(a, p) && Has(b, q)
    ensures Has(RoundKey(a, b, 19), XorQuad(p, Right19(q))) && Has(RoundKey(a, b, 31), XorQuad(p, Right31(q)))
    ensures Has(RoundKey(a, b, 67), XorQuad(p, Right67(q))) && Has(RoundKey(a, b, 97), XorQuad(p, Right97(q)))
    ensures Has(RoundKey(a, b, 109), XorQuad(p, Right109(q)))
  {
    hide Has, XorQuad, RotateRight, Xor, Right19, Right31, Right67, Right97, Right109;
    Right19Has(b, q);
    Right31Has(b, q);
    Right67Has(b, q);
    Right97Has(b, q);
    Right109Has(b, q);
    XorHas(a, p, RotateRight(b, 19), Right19(q));
    XorHas(a, p, RotateRight(b, 31), Right31(q));
    XorHas(a, p, RotateRight(b, 67), Right67(q));
    XorHas(a, p, RotateRight(b, 97), Right97(q));
    XorHas(a, p, RotateRight(b, 109), Right109(q));
  }

  // The text after n rounds.
  lemma {:induction false} StateHas(p: Block, key: MasterKey, w: Registers, text: nat -> Quad, n: nat)
    requires HasRegisters(key, w) && Has(p, text(0)) && n <= Rounds(key)
    requires forall i: nat :: i < n ==> RoundGives(i % 2 == 0, text(i), KeyQuad(w, i), text(i + 1))
    ensures Has(State(p, EncryptionKeys(key), n), text(n))
  {
    hide Has, HasRegisters, RoundGives, KeyQuad, AriaCipher.Round, EncryptionKeys, Rounds;
    if n > 0 {
      StateHas(p, key, w, text, n - 1);
      KeyHas(key, w, n - 1);
      RoundHas(n % 2 == 1, State(p, EncryptionKeys(key), n - 1), text(n - 1), EncryptionKeys(key)[n - 1], KeyQuad(w, n - 1), text(n));
    }
  }

  lemma EnoughKeys(key: MasterKey)
    ensures KeysOk(EncryptionKeys(key))
  {
  }

  function Encrypted(key: MasterKey, p: Block): Block {
    EnoughKeys(key);
    Crypt(p, EncryptionKeys(key))
  }

  function LastQuad(w: Registers, q: Quad, R: nat): Quad
    requires R > 0
  {
    XorQuad(KeyQuad(w, R), SubstituteQuad(false, XorQuad(KeyQuad(w, R - 1), q)))
  }

  lemma CryptHas(p: Block, key: MasterKey, w: Registers, text: nat -> Quad, R: nat)
    requires HasRegisters(key, w) && Has(p, text(0)) && R == Rounds(key) > 0
    requires forall i: nat :: i < R - 1 ==> RoundGives(i % 2 == 0, text(i), KeyQuad(w, i), text(i + 1))
    ensures Has(Encrypted(key, p), LastQuad(w, text(R - 1), R))
  {
    hide Has, HasRegisters, RoundGives, KeyQuad, XorQuad, SubstituteQuad, Xor, Substitute, State, EncryptionKeys, Rounds;
    EnoughKeys(key);
    StateHas(p, key, w, text, R - 1);
    KeyHas(key, w, R - 1);
    KeyHas(key, w, R);
    var keys := EncryptionKeys(key);
    var s, q := State(p, keys, R - 1), text(R - 1);
    XorHas(keys[R - 1], KeyQuad(w, R - 1), s, q);
    SubstituteHas(false, Xor(keys[R - 1], s), XorQuad(KeyQuad(w, R - 1), q));
    XorHas(keys[R], KeyQuad(w, R), Substitute(false, Xor(keys[R - 1], s)), SubstituteQuad(false, XorQuad(KeyQuad(w, R - 1), q)));
  }

  // ---------------------------------------------------------------------------------------
  // The examples

  lemma RegistersHave(key: MasterKey, second: Quad, c: Quad, d: Quad, e: Quad, w: Registers)
    requires Has(KL(key), w.w0) && Has(KR(key), second)
    requires Has(CK(key, 0), c) && Has(CK(key, 1), d) && Has(CK(key, 2), e)
    requires RegistersGive(second, c, d, e, w)
    ensures HasRegisters(key, w)
  {
    hide Has, RoundGives, XorQuad, Xor, AriaCipher.Round, KL, KR, CK;
    var y1, y2, y3 := XorQuad(w.w1, second), XorQuad(w.w2, w.w0), XorQuad(w.w3, w.w1);
    RoundHas(true, W0(key), w.w0, CK(key, 0), c, y1);
    XorHas(AriaCipher.Round(true, W0(key), CK(key, 0)), y1, KR(key), second);
    XorTwice(w.w1, second);
    RoundHas(false, W1(key), w.w1, CK(key, 1), d, y2);
    XorHas(AriaCipher.Round(false, W1(key), CK(key, 1)), y2, W0(key), w.w0);
    XorTwice(w.w2, w.w0);
    RoundHas(true, W2(key), w.w2, CK(key, 2), e, y3);
    XorHas(AriaCipher.Round(true, W2(key), CK(key, 2)), y3, W1(key), w.w1);
    XorTwice(w.w3, w.w1);
  }

  lemma XorTwice(x: Quad, y: Quad)
    ensures XorQuad(XorQuad(x, y), y) == x
  {
    WordTwice(x.a, y.a);
    WordTwice(x.b, y.b);
    WordTwice(x.c, y.c);
    WordTwice(x.d, y.d);
    hide XorWord;
  }

  lemma WordTwice(v: bv32, w: bv32)
    ensures XorWord(XorWord(v, w), w) == v
  {
  }

  lemma ConstantsHave()
    ensures Has(C1, D1) && Has(C2, D2) && Has(C3, D3)
  {
  }

  // The bytes from 0x00 to 0x0f, and those that follow.
  const LOW := Quad(0x0001_0203, 0x0405_0607, 0x0809_0a0b, 0x0c0d_0e0f)
  const HIGH := Quad(0x1011_1213, 0x1415_1617, 0x1819_1a1b, 0x1c1d_1e1f)

  predicate Counting(key: MasterKey) {
    Has(Bytes(key[..16]), LOW) && forall i :: 16 <= i < |key| ==> key[i] == High(i)
  }

  // Byte i of the longer keys.
  function High(i: nat): bv8 {
    if i == 16 then 0x10 else if i == 17 then 0x11 else if i == 18 then 0x12 else if i == 19 then 0x13
    else if i == 20 then 0x14 else if i == 21 then 0x15 else if i == 22 then 0x16 else if i == 23 then 0x17
    else if i == 24 then 0x18 else if i == 25 then 0x19 else if i == 26 then 0x1a else if i == 27 then 0x1b
    else if i == 28 then 0x1c else if i == 29 then 0x1d else if i == 30 then 0x1e else 0x1f
  }

  lemma SecondHalf(key: MasterKey)
    requires Counting(key)
    ensures |key| == 16 ==> Has(KR(key), Quad(0, 0, 0, 0))
    ensures |key| == 24 ==> Has(KR(key), Quad(HIGH.a, HIGH.b, 0, 0))
    ensures |key| == 32 ==> Has(KR(key), HIGH)
  {
    hide Has;
    forall j | 0 <= j < 16
      ensures KR(key).at[j] == if 16 + j < |key| then High(16 + j) else 0
    {
    }
    HighHas(KR(key), |key| - 16);
  }

  lemma HighHas(x: Block, n: nat)
    requires n == 0 || n == 8 || n == 16
    requires forall j :: 0 <= j < 16 ==> x.at[j] == if j < n then High(16 + j) else 0
    ensures n == 0 ==> Has(x, Quad(0, 0, 0, 0))
    ensures n == 8 ==> Has(x, Quad(HIGH.a, HIGH.b, 0, 0))
    ensures n == 16 ==> Has(x, HIGH)
  {
  }

  const W128 := Registers(
    Quad(0x0001_0203, 0x0405_0607, 0x0809_0a0b, 0x0c0d_0e0f),
    Quad(0x2afb_ea74, 0x1e17_46dd, 0x55c6_3ba1, 0xafce_a0a5),
    Quad(0x7c85_7801, 0x8bb1_27e0, 0x2dfe_4e78, 0xc288_e33c),
    Quad(0x6785_b52b, 0x74da_46bf, 0x1810_5408, 0x2763_ff6d))

  function Text128(n: nat): Quad {
    if n == 0 then Quad(0x0011_2233, 0x4455_6677, 0x8899_aabb, 0xccdd_eeff)
    else if n == 1 then Quad(0x7fc7_f12b, 0xefd0_a079, 0x1de8_7fa9, 0x6b46_9f52)
    else if n == 2 then Quad(0xac8d_e17e, 0x49f7_c511, 0x7618_9931, 0x62b1_89e9)
    else if n == 3 then Quad(0xc3e8_d59e, 0xc2e6_2d52, 0x49ca_2741, 0x653c_b7dd)
    else if n == 4 then Quad(0x5d4a_ebb1, 0x65e1_41ff, 0x759f_669e, 0x1e85_cc45)
    else if n == 5 then Quad(0x7806_e469, 0xf688_74c5, 0x004b_5f4a, 0x046b_bcfa)
    else if n == 6 then Quad(0x110f_93c9, 0xa630_cdd5, 0x1f97_d220, 0x2413_345a)
    else if n == 7 then Quad(0xe054_428e, 0xf088_fef9, 0x7928_241c, 0xd3be_499e)
    else if n == 8 then Quad(0x5734_f38e, 0xa1ca_3ddd, 0x102e_71f9, 0x5e1d_5f97)
    else if n == 9 then Quad(0x4903_325b, 0xe3e5_00cc, 0xcd52_fba4, 0x354a_39ae)
    else if n == 10 then Quad(0xcb8c_508e, 0x2c4f_8788, 0x0639_dc89, 0x6d25_ec9d)
    else Quad(0xe7e0_d245, 0x7ed7_3d23, 0xd481_4240, 0x95af_dca0)
  }

  lemma FirstRegisterOf128()
    ensures RoundGives(true, W128.w0, D1, XorQuad(W128.w1, Quad(0, 0, 0, 0)))
  {
  }

  lemma SecondRegisterOf128()
    ensures RoundGives(false, W128.w1, D2, XorQuad(W128.w2, W128.w0))
  {
  }

  lemma ThirdRegisterOf128()
    ensures RoundGives(true, W128.w2, D3, XorQuad(W128.w3, W128.w1))
  {
  }

  lemma Round1Of128()
    ensures RoundGives(true, Quad(0x0011_2233, 0x4455_6677, 0x8899_aabb, 0xccdd_eeff),
                 XorQuad(W128.w0, Right19(W128.w1)), Quad(0x7fc7_f12b, 0xefd0_a079, 0x1de8_7fa9, 0x6b46_9f52))
  {
  }

  lemma Round2Of128()
    ensures RoundGives(false, Quad(0x7fc7_f12b, 0xefd0_a079, 0x1de8_7fa9, 0x6b46_9f52),
                 XorQuad(W128.w1, Right19(W128.w2)), Quad(0xac8d_e17e, 0x49f7_c511, 0x7618_9931, 0x62b1_89e9))
  {
  }

  lemma Round3Of128()
    ensures RoundGives(true, Quad(0xac8d_e17e, 0x49f7_c511, 0x7618_9931, 0x62b1_89e9),
                 XorQuad(W128.w2, Right19(W128.w3)), Quad(0xc3e8_d59e, 0xc2e6_2d52, 0x49ca_2741, 0x653c_b7dd))
  {
  }

  lemma Round4Of128()
    ensures RoundGives(false, Quad(0xc3e8_d59e, 0xc2e6_2d52, 0x49ca_2741, 0x653c_b7dd),
                 XorQuad(W128.w3, Right19(W128.w0)), Quad(0x5d4a_ebb1, 0x65e1_41ff, 0x759f_669e, 0x1e85_cc45))
  {
  }

  lemma Round5Of128()
    ensures RoundGives(true, Quad(0x5d4a_ebb1, 0x65e1_41ff, 0x759f_669e, 0x1e85_cc45),
                 XorQuad(W128.w0, Right31(W128.w1)), Quad(0x7806_e469, 0xf688_74c5, 0x004b_5f4a, 0x046b_bcfa))
  {
  }

  lemma Round6Of128()
    ensures RoundGives(false, Quad(0x7806_e469, 0xf688_74c5, 0x004b_5f4a, 0x046b_bcfa),
                 XorQuad(W128.w1, Right31(W128.w2)), Quad(0x110f_93c9, 0xa630_cdd5, 0x1f97_d220, 0x2413_345a))
  {
  }

  lemma Round7Of128()
    ensures RoundGives(true, Quad(0x110f_93c9, 0xa630_cdd5, 0x1f97_d220, 0x2413_345a),
                 XorQuad(W128.w2, Right31(W128.w3)), Quad(0xe054_428e, 0xf088_fef9, 0x7928_241c, 0xd3be_499e))
  {
  }

  lemma Round8Of128()
    ensures RoundGives(false, Quad(0xe054_428e, 0xf088_fef9, 0x7928_241c, 0xd3be_499e),
                 XorQuad(W128.w3, Right31(W128.w0)), Quad(0x5734_f38e, 0xa1ca_3ddd, 0x102e_71f9, 0x5e1d_5f97))
  {
  }

  lemma Round9Of128()
    ensures RoundGives(true, Quad(0x5734_f38e, 0xa1ca_3ddd, 0x102e_71f9, 0x5e1d_5f97),
                 XorQuad(W128.w0, Right67(W128.w1)), Quad(0x4903_325b, 0xe3e5_00cc, 0xcd52_fba4, 0x354a_39ae))
  {
  }

  lemma Round10Of128()
    ensures RoundGives(false, Quad(0x4903_325b, 0xe3e5_00cc, 0xcd52_fba4, 0x354a_39ae),
                 XorQuad(W128.w1, Right67(W128.w2)), Quad(0xcb8c_508e, 0x2c4f_8788, 0x0639_dc89, 0x6d25_ec9d))
  {
  }

  lemma Round11Of128()
    ensures RoundGives(true, Quad(0xcb8c_508e, 0x2c4f_8788, 0x0639_dc89, 0x6d25_ec9d),
                 XorQuad(W128.w2, Right67(W128.w3)), Quad(0xe7e0_d245, 0x7ed7_3d23, 0xd481_4240, 0x95af_dca0))
  {
  }

  lemma LastRoundOf128()
    ensures XorQuad(XorQuad(W128.w0, Right97(W128.w1)), SubstituteQuad(false, XorQuad(XorQuad(W128.w3, Right67(W128.w0)),
              Quad(0xe7e0_d245, 0x7ed7_3d23, 0xd481_4240, 0x95af_dca0))))
      == Quad(0xd718_fbd6, 0xab64_4c73, 0x9da9_5f3b, 0xe645_1778)
  {
  }

  lemma RoundsOf128(i: nat)
    requires i < 11
    ensures RoundGives(i % 2 == 0, Text128(i), KeyQuad(W128, i), Text128(i + 1))
  {
    hide RoundGives, XorQuad, Right19, Right31, Right67, Right97, Right109;
    match i
    case 0 => Round1Of128();
    case 1 => Round2Of128();
    case 2 => Round3Of128();
    case 3 => Round4Of128();
    case 4 => Round5Of128();
    case 5 => Round6Of128();
    case 6 => Round7Of128();
    case 7 => Round8Of128();
    case 8 => Round9Of128();
    case 9 => Round10Of128();
    case _ => Round11Of128();
  }

  lemma KeyOf128(key: MasterKey)
    requires |key| == 16 && Counting(key)
    ensures HasRegisters(key, W128)
  {
    hide Has, RoundGives, XorQuad, KR, W1, W2, W3;
    FirstRegisterOf128();
    SecondRegisterOf128();
    ThirdRegisterOf128();
    ConstantsHave();
    SecondHalf(key);
    RegistersHave(key, Quad(0, 0, 0, 0), D1, D2, D3, W128);
  }

  // 128-bit key 0001..0f: 00112233445566778899aabbccddeeff becomes
  // d718fbd6ab644c739da95f3be6451778.
  lemma Answer128(key: MasterKey, p: Block)
    requires |key| == 16 && Counting(key) && Has(p, Quad(0x0011_2233, 0x4455_6677, 0x8899_aabb, 0xccdd_eeff))
    ensures Has(Encrypted(key, p), Quad(0xd718_fbd6, 0xab64_4c73, 0x9da9_5f3b, 0xe645_1778))
  {
    hide Has, RoundGives, SubstituteQuad, XorQuad, HasRegisters, Encrypted;
    hide Right19, Right31, Right67, Right97, Right109;
    KeyOf128(key);
    forall i: nat | i < 11
      ensures RoundGives(i % 2 == 0, Text128(i), KeyQuad(W128, i), Text128(i + 1))
    {
      RoundsOf128(i);
    }
    LastRoundOf128();
    CryptHas(p, key, W128, Text128, 12);
  }

  const W192 := Registers(
    Quad(0x0001_0203, 0x0405_0607, 0x0809_0a0b, 0x0c0d_0e0f),
    Quad(0xe48c_5230, 0x1e91_d991, 0xb649_ed7b, 0xb7cd_e8ad),
    Quad(0xa356_ea6c, 0xafe4_8697, 0x97a1_b4ee, 0xa56d_38cc),
    Quad(0xe189_8f2e, 0x0e62_6ccf, 0x1f58_bd50, 0x713c_93bb))

  function Text192(n: nat): Quad {
    if n == 0 then Quad(0x0011_2233, 0x4455_6677, 0x8899_aabb, 0xccdd_eeff)
    else if n == 1 then Quad(0xff0a_53eb, 0x839b_6868, 0x52da_d8cf, 0x18de_2cf2)
    else if n == 2 then Quad(0xee41_61aa, 0xc78a_e477, 0x50df_e66a, 0xff08_763b)
    else if n == 3 then Quad(0x7561_9b22, 0x90bb_f0fa, 0x4017_e4b1, 0xb523_a8c7)
    else if n == 4 then Quad(0x9f1c_c55f, 0xa9d7_5818, 0xf408_c225, 0x9ea6_2d2b)
    else if n == 5 then Quad(0x454e_7efa, 0x1988_f118, 0x2fa9_a316, 0xdde0_f831)
    else if n == 6 then Quad(0x88c3_9bb2, 0x9e7a_8333, 0x4998_a219, 0x01ab_e928)
    else if n == 7 then Quad(0xdeab_0665, 0xaacd_e8aa, 0xd1c1_986f, 0xf996_7c5e)
    else if n == 8 then Quad(0x9d81_12c9, 0x4f9e_6711, 0x187b_1a34, 0x487a_c5e5)
    else if n == 9 then Quad(0x297d_7655, 0x3d4b_984f, 0x3e8d_4ed5, 0x2464_459d)
    else if n == 10 then Quad(0xcd37_2f09, 0x7eb2_43c8, 0xc0ba_6c39, 0xb5c7_ac23)
    else if n == 11 then Quad(0x55f9_a19b, 0x5c91_e095, 0x7b6a_4f30, 0x49d7_bc0c)
    else if n == 12 then Quad(0xf0cf_94f7, 0x402d_0130, 0xff23_0552, 0x45ef_68ea)
    else Quad(0xa015_63f5, 0xea16_26ad, 0x9ac1_dcbf, 0x6931_456e)
  }

  lemma FirstRegisterOf192()
    ensures RoundGives(true, W192.w0, D2, XorQuad(W192.w1, Quad(HIGH.a, HIGH.b, 0, 0)))
  {
  }

  lemma SecondRegisterOf192()
    ensures RoundGives(false, W192.w1, D3, XorQuad(W192.w2, W192.w0))
  {
  }

  lemma ThirdRegisterOf192()
    ensures RoundGives(true, W192.w2, D1, XorQuad(W192.w3, W192.w1))
  {
  }

  lemma Round1Of192()
    ensures RoundGives(true, Quad(0x0011_2233, 0x4455_6677, 0x8899_aabb, 0xccdd_eeff),
                 XorQuad(W192.w0, Right19(W192.w1)), Quad(0xff0a_53eb, 0x839b_6868, 0x52da_d8cf, 0x18de_2cf2))
  {
  }

  lemma Round2Of192()
    ensures RoundGives(false, Quad(0xff0a_53eb, 0x839b_6868, 0x52da_d8cf, 0x18de_2cf2),
                 XorQuad(W192.w1, Right19(W192.w2)), Quad(0xee41_61aa, 0xc78a_e477, 0x50df_e66a, 0xff08_763b))
  {
  }

  lemma Round3Of192()
    ensures RoundGives(true, Quad(0xee41_61aa, 0xc78a_e477, 0x50df_e66a, 0xff08_763b),
                 XorQuad(W192.w2, Right19(W192.w3)), Quad(0x7561_9b22, 0x90bb_f0fa, 0x4017_e4b1, 0xb523_a8c7))
  {
  }

  lemma Round4Of192()
    ensures RoundGives(false, Quad(0x7561_9b22, 0x90bb_f0fa, 0x4017_e4b1, 0xb523_a8c7),
                 XorQuad(W192.w3, Right19(W192.w0)), Quad(0x9f1c_c55f, 0xa9d7_5818, 0xf408_c225, 0x9ea6_2d2b))
  {
  }

  lemma Round5Of192()
    ensures RoundGives(true, Quad(0x9f1c_c55f, 0xa9d7_5818, 0xf408_c225, 0x9ea6_2d2b),
                 XorQuad(W192.w0, Right31(W192.w1)), Quad(0x454e_7efa, 0x1988_f118, 0x2fa9_a316, 0xdde0_f831))
  {
  }

  lemma Round6Of192()
    ensures RoundGives(false, Quad(0x454e_7efa, 0x1988_f118, 0x2fa9_a316, 0xdde0_f831),
                 XorQuad(W192.w1, Right31(W192.w2)), Quad(0x88c3_9bb2, 0x9e7a_8333, 0x4998_a219, 0x01ab_e928))
  {
  }

  lemma Round7Of192()
    ensures RoundGives(true, Quad(0x88c3_9bb2, 0x9e7a_8333, 0x4998_a219, 0x01ab_e928),
                 XorQuad(W192.w2, Right31(W192.w3)), Quad(0xdeab_0665, 0xaacd_e8aa, 0xd1c1_986f, 0xf996_7c5e))
  {
  }

  lemma Round8Of192()
    ensures RoundGives(false, Quad(0xdeab_0665, 0xaacd_e8aa, 0xd1c1_986f, 0xf996_7c5e),
                 XorQuad(W192.w3, Right31(W192.w0)), Quad(0x9d81_12c9, 0x4f9e_6711, 0x187b_1a34, 0x487a_c5e5))
  {
  }

  lemma Round9Of192()
    ensures RoundGives(true, Quad(0x9d81_12c9, 0x4f9e_6711, 0x187b_1a34, 0x487a_c5e5),
                 XorQuad(W192.w0, Right67(W192.w1)), Quad(0x297d_7655, 0x3d4b_984f, 0x3e8d_4ed5, 0x2464_459d))
  {
  }

  lemma Round10Of192()
    ensures RoundGives(false, Quad(0x297d_7655, 0x3d4b_984f, 0x3e8d_4ed5, 0x2464_459d),
                 XorQuad(W192.w1, Right67(W192.w2)), Quad(0xcd37_2f09, 0x7eb2_43c8, 0xc0ba_6c39, 0xb5c7_ac23))
  {
  }

  lemma Round11Of192()
    ensures RoundGives(true, Quad(0xcd37_2f09, 0x7eb2_43c8, 0xc0ba_6c39, 0xb5c7_ac23),
                 XorQuad(W192.w2, Right67(W192.w3)), Quad(0x55f9_a19b, 0x5c91_e095, 0x7b6a_4f30, 0x49d7_bc0c))
  {
  }

  lemma Round12Of192()
    ensures RoundGives(false, Quad(0x55f9_a19b, 0x5c91_e095, 0x7b6a_4f30, 0x49d7_bc0c),
                 XorQuad(W192.w3, Right67(W192.w0)), Quad(0xf0cf_94f7, 0x402d_0130, 0xff23_0552, 0x45ef_68ea))
  {
  }

  lemma Round13Of192()
    ensures RoundGives(true, Quad(0xf0cf_94f7, 0x402d_0130, 0xff23_0552, 0x45ef_68ea),
                 XorQuad(W192.w0, Right97(W192.w1)), Quad(0xa015_63f5, 0xea16_26ad, 0x9ac1_dcbf, 0x6931_456e))
  {
  }

  lemma LastRoundOf192()
    ensures XorQuad(XorQuad(W192.w2, Right97(W192.w3)), SubstituteQuad(false, XorQuad(XorQuad(W192.w1, Right97(W192.w2)),
              Quad(0xa015_63f5, 0xea16_26ad, 0x9ac1_dcbf, 0x6931_456e))))
      == Quad(0x2644_9c18, 0x05db_e7aa, 0x25a4_68ce, 0x263a_9e79)
  {
  }

  lemma RoundsOf192(i: nat)
    requires i < 13
    ensures RoundGives(i % 2 == 0, Text192(i), KeyQuad(W192, i), Text192(i + 1))
  {
    hide RoundGives, XorQuad, Right19, Right31, Right67, Right97, Right109;
    match i
    case 0 => Round1Of192();
    case 1 => Round2Of192();
    case 2 => Round3Of192();
    case 3 => Round4Of192();
    case 4 => Round5Of192();
    case 5 => Round6Of192();
    case 6 => Round7Of192();
    case 7 => Round8Of192();
    case 8 => Round9Of192();
    case 9 => Round10Of192();
    case 10 => Round11Of192();
    case 11 => Round12Of192();
    case _ => Round13Of192();
  }

  lemma KeyOf192(key: MasterKey)
    requires |key| == 24 && Counting(key)
    ensures HasRegisters(key, W192)
  {
    hide Has, RoundGives, XorQuad, KR, W1, W2, W3;
    FirstRegisterOf192();
    SecondRegisterOf192();
    ThirdRegisterOf192();
    ConstantsHave();
    SecondHalf(key);
    RegistersHave(key, Quad(HIGH.a, HIGH.b, 0, 0), D2, D3, D1, W192);
  }

  // 192-bit key 0001..17: 00112233445566778899aabbccddeeff becomes
  // 26449c1805dbe7aa25a468ce263a9e79.
  lemma Answer192(key: MasterKey, p: Block)
    requires |key| == 24 && Counting(key) && Has(p, Quad(0x0011_2233, 0x4455_6677, 0x8899_aabb, 0xccdd_eeff))
    ensures Has(Encrypted(key, p), Quad(0x2644_9c18, 0x05db_e7aa, 0x25a4_68ce, 0x263a_9e79))
  {
    hide Has, RoundGives, SubstituteQuad, XorQuad, HasRegisters, Encrypted;
    hide Right19, Right31, Right67, Right97, Right109;
    KeyOf192(key);
    forall i: nat | i < 13
      ensures RoundGives(i % 2 == 0, Text192(i), KeyQuad(W192, i), Text192(i + 1))
    {
      RoundsOf192(i);
    }
    LastRoundOf192();
    CryptHas(p, key, W192, Text192, 14);
  }

  const W256 := Registers(
    Quad(0x0001_0203, 0x0405_0607, 0x0809_0a0b, 0x0c0d_0e0f),
    Quad(0x1516_9e6e, 0xc54a_af0c, 0x9754_14fe, 0xad1c_71f3),
    Quad(0x90ec_92c2, 0xa800_405a, 0xf993_89e9, 0xc88b_4e62),
    Quad(0xb68c_d7a1, 0xba16_abee, 0x905f_7009, 0xa8e9_68a9))

  function Text256(n: nat): Quad {
    if n == 0 then Quad(0x0011_2233, 0x4455_6677, 0x8899_aabb, 0xccdd_eeff)
    else if n == 1 then Quad(0x6473_9617, 0xaa29_7fe4, 0x6a51_4691, 0x9209_e915)
    else if n == 2 then Quad(0xf01c_2fdb, 0x0bcc_bf37, 0xa8bf_5f2e, 0x9c03_4ffb)
    else if n == 3 then Quad(0xc7ee_bca8, 0xe1e6_fd2e, 0x73e9_f57d, 0xe119_d455)
    else if n == 4 then Quad(0x6c7c_e71d, 0xfc22_0618, 0x6154_6c85, 0xa30d_bff1)
    else if n == 5 then Quad(0x97f9_6395, 0x3737_9423, 0x6936_2139, 0x2e83_efc9)
    else if n == 6 then Quad(0x7a4c_3f38, 0x7ed4_0316, 0x7060_95ea, 0x3ce8_3f9d)
    else if n == 7 then Quad(0xeab8_9889, 0xe839_8c8a, 0x38fa_340c, 0x982d_e87d)
    else if n == 8 then Quad(0x9e1d_6512, 0x590a_7300, 0x35ca_f4a4, 0x31d2_93bb)
    else if n == 9 then Quad(0x75cb_1bab, 0x78f6_98e5, 0xbfb0_77c2, 0x0629_93b2)
    else if n == 10 then Quad(0x203c_974b, 0x18b7_434d, 0xe855_954e, 0xb2d0_58b1)
    else if n == 11 then Quad(0xa5b3_15cd, 0x2420_6c9c, 0x2ed5_049b, 0xfbc5_11a3)
    else if n == 12 then Quad(0xc6ba_5f72, 0x01f9_596a, 0x1d2d_3aae, 0x33e4_fa54)
    else if n == 13 then Quad(0xfbfe_7a26, 0xaf3b_e9cb, 0x0fa8_452a, 0xf1bb_3585)
    else if n == 14 then Quad(0x6971_d8a1, 0x2181_8c61, 0x3e03_5108, 0xd445_b44d)
    else Quad(0x531d_29e5, 0x2f0e_5ab9, 0x498e_cc4d, 0xd299_f8f0)
  }

  lemma FirstRegisterOf256()
    ensures RoundGives(true, W256.w0, D3, XorQuad(W256.w1, HIGH))
  {
  }

  lemma SecondRegisterOf256()
    ensures RoundGives(false, W256.w1, D1, XorQuad(W256.w2, W256.w0))
  {
  }

  lemma ThirdRegisterOf256()
    ensures RoundGives(true, W256.w2, D2, XorQuad(W256.w3, W256.w1))
  {
  }

  lemma Round1Of256()
    ensures RoundGives(true, Quad(0x0011_2233, 0x4455_6677, 0x8899_aabb, 0xccdd_eeff),
                 XorQuad(W256.w0, Right19(W256.w1)), Quad(0x6473_9617, 0xaa29_7fe4, 0x6a51_4691, 0x9209_e915))
  {
  }

  lemma Round2Of256()
    ensures RoundGives(false, Quad(0x6473_9617, 0xaa29_7fe4, 0x6a51_4691, 0x9209_e915),
                 XorQuad(W256.w1, Right19(W256.w2)), Quad(0xf01c_2fdb, 0x0bcc_bf37, 0xa8bf_5f2e, 0x9c03_4ffb))
  {
  }

  lemma Round3Of256()
    ensures RoundGives(true, Quad(0xf01c_2fdb, 0x0bcc_bf37, 0xa8bf_5f2e, 0x9c03_4ffb),
                 XorQuad(W256.w2, Right19(W256.w3)), Quad(0xc7ee_bca8, 0xe1e6_fd2e, 0x73e9_f57d, 0xe119_d455))
  {
  }

  lemma Round4Of256()
    ensures RoundGives(false, Quad(0xc7ee_bca8, 0xe1e6_fd2e, 0x73e9_f57d, 0xe119_d455),
                 XorQuad(W256.w3, Right19(W256.w0)), Quad(0x6c7c_e71d, 0xfc22_0618, 0x6154_6c85, 0xa30d_bff1))
  {
  }

  lemma Round5Of256()
    ensures RoundGives(true, Quad(0x6c7c_e71d, 0xfc22_0618, 0x6154_6c85, 0xa30d_bff1),
                 XorQuad(W256.w0, Right31(W256.w1)), Quad(0x97f9_6395, 0x3737_9423, 0x6936_2139, 0x2e83_efc9))
  {
  }

  lemma Round6Of256()
    ensures RoundGives(false, Quad(0x97f9_6395, 0x3737_9423, 0x6936_2139, 0x2e83_efc9),
                 XorQuad(W256.w1, Right31(W256.w2)), Quad(0x7a4c_3f38, 0x7ed4_0316, 0x7060_95ea, 0x3ce8_3f9d))
  {
  }

  lemma Round7Of256()
    ensures RoundGives(true, Quad(0x7a4c_3f38, 0x7ed4_0316, 0x7060_95ea, 0x3ce8_3f9d),
                 XorQuad(W256.w2, Right31(W256.w3)), Quad(0xeab8_9889, 0xe839_8c8a, 0x38fa_340c, 0x982d_e87d))
  {
  }

  lemma Round8Of256()
    ensures RoundGives(false, Quad(0xeab8_9889, 0xe839_8c8a, 0x38fa_340c, 0x982d_e87d),
                 XorQuad(W256.w3, Right31(W256.w0)), Quad(0x9e1d_6512, 0x590a_7300, 0x35ca_f4a4, 0x31d2_93bb))
  {
  }

  lemma Round9Of256()
    ensures RoundGives(true, Quad(0x9e1d_6512, 0x590a_7300, 0x35ca_f4a4, 0x31d2_93bb),
                 XorQuad(W256.w0, Right67(W256.w1)), Quad(0x75cb_1bab, 0x78f6_98e5, 0xbfb0_77c2, 0x0629_93b2))
  {
  }

  lemma Round10Of256()
    ensures RoundGives(false, Quad(0x75cb_1bab, 0x78f6_98e5, 0xbfb0_77c2, 0x0629_93b2),
                 XorQuad(W256.w1, Right67(W256.w2)), Quad(0x203c_974b, 0x18b7_434d, 0xe855_954e, 0xb2d0_58b1))
  {
  }

  lemma Round11Of256()
    ensures RoundGives(true, Quad(0x203c_974b, 0x18b7_434d, 0xe855_954e, 0xb2d0_58b1),
                 XorQuad(W256.w2, Right67(W256.w3)), Quad(0xa5b3_15cd, 0x2420_6c9c, 0x2ed5_049b, 0xfbc5_11a3))
  {
  }

  lemma Round12Of256()
    ensures RoundGives(false, Quad(0xa5b3_15cd, 0x2420_6c9c, 0x2ed5_049b, 0xfbc5_11a3),
                 XorQuad(W256.w3, Right67(W256.w0)), Quad(0xc6ba_5f72, 0x01f9_596a, 0x1d2d_3aae, 0x33e4_fa54))
  {
  }

  lemma Round13Of256()
    ensures RoundGives(true, Quad(0xc6ba_5f72, 0x01f9_596a, 0x1d2d_3aae, 0x33e4_fa54),
                 XorQuad(W256.w0, Right97(W256.w1)), Quad(0xfbfe_7a26, 0xaf3b_e9cb, 0x0fa8_452a, 0xf1bb_3585))
  {
  }

  lemma Round14Of256()
    ensures RoundGives(false, Quad(0xfbfe_7a26, 0xaf3b_e9cb, 0x0fa8_452a, 0xf1bb_3585),
                 XorQuad(W256.w1, Right97(W256.w2)), Quad(0x6971_d8a1, 0x2181_8c61, 0x3e03_5108, 0xd445_b44d))
  {
  }

  lemma Round15Of256()
    ensures RoundGives(true, Quad(0x6971_d8a1, 0x2181_8c61, 0x3e03_5108, 0xd445_b44d),
                 XorQuad(W256.w2, Right97(W256.w3)), Quad(0x531d_29e5, 0x2f0e_5ab9, 0x498e_cc4d, 0xd299_f8f0))
  {
  }

  lemma LastRoundOf256()
    ensures XorQuad(XorQuad(W256.w0, Right109(W256.w1)), SubstituteQuad(false, XorQuad(XorQuad(W256.w3, Right97(W256.w0)),
              Quad(0x531d_29e5, 0x2f0e_5ab9, 0x498e_cc4d, 0xd299_f8f0))))
      == Quad(0xf92b_d7c7, 0x9fb7_2e2f, 0x2b8f_80c1, 0x972d_24fc)
  {
  }

  lemma RoundsOf256(i: nat)
    requires i < 15
    ensures RoundGives(i % 2 == 0, Text256(i), KeyQuad(W256, i), Text256(i + 1))
  {
    hide RoundGives, XorQuad, Right19, Right31, Right67, Right97, Right109;
    match i
    case 0 => Round1Of256();
    case 1 => Round2Of256();
    case 2 => Round3Of256();
    case 3 => Round4Of256();
    case 4 => Round5Of256();
    case 5 => Round6Of256();
    case 6 => Round7Of256();
    case 7 => Round8Of256();
    case 8 => Round9Of256();
    case 9 => Round10Of256();
    case 10 => Round11Of256();
    case 11 => Round12Of256();
    case 12 => Round13Of256();
    case 13 => Round14Of256();
    case _ => Round15Of256();
  }

  lemma KeyOf256(key: MasterKey)
    requires |key| == 32 && Counting(key)
    ensures HasRegisters(key, W256)
  {
    hide Has, RoundGives, XorQuad, KR, W1, W2, W3;
    FirstRegisterOf256();
    SecondRegisterOf256();
    ThirdRegisterOf256();
    ConstantsHave();
    SecondHalf(key);
    RegistersHave(key, HIGH, D3, D1, D2, W256);
  }

  // 256-bit key 0001..1f: 00112233445566778899aabbccddeeff becomes
  // f92bd7c79fb72e2f2b8f80c1972d24fc.
  lemma Answer256(key: MasterKey, p: Block)
    requires |key| == 32 && Counting(key) && Has(p, Quad(0x0011_2233, 0x4455_6677, 0x8899_aabb, 0xccdd_eeff))
    ensures Has(Encrypted(key, p), Quad(0xf92b_d7c7, 0x9fb7_2e2f, 0x2b8f_80c1, 0x972d_24fc))
  {
    hide Has, RoundGives, SubstituteQuad, XorQuad, HasRegisters, Encrypted;
    hide Right19, Right31, Right67, Right97, Right109;
    KeyOf256(key);
    forall i: nat | i < 15
      ensures RoundGives(i % 2 == 0, Text256(i), KeyQuad(W256, i), Text256(i + 1))
    {
      RoundsOf256(i);
    }
    LastRoundOf256();
    CryptHas(p, key, W256, Text256, 16);
  }
}
