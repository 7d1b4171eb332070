// ARIA_core.c: the block cipher on byte buffers, updated in place.
module Aria {
  import opened Blocks
  import opened AriaDiffusion
  import opened AriaCipher
  import opened AriaSchedule

  ghost predicate Apart(a: array<bv8>, s: nat, b: array<bv8>, d: nat) {
    a != b || s + 16 <= d || d + 16 <= s
  }

  // The sixteen bytes at offset o are those of x.
  ghost predicate Holds(a: array<bv8>, o: nat, x: Block)
    requires o + 16 <= a.Length
    reads a
  {
    forall k :: 0 <= k < 16 ==> a[o + k] == x.at[k]
  }

  ghost predicate RowsDone0(x: Block, o: array<bv8>, d: nat)
    requires d + 16 <= o.Length
    reads o
  {
    var T := Mix(x.at[3], x.at[4], x.at[9], x.at[14]);
    && o[d + 0] == Mix(x.at[6], x.at[8], x.at[13], T)
    && o[d + 5] == Mix(x.at[1], x.at[10], x.at[15], T)
    && o[d + 11] == Mix(x.at[2], x.at[7], x.at[12], T)
    && o[d + 14] == Mix(x.at[0], x.at[5], x.at[11], T)
  }

  ghost predicate RowsDone1(x: Block, o: array<bv8>, d: nat)
    requires d + 16 <= o.Length
    reads o
  {
    var T := Mix(x.at[2], x.at[5], x.at[8], x.at[15]);
    && o[d + 1] == Mix(x.at[7], x.at[9], x.at[12], T)
    && o[d + 4] == Mix(x.at[0], x.at[11], x.at[14], T)
    && o[d + 10] == Mix(x.at[3], x.at[6], x.at[13], T)
    && o[d + 15] == Mix(x.at[1], x.at[4], x.at[10], T)
  }

  ghost predicate RowsDone2(x: Block, o: array<bv8>, d: nat)
    requires d + 16 <= o.Length
    reads o
  {
    var T := Mix(x.at[1], x.at[6], x.at[11], x.at[12]);
    && o[d + 2] == Mix(x.at[4], x.at[10], x.at[15], T)
    && o[d + 7] == Mix(x.at[3], x.at[8], x.at[13], T)
    && o[d + 9] == Mix(x.at[0], x.at[5], x.at[14], T)
    && o[d + 12] == Mix(x.at[2], x.at[7], x.at[9], T)
  }

  ghost predicate RowsDone3(x: Block, o: array<bv8>, d: nat)
    requires d + 16 <= o.Length
    reads o
  {
    var T := Mix(x.at[0], x.at[7], x.at[10], x.at[13]);
    && o[d + 3] == Mix(x.at[5], x.at[11], x.at[14], T)
    && o[d + 6] == Mix(x.at[2], x.at[9], x.at[12], T)
    && o[d + 8] == Mix(x.at[1], x.at[4], x.at[15], T)
    && o[d + 13] == Mix(x.at[3], x.at[6], x.at[8], T)
  }

  // The four groups of rows determine the diffused block.
  lemma RowsDetermineBlock(x: Block, o: array<bv8>, d: nat)
    requires d + 16 <= o.Length
    requires RowsDone0(x, o, d) && RowsDone1(x, o, d) && RowsDone2(x, o, d) && RowsDone3(x, o, d)
    ensures BlockAt(o, d) == Diffuse(x)
  {
    hide Mix, Diffuse;
    Output0(x); Output5(x); Output11(x); Output14(x);
    Output1(x); Output4(x); Output10(x); Output15(x);
    Output2(x); Output7(x); Output9(x); Output12(x);
    Output3(x); Output6(x); Output8(x); Output13(x);
    assert o[d..d + 16] == Diffuse(x).at;
  }

  // Output bytes 0, 5, 11 and 14 share the term T.
  method DLPart0(i: array<bv8>, s: nat, o: array<bv8>, d: nat, ghost x: Block)
    requires s + 16 <= i.Length && d + 16 <= o.Length
    requires Apart(i, s, o, d) ==> Holds(i, s, x)
    modifies o
    ensures Apart(i, s, o, d) ==> Holds(i, s, x) && RowsDone0(x, o, d)
    ensures forall k :: 0 <= k < o.Length && k != d + 0 && k != d + 5 && k != d + 11 && k != d + 14 ==> o[k] == old(o[k])
  {
    hide Mix;
    var T := Mix(i[s + 3], i[s + 4], i[s + 9], i[s + 14]);
    o[d + 0] := Mix(i[s + 6], i[s + 8], i[s + 13], T);
    assert Apart(i, s, o, d) ==> Holds(i, s, x);
    o[d + 5] := Mix(i[s + 1], i[s + 10], i[s + 15], T);
    assert Apart(i, s, o, d) ==> Holds(i, s, x);
    o[d + 11] := Mix(i[s + 2], i[s + 7], i[s + 12], T);
    assert Apart(i, s, o, d) ==> Holds(i, s, x);
    o[d + 14] := Mix(i[s + 0], i[s + 5], i[s + 11], T);
  }

  // Output bytes 1, 4, 10 and 15 share the term T.
  method DLPart1(i: array<bv8>, s: nat, o: array<bv8>, d: nat, ghost x: Block)
    requires s + 16 <= i.Length && d + 16 <= o.Length
    requires Apart(i, s, o, d) ==> Holds(i, s, x)
    modifies o
    ensures Apart(i, s, o, d) ==> Holds(i, s, x) && RowsDone1(x, o, d)
    ensures forall k :: 0 <= k < o.Length && k != d + 1 && k != d + 4 && k != d + 10 && k != d + 15 ==> o[k] == old(o[k])
  {
    hide Mix;
    var T := Mix(i[s + 2], i[s + 5], i[s + 8], i[s + 15]);
    o[d + 1] := Mix(i[s + 7], i[s + 9], i[s + 12], T);
    assert Apart(i, s, o, d) ==> Holds(i, s, x);
    o[d + 4] := Mix(i[s + 0], i[s + 11], i[s + 14], T);
    assert Apart(i, s, o, d) ==> Holds(i, s, x);
    o[d + 10] := Mix(i[s + 3], i[s + 6], i[s + 13], T);
    assert Apart(i, s, o, d) ==> Holds(i, s, x);
    o[d + 15] := Mix(i[s + 1], i[s + 4], i[s + 10], T);
  }

  // Output bytes 2, 7, 9 and 12 share the term T.
  method DLPart2(i: array<bv8>, s: nat, o: array<bv8>, d: nat, ghost x: Block)
    requires s + 16 <= i.Length && d + 16 <= o.Length
    requires Apart(i, s, o, d) ==> Holds(i, s, x)
    modifies o
    ensures Apart(i, s, o, d) ==> Holds(i, s, x) && RowsDone2(x, o, d)
    ensures forall k :: 0 <= k < o.Length && k != d + 2 && k != d + 7 && k != d + 9 && k != d + 12 ==> o[k] == old(o[k])
  {
    hide Mix;
    var T := Mix(i[s + 1], i[s + 6], i[s + 11], i[s + 12]);
    o[d + 2] := Mix(i[s + 4], i[s + 10], i[s + 15], T);
    assert Apart(i, s, o, d) ==> Holds(i, s, x);
    o[d + 7] := Mix(i[s + 3], i[s + 8], i[s + 13], T);
    assert Apart(i, s, o, d) ==> Holds(i, s, x);
    o[d + 9] := Mix(i[s + 0], i[s + 5], i[s + 14], T);
    assert Apart(i, s, o, d) ==> Holds(i, s, x);
    o[d + 12] := Mix(i[s + 2], i[s + 7], i[s + 9], T);
  }

  // Output bytes 3, 6, 8 and 13 share the term T.
  method DLPart3(i: array<bv8>, s: nat, o: array<bv8>, d: nat, ghost x: Block)
    requires s + 16 <= i.Length && d + 16 <= o.Length
    requires Apart(i, s, o, d) ==> Holds(i, s, x)
    modifies o
    ensures Apart(i, s, o, d) ==> Holds(i, s, x) && RowsDone3(x, o, d)
    ensures forall k :: 0 <= k < o.Length && k != d + 3 && k != d + 6 && k != d + 8 && k != d + 13 ==> o[k] == old(o[k])
  {
    hide Mix;
    var T := Mix(i[s + 0], i[s + 7], i[s + 10], i[s + 13]);
    o[d + 3] := Mix(i[s + 5], i[s + 11], i[s + 14], T);
    assert Apart(i, s, o, d) ==> Holds(i, s, x);
    o[d + 6] := Mix(i[s + 2], i[s + 9], i[s + 12], T);
    assert Apart(i, s, o, d) ==> Holds(i, s, x);
    o[d + 8] := Mix(i[s + 1], i[s + 4], i[s + 15], T);
    assert Apart(i, s, o, d) ==> Holds(i, s, x);
    o[d + 13] := Mix(i[s + 3], i[s + 6], i[s + 8], T);
  }

  // DL: the four shared terms, each used for four output bytes. When the two blocks overlap,
  // the output is whatever the interleaved reads and writes leave there.
  method DL(i: array<bv8>, s: nat, o: array<bv8>, d: nat)
    requires s + 16 <= i.Length && d + 16 <= o.Length
    modifies o
    ensures Apart(i, s, o, d) ==> BlockAt(o, d) == Diffuse(old(BlockAt(i, s)))
    ensures OnlyBlockChanged(o, d)
  {
    hide Mix, Diffuse;
    ghost var x := BlockAt(i, s);
    DLPart0(i, s, o, d, x);
    DLPart1(i, s, o, d, x);
    DLPart2(i, s, o, d, x);
    DLPart3(i, s, o, d, x);
    if Apart(i, s, o, d) {
      RowsDetermineBlock(x, o, d);
    }
  }

  // ---------------------------------------------------------------------------------------
  // RotXOR

  // What the first i source bytes contribute to target byte j.
  ghost function Part(x: Block, n: nat, i: nat, j: nat): bv8
    requires n < 128 && i <= 16 && j < 16
  {
    var low, high := Back(j, n / 8), Back(j, n / 8 + 1);
    (if low < i then Kept(x.at[low], Amount(n % 8)) else 0) ^
    (if high < i then Pushed(x.at[high], Amount(n % 8)) else 0)
  }

  lemma BackAtStep(q: nat, i: nat, j: nat)
    requires q < 16 && i < 16 && j < 16
    ensures Back(j, q) == i <==> j == (q + i) % 16
    ensures Back(j, q + 1) == i <==> j == (q + i + 1) % 16
    ensures Back(j, q) != Back(j, q + 1)
  {
  }

  lemma NothingPushed(b: bv8, n: nat)
    ensures n % 8 == 0 ==> Pushed(b, Amount(n % 8)) == 0
  {
  }

  lemma PartStep(x: Block, n: nat, i: nat, j: nat)
    requires n < 128 && i < 16 && j < 16
    ensures Part(x, n, i + 1, j) == Part(x, n, i, j) ^ Added(x, n, i, j)
  {
    hide Amount, Back, Kept, Pushed;
    BackAtStep(n / 8, i, j);
    var low, high := Back(j, n / 8), Back(j, n / 8 + 1);
    if low == i {
      assert (low < i + 1) && !(low < i);
    } else if high == i {
      assert (high < i + 1) && !(high < i);
    }
  }

  lemma PartEnd(x: Block, n: nat, j: nat)
    requires n < 128 && j < 16
    ensures Part(x, n, 0, j) == 0
    ensures Part(x, n, 16, j) == RotateRight(x, n).at[j]
  {
    hide Amount, Back, Kept, Pushed;
  }

  // Every target byte holds y plus what the first i source bytes contribute.
  ghost predicate Rotated(t: array<bv8>, o: nat, x: Block, y: Block, n: nat, i: nat)
    requires o + 16 <= t.Length && n < 128 && i <= 16
    reads t
  {
    forall j :: 0 <= j < 16 ==> t[o + j] == y.at[j] ^ Part(x, n, i, j)
  }

  // What byte i of the source adds to target byte j.
  ghost function Added(x: Block, n: nat, i: nat, j: nat): bv8
    requires n < 128 && i < 16
  {
    if j == (n / 8 + i) % 16 then Kept(x.at[i], Amount(n % 8))
    else if j == (n / 8 + i + 1) % 16 then Pushed(x.at[i], Amount(n % 8)) else 0
  }

  lemma RotatedStep(t: array<bv8>, o: nat, x: Block, y: Block, n: nat, i: nat, was: Block)
    requires o + 16 <= t.Length && n < 128 && i < 16
    requires forall j :: 0 <= j < 16 ==> was.at[j] == y.at[j] ^ Part(x, n, i, j)
    requires forall j :: 0 <= j < 16 ==> t[o + j] == was.at[j] ^ Added(x, n, i, j)
    ensures Rotated(t, o, x, y, n, i + 1)
  {
    hide Part, Added;
    forall j | 0 <= j < 16
      ensures t[o + j] == y.at[j] ^ Part(x, n, i + 1, j)
    {
      PartStep(x, n, i, j);
      assert t[o + j] == (y.at[j] ^ Part(x, n, i, j)) ^ Added(x, n, i, j);
    }
  }

  // Two different bytes of a block are added to; the second only when the shift is not zero.
  method XorPair(t: array<bv8>, j0: nat, kept: bv8, j1: nat, pushed: bv8, shifted: bool)
    requires j0 < t.Length && j1 < t.Length && j0 != j1
    requires !shifted ==> pushed == 0
    modifies t
    ensures t[j0] == old(t[j0]) ^ kept && t[j1] == old(t[j1]) ^ pushed
    ensures forall j :: 0 <= j < t.Length && j != j0 && j != j1 ==> t[j] == old(t[j])
  {
    t[j0] := t[j0] ^ kept;
    if shifted {
      t[j1] := t[j1] ^ pushed;
    }
  }

  // One source byte goes into two neighbouring target bytes.
  method RotXORStep(v: bv8, n: nat, t: array<bv8>, o: nat, i: nat, ghost x: Block, ghost y: Block)
    requires o + 16 <= t.Length && n < 128 && i < 16 && v == x.at[i]
    requires Rotated(t, o, x, y, n, i)
    modifies t
    ensures Rotated(t, o, x, y, n, i + 1)
    ensures OnlyBlockChanged(t, o)
  {
    hide Amount, Part, Kept, Pushed;
    var q := n / 8;
    var r := Amount(n % 8);
    ghost var was := BlockAt(t, o);
    NothingPushed(v, n);
    var j0, j1 := (q + i) % 16, (q + i + 1) % 16;
    XorPair(t, o + j0, Kept(v, r), o + j1, Pushed(v, r), n % 8 != 0);
    forall j | 0 <= j < 16
      ensures t[o + j] == was.at[j] ^ Added(x, n, i, j)
    {
      if j == j0 {
      } else if j == j1 {
      } else {
        assert t[o + j] == old(t[o + j]);
      }
    }
    RotatedStep(t, o, x, y, n, i, was);
  }

  // Right-rotate the 128-bit source by n bits and add it to the target block.
  method RotXOR(s: array<bv8>, n: nat, t: array<bv8>, o: nat)
    requires s != t && 16 <= s.Length && o + 16 <= t.Length && n < 128
    modifies t
    ensures BlockAt(t, o) == Xor(old(BlockAt(t, o)), RotateRight(BlockAt(s, 0), n))
    ensures OnlyBlockChanged(t, o)
  {
    hide Amount, Back, Part, RotateRight;
    ghost var x, y := BlockAt(s, 0), BlockAt(t, o);
    forall j | 0 <= j < 16
      ensures t[o + j] == y.at[j] ^ Part(x, n, 0, j)
    {
      PartEnd(x, n, j);
    }
    for i := 0 to 16
      invariant Rotated(t, o, x, y, n, i)
      invariant OnlyBlockChanged(t, o)
    {
      RotXORStep(s[i], n, t, o, i, x, y);
    }
    forall j | 0 <= j < 16
      ensures t[o + j] == Xor(y, RotateRight(x, n)).at[j]
    {
      PartEnd(x, n, j);
    }
    assert t[o..o + 16] == Xor(y, RotateRight(x, n)).at;
  }

  // ---------------------------------------------------------------------------------------
  // AriaCore_EncKeySetup

  // t[i] = S[row(i)][key[i] ^ w[i]]
  method SubstituteWithKey(odd: bool, key: array<bv8>, k: nat, w: array<bv8>, t: array<bv8>)
    requires k + 16 <= key.Length && 16 <= w.Length && t.Length == 16 && t != w && t != key
    modifies t
    ensures BlockAt(t, 0) == Substitute(odd, Xor(BlockAt(key, k), BlockAt(w, 0)))
  {
    hide Box;
    ghost var goal := Substitute(odd, Xor(BlockAt(key, k), BlockAt(w, 0)));
    for j := 0 to 16
      invariant forall i :: 0 <= i < j ==> t[i] == goal.at[i]
    {
      t[j] := Box(if odd then j % 4 else (2 + j) % 4, key[k + j] ^ w[j]);
    }
    assert t[0..16] == goal.at;
  }

  // w[i] ^= v[s + i] for the first n bytes
  method AddBytes(w: array<bv8>, v: array<bv8>, s: nat, n: nat)
    requires w.Length == 16 && n <= 16 && s + n <= v.Length && w != v
    modifies w
    ensures BlockAt(w, 0) == Xor(old(BlockAt(w, 0)), Padded(v[s..s + n]))
  {
    ghost var was, tail := BlockAt(w, 0), Padded(v[s..s + n]);
    for j := 0 to n
      invariant forall i :: 0 <= i < 16 ==> w[i] == old(w[i]) ^ (if i < j then v[s + i] else 0)
    {
      w[j] := w[j] ^ v[s + j];
    }
    forall i | 0 <= i < 16
      ensures w[i] == Xor(was, tail).at[i]
    {
      assert tail.at[i] == if i < n then v[s + i] else 0;
    }
    SameBlock(w, 0, Xor(was, tail));
  }

  // w = DL(S(key ^ v))
  method RoundInto(odd: bool, key: array<bv8>, v: array<bv8>, t: array<bv8>, w: array<bv8>)
    requires key.Length == 16 && 16 <= v.Length && t.Length == 16 && w.Length == 16
    requires t != v && t != key && w != t
    modifies t, w
    ensures BlockAt(w, 0) == Round(odd, old(BlockAt(v, 0)), old(BlockAt(key, 0)))
  {
    hide Substitute, Diffuse;
    SubstituteWithKey(odd, key, 0, v, t);
    DL(t, 0, w, 0);
  }

  ghost predicate ZeroFrom(e: array<bv8>, lo: nat, hi: nat)
    requires hi <= e.Length
    reads e
  {
    forall j :: lo <= j < hi ==> e[j] == 0
  }

  lemma RotateByZero(x: Block)
    ensures RotateRight(x, 0) == x
  {
    assert RotateRight(x, 0).at == x.at;
  }

  lemma XorZero(z: Block, x: Block)
    requires forall j :: 0 <= j < 16 ==> z.at[j] == 0
    ensures Xor(z, x) == x
  {
    assert Xor(z, x).at == x.at;
  }

  // Two RotXOR calls on a zeroed slot put one round key there.
  method PutRoundKey(a: array<bv8>, b: array<bv8>, n: nat, e: array<bv8>, k: nat, ghost keys: seq<Block>, ghost top: nat)
    requires 16 <= a.Length && 16 <= b.Length && a != e && b != e && n < 128
    requires k < |keys| && 16 * k + 16 <= top <= e.Length
    requires keys[k] == RoundKey(BlockAt(a, 0), BlockAt(b, 0), n)
    requires BlocksWritten(e, keys, k) && ZeroFrom(e, 16 * k, top)
    modifies e
    ensures BlocksWritten(e, keys, k + 1) && ZeroFrom(e, 16 * k + 16, top)
    ensures forall j :: top <= j < e.Length ==> e[j] == old(e[j])
  {
    hide Xor, RotateRight;
    XorZero(BlockAt(e, 16 * k), RotateRight(BlockAt(a, 0), 0));
    RotXOR(a, 0, e, 16 * k);
    RotateByZero(BlockAt(a, 0));
    RotXOR(b, n, e, 16 * k);
    forall i | 0 <= i < k
      ensures BlockAt(e, 16 * i) == keys[i]
    {
      assert e[16 * i..16 * i + 16] == old(e[16 * i..16 * i + 16]);
    }
  }

  // Row q of the constants, as a buffer.
  method KRK(q: nat) returns (row: array<bv8>)
    requires q < 3
    ensures fresh(row) && row.Length == 16 && BlockAt(row, 0) == Constant(q)
  {
    row := new bv8[16](i requires 0 <= i < 16 => Constant(q).at[i]);
    assert row[0..16] == Constant(q).at;
  }

  lemma PaddedBlock(x: Block)
    ensures Padded(x.at) == x
  {
    assert Padded(x.at).at == x.at;
  }

  // W1: the second half of a longer key is added to it.
  method FirstRegister(w0: array<bv8>, keyBits: nat, q: nat, t: array<bv8>) returns (w1: array<bv8>)
    requires KeyBits(keyBits) && keyBits / 8 <= w0.Length && q == (keyBits - 128) / 64
    requires t.Length == 16 && t != w0
    modifies t
    ensures fresh(w1) && w1.Length == 16
    ensures BlockAt(w1, 0) == W1(w0[..keyBits / 8])
  {
    hide Round, Xor, Constant, Padded;
    ghost var key := w0[..keyBits / 8];
    var R := (keyBits + 256) / 32;
    w1 := new bv8[16];
    var row := KRK(q);
    assert CK(key, 0) == Constant(q) && BlockAt(w0, 0) == W0(key);
    RoundInto(true, row, w0, t, w1);
    if R == 14 {
      assert key[16..] == w0[16..24];
      AddBytes(w1, w0, 16, 8);
    } else if R == 16 {
      assert key[16..] == w0[16..32];
      AddBytes(w1, w0, 16, 16);
    } else {
      assert key[16..] == [];
      RegisterUnpadded(BlockAt(w1, 0));
    }
  }

  // W2 and W3: one more round on the previous register, added to the one before it.
  method NextRegister(odd: bool, q: nat, v: array<bv8>, u: array<bv8>, t: array<bv8>) returns (w: array<bv8>)
    requires q < 3 && 16 <= v.Length && 16 <= u.Length && t.Length == 16 && t != v && t != u
    modifies t
    ensures fresh(w) && w.Length == 16
    ensures BlockAt(w, 0) == Xor(Round(odd, BlockAt(v, 0), Constant(q)), BlockAt(u, 0))
  {
    hide Round, Xor, Constant, Padded;
    w := new bv8[16];
    var row := KRK(q);
    RoundInto(odd, row, v, t, w);
    PaddedBlock(BlockAt(u, 0));
    AddBytes(w, u, 0, 16);
  }

  method Registers(w0: array<bv8>, keyBits: nat) returns (w1: array<bv8>, w2: array<bv8>, w3: array<bv8>)
    requires KeyBits(keyBits) && keyBits / 8 <= w0.Length
    ensures fresh(w1) && fresh(w2) && fresh(w3) && w1.Length == 16 && w2.Length == 16 && w3.Length == 16
    ensures var key := w0[..keyBits / 8];
      BlockAt(w1, 0) == W1(key) && BlockAt(w2, 0) == W2(key) && BlockAt(w3, 0) == W3(key)
  {
    hide Round, Xor, Constant, Padded;
    ghost var key := w0[..keyBits / 8];
    var t := new bv8[16];
    var q := (keyBits - 128) / 64;
    w1 := FirstRegister(w0, keyBits, q, t);
    q := if q == 2 then 0 else q + 1;
    assert CK(key, 1) == Constant(q) && BlockAt(w0, 0) == W0(key);
    w2 := NextRegister(false, q, w1, w0, t);
    q := if q == 2 then 0 else q + 1;
    assert CK(key, 2) == Constant(q);
    w3 := NextRegister(true, q, w2, w1, t);
  }

  // With a 128-bit key nothing is added to the first register.
  lemma RegisterUnpadded(x: Block)
    ensures Xor(x, Padded([])) == x
  {
    assert Xor(x, Padded([])).at == x.at;
  }

  // The round keys, for 12, 14 or 16 rounds.
  method WriteRoundKeys(w0: array<bv8>, w1: array<bv8>, w2: array<bv8>, w3: array<bv8>, R: nat, e: array<bv8>)
    requires 16 <= w0.Length && 16 <= w1.Length && 16 <= w2.Length && 16 <= w3.Length
    requires w0 != e && w1 != e && w2 != e && w3 != e
    requires (R == 12 || R == 14 || R == 16) && 16 * (R + 1) <= e.Length
    requires ZeroFrom(e, 0, 16 * (R + 1))
    modifies e
    ensures BlocksWritten(e, AllRoundKeys(BlockAt(w0, 0), BlockAt(w1, 0), BlockAt(w2, 0), BlockAt(w3, 0)), R + 1)
    ensures forall j :: 16 * (R + 1) <= j < e.Length ==> e[j] == old(e[j])
  {
    hide RoundKey, ZeroFrom, BlocksWritten, AllRoundKeys;
    ghost var all := AllRoundKeys(BlockAt(w0, 0), BlockAt(w1, 0), BlockAt(w2, 0), BlockAt(w3, 0));
    ghost var top := 16 * (R + 1);
    AllRoundKeysAt(BlockAt(w0, 0), BlockAt(w1, 0), BlockAt(w2, 0), BlockAt(w3, 0));
    NothingWritten(e, all);
    PutRoundKey(w0, w1, 19, e, 0, all, top);
    PutRoundKey(w1, w2, 19, e, 1, all, top);
    PutRoundKey(w2, w3, 19, e, 2, all, top);
    PutRoundKey(w3, w0, 19, e, 3, all, top);
    PutRoundKey(w0, w1, 31, e, 4, all, top);
    PutRoundKey(w1, w2, 31, e, 5, all, top);
    PutRoundKey(w2, w3, 31, e, 6, all, top);
    PutRoundKey(w3, w0, 31, e, 7, all, top);
    PutRoundKey(w0, w1, 67, e, 8, all, top);
    PutRoundKey(w1, w2, 67, e, 9, all, top);
    PutRoundKey(w2, w3, 67, e, 10, all, top);
    PutRoundKey(w3, w0, 67, e, 11, all, top);
    PutRoundKey(w0, w1, 97, e, 12, all, top);
    if R > 12 {
      PutRoundKey(w1, w2, 97, e, 13, all, top);
      PutRoundKey(w2, w3, 97, e, 14, all, top);
    }
    if R > 14 {
      PutRoundKey(w3, w0, 97, e, 15, all, top);
      PutRoundKey(w0, w1, 109, e, 16, all, top);
    }
  }

  lemma NothingWritten(e: array<bv8>, keys: seq<Block>)
    ensures BlocksWritten(e, keys, 0)
  {
  }

  // Encryption round keys: exactly 16 * (R + 1) bytes of e are defined.
  method EncKeySetup(w0: array<bv8>, e: array<bv8>, keyBits: nat) returns (R: nat)
    requires KeyBits(keyBits) && keyBits / 8 <= w0.Length && w0 != e
    requires 16 * ((keyBits + 256) / 32 + 1) <= e.Length
    modifies e
    ensures R == Rounds(w0[..keyBits / 8])
    ensures BlocksWritten(e, EncryptionKeys(w0[..keyBits / 8]), R + 1)
    ensures forall j :: 16 * (R + 1) <= j < e.Length ==> e[j] == old(e[j])
  {
    hide Round, Xor, RoundKey;
    R := (keyBits + 256) / 32;
    ghost var key := w0[..keyBits / 8];
    var w1, w2, w3 := Registers(w0, keyBits);
    for i := 0 to 16 * (R + 1)
      modifies e
      invariant ZeroFrom(e, 0, i)
      invariant forall j :: 16 * (R + 1) <= j < e.Length ==> e[j] == old(e[j])
    {
      e[i] := 0;
    }
    assert BlockAt(w0, 0) == W0(key);
    assert BlockAt(w1, 0) == W1(key) && BlockAt(w2, 0) == W2(key) && BlockAt(w3, 0) == W3(key);
    WriteRoundKeys(w0, w1, w2, w3, R, e);
    assert BlockAt(w0, 0) == W0(key);
    assert BlockAt(w1, 0) == W1(key) && BlockAt(w2, 0) == W2(key) && BlockAt(w3, 0) == W3(key);
    ghost var all := AllRoundKeys(W0(key), W1(key), W2(key), W3(key));
    assert BlocksWritten(e, all, R + 1);
    forall i | 0 <= i < R + 1
      ensures BlockAt(e, 16 * i) == EncryptionKeys(key)[i]
    {
      assert all[..R + 1][i] == all[i];
    }
  }

  // ---------------------------------------------------------------------------------------
  // AriaCore_DecKeySetup

  // The keys of a schedule whose outer i blocks on each side are already reversed and, except
  // for the outermost ones, diffused.
  ghost function HalfReversed(keys: seq<Block>, i: nat, j: nat): Block
    requires j < |keys|
  {
    if j < i || |keys| - 1 - j < i then DecryptionKey(keys, j) else keys[j]
  }

  ghost predicate Reversing(d: array<bv8>, keys: seq<Block>, i: nat)
    requires 16 * |keys| <= d.Length
    reads d
  {
    forall j :: 0 <= j < |keys| ==> BlockAt(d, 16 * j) == HalfReversed(keys, i, j)
  }

  // The first and the last block change places.
  method SwapEnds(d: array<bv8>, R: nat, ghost keys: seq<Block>)
    requires |keys| == R + 1 && R >= 2 && 16 * |keys| <= d.Length
    requires BlocksWritten(d, keys, |keys|)
    modifies d
    ensures Reversing(d, keys, 1)
    ensures forall k :: 16 * |keys| <= k < d.Length ==> d[k] == old(d[k])
  {
    hide HalfReversed;
    ghost var first, last := BlockAt(d, 0), BlockAt(d, 16 * R);
    assert last == keys[R] && BlockAt(d, 16 * 0) == keys[0];
    SwapBlocks(d, R);
    forall j | 0 <= j < |keys|
      ensures BlockAt(d, 16 * j) == HalfReversed(keys, 1, j)
    {
      OutermostReversed(keys, j);
      if 0 < j < R {
        SameBlock(d, 16 * j, old(BlockAt(d, 16 * j)));
      }
    }
  }

  lemma OutermostReversed(keys: seq<Block>, j: nat)
    requires j < |keys|
    ensures HalfReversed(keys, 1, j) == if j == 0 || j == |keys| - 1 then keys[|keys| - 1 - j] else keys[j]
  {
    hide Diffuse;
  }

  method SwapBlocks(d: array<bv8>, R: nat)
    requires R >= 1 && 16 * R + 16 <= d.Length
    modifies d
    ensures BlockAt(d, 0) == old(BlockAt(d, 16 * R)) && BlockAt(d, 16 * R) == old(BlockAt(d, 0))
    ensures forall k :: 16 <= k < d.Length && !(16 * R <= k < 16 * R + 16) ==> d[k] == old(d[k])
  {
    var t := new bv8[16];
    for j := 0 to 16
      invariant forall k :: 0 <= k < j ==> d[k] == old(d[16 * R + k]) && d[16 * R + k] == old(d[k])
      invariant forall k :: 0 <= k < d.Length && !(0 <= k < j) && !(16 * R <= k < 16 * R + j) ==> d[k] == old(d[k])
    {
      t[j] := d[j];
      d[j] := d[16 * R + j];
      d[16 * R + j] := t[j];
    }
    assert d[0..16] == old(d[16 * R..16 * R + 16]) && d[16 * R..16 * R + 16] == old(d[0..16]);
  }

  // Blocks i and R - i change places through the diffusion. At the middle the second call of DL
  // reads and writes the same block; the copy from t afterwards repairs it.
  method ExchangeDiffused(d: array<bv8>, R: nat, i: nat, ghost x: Block, ghost y: Block)
    requires i <= R - i && 16 * R + 16 <= d.Length
    requires BlockAt(d, i * 16) == x && BlockAt(d, (R - i) * 16) == y
    modifies d
    ensures i < R - i ==> BlockAt(d, i * 16) == Diffuse(y)
    ensures BlockAt(d, (R - i) * 16) == Diffuse(x)
    ensures forall k :: 0 <= k < d.Length && k / 16 != i && k / 16 != R - i ==> d[k] == old(d[k])
  {
    hide Diffuse;
    var t := new bv8[16];
    DL(d, i * 16, t, 0);
    DL(d, (R - i) * 16, d, i * 16);
    ghost var z := BlockAt(d, i * 16);
    CopyBlock(t, 0, d, (R - i) * 16);
    if i < R - i {
      SameBlock(d, i * 16, z);
    }
  }

  // One step of the reversal.
  method SwapDiffused(d: array<bv8>, R: nat, i: nat, ghost keys: seq<Block>)
    requires |keys| == R + 1 && 1 <= i <= R - i && 16 * |keys| <= d.Length
    requires Reversing(d, keys, i)
    modifies d
    ensures Reversing(d, keys, i + 1)
    ensures forall k :: 16 * |keys| <= k < d.Length ==> d[k] == old(d[k])
  {
    hide Diffuse;
    assert BlockAt(d, 16 * i) == keys[i] && BlockAt(d, 16 * (R - i)) == keys[R - i];
    ExchangeBlocks(d, R, i, keys[i], keys[R - i]);
  }

  // The other blocks stay.
  method ExchangeBlocks(d: array<bv8>, R: nat, i: nat, ghost x: Block, ghost y: Block)
    requires i <= R - i && 16 * R + 16 <= d.Length
    requires BlockAt(d, 16 * i) == x && BlockAt(d, 16 * (R - i)) == y
    modifies d
    ensures BlockAt(d, 16 * i) == Diffuse(y) && BlockAt(d, 16 * (R - i)) == Diffuse(x)
    ensures forall j :: 0 <= j <= R && j != i && j != R - i ==> BlockAt(d, 16 * j) == old(BlockAt(d, 16 * j))
    ensures forall k :: 16 * R + 16 <= k < d.Length ==> d[k] == old(d[k])
  {
    hide Diffuse;
    ExchangeDiffused(d, R, i, x, y);
    forall j | 0 <= j <= R && j != i && j != R - i
      ensures BlockAt(d, 16 * j) == old(BlockAt(d, 16 * j))
    {
      SameBlock(d, 16 * j, old(BlockAt(d, 16 * j)));
    }
  }

  // Decryption round keys, by an in-place reversal of the encryption keys.
  method DecKeySetup(w0: array<bv8>, d: array<bv8>, keyBits: nat) returns (R: nat)
    requires KeyBits(keyBits) && keyBits / 8 <= w0.Length && w0 != d
    requires 16 * ((keyBits + 256) / 32 + 1) <= d.Length
    modifies d
    ensures R == Rounds(w0[..keyBits / 8])
    ensures BlocksWritten(d, DecryptionKeys(EncryptionKeys(w0[..keyBits / 8])), R + 1)
    ensures forall j :: 16 * (R + 1) <= j < d.Length ==> d[j] == old(d[j])
  {
    hide EncryptionKeys, DecryptionKey;
    ghost var keys := EncryptionKeys(w0[..keyBits / 8]);
    R := EncKeySetup(w0, d, keyBits);
    SwapEnds(d, R, keys);
    for i := 1 to R / 2 + 1
      invariant Reversing(d, keys, i)
      invariant forall j :: 16 * (R + 1) <= j < d.Length ==> d[j] == old(d[j])
    {
      SwapDiffused(d, R, i, keys);
    }
  }

  // ---------------------------------------------------------------------------------------
  // AriaCore_Crypt

  // t = S(e ^ c); c = DL(t)
  method CryptRound(odd: bool, e: array<bv8>, o: nat, c: array<bv8>, t: array<bv8>)
    requires o + 16 <= e.Length && c.Length == 16 && t.Length == 16 && t != c && t != e && e != c
    modifies c, t
    ensures BlockAt(c, 0) == Round(odd, old(BlockAt(c, 0)), BlockAt(e, o))
  {
    hide Substitute, Diffuse, Xor;
    SubstituteWithKey(odd, e, o, c, t);
    DL(t, 0, c, 0);
  }

  // One pass of the loop: an odd and an even round.
  method CryptTwoRounds(e: array<bv8>, o: nat, c: array<bv8>, t: array<bv8>, ghost x: Block, ghost keys: seq<Block>, ghost n: nat)
    requires c.Length == 16 && t.Length == 16 && t != c && t != e && e != c
    requires n % 2 == 0 && n + 2 <= |keys| && 16 * |keys| <= e.Length && o == 16 * n
    requires BlocksWritten(e, keys, |keys|) && BlockAt(c, 0) == State(x, keys, n)
    modifies c, t
    ensures BlockAt(c, 0) == State(x, keys, n + 2)
  {
    hide Round;
    assert BlockAt(e, 16 * n) == keys[n] && BlockAt(e, 16 * (n + 1)) == keys[n + 1];
    CryptRound(true, e, o, c, t);
    assert BlockAt(c, 0) == State(x, keys, n + 1);
    CryptRound(false, e, o + 16, c, t);
  }

  // The code diffuses the state after all rounds once more; since the layer is an involution
  // this takes the diffusion of the last round back.
  lemma LastRound(x: Block, keys: seq<Block>)
    requires KeysOk(keys)
    ensures var R := |keys| - 1;
      Diffuse(State(x, keys, R)) == Substitute(false, Xor(keys[R - 1], State(x, keys, R - 1)))
  {
    hide Substitute, Diffuse, Xor;
    var R := |keys| - 1;
    DiffuseInvolution(Substitute(false, Xor(keys[R - 1], State(x, keys, R - 1))));
  }

  // c = e ^ t
  method AddKey(e: array<bv8>, o: nat, t: array<bv8>, c: array<bv8>)
    requires o + 16 <= e.Length && t.Length == 16 && c.Length == 16 && c != e && c != t
    modifies c
    ensures BlockAt(c, 0) == Xor(BlockAt(e, o), BlockAt(t, 0))
  {
    for j := 0 to 16
      invariant forall k :: 0 <= k < j ==> c[k] == e[o + k] ^ t[k]
    {
      c[j] := e[o + j] ^ t[j];
    }
    assert c[0..16] == Xor(BlockAt(e, o), BlockAt(t, 0)).at;
  }

  // t = DL(c); c = e ^ t
  method CryptLast(e: array<bv8>, o: nat, c: array<bv8>, t: array<bv8>, ghost x: Block, ghost keys: seq<Block>)
    requires o + 16 <= e.Length && c.Length == 16 && t.Length == 16 && t != c && t != e && e != c
    requires KeysOk(keys) && BlockAt(e, o) == keys[|keys| - 1] && BlockAt(c, 0) == State(x, keys, |keys| - 1)
    modifies c, t
    ensures BlockAt(c, 0) == AriaCipher.Crypt(x, keys)
  {
    hide Substitute, Diffuse, Xor, State;
    DL(c, 0, t, 0);
    LastRound(x, keys);
    AddKey(e, o, t, c);
  }

  lemma FirstState(x: Block, keys: seq<Block>)
    ensures State(x, keys, 0) == x
  {
  }

  // Used for both directions: the keys decide. The output may be the input buffer.
  method Crypt(p: array<bv8>, R: nat, e: array<bv8>, c: array<bv8>, ghost keys: seq<Block>)
    requires 16 <= p.Length && c.Length == 16 && e != c && 16 * (R + 1) <= e.Length
    requires |keys| == R + 1 && KeysOk(keys) && BlocksWritten(e, keys, R + 1)
    modifies c
    ensures BlockAt(c, 0) == AriaCipher.Crypt(old(BlockAt(p, 0)), keys)
  {
    hide Substitute, Diffuse, Xor, Round, State, AriaCipher.Crypt;
    ghost var x := BlockAt(p, 0);
    var t := new bv8[16];
    CopyBlock(p, 0, c, 0);
    FirstState(x, keys);
    assert BlocksWritten(e, keys, R + 1);
    var o := 0;
    for i := 0 to R / 2
      modifies c, t
      invariant o == 32 * i
      invariant BlockAt(c, 0) == State(x, keys, 2 * i)
    {
      CryptTwoRounds(e, o, c, t, x, keys, 2 * i);
      o := o + 32;
    }
    assert BlockAt(e, 16 * R) == keys[R];
    CryptLast(e, o, c, t, x, keys);
  }
}
