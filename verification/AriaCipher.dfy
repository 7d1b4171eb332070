// The ARIA block cipher on values: sections 2.2 to 2.4 of RFC 5794.
//
// Rounds, encryption, decryption keys and the key schedule are stated the way the RFC
// states them; the in-place code of ARIA_core.c is proved against them in Aria.dfy.
module AriaCipher {
  import opened AriaTables
  import opened Blocks
  import opened AriaDiffusion

  // Row of the table S (ARIA_core.c:24).
  function Box(row: nat, x: bv8): bv8 {
    if row == 0 then Box0(x) else if row == 1 then Box1(x) else if row == 2 then Box2(x) else Box3(x)
  }

  // The row used at byte position j: SL1 in odd rounds, SL2 in even rounds (section 2.4.2).
  function BoxRow(odd: bool, j: nat): nat {
    if odd then j % 4 else (2 + j) % 4
  }

  function Substitute(odd: bool, x: Block): Block {
    Bytes(seq(16, j requires 0 <= j < 16 => Box(BoxRow(odd, j), x.at[j])))
  }

  // The two layers as the RFC lists them.
  lemma OddLayer(x: Block)
    ensures var y := Substitute(true, x);
      && y.at[0] == Box0(x.at[0]) && y.at[1] == Box1(x.at[1]) && y.at[2] == Box2(x.at[2]) && y.at[3] == Box3(x.at[3])
      && y.at[4] == Box0(x.at[4]) && y.at[5] == Box1(x.at[5]) && y.at[6] == Box2(x.at[6]) && y.at[7] == Box3(x.at[7])
      && y.at[8] == Box0(x.at[8]) && y.at[9] == Box1(x.at[9]) && y.at[10] == Box2(x.at[10]) && y.at[11] == Box3(x.at[11])
      && y.at[12] == Box0(x.at[12]) && y.at[13] == Box1(x.at[13]) && y.at[14] == Box2(x.at[14]) && y.at[15] == Box3(x.at[15])
  {
    hide Box0, Box1, Box2, Box3;
  }

  lemma EvenLayer(x: Block)
    ensures var y := Substitute(false, x);
      && y.at[0] == Box2(x.at[0]) && y.at[1] == Box3(x.at[1]) && y.at[2] == Box0(x.at[2]) && y.at[3] == Box1(x.at[3])
      && y.at[4] == Box2(x.at[4]) && y.at[5] == Box3(x.at[5]) && y.at[6] == Box0(x.at[6]) && y.at[7] == Box1(x.at[7])
      && y.at[8] == Box2(x.at[8]) && y.at[9] == Box3(x.at[9]) && y.at[10] == Box0(x.at[10]) && y.at[11] == Box1(x.at[11])
      && y.at[12] == Box2(x.at[12]) && y.at[13] == Box3(x.at[13]) && y.at[14] == Box0(x.at[14]) && y.at[15] == Box1(x.at[15])
  {
    hide Box0, Box1, Box2, Box3;
  }

  // FO in odd rounds, FE in even rounds (section 2.4.1).
  function Round(odd: bool, x: Block, key: Block): Block {
    Diffuse(Substitute(odd, Xor(key, x)))
  }

  // The state after n rounds; round n, counted from 1, uses keys[n - 1].
  function State(p: Block, keys: seq<Block>, n: nat): Block
    requires n <= |keys|
  {
    if n == 0 then p else Round(n % 2 == 1, State(p, keys, n - 1), keys[n - 1])
  }

  // One key more than rounds, and the number of rounds is even.
  ghost predicate KeysOk(keys: seq<Block>) {
    |keys| >= 3 && |keys| % 2 == 1
  }

  // Section 2.3.1: the last round adds a key instead of diffusing.
  function Crypt(p: Block, keys: seq<Block>): Block
    requires KeysOk(keys)
  {
    var R := |keys| - 1;
    Xor(keys[R], Substitute(false, Xor(keys[R - 1], State(p, keys, R - 1))))
  }

  function DecryptionKey(keys: seq<Block>, i: nat): Block
    requires i < |keys|
  {
    var k := keys[|keys| - 1 - i];
    if i == 0 || i == |keys| - 1 then k else Diffuse(k)
  }

  // Section 2.3.2: the encryption keys reversed, the inner ones diffused.
  function DecryptionKeys(keys: seq<Block>): (d: seq<Block>)
    ensures |d| == |keys|
    ensures forall i :: 0 <= i < |d| ==> d[i] == DecryptionKey(keys, i)
  {
    seq(|keys|, i requires 0 <= i < |keys| => DecryptionKey(keys, i))
  }

  // ---------------------------------------------------------------------------------------
  // Decryption inverts encryption

  lemma XorCancels(a: Block, b: Block)
    ensures Xor(a, Xor(a, b)) == b
  {
    assert Xor(a, Xor(a, b)).at == b.at;
  }

  lemma BoxInverse(row: nat, x: bv8)
    requires row < 4
    ensures Box(row, Box((row + 2) % 4, x)) == x
  {
    hide Box0, Box1, Box2, Box3;
    if row == 0 {
      Box0InvertsBox2(x);
    } else if row == 1 {
      Box1InvertsBox3(x);
    } else if row == 2 {
      Box2InvertsBox0(x);
    } else {
      Box3InvertsBox1(x);
    }
  }

  // The two substitution layers are mutual inverses.
  lemma SubstituteInverse(odd: bool, x: Block)
    ensures Substitute(odd, Substitute(!odd, x)) == x
  {
    hide Box0, Box1, Box2, Box3;
    var y := Substitute(!odd, x);
    forall j | 0 <= j < 16
      ensures Substitute(odd, y).at[j] == x.at[j]
    {
      assert BoxRow(!odd, j) == (BoxRow(odd, j) + 2) % 4;
      BoxInverse(BoxRow(odd, j), x.at[j]);
    }
    assert Substitute(odd, y).at == x.at;
  }

  // The diffused key cancels, and the substitution meets its inverse.
  lemma SubstitutionMeetsInverse(odd: bool, k: Block, s: Block)
    ensures var x := Diffuse(Substitute(!odd, s));
      Substitute(odd, Xor(Diffuse(k), Diffuse(Xor(k, x)))) == s
  {
    hide Substitute, Diffuse, Xor;
    var t := Substitute(!odd, s);
    var x := Diffuse(t);
    DiffuseLinear(k, x);
    XorCancels(Diffuse(k), Diffuse(x));
    DiffuseInvolution(t);
    SubstituteInverse(odd, s);
  }

  // Round m of the decryption undoes the substitution of round R - m of the encryption.
  lemma {:induction false} StateReversed(p: Block, keys: seq<Block>, m: nat)
    requires KeysOk(keys) && 1 <= m <= |keys| - 2
    ensures State(Crypt(p, keys), DecryptionKeys(keys), m)
         == Diffuse(Xor(keys[|keys| - 1 - m], State(p, keys, |keys| - 1 - m)))
  {
    hide Substitute, Diffuse, Xor;
    var R := |keys| - 1;
    var odd := m % 2 == 1;
    var s := Xor(keys[R - m], State(p, keys, R - m));
    if m == 1 {
      XorCancels(keys[R], Substitute(false, s));
      SubstituteInverse(true, s);
      assert State(Crypt(p, keys), DecryptionKeys(keys), 0) == Crypt(p, keys);
    } else {
      StateReversed(p, keys, m - 1);
      SubstitutionMeetsInverse(odd, keys[R - m + 1], s);
    }
  }

  // Encrypting with the decryption keys undoes encrypting with the encryption keys.
  lemma DecryptInvertsEncrypt(p: Block, keys: seq<Block>)
    requires KeysOk(keys)
    ensures Crypt(Crypt(p, keys), DecryptionKeys(keys)) == p
  {
    hide Substitute, Diffuse, Xor;
    var R := |keys| - 1;
    var d := DecryptionKeys(keys);
    StateReversed(p, keys, R - 1);
    var x := State(p, keys, 1);
    var s := Xor(keys[0], p);
    assert State(p, keys, 0) == p;
    assert x == Diffuse(Substitute(true, s));
    assert d[R - 1] == Diffuse(keys[1]) && d[R] == keys[0];
    DiffuseLinear(keys[1], x);
    XorCancels(Diffuse(keys[1]), Diffuse(x));
    DiffuseInvolution(Substitute(true, s));
    SubstituteInverse(false, s);
    XorCancels(keys[0], p);
  }
}
