// The ARIA key schedule on values: section 2.2 of RFC 5794.
module AriaSchedule {
  import opened Blocks
  import opened AriaCipher

  // ---------------------------------------------------------------------------------------
  // Rotation of a block taken as one 128-bit number, most significant byte first

  // Position j - q, wrapping around the sixteen bytes.
  function Back(j: nat, q: nat): (r: nat)
    requires j < 16 && q <= 16
    ensures r < 16
  {
    if j >= q then j - q else j + 16 - q
  }

  // A shift amount as a byte.
  function Amount(n: nat): (a: bv8)
    ensures n < 8 ==> a < 8
  {
    if n == 0 then 0 else if n == 1 then 1 else if n == 2 then 2 else if n == 3 then 3 else
    if n == 4 then 4 else if n == 5 then 5 else if n == 6 then 6 else if n == 7 then 7 else 8
  }

  // What a source byte leaves in its own position and pushes into the next one.
  function Kept(b: bv8, n: bv8): bv8
    requires n < 8
  {
    b >> n
  }

  function Pushed(b: bv8, n: bv8): bv8
    requires n < 8
  {
    b << (8 - n)
  }

  // The two neighbouring source bytes that meet in one byte of the rotation.
  function Join(high: bv8, low: bv8, n: bv8): bv8
    requires n < 8
  {
    Kept(low, n) ^ Pushed(high, n)
  }

  function RotateRight(x: Block, n: nat): Block
    requires n < 128
  {
    Bytes(seq(16, j requires 0 <= j < 16 =>
      Join(x.at[Back(j, n / 8 + 1)], x.at[Back(j, n / 8)], Amount(n % 8))))
  }

  // Bit k of a byte, counted from the most significant one.
  predicate ByteBit(b: bv8, k: bv8)
    requires k < 8
  {
    (b >> (7 - k)) & 1 == 1
  }

  // Bit i of a block, counted from the most significant one.
  predicate Bit(x: Block, i: nat)
    requires i < 128
  {
    ByteBit(x.at[i / 8], Amount(i % 8))
  }

  lemma JoinBit(high: bv8, low: bv8, n: bv8, k: bv8)
    requires n < 8 && k < 8
    ensures ByteBit(Join(high, low, n), k) == if k < n then ByteBit(high, k + (8 - n)) else ByteBit(low, k - n)
  {
  }

  lemma AmountDifference(n: nat, k: nat)
    requires n < 8 && k < 8
    ensures k < n ==> Amount(k) < Amount(n) && Amount(k) + (8 - Amount(n)) == Amount(k + 8 - n)
    ensures k >= n ==> Amount(k) >= Amount(n) && Amount(k) - Amount(n) == Amount(k - n)
  {
  }

  // Position i - n, wrapping around the 128 bits.
  function BackBit(i: nat, n: nat): (r: nat)
    requires i < 128 && n < 128
    ensures r < 128
  {
    if i >= n then i - n else i + 128 - n
  }

  // Where bit 8j + k of the rotation by 8q + r comes from.
  lemma RotationSource(j: nat, k: nat, q: nat, r: nat)
    requires j < 16 && q < 16 && k < 8 && r < 8
    ensures k < r ==> BackBit(8 * j + k, 8 * q + r) == 8 * Back(j, q + 1) + (k + 8 - r)
    ensures k >= r ==> BackBit(8 * j + k, 8 * q + r) == 8 * Back(j, q) + (k - r)
  {
  }

  // Bit i of the rotation is bit i - n of the source: no bit is lost or duplicated.
  lemma RotateRightBit(x: Block, n: nat, i: nat)
    requires n < 128 && i < 128
    ensures Bit(RotateRight(x, n), i) == Bit(x, BackBit(i, n))
  {
    hide Join, ByteBit, Amount, Back, BackBit;
    var j, k, q, r := i / 8, i % 8, n / 8, n % 8;
    var high, low := x.at[Back(j, q + 1)], x.at[Back(j, q)];
    assert RotateRight(x, n).at[j] == Join(high, low, Amount(r));
    JoinBit(high, low, Amount(r), Amount(k));
    AmountDifference(r, k);
    RotationSource(j, k, q, r);
    var source := BackBit(i, n);
    if k < r {
      assert source / 8 == Back(j, q + 1) && source % 8 == k + 8 - r;
    } else {
      assert source / 8 == Back(j, q) && source % 8 == k - r;
    }
  }

  // ---------------------------------------------------------------------------------------
  // The four registers and the round keys

  const C1 := Bytes([0x51, 0x7c, 0xc1, 0xb7, 0x27, 0x22, 0x0a, 0x94, 0xfe, 0x13, 0xab, 0xe8, 0xfa, 0x9a, 0x6e, 0xe0])
  const C2 := Bytes([0x6d, 0xb1, 0x4a, 0xcc, 0x9e, 0x21, 0xc8, 0x20, 0xff, 0x28, 0xb1, 0xd5, 0xef, 0x5d, 0xe2, 0xb0])
  const C3 := Bytes([0xdb, 0x92, 0x37, 0x1d, 0x21, 0x26, 0xe9, 0x70, 0x03, 0x24, 0x97, 0x75, 0x04, 0xe8, 0xc9, 0x0e])

  // KRK[q] of ARIA_core.c:99-103.
  function Constant(q: nat): Block
    requires q < 3
  {
    if q == 0 then C1 else if q == 1 then C2 else C3
  }

  predicate KeyBits(bits: nat) {
    bits == 128 || bits == 192 || bits == 256
  }

  // A master key of 16, 24 or 32 bytes.
  type MasterKey = k: seq<bv8> | |k| == 16 || |k| == 24 || |k| == 32 witness seq(16, _ => 0)

  function Rounds(key: MasterKey): nat {
    (8 * |key| + 256) / 32
  }

  // CK1, CK2, CK3 start at C1, C2 or C3 according to the key length.
  function CK(key: MasterKey, i: nat): Block {
    Constant(((8 * |key| - 128) / 64 + i) % 3)
  }

  // KL is the first sixteen bytes; KR the remaining ones, padded with zeros.
  function KL(key: MasterKey): Block {
    Bytes(key[..16])
  }

  function Padded(x: seq<bv8>): Block {
    Bytes(seq(16, j requires 0 <= j < 16 => if j < |x| then x[j] else 0))
  }

  function KR(key: MasterKey): Block {
    Padded(key[16..])
  }

  function W0(key: MasterKey): Block {
    KL(key)
  }

  function W1(key: MasterKey): Block {
    Xor(Round(true, W0(key), CK(key, 0)), KR(key))
  }

  function W2(key: MasterKey): Block {
    Xor(Round(false, W1(key), CK(key, 1)), W0(key))
  }

  function W3(key: MasterKey): Block {
    Xor(Round(true, W2(key), CK(key, 2)), W1(key))
  }

  function RoundKey(a: Block, b: Block, n: nat): Block
    requires n < 128
  {
    Xor(a, RotateRight(b, n))
  }

  // ek1 .. ek(n+1); rotations to the left by 61, 31 and 19 are written as 67, 97 and 109.
  function AllRoundKeys(w0: Block, w1: Block, w2: Block, w3: Block): (k: seq<Block>)
    ensures |k| == 17
  {
    [ RoundKey(w0, w1, 19), RoundKey(w1, w2, 19), RoundKey(w2, w3, 19), RoundKey(w3, w0, 19),
      RoundKey(w0, w1, 31), RoundKey(w1, w2, 31), RoundKey(w2, w3, 31), RoundKey(w3, w0, 31),
      RoundKey(w0, w1, 67), RoundKey(w1, w2, 67), RoundKey(w2, w3, 67), RoundKey(w3, w0, 67),
      RoundKey(w0, w1, 97), RoundKey(w1, w2, 97), RoundKey(w2, w3, 97), RoundKey(w3, w0, 97),
      RoundKey(w0, w1, 109) ]
  }

  lemma AllRoundKeysAt(w0: Block, w1: Block, w2: Block, w3: Block)
    ensures var k := AllRoundKeys(w0, w1, w2, w3);
      && k[0] == RoundKey(w0, w1, 19)
      && k[1] == RoundKey(w1, w2, 19)
      && k[2] == RoundKey(w2, w3, 19)
      && k[3] == RoundKey(w3, w0, 19)
      && k[4] == RoundKey(w0, w1, 31)
      && k[5] == RoundKey(w1, w2, 31)
      && k[6] == RoundKey(w2, w3, 31)
      && k[7] == RoundKey(w3, w0, 31)
      && k[8] == RoundKey(w0, w1, 67)
      && k[9] == RoundKey(w1, w2, 67)
      && k[10] == RoundKey(w2, w3, 67)
      && k[11] == RoundKey(w3, w0, 67)
      && k[12] == RoundKey(w0, w1, 97)
      && k[13] == RoundKey(w1, w2, 97)
      && k[14] == RoundKey(w2, w3, 97)
      && k[15] == RoundKey(w3, w0, 97)
      && k[16] == RoundKey(w0, w1, 109)
  {
    hide RoundKey;
  }

  function EncryptionKeys(key: MasterKey): (k: seq<Block>)
    ensures |k| == Rounds(key) + 1
  {
    AllRoundKeys(W0(key), W1(key), W2(key), W3(key))[..Rounds(key) + 1]
  }

  // ARIA with any master key decrypts what it encrypted.
  lemma AriaDecryptsEncrypted(key: MasterKey, p: Block)
    ensures KeysOk(EncryptionKeys(key))
    ensures Crypt(Crypt(p, EncryptionKeys(key)), DecryptionKeys(EncryptionKeys(key))) == p
  {
    DecryptInvertsEncrypt(p, EncryptionKeys(key));
  }
}
