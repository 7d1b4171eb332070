// SHA-256 on values: sections 4.1.2, 5.1.1, 5.3.2 and 6.2 of FIPS 180-2.
module Sha256Spec {

  // ---------------------------------------------------------------------------------------
  // The compression function

  function Sigma0(x: bv32): bv32 {
    ((x >> 2) | (x << 30)) ^ ((x >> 13) | (x << 19)) ^ ((x >> 22) | (x << 10))
  }

  function Sigma1(x: bv32): bv32 {
    ((x >> 6) | (x << 26)) ^ ((x >> 11) | (x << 21)) ^ ((x >> 25) | (x << 7))
  }

  function SmallSigma0(x: bv32): bv32 {
    ((x >> 7) | (x << 25)) ^ ((x >> 18) | (x << 14)) ^ (x >> 3)
  }

  function SmallSigma1(x: bv32): bv32 {
    ((x >> 17) | (x << 15)) ^ ((x >> 19) | (x << 13)) ^ (x >> 10)
  }

  function Ch(x: bv32, y: bv32, z: bv32): bv32 {
    (x & y) ^ (!x & z)
  }

  function Maj(x: bv32, y: bv32, z: bv32): bv32 {
    (x & y) ^ (x & z) ^ (y & z)
  }

  // The 64 constants, eight in a row.
  function KRow(r: nat): (k: seq<bv32>)
    ensures |k| == 8
  {
    if r == 0 then [0x428a2f98, 0x71374491, 0xb5c0fbcf, 0xe9b5dba5, 0x3956c25b, 0x59f111f1, 0x923f82a4, 0xab1c5ed5]
    else if r == 1 then [0xd807aa98, 0x12835b01, 0x243185be, 0x550c7dc3, 0x72be5d74, 0x80deb1fe, 0x9bdc06a7, 0xc19bf174]
    else if r == 2 then [0xe49b69c1, 0xefbe4786, 0x0fc19dc6, 0x240ca1cc, 0x2de92c6f, 0x4a7484aa, 0x5cb0a9dc, 0x76f988da]
    else if r == 3 then [0x983e5152, 0xa831c66d, 0xb00327c8, 0xbf597fc7, 0xc6e00bf3, 0xd5a79147, 0x06ca6351, 0x14292967]
    else if r == 4 then [0x27b70a85, 0x2e1b2138, 0x4d2c6dfc, 0x53380d13, 0x650a7354, 0x766a0abb, 0x81c2c92e, 0x92722c85]
    else if r == 5 then [0xa2bfe8a1, 0xa81a664b, 0xc24b8b70, 0xc76c51a3, 0xd192e819, 0xd6990624, 0xf40e3585, 0x106aa070]
    else if r == 6 then [0x19a4c116, 0x1e376c08, 0x2748774c, 0x34b0bcb5, 0x391c0cb3, 0x4ed8aa4a, 0x5b9cca4f, 0x682e6ff3]
    else [0x748f82ee, 0x78a5636f, 0x84c87814, 0x8cc70208, 0x90befffa, 0xa4506ceb, 0xbef9a3f7, 0xc67178f2]
  }

  function KAt(t: nat): bv32
    requires t < 64
  {
    KRow(t / 8)[t % 8]
  }

  // Addition of words, modulo 2^32.
  function Plus(x: bv32, y: bv32): bv32 {
    x + y
  }

  // Sixteen words; eight words.
  type WordBlock = b: seq<bv32> | |b| == 16 witness seq(16, _ => 0)
  type Digest = h: seq<bv32> | |h| == 8 witness seq(8, _ => 0)

  const InitialState: Digest := [ 0x6a09e667, 0xbb67ae85, 0x3c6ef372, 0xa54ff53a,
                                  0x510e527f, 0x9b05688c, 0x1f83d9ab, 0x5be0cd19 ]

  // The message schedule W_t.
  function Schedule(b: WordBlock, t: nat): bv32 {
    if t < 16 then b[t]
    else
      Plus(Plus(Plus(SmallSigma1(Schedule(b, t - 2)), Schedule(b, t - 7)), SmallSigma0(Schedule(b, t - 15))), Schedule(b, t - 16))
  }

  datatype Vars = Vars(a: bv32, b: bv32, c: bv32, d: bv32, e: bv32, f: bv32, g: bv32, h: bv32)

  function Round(v: Vars, k: bv32, w: bv32): Vars {
    Moved(v, Sigma0(v.a), Sigma1(v.e), Ch(v.e, v.f, v.g), Maj(v.a, v.b, v.c), k, w)
  }

  // The variables move on by one, and two of them are new.
  function Moved(v: Vars, s0: bv32, s1: bv32, choice: bv32, majority: bv32, k: bv32, w: bv32): Vars {
    var t1 := v.h + s1 + choice + k + w;
    var t2 := s0 + majority;
    Vars(t1 + t2, v.a, v.b, v.c, v.d + t1, v.e, v.f, v.g)
  }

  function Rounds(v: Vars, b: WordBlock, t: nat): Vars
    requires t <= 64
  {
    if t == 0 then v else Round(Rounds(v, b, t - 1), KAt(t - 1), Schedule(b, t - 1))
  }

  function Compress(h: Digest, b: WordBlock): Digest {
    AddVars(h, Rounds(Vars(h[0], h[1], h[2], h[3], h[4], h[5], h[6], h[7]), b, 64))
  }

  function AddVars(h: Digest, v: Vars): Digest {
    [Plus(h[0], v.a), Plus(h[1], v.b), Plus(h[2], v.c), Plus(h[3], v.d),
     Plus(h[4], v.e), Plus(h[5], v.f), Plus(h[6], v.g), Plus(h[7], v.h)]
  }

  // ---------------------------------------------------------------------------------------
  // Blocks of bytes

  // A byte at position p of a word, position 0 being the most significant.
  function Placed(b: bv8, p: nat): bv32 {
    if p == 0 then (b as bv32) << 24 else if p == 1 then (b as bv32) << 16
    else if p == 2 then (b as bv32) << 8 else b as bv32
  }

  function Or(a: bv32, b: bv32): bv32 {
    a | b
  }

  function Word(b0: bv8, b1: bv8, b2: bv8, b3: bv8): bv32 {
    Or(Or(Or(Placed(b0, 0), Placed(b1, 1)), Placed(b2, 2)), Placed(b3, 3))
  }

  function ByteOrZero(x: seq<bv8>, i: nat): bv8 {
    if i < |x| then x[i] else 0
  }

  // Up to 64 bytes as sixteen words, the missing bytes being zero.
  function WordsOf(x: seq<bv8>): WordBlock {
    seq(16, i requires 0 <= i < 16 =>
      Word(ByteOrZero(x, 4 * i), ByteOrZero(x, 4 * i + 1), ByteOrZero(x, 4 * i + 2), ByteOrZero(x, 4 * i + 3)))
  }

  // The compression function folded over the 64-byte blocks of a message.
  function Fold(m: seq<bv8>): Digest
    requires |m| % 64 == 0
  {
    if m == [] then InitialState else Compress(Fold(m[..|m| - 64]), WordsOf(m[|m| - 64..]))
  }

  // ---------------------------------------------------------------------------------------
  // Padding and the hash

  function Weight(i: nat): nat {
    if i == 0 then 0x100_0000_0000_0000 else if i == 1 then 0x1_0000_0000_0000 else if i == 2 then 0x100_0000_0000
    else if i == 3 then 0x1_0000_0000 else if i == 4 then 0x100_0000 else if i == 5 then 0x1_0000
    else if i == 6 then 0x100 else 1
  }

  // Byte i of the number of bits of n bytes, as a 64-bit big-endian number.
  function LengthByte(n: nat, i: nat): (b: nat)
    ensures b < 256
  {
    (8 * n / Weight(i)) % 256
  }

  function Byte(n: nat): bv8
    requires n < 256
  {
    n as bv8
  }

  // The number of bytes from the stop bit to the end: at least nine, up to a block boundary.
  function PadLength(n: nat): (p: nat)
    ensures 9 <= p <= 72 && (n + p) % 64 == 0
  {
    if 64 - n % 64 < 9 then 128 - n % 64 else 64 - n % 64
  }

  // Section 5.1.1: a stop bit, zeros and the length.
  function PadByte(n: nat, j: nat): bv8
    requires j < PadLength(n)
  {
    if j == 0 then 0x80 else if j < PadLength(n) - 8 then 0 else Byte(LengthByte(n, j - (PadLength(n) - 8)))
  }

  function Padding(n: nat): (p: seq<bv8>)
    ensures |p| == PadLength(n)
  {
    seq(PadLength(n), j requires 0 <= j < PadLength(n) => PadByte(n, j))
  }

  function DigestByte(h: Digest, i: nat): bv8
    requires i < 32
  {
    var w := h[i / 4];
    var p := i % 4;
    if p == 0 then (w >> 24) as bv8 else if p == 1 then ((w >> 16) & 0xff) as bv8
    else if p == 2 then ((w >> 8) & 0xff) as bv8 else (w & 0xff) as bv8
  }

  function DigestBytes(h: Digest): (d: seq<bv8>)
    ensures |d| == 32
  {
    seq(32, i requires 0 <= i < 32 => DigestByte(h, i))
  }

  // SHA-256 of a message.
  function Sha256(m: seq<bv8>): (d: seq<bv8>)
    ensures |d| == 32
  {
    DigestBytes(Fold(m + Padding(|m|)))
  }

  // ---------------------------------------------------------------------------------------
  // HMAC: section 2 of RFC 2104

  // The key hashed when it is longer than a block, then filled with zeros.
  function BlockKey(key: seq<bv8>): seq<bv8> {
    if |key| <= 64 then key else Sha256(key)
  }

  function PaddedKey(key: seq<bv8>, pad: bv8): (k: seq<bv8>)
    ensures |k| == 64
  {
    seq(64, i requires 0 <= i < 64 => ByteOrZero(BlockKey(key), i) ^ pad)
  }

  function Hmac(key: seq<bv8>, m: seq<bv8>): seq<bv8> {
    Sha256(PaddedKey(key, 0x5c) + Sha256(PaddedKey(key, 0x36) + m))
  }

  // ---------------------------------------------------------------------------------------
  // One more byte in the buffer

  lemma OrZero(a: bv32)
    ensures Or(a, 0) == a && Or(0, a) == a
  {
  }

  lemma PlacedZero(p: nat)
    ensures Placed(0, p) == 0
  {
  }

  lemma WordInsert(b0: bv8, b1: bv8, b2: bv8, b: bv8)
    ensures Or(Word(0, 0, 0, 0), Placed(b, 0)) == Word(b, 0, 0, 0)
    ensures Or(Word(b0, 0, 0, 0), Placed(b, 1)) == Word(b0, b, 0, 0)
    ensures Or(Word(b0, b1, 0, 0), Placed(b, 2)) == Word(b0, b1, b, 0)
    ensures Or(Word(b0, b1, b2, 0), Placed(b, 3)) == Word(b0, b1, b2, b)
  {
    hide Or, Placed;
    PlacedZero(0);
    PlacedZero(1);
    PlacedZero(2);
    PlacedZero(3);
    OrZero(0);
    OrZero(Placed(b, 0));
    OrZero(Placed(b0, 0));
    OrZero(Or(Placed(b0, 0), Placed(b, 1)));
    OrZero(Or(Placed(b0, 0), Placed(b1, 1)));
    OrZero(Or(Or(Placed(b0, 0), Placed(b1, 1)), Placed(b, 2)));
    OrZero(Or(Or(Placed(b0, 0), Placed(b1, 1)), Placed(b2, 2)));
  }

  // OR-ing a byte into its word appends it to the bytes of the buffer.
  lemma AppendByte(x: seq<bv8>, b: bv8, i: nat)
    requires |x| < 64 && i < 16
    ensures WordsOf(x + [b])[i] == if i == |x| / 4 then Or(WordsOf(x)[i], Placed(b, |x| % 4)) else WordsOf(x)[i]
  {
    hide Word, Placed, Or;
    if i == |x| / 4 {
      var y := x + [b];
      WordInsert(ByteOrZero(x, 4 * i), ByteOrZero(x, 4 * i + 1), ByteOrZero(x, 4 * i + 2), b);
      var p := |x| % 4;
      if p == 0 {
      } else if p == 1 {
      } else if p == 2 {
      } else {
      }
    } else {
      assert forall k :: 4 * i <= k < 4 * i + 4 ==> ByteOrZero(x + [b], k) == ByteOrZero(x, k);
    }
  }

  lemma EmptyWords(i: nat)
    requires i < 16
    ensures WordsOf([])[i] == 0
  {
  }

  // A full block at the end of a message is one more compression.
  lemma FoldBlock(m: seq<bv8>, x: seq<bv8>)
    requires |m| % 64 == 0 && |x| == 64
    ensures Fold(m + x) == Compress(Fold(m), WordsOf(x))
  {
    hide Compress, WordsOf;
    assert (m + x)[..|m + x| - 64] == m && (m + x)[|m + x| - 64..] == x;
  }
}
