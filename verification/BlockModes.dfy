// Cipher block chaining and PKCS padding on values: section 6.2 of NIST SP 800-38A and
// section 6.3 of RFC 5652, over any block cipher.
module BlockModes {
  import opened Wrappers
  import opened Blocks

  // ---------------------------------------------------------------------------------------
  // Bytes and blocks

  function BlocksOf(s: seq<bv8>): (b: seq<Block>)
    requires |s| % 16 == 0
    ensures |b| == |s| / 16
  {
    if s == [] then [] else [Bytes(s[..16])] + BlocksOf(s[16..])
  }

  function BytesOf(b: seq<Block>): (s: seq<bv8>)
    ensures |s| == 16 * |b|
  {
    if b == [] then [] else b[0].at + BytesOf(b[1..])
  }

  lemma {:induction false} BytesOfBlocks(s: seq<bv8>)
    requires |s| % 16 == 0
    ensures BytesOf(BlocksOf(s)) == s
  {
    if s != [] {
      BytesOfBlocks(s[16..]);
      assert BlocksOf(s)[1..] == BlocksOf(s[16..]);
      assert s == s[..16] + s[16..];
    }
  }

  lemma {:induction false} BlockOfBytes(s: seq<bv8>, i: nat)
    requires |s| % 16 == 0 && i < |s| / 16
    ensures BlocksOf(s)[i] == Bytes(s[16 * i..16 * i + 16])
  {
    if i > 0 {
      BlockOfBytes(s[16..], i - 1);
      assert s[16..][16 * (i - 1)..16 * (i - 1) + 16] == s[16 * i..16 * i + 16];
    }
  }

  lemma {:induction false} BytesAt(b: seq<Block>, k: nat)
    requires k < 16 * |b|
    ensures BytesOf(b)[k] == b[k / 16].at[k % 16]
  {
    if k >= 16 {
      BytesAt(b[1..], k - 16);
    }
  }

  // Blocks at the start of a buffer, byte by byte.
  lemma BlocksAreBytes(a: array<bv8>, p: seq<Block>, n: nat)
    requires n <= |p| && 16 * n <= a.Length && BlocksWritten(a, p, n)
    ensures forall k :: 0 <= k < 16 * n ==> a[k] == BytesOf(p)[k]
  {
    forall k | 0 <= k < 16 * n
      ensures a[k] == BytesOf(p)[k]
    {
      BytesAt(p, k);
      assert BlockAt(a, 16 * (k / 16)) == p[k / 16];
      assert a[16 * (k / 16)..16 * (k / 16) + 16][k % 16] == a[k];
    }
  }

  // ---------------------------------------------------------------------------------------
  // Padding

  function ByteOf(n: nat): bv8
    requires n < 256
  {
    n as bv8
  }

  function ValueOf(b: bv8): (n: nat)
    ensures n < 256
  {
    b as nat
  }

  lemma PadByteValue(n: nat)
    requires 1 <= n <= 16
    ensures ValueOf(ByteOf(n)) == n
  {
    if n <= 8 {
      assert n == 1 || n == 2 || n == 3 || n == 4 || n == 5 || n == 6 || n == 7 || n == 8;
    } else {
      assert n == 9 || n == 10 || n == 11 || n == 12 || n == 13 || n == 14 || n == 15 || n == 16;
    }
  }

  function PadLength(n: nat): (p: nat)
    ensures 1 <= p <= 16 && (n + p) % 16 == 0
  {
    16 - n % 16
  }

  // One to sixteen bytes, each holding their number.
  function Pad(s: seq<bv8>): (r: seq<bv8>)
    ensures |r| == 16 * (|s| / 16 + 1)
  {
    s + seq(PadLength(|s|), _ => ByteOf(PadLength(|s|)))
  }

  // Section 6.3 of RFC 5652: 01, 02 02, 03 03 03 and so on, up to sixteen times 10.
  predicate IsPadding(p: seq<bv8>) {
    1 <= |p| <= 16
    && forall b <- p ::
         b == match |p|
              case 1 => 0x01
              case 2 => 0x02
              case 3 => 0x03
              case 4 => 0x04
              case 5 => 0x05
              case 6 => 0x06
              case 7 => 0x07
              case 8 => 0x08
              case 9 => 0x09
              case 10 => 0x0a
              case 11 => 0x0b
              case 12 => 0x0c
              case 13 => 0x0d
              case 14 => 0x0e
              case 15 => 0x0f
              case _ => 0x10
  }

  lemma PaddedEndsInPadding(s: seq<bv8>)
    ensures s <= Pad(s) && IsPadding(Pad(s)[|s|..])
  {
    var n := PadLength(|s|);
    assert Pad(s)[|s|..] == seq(n, _ => ByteOf(n));
  }

  // The number of padding bytes at the end of the last block, if they are well formed.
  function PaddingOf(b: Block): (p: Option<nat>)
    ensures p.Some? ==> 1 <= p.value <= 16
  {
    var p := ValueOf(b.at[15]);
    if 1 <= p <= 16 && (forall i :: 16 - p <= i < 16 ==> b.at[i] == b.at[15]) then Some(p) else None
  }

  lemma NoPaddingInZeros(b: Block)
    requires b.at[15] == 0
    ensures PaddingOf(b) == None
  {
  }

  function Unpad(b: seq<Block>): Option<seq<bv8>>
    requires |b| > 0
  {
    match PaddingOf(b[|b| - 1])
    case None => None
    case Some(p) => Some(BytesOf(b)[..16 * |b| - p])
  }

  lemma UnpadPadded(s: seq<bv8>)
    ensures Unpad(BlocksOf(Pad(s))) == Some(s)
  {
    hide ByteOf, ValueOf;
    var r := Pad(s);
    var b := BlocksOf(r);
    var p := PadLength(|s|);
    var last := b[|b| - 1];
    BytesOfBlocks(r);
    BlockOfBytes(r, |b| - 1);
    PadByteValue(p);
    forall i | 16 - p <= i < 16
      ensures last.at[i] == ByteOf(p)
    {
      assert last.at[i] == r[|r| - 16 + i];
    }
    assert r[..|r| - p] == s;
  }

  // ---------------------------------------------------------------------------------------
  // Chaining

  function CbcEncrypt(E: Block -> Block, iv: Block, p: seq<Block>): (c: seq<Block>)
    ensures |c| == |p|
    decreases |p|
  {
    if p == [] then []
    else
      var c := E(Xor(p[0], iv));
      [c] + CbcEncrypt(E, c, p[1..])
  }

  function CbcDecrypt(D: Block -> Block, iv: Block, c: seq<Block>): (p: seq<Block>)
    ensures |p| == |c|
    decreases |c|
  {
    if c == [] then [] else [Xor(D(c[0]), iv)] + CbcDecrypt(D, c[0], c[1..])
  }

  // D undoes E.
  ghost predicate Inverse(E: Block -> Block, D: Block -> Block) {
    forall b: Block :: D(E(b)) == b
  }

  lemma XorTwice(a: Block, b: Block)
    ensures Xor(Xor(a, b), b) == a
  {
    assert Xor(Xor(a, b), b).at == a.at by {
      forall j | 0 <= j < 16
        ensures Xor(Xor(a, b), b).at[j] == a.at[j]
      {
        AddIsAssociative(a.at[j], b.at[j], b.at[j]);
        AddCancels(b.at[j], 0);
        AddZero(b.at[j]);
        AddZero(a.at[j]);
      }
    }
  }

  lemma {:induction false} CbcInverse(E: Block -> Block, D: Block -> Block, iv: Block, p: seq<Block>)
    requires Inverse(E, D)
    ensures CbcDecrypt(D, iv, CbcEncrypt(E, iv, p)) == p
    decreases |p|
  {
    if p != [] {
      var c := E(Xor(p[0], iv));
      CbcInverse(E, D, c, p[1..]);
      XorTwice(p[0], iv);
      assert CbcEncrypt(E, iv, p)[1..] == CbcEncrypt(E, c, p[1..]);
    }
  }

  // The two whole operations.
  function Encrypt(E: Block -> Block, iv: Block, s: seq<bv8>): (c: seq<Block>)
    ensures |c| == |s| / 16 + 1
  {
    CbcEncrypt(E, iv, BlocksOf(Pad(s)))
  }

  function Decrypt(D: Block -> Block, iv: Block, c: seq<Block>): Option<seq<bv8>>
    requires |c| > 0
  {
    Unpad(CbcDecrypt(D, iv, c))
  }

  lemma DecryptInvertsEncrypt(E: Block -> Block, D: Block -> Block, iv: Block, s: seq<bv8>)
    requires Inverse(E, D)
    ensures Decrypt(D, iv, Encrypt(E, iv, s)) == Some(s)
  {
    CbcInverse(E, D, iv, BlocksOf(Pad(s)));
    UnpadPadded(s);
  }

  // ---------------------------------------------------------------------------------------
  // One block of a chain: what each pass of the loops does

  function Previous(iv: Block, c: seq<Block>, i: nat): Block
    requires i <= |c|
  {
    if i == 0 then iv else c[i - 1]
  }

  lemma {:induction false} CbcEncryptAt(E: Block -> Block, iv: Block, p: seq<Block>, i: nat)
    requires i < |p|
    ensures var c := CbcEncrypt(E, iv, p);
      c[i] == E(Xor(p[i], Previous(iv, c, i)))
    decreases |p|
  {
    if i > 0 {
      CbcEncryptAt(E, E(Xor(p[0], iv)), p[1..], i - 1);
    }
  }

  lemma {:induction false} CbcDecryptAt(D: Block -> Block, iv: Block, c: seq<Block>, i: nat)
    requires i < |c|
    ensures CbcDecrypt(D, iv, c)[i] == Xor(D(c[i]), Previous(iv, c, i))
    decreases |c|
  {
    if i > 0 {
      CbcDecryptAt(D, c[0], c[1..], i - 1);
    }
  }

  // Block i of a padded text: sixteen bytes of it, or what is left of it and the padding.
  lemma PaddedBlock(s: seq<bv8>, i: nat, b: Block)
    requires i <= |s| / 16
    requires forall j :: 0 <= j < 16 ==>
      b.at[j] == if 16 * i + j < |s| then s[16 * i + j] else ByteOf(PadLength(|s|))
    ensures b == BlocksOf(Pad(s))[i]
  {
    hide ByteOf;
    BlockOfBytes(Pad(s), i);
    assert b.at == Pad(s)[16 * i..16 * i + 16];
  }

  // ---------------------------------------------------------------------------------------
  // Padding in a sixteen-byte buffer

  // do_pad_remain_pkcs7: the remainder of the text, then bytes holding their number.
  method PadRemain(dest: array<bv8>, src: array<bv8>, s: nat, remainder: nat)
    requires dest.Length == 16 && remainder < 16 && s + remainder <= src.Length && src != dest
    modifies dest
    ensures forall j :: 0 <= j < 16 ==> dest[j] == if j < remainder then src[s + j] else ByteOf(16 - remainder)
  {
    hide ByteOf;
    var remain := ByteOf(16 - remainder);
    for j := 0 to remainder
      invariant forall k :: 0 <= k < j ==> dest[k] == src[s + k]
    {
      dest[j] := src[s + j];
    }
    for j := remainder to 16
      invariant forall k :: 0 <= k < j ==> dest[k] == if k < remainder then src[s + k] else remain
    {
      dest[j] := remain;
    }
  }

  // do_unpad_remain_pkcs7: checks the padding, blanks it and returns its length.
  method UnpadRemain(dest: array<bv8>) returns (r: int)
    requires dest.Length == 16
    modifies dest
    ensures match PaddingOf(old(BlockAt(dest, 0)))
      case None => r == -1 && BlockAt(dest, 0) == old(BlockAt(dest, 0))
      case Some(p) => r == p && forall j :: 0 <= j < 16 ==> dest[j] == if j < 16 - p then old(dest[j]) else 0
  {
    hide ValueOf;
    ghost var b := BlockAt(dest, 0);
    var padding := ValueOf(dest[15]);
    if padding < 1 || padding > 16 {
      return -1;
    }
    for i := 1 to padding + 1
      invariant forall j :: 16 - i < j < 16 ==> dest[j] == dest[15]
    {
      if dest[15] != dest[16 - i] {
        assert b.at[16 - i] != b.at[15];
        return -1;
      }
    }
    assert PaddingOf(b) == Some(padding);
    for i := 16 - padding to 16
      invariant forall j :: 0 <= j < 16 ==> dest[j] == if 16 - padding <= j < i then 0 else b.at[j]
    {
      dest[i] := 0;
    }
    return padding;
  }

  // ---------------------------------------------------------------------------------------
  // Blocks of the two loops

  // data ^= prev
  method AddBlock(data: array<bv8>, prev: array<bv8>)
    requires data.Length == 16 && prev.Length == 16 && data != prev
    modifies data
    ensures BlockAt(data, 0) == Xor(old(BlockAt(data, 0)), BlockAt(prev, 0))
  {
    hide Add;
    ghost var x := BlockAt(data, 0);
    for j := 0 to 16
      invariant forall k :: 0 <= k < 16 ==> data[k] == if k < j then Add(x.at[k], prev[k]) else x.at[k]
    {
      data[j] := Add(data[j], prev[j]);
    }
    SameBlock(data, 0, Xor(x, BlockAt(prev, 0)));
  }

  // A whole block of the text, and what is left of it with its padding.
  method LoadBlock(plain: array<bv8>, i: nat, tmpData: array<bv8>, ghost x: seq<bv8>)
    requires tmpData.Length == 16 && tmpData != plain && 16 * i + 16 <= |x| <= plain.Length
    requires forall j :: 16 * i <= j < |x| ==> plain[j] == x[j]
    modifies tmpData
    ensures BlockAt(tmpData, 0) == BlocksOf(Pad(x))[i]
  {
    hide Pad;
    CopyBlock(plain, 16 * i, tmpData, 0);
    PaddedBlock(x, i, BlockAt(tmpData, 0));
  }

  method LoadLast(plain: array<bv8>, i: nat, remainder: nat, tmpData: array<bv8>, ghost x: seq<bv8>)
    requires tmpData.Length == 16 && tmpData != plain && i == |x| / 16 && remainder == |x| % 16 && |x| <= plain.Length
    requires forall j :: 16 * i <= j < |x| ==> plain[j] == x[j]
    modifies tmpData
    ensures BlockAt(tmpData, 0) == BlocksOf(Pad(x))[i]
  {
    hide Pad, ByteOf;
    PadRemain(tmpData, plain, 16 * i, remainder);
    PaddedBlock(x, i, BlockAt(tmpData, 0));
  }

  // Block i of the output is stored. The output may be the input buffer, whose blocks from
  // position n on, still to be read, stay as they are.
  method StoreBlock(tmpData: array<bv8>, output: array<bv8>, i: nat, ghost p: seq<Block>,
                    input: array<bv8>, ghost c: seq<Block>, ghost n: nat)
    requires tmpData.Length == 16 && tmpData != output && i < |p| && 16 * |p| <= output.Length
    requires 16 * |c| <= input.Length && BlockAt(tmpData, 0) == p[i] && BlocksWritten(output, p, i)
    requires input != output || i < n
    requires forall j :: n <= j < |c| ==> BlockAt(input, 16 * j) == c[j]
    modifies output
    ensures BlocksWritten(output, p, i + 1) && OnlyBlockChanged(output, 16 * i)
    ensures forall j :: n <= j < |c| ==> BlockAt(input, 16 * j) == c[j]
  {
    CopyBlock(tmpData, 0, output, 16 * i);
    forall k | 0 <= k < i
      ensures BlockAt(output, 16 * k) == p[k]
    {
      assert old(BlockAt(output, 16 * k)) == p[k];
      SameBlock(output, 16 * k, p[k]);
    }
    forall j | n <= j < |c|
      ensures BlockAt(input, 16 * j) == c[j]
    {
      assert old(BlockAt(input, 16 * j)) == c[j];
      SameBlock(input, 16 * j, c[j]);
    }
  }
}
