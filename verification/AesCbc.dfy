// aes.c: the CBC mode with PKCS padding, over an abstract block cipher.
module AesCbc {
  import opened Wrappers
  import opened Blocks
  import opened BlockModes

  class AesCbcContext {
    // The block cipher under the key that was set, and its inverse.
    const enc: Block -> Block
    const dec: Block -> Block
    const iv: array<bv8>
    const ivPrev: array<bv8>

    ghost const Buffers: set<object> := {iv, ivPrev}

    ghost predicate Shaped() {
      iv.Length == 16 && ivPrev.Length == 16 && iv != ivPrev && Inverse(enc, dec)
    }

    // aes_set_key_cbc: without a vector, zeros.
    constructor (enc: Block -> Block, dec: Block -> Block, v: array?<bv8>)
      requires Inverse(enc, dec) && (v != null ==> v.Length >= 16)
      ensures Shaped() && fresh(Buffers) && this.enc == enc && this.dec == dec
      ensures forall i :: 0 <= i < 16 ==> iv[i] == if v == null then 0 else v[i]
    {
      this.enc, this.dec := enc, dec;
      iv := new bv8[16](_ => 0);
      ivPrev := new bv8[16];
      new;
      if v != null {
        for i := 0 to 16
          invariant forall j :: 0 <= j < i ==> iv[j] == v[j]
        {
          iv[i] := v[i];
        }
      }
    }

    // The block cipher applied to a buffer.
    method Apply(f: Block -> Block, data: array<bv8>)
      requires data.Length == 16
      modifies data
      ensures BlockAt(data, 0) == f(old(BlockAt(data, 0)))
    {
      var y := f(Bytes(data[..]));
      assert data[0..16] == data[..];
      for j := 0 to 16
        invariant forall k :: 0 <= k < j ==> data[k] == y.at[k]
      {
        data[j] := y.at[j];
      }
      SameBlock(data, 0, y);
    }

    // aes_encrypt_cbc
    method EncryptBlock(data: array<bv8>)
      requires Shaped() && data.Length == 16 && data !in Buffers
      modifies data, ivPrev
      ensures BlockAt(data, 0) == enc(Xor(old(BlockAt(data, 0)), old(BlockAt(ivPrev, 0))))
      ensures BlockAt(ivPrev, 0) == BlockAt(data, 0)
    {
      hide Xor;
      AddBlock(data, ivPrev);
      Apply(enc, data);
      CopyBlock(data, 0, ivPrev, 0);
    }

    // aes_decrypt_cbc
    method DecryptBlock(data: array<bv8>)
      requires Shaped() && data.Length == 16 && data !in Buffers
      modifies data, ivPrev
      ensures BlockAt(data, 0) == Xor(dec(old(BlockAt(data, 0))), old(BlockAt(ivPrev, 0)))
      ensures BlockAt(ivPrev, 0) == old(BlockAt(data, 0))
    {
      hide Xor;
      var tmpData := new bv8[16];
      CopyBlock(data, 0, tmpData, 0);
      Apply(dec, data);
      AddBlock(data, ivPrev);
      CopyBlock(tmpData, 0, ivPrev, 0);
    }

    // One pass of the encryption loop.
    method EncryptStep(tmpData: array<bv8>, cipher: array<bv8>, i: nat, ghost v: Block, ghost p: seq<Block>)
      requires Shaped() && tmpData.Length == 16 && tmpData !in Buffers && cipher !in Buffers && tmpData != cipher
      requires i < |p| && 16 * |p| <= cipher.Length && BlockAt(tmpData, 0) == p[i]
      requires var c := CbcEncrypt(enc, v, p);
        BlocksWritten(cipher, c, i) && BlockAt(ivPrev, 0) == Previous(v, c, i)
      modifies tmpData, cipher, ivPrev
      ensures OnlyBlockChanged(cipher, 16 * i)
      ensures var c := CbcEncrypt(enc, v, p);
        BlocksWritten(cipher, c, i + 1) && BlockAt(ivPrev, 0) == Previous(v, c, i + 1)
    {
      hide Xor;
      ghost var c := CbcEncrypt(enc, v, p);
      CbcEncryptAt(enc, v, p, i);
      EncryptBlock(tmpData);
      StoreBlock(tmpData, cipher, i, c, tmpData, [], 0);
    }

    // aes_encrypt_cbc_pkcs5: the last pass of the loop pads.
    method EncryptCbcPkcs5(plain: array<bv8>, plainLen: nat, cipher: array<bv8>, cipherLen: nat) returns (r: int)
      requires Shaped() && plain !in Buffers && cipher !in Buffers
      requires plainLen <= plain.Length && cipherLen <= cipher.Length
      modifies cipher, ivPrev
      ensures cipherLen < 16 * (plainLen / 16 + 1) ==> r == -1 && cipher[..] == old(cipher[..])
      ensures cipherLen >= 16 * (plainLen / 16 + 1) ==> r == 16 * (plainLen / 16 + 1)
      ensures cipherLen >= 16 * (plainLen / 16 + 1) ==>
        BlocksWritten(cipher, Encrypt(enc, BlockAt(iv, 0), old(plain[..plainLen])), plainLen / 16 + 1)
      ensures forall j :: 16 * (plainLen / 16 + 1) <= j < cipher.Length ==> cipher[j] == old(cipher[j])
    {
      hide Xor, Pad, CbcEncrypt, BlocksOf;
      CopyBlock(iv, 0, ivPrev, 0);
      var quotient := plainLen / 16;
      var remainder := plainLen % 16;
      if remainder == 0 {
        if cipherLen < plainLen + 16 {
          return -1;
        }
        r := plainLen + 16;
      } else {
        if cipherLen < (quotient + 1) * 16 {
          return -1;
        }
        r := (quotient + 1) * 16;
      }
      ghost var x, v := plain[..plainLen], BlockAt(iv, 0);
      ghost var p := BlocksOf(Pad(x));
      ghost var c := CbcEncrypt(enc, v, p);
      var tmpData := new bv8[16];
      for i := 0 to quotient + 1
        invariant BlocksWritten(cipher, c, i) && BlockAt(ivPrev, 0) == Previous(v, c, i) && BlockAt(iv, 0) == v
        invariant forall j :: 16 * i <= j < plainLen ==> plain[j] == x[j]
        invariant forall j :: 16 * i <= j < cipher.Length ==> cipher[j] == old(cipher[j])
      {
        if i == quotient {
          LoadLast(plain, i, remainder, tmpData, x);
        } else {
          LoadBlock(plain, i, tmpData, x);
        }
        EncryptStep(tmpData, cipher, i, v, p);
      }
    }

    // One pass of the decryption loop.
    method DecryptStep(tmpData: array<bv8>, i: nat, ghost v: Block, ghost c: seq<Block>)
      requires Shaped() && tmpData.Length == 16 && tmpData !in Buffers
      requires i < |c| && BlockAt(tmpData, 0) == c[i] && BlockAt(ivPrev, 0) == Previous(v, c, i)
      modifies tmpData, ivPrev
      ensures BlockAt(ivPrev, 0) == Previous(v, c, i + 1)
      ensures BlockAt(tmpData, 0) == CbcDecrypt(dec, v, c)[i]
    {
      hide Xor;
      CbcDecryptAt(dec, v, c, i);
      DecryptBlock(tmpData);
    }

    // aes_decrypt_cbc_pkcs5. Unlike its ARIA counterpart it does not look at the room in the
    // output, and it stores the blanked last block whole.
    method DecryptCbcPkcs5(cipher: array<bv8>, cipherLen: nat, plain: array<bv8>, ghost c: seq<Block>) returns (r: int)
      requires Shaped() && plain !in Buffers && cipher !in Buffers
      requires cipherLen <= cipher.Length && cipherLen <= plain.Length
      requires |c| == cipherLen / 16 && BlocksWritten(cipher, c, |c|)
      modifies plain, ivPrev
      ensures cipherLen % 16 != 0 || cipherLen < 16 ==> r == -1 && plain[..] == old(plain[..])
      ensures cipherLen % 16 == 0 && 16 <= cipherLen ==>
        match Decrypt(dec, BlockAt(iv, 0), c)
        case None => r == -1
        case Some(x) => r == |x| && r <= cipherLen && plain[..r] == x && forall j :: r <= j < cipherLen ==> plain[j] == 0
      ensures forall j :: cipherLen <= j < plain.Length ==> plain[j] == old(plain[j])
    {
      hide Xor, PaddingOf;
      CopyBlock(iv, 0, ivPrev, 0);
      var quotient := cipherLen / 16;
      var remainder := cipherLen % 16;
      if cipherLen < 16 {
        return -1;
      }
      if remainder != 0 {
        return -1;
      }
      ghost var v := BlockAt(iv, 0);
      ghost var p := CbcDecrypt(dec, v, c);
      var padding := 0;
      var tmpData := new bv8[16];
      for i := 0 to quotient
        invariant BlockAt(ivPrev, 0) == Previous(v, c, i) && BlockAt(iv, 0) == v
        invariant i < quotient ==> BlocksWritten(plain, p, i)
        invariant i == quotient ==> 0 <= padding && Finished(plain, p, padding)
        invariant forall j :: i <= j < quotient ==> BlockAt(cipher, 16 * j) == c[j]
        invariant forall j :: 16 * i <= j < plain.Length ==> plain[j] == old(plain[j])
      {
        CopyBlock(cipher, 16 * i, tmpData, 0);
        DecryptStep(tmpData, i, v, c);
        if i == quotient - 1 {
          padding := LastBlock(tmpData, plain, i, p);
          if padding < 0 {
            return -1;
          }
        } else {
          StoreBlock(tmpData, plain, i, p, cipher, c, i + 1);
        }
      }
      return cipherLen - padding;
    }

    // The text is stored, with zeros in the place of its padding.
    ghost predicate Finished(plain: array<bv8>, p: seq<Block>, padding: nat)
      requires |p| > 0
      reads plain
    {
      && Unpad(p).Some? && |Unpad(p).value| == 16 * |p| - padding && 16 * |p| <= plain.Length && padding <= 16 * |p|
      && plain[..16 * |p| - padding] == Unpad(p).value
      && forall j :: 16 * |p| - padding <= j < 16 * |p| ==> plain[j] == 0
    }

    method LastBlock(tmpData: array<bv8>, plain: array<bv8>, last: nat, ghost p: seq<Block>) returns (padding: int)
      requires tmpData.Length == 16 && tmpData != plain && |p| == last + 1 && 16 * |p| <= plain.Length
      requires BlocksWritten(plain, p, last) && BlockAt(tmpData, 0) == p[last]
      modifies tmpData, plain
      ensures Unpad(p) == None ==> padding == -1
      ensures Unpad(p).Some? ==> padding >= 0 && Finished(plain, p, padding)
      ensures forall j :: 16 * |p| <= j < plain.Length ==> plain[j] == old(plain[j])
    {
      hide PaddingOf;
      padding := UnpadRemain(tmpData);
      if padding < 0 {
        return;
      }
      BlocksAreBytes(plain, p, last);
      CopyBlock(tmpData, 0, plain, 16 * last);
      forall k | 0 <= k < 16 * |p|
        ensures plain[k] == if k < 16 * |p| - padding then BytesOf(p)[k] else 0
      {
        if k < 16 * last {
          assert old(plain[k]) == BytesOf(p)[k];
        } else {
          BytesAt(p, k);
          assert plain[16 * last..16 * last + 16][k - 16 * last] == plain[k];
        }
      }
    }
  }

  // Encrypting and decrypting with one context returns the text.
  method EncryptThenDecrypt(ctx: AesCbcContext, plain: array<bv8>, n: nat, cipher: array<bv8>, back: array<bv8>)
    returns (m: int, r: int)
    requires ctx.Shaped() && plain !in ctx.Buffers && cipher !in ctx.Buffers && back !in ctx.Buffers
    requires n <= plain.Length && 16 * (n / 16 + 1) <= cipher.Length && 16 * (n / 16 + 1) <= back.Length
    modifies cipher, back, ctx.ivPrev
    ensures m == 16 * (n / 16 + 1) && r == n && back[..n] == old(plain[..n])
  {
    hide Encrypt, Decrypt;
    ghost var x, v := plain[..n], BlockAt(ctx.iv, 0);
    m := ctx.EncryptCbcPkcs5(plain, n, cipher, cipher.Length);
    DecryptInvertsEncrypt(ctx.enc, ctx.dec, v, x);
    r := ctx.DecryptCbcPkcs5(cipher, m, back, Encrypt(ctx.enc, v, x));
  }
}
