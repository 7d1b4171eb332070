// aria.c: an ARIA context and its CBC mode with PKCS padding.
module AriaCbc {
  import opened Wrappers
  import opened Blocks
  import opened BlockModes
  import opened AriaSchedule
  import Aria

  // The two directions of the block cipher under a master key.
  function Enciphered(key: MasterKey): Block -> Block {
    (b: Block) => AriaCipher.Crypt(b, EncryptionKeys(key))
  }

  function Deciphered(key: MasterKey): Block -> Block {
    (b: Block) => AriaCipher.Crypt(b, AriaCipher.DecryptionKeys(EncryptionKeys(key)))
  }

  lemma AriaInverse(key: MasterKey)
    ensures Inverse(Enciphered(key), Deciphered(key))
  {
    forall b: Block
      ensures Deciphered(key)(Enciphered(key)(b)) == b
    {
      AriaDecryptsEncrypted(key, b);
    }
  }

  // CBC with PKCS padding under ARIA gives every text back, whatever the key and the vector.
  lemma AriaCbcRoundTrip(key: MasterKey, iv: Block, s: seq<bv8>)
    ensures Decrypt(Deciphered(key), iv, Encrypt(Enciphered(key), iv, s)) == Some(s)
  {
    AriaInverse(key);
    DecryptInvertsEncrypt(Enciphered(key), Deciphered(key), iv, s);
  }

  class AriaContext {
    var nr: nat
    const mk: array<bv8>
    const erk: array<bv8>
    const drk: array<bv8>
    const iv: array<bv8>
    const ivPrev: array<bv8>
    ghost var key: MasterKey

    ghost const Buffers: set<object> := {mk, erk, drk, iv, ivPrev}

    // The buffers have their sizes and none of them is another one.
    ghost predicate Shaped() {
      && mk.Length == 32 && erk.Length == 272 && drk.Length == 272 && iv.Length == 16 && ivPrev.Length == 16
      && mk != erk && mk != drk && mk != iv && mk != ivPrev && erk != drk && erk != iv && erk != ivPrev
      && drk != iv && drk != ivPrev && iv != ivPrev
    }

    // Both key schedules belong to the key that was set.
    ghost predicate Valid()
      reads this, Buffers
    {
      && Shaped()
      && nr == Rounds(key)
      && BlocksWritten(erk, EncryptionKeys(key), nr + 1)
      && BlocksWritten(drk, AriaCipher.DecryptionKeys(EncryptionKeys(key)), nr + 1)
    }

    constructor ()
      ensures Shaped() && fresh(Buffers)
    {
      nr := 0;
      mk, erk, drk := new bv8[32], new bv8[272], new bv8[272];
      iv, ivPrev := new bv8[16], new bv8[16];
      key := seq(16, _ => 0);
    }

    // ariacore_set_key128, _key192 and _key256.
    method SetKey(k: array<bv8>, keyBits: nat) returns (r: int)
      requires Shaped() && KeyBits(keyBits) && keyBits / 8 <= k.Length && k !in Buffers
      modifies this, mk, erk, drk
      ensures Valid() && key == k[..keyBits / 8] && r == nr
    {
      hide EncryptionKeys, Rounds;
      for i := 0 to keyBits / 8
        invariant mk[..i] == k[..i]
      {
        mk[i] := k[i];
      }
      nr := (keyBits + 256) / 32;
      nr := Aria.EncKeySetup(mk, erk, keyBits);
      r := Aria.DecKeySetup(mk, drk, keyBits);
      key := k[..keyBits / 8];
    }

    // aria_set_key128_cbc, _key192_cbc and _key256_cbc: without a vector, zeros.
    method SetKeyCbc(k: array<bv8>, keyBits: nat, v: array?<bv8>) returns (r: int)
      requires Shaped() && KeyBits(keyBits) && keyBits / 8 <= k.Length && k !in Buffers
      requires v != null ==> v.Length >= 16 && v !in Buffers
      modifies this, mk, erk, drk, iv
      ensures Valid() && key == k[..keyBits / 8] && r == nr
      ensures forall i :: 0 <= i < 16 ==> iv[i] == if v == null then 0 else v[i]
    {
      for i := 0 to 16
        invariant forall j :: 0 <= j < i ==> iv[j] == 0
      {
        iv[i] := 0;
      }
      if v != null {
        for i := 0 to 16
          invariant forall j :: 0 <= j < i ==> iv[j] == v[j]
        {
          iv[i] := v[i];
        }
      }
      r := SetKey(k, keyBits);
    }

    // aria_encrypt_cbc
    method EncryptBlock(data: array<bv8>)
      requires Valid() && data.Length == 16 && data !in Buffers
      modifies data, ivPrev
      ensures Valid()
      ensures BlockAt(data, 0) == Enciphered(key)(Xor(old(BlockAt(data, 0)), old(BlockAt(ivPrev, 0))))
      ensures BlockAt(ivPrev, 0) == BlockAt(data, 0)
    {
      hide EncryptionKeys, Xor, AriaCipher.Crypt;
      AddBlock(data, ivPrev);
      KeysFit();
      Aria.Crypt(data, nr, erk, data, EncryptionKeys(key));
      CopyBlock(data, 0, ivPrev, 0);
    }

    // aria_decrypt_cbc
    method DecryptBlock(data: array<bv8>)
      requires Valid() && data.Length == 16 && data !in Buffers
      modifies data, ivPrev
      ensures Valid()
      ensures BlockAt(data, 0) == Xor(Deciphered(key)(old(BlockAt(data, 0))), old(BlockAt(ivPrev, 0)))
      ensures BlockAt(ivPrev, 0) == old(BlockAt(data, 0))
    {
      hide EncryptionKeys, Xor, AriaCipher.Crypt;
      var tmpData := new bv8[16];
      CopyBlock(data, 0, tmpData, 0);
      KeysFit();
      Aria.Crypt(data, nr, drk, data, AriaCipher.DecryptionKeys(EncryptionKeys(key)));
      AddBlock(data, ivPrev);
      CopyBlock(tmpData, 0, ivPrev, 0);
    }

    lemma KeysFit()
      requires Valid()
      ensures nr == 12 || nr == 14 || nr == 16
      ensures |EncryptionKeys(key)| == nr + 1 && AriaCipher.KeysOk(EncryptionKeys(key))
    {
    }

    // One pass of the encryption loop: the text block in tmpData goes to block i of the output.
    method EncryptStep(tmpData: array<bv8>, cipher: array<bv8>, i: nat, ghost v: Block, ghost p: seq<Block>)
      requires Valid() && tmpData.Length == 16 && tmpData !in Buffers && cipher !in Buffers && tmpData != cipher
      requires i < |p| && 16 * |p| <= cipher.Length
      requires BlockAt(tmpData, 0) == p[i]
      requires var c := CbcEncrypt(Enciphered(key), v, p);
        BlocksWritten(cipher, c, i) && BlockAt(ivPrev, 0) == Previous(v, c, i)
      modifies tmpData, cipher, ivPrev
      ensures Valid() && OnlyBlockChanged(cipher, 16 * i)
      ensures var c := CbcEncrypt(Enciphered(key), v, p);
        BlocksWritten(cipher, c, i + 1) && BlockAt(ivPrev, 0) == Previous(v, c, i + 1)
    {
      hide Xor, EncryptionKeys, Enciphered;
      ghost var c := CbcEncrypt(Enciphered(key), v, p);
      CbcEncryptAt(Enciphered(key), v, p, i);
      EncryptBlock(tmpData);
      StoreBlock(tmpData, cipher, i, c, tmpData, [], 0);
    }

    // The encryption loop, over the whole blocks of the text.
    method EncryptWhole(tmpData: array<bv8>, plain: array<bv8>, cipher: array<bv8>, quotient: nat, ghost v: Block, ghost x: seq<bv8>)
      requires Valid() && tmpData.Length == 16 && tmpData !in Buffers && plain !in Buffers && cipher !in Buffers
      requires tmpData != plain && tmpData != cipher && quotient == |x| / 16
      requires |x| <= plain.Length && 16 * (quotient + 1) <= cipher.Length
      requires (forall j :: 0 <= j < |x| ==> plain[j] == x[j]) && BlockAt(ivPrev, 0) == v
      modifies tmpData, cipher, ivPrev
      ensures Valid()
      ensures var c := CbcEncrypt(Enciphered(key), v, BlocksOf(Pad(x)));
        BlocksWritten(cipher, c, quotient) && BlockAt(ivPrev, 0) == Previous(v, c, quotient)
      ensures forall j :: 16 * quotient <= j < |x| ==> plain[j] == x[j]
      ensures forall j :: 16 * quotient <= j < cipher.Length ==> cipher[j] == old(cipher[j])
    {
      hide Xor, EncryptionKeys, Enciphered, Pad, CbcEncrypt, BlocksOf;
      ghost var p := BlocksOf(Pad(x));
      ghost var c := CbcEncrypt(Enciphered(key), v, p);
      for i := 0 to quotient
        invariant Valid() && BlocksWritten(cipher, c, i) && BlockAt(ivPrev, 0) == Previous(v, c, i)
        invariant forall j :: 16 * i <= j < |x| ==> plain[j] == x[j]
        invariant forall j :: 16 * i <= j < cipher.Length ==> cipher[j] == old(cipher[j])
      {
        LoadBlock(plain, i, tmpData, x);
        EncryptStep(tmpData, cipher, i, v, p);
      }
    }

    // aria_encrypt_cbc_pkcs5. The two buffers may be the same one.
    method EncryptCbcPkcs5(plain: array<bv8>, plainLen: nat, cipher: array<bv8>, cipherLen: nat) returns (r: int)
      requires Valid() && plain !in Buffers && cipher !in Buffers
      requires plainLen <= plain.Length && cipherLen <= cipher.Length
      modifies cipher, ivPrev
      ensures Valid()
      ensures cipherLen < 16 * (plainLen / 16 + 1) ==> r == -1 && cipher[..] == old(cipher[..])
      ensures cipherLen >= 16 * (plainLen / 16 + 1) ==> r == 16 * (plainLen / 16 + 1)
      ensures cipherLen >= 16 * (plainLen / 16 + 1) ==>
        BlocksWritten(cipher, Encrypt(Enciphered(key), BlockAt(iv, 0), old(plain[..plainLen])), plainLen / 16 + 1)
      ensures forall j :: 16 * (plainLen / 16 + 1) <= j < cipher.Length ==> cipher[j] == old(cipher[j])
    {
      hide Xor, EncryptionKeys, Enciphered, Pad, CbcEncrypt, BlocksOf;
      var quotient := plainLen / 16;
      var remainder := plainLen % 16;
      var need := (quotient + 1) * 16;
      if cipherLen < need {
        return -1;
      }
      ghost var x, v := plain[..plainLen], BlockAt(iv, 0);
      ghost var p := BlocksOf(Pad(x));
      ghost var c := CbcEncrypt(Enciphered(key), v, p);
      CopyBlock(iv, 0, ivPrev, 0);
      var tmpData := new bv8[16];
      EncryptWhole(tmpData, plain, cipher, quotient, v, x);
      LoadLast(plain, quotient, remainder, tmpData, x);
      EncryptStep(tmpData, cipher, quotient, v, p);
      return need;
    }

    // One pass of the decryption loop: block i of the input, in tmpData, becomes text.
    method DecryptStep(tmpData: array<bv8>, i: nat, ghost v: Block, ghost c: seq<Block>)
      requires Valid() && tmpData.Length == 16 && tmpData !in Buffers
      requires i < |c| && BlockAt(tmpData, 0) == c[i] && BlockAt(ivPrev, 0) == Previous(v, c, i)
      modifies tmpData, ivPrev
      ensures Valid() && BlockAt(ivPrev, 0) == Previous(v, c, i + 1)
      ensures BlockAt(tmpData, 0) == CbcDecrypt(Deciphered(key), v, c)[i]
    {
      hide Xor, EncryptionKeys, Deciphered;
      CbcDecryptAt(Deciphered(key), v, c, i);
      DecryptBlock(tmpData);
    }

    // The decryption loop, over all the blocks but the last.
    method DecryptWhole(tmpData: array<bv8>, cipher: array<bv8>, plain: array<bv8>, last: nat, ghost v: Block, ghost c: seq<Block>)
      requires Valid() && tmpData.Length == 16 && tmpData !in Buffers && plain !in Buffers && cipher !in Buffers
      requires tmpData != plain && tmpData != cipher
      requires |c| == last + 1 && 16 * |c| <= cipher.Length && 16 * |c| <= plain.Length
      requires BlocksWritten(cipher, c, |c|) && BlockAt(ivPrev, 0) == v
      modifies tmpData, plain, ivPrev
      ensures Valid() && BlockAt(ivPrev, 0) == Previous(v, c, last) && BlockAt(cipher, 16 * last) == c[last]
      ensures BlocksWritten(plain, CbcDecrypt(Deciphered(key), v, c), last)
      ensures forall j :: 16 * last <= j < plain.Length ==> plain[j] == old(plain[j])
    {
      hide Xor, EncryptionKeys, Deciphered, CbcDecrypt;
      ghost var p := CbcDecrypt(Deciphered(key), v, c);
      for i := 0 to last
        invariant Valid() && BlockAt(ivPrev, 0) == Previous(v, c, i)
        invariant BlocksWritten(plain, p, i)
        invariant forall j :: i <= j <= last ==> BlockAt(cipher, 16 * j) == c[j]
        invariant forall j :: 16 * i <= j < plain.Length ==> plain[j] == old(plain[j])
      {
        CopyBlock(cipher, 16 * i, tmpData, 0);
        DecryptStep(tmpData, i, v, c);
        StoreBlock(tmpData, plain, i, p, cipher, c, i + 1);
      }
    }

    // aria_decrypt_cbc_pkcs5. The two buffers may be the same one. Whatever the input, the result
    // is the unpadded text or -1; the bytes behind the text are left alone.
    method DecryptCbcPkcs5(cipher: array<bv8>, cipherLen: nat, plain: array<bv8>, plainLen: nat, ghost c: seq<Block>)
      returns (r: int)
      requires Valid() && plain !in Buffers && cipher !in Buffers
      requires cipherLen <= cipher.Length && plainLen <= plain.Length
      requires |c| == cipherLen / 16 && BlocksWritten(cipher, c, |c|)
      modifies plain, ivPrev
      ensures Valid()
      ensures cipherLen % 16 != 0 || cipherLen < 16 || plainLen < cipherLen ==> r == -1 && plain[..] == old(plain[..])
      ensures cipherLen % 16 == 0 && 16 <= cipherLen <= plainLen ==>
        match Decrypt(Deciphered(key), BlockAt(iv, 0), c)
        case None => r == -1
        case Some(x) => r == |x| && r <= plain.Length && plain[..r] == x
      ensures forall j :: 0 <= r <= j < plain.Length ==> plain[j] == old(plain[j])
    {
      hide Xor, EncryptionKeys, Deciphered, PaddingOf;
      var quotient := cipherLen / 16;
      var remainder := cipherLen % 16;
      if remainder != 0 || cipherLen < 16 {
        return -1;
      }
      if plainLen < quotient * 16 {
        return -1;
      }
      ghost var v := BlockAt(iv, 0);
      ghost var p := CbcDecrypt(Deciphered(key), v, c);
      CopyBlock(iv, 0, ivPrev, 0);
      var tmpData := new bv8[16];
      var last := quotient - 1;
      DecryptWhole(tmpData, cipher, plain, last, v, c);
      CopyBlock(cipher, 16 * last, tmpData, 0);
      DecryptStep(tmpData, last, v, c);
      r := LastBlock(tmpData, plain, last, p);
    }

    // The last block is unpadded (the second call finds nothing left to do) and stored.
    method LastBlock(tmpData: array<bv8>, plain: array<bv8>, last: nat, ghost p: seq<Block>) returns (r: int)
      requires tmpData.Length == 16 && tmpData != plain && |p| == last + 1 && 16 * |p| <= plain.Length
      requires BlocksWritten(plain, p, last) && BlockAt(tmpData, 0) == p[last]
      modifies tmpData, plain
      ensures match Unpad(p)
        case None => r == -1
        case Some(x) => r == |x| && plain[..r] == x
      ensures forall j :: (if r < 0 then 16 * last else r) <= j < plain.Length ==> plain[j] == old(plain[j])
    {
      hide PaddingOf;
      var padding := UnpadRemain(tmpData);
      if padding < 0 {
        return -1;
      }
      assert PaddingOf(p[last]) == Some(padding);
      NoPaddingInZeros(BlockAt(tmpData, 0));
      var again := UnpadRemain(tmpData);
      StoreText(tmpData, plain, last, 16 - padding, p);
      return 16 * (last + 1) - padding;
    }

    // The rest of the text, without its padding, is stored behind the whole blocks.
    method StoreText(tmpData: array<bv8>, plain: array<bv8>, last: nat, n: nat, ghost p: seq<Block>)
      requires tmpData.Length == 16 && tmpData != plain && n <= 16 && last < |p| && 16 * |p| <= plain.Length
      requires BlocksWritten(plain, p, last) && forall j :: 0 <= j < n ==> tmpData[j] == p[last].at[j]
      modifies plain
      ensures plain[..16 * last + n] == BytesOf(p)[..16 * last + n]
      ensures forall j :: 16 * last + n <= j < plain.Length ==> plain[j] == old(plain[j])
    {
      hide BlocksWritten;
      BlocksAreBytes(plain, p, last);
      for j := 0 to n
        invariant forall k :: 0 <= k < j ==> plain[16 * last + k] == p[last].at[k]
        invariant forall k :: 0 <= k < plain.Length && !(16 * last <= k < 16 * last + j) ==> plain[k] == old(plain[k])
      {
        plain[16 * last + j] := tmpData[j];
      }
      forall k | 0 <= k < 16 * last + n
        ensures plain[k] == BytesOf(p)[k]
      {
        if k >= 16 * last {
          BytesAt(p, k);
        } else {
          assert old(plain[k]) == BytesOf(p)[k];
        }
      }
    }
  }

  // What a caller sees: encrypting and decrypting with one context returns the text.
  method EncryptThenDecrypt(ctx: AriaContext, plain: array<bv8>, n: nat, cipher: array<bv8>, back: array<bv8>)
    returns (m: int, r: int)
    requires ctx.Valid() && plain !in ctx.Buffers && cipher !in ctx.Buffers && back !in ctx.Buffers
    requires n <= plain.Length && 16 * (n / 16 + 1) <= cipher.Length && 16 * (n / 16 + 1) <= back.Length
    modifies cipher, back, ctx.ivPrev
    ensures m == 16 * (n / 16 + 1) && r == n && back[..n] == old(plain[..n])
  {
    hide Encrypt, Decrypt, Enciphered, Deciphered;
    ghost var x, v := plain[..n], BlockAt(ctx.iv, 0);
    m := ctx.EncryptCbcPkcs5(plain, n, cipher, cipher.Length);
    AriaCbcRoundTrip(ctx.key, v, x);
    r := ctx.DecryptCbcPkcs5(cipher, m, back, back.Length, Encrypt(Enciphered(ctx.key), v, x));
  }
}
