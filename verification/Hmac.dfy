// hmac_sha256.c: HMAC with SHA-256, the message arriving in pieces.
module HmacSha256 {
  import opened Sha256Spec
  import opened Sha256

  lemma PadsMeet(b: bv8)
    ensures (b ^ 0x36) ^ 0x6a == b ^ 0x5c
    ensures 0x36 ^ 0x5c == 0x6a as bv8
    ensures 0 ^ 0x36 == 0x36 as bv8
  {
  }

  class HmacContext {
    const digest: array<bv8>
    const key: array<bv8>
    const sha: Sha256Context

    // The key given at initialization and the message so far.
    ghost var secret: seq<bv8>
    ghost var message: seq<bv8>

    ghost predicate Shaped()
      reads this
    {
      digest.Length == 32 && key.Length == 64 && digest != key && digest != sha.hash && key != sha.hash
      && key as object != sha.length && key as object != sha.buffer && key as object != sha.state
      && digest as object != sha.length && digest as object != sha.buffer && digest as object != sha.state
    }

    ghost predicate Valid()
      reads this, sha, sha.buffer, sha.state, sha.length, key
    {
      Shaped() && sha.Valid()
      && key[..] == PaddedKey(secret, 0x36)
      && sha.message == PaddedKey(secret, 0x36) + message
    }

    constructor (k: seq<bv8>)
      requires |k| < 0x1_0000_0000
      ensures Valid() && secret == k && message == []
      ensures fresh(digest) && fresh(key) && fresh(sha) && fresh(sha.hash)
      ensures fresh(sha.buffer) && fresh(sha.state) && fresh(sha.length)
    {
      digest := new bv8[32];
      key := new bv8[64];
      sha := new Sha256Context();
      new;
      Initialize(k);
    }

    method Initialize(k: seq<bv8>)
      requires Shaped() && sha.Shaped() && |k| < 0x1_0000_0000
      modifies this, key, sha, sha.hash, sha.buffer, sha.state, sha.length
      ensures Valid() && secret == k && message == []
    {
      hide Sha256Spec.Fold, WordsOf, Full, Rest, CountsBytes, PaddedKey, Value;
      PrepareKey(k);
      sha.Initialize();
      sha.Update(key[..]);
      secret, message := k, [];
      assert sha.message == PaddedKey(secret, 0x36) + message;
    }

    method PrepareKey(k: seq<bv8>)
      requires Shaped() && sha.Shaped() && |k| < 0x1_0000_0000
      modifies key, sha, sha.hash, sha.buffer, sha.state, sha.length
      ensures key[..] == PaddedKey(k, 0x36)
    {
      hide Sha256Spec.Fold, WordsOf, Sha256Spec.Sha256, PaddedKey, Value;
      if |k| <= 64 {
        KeyBlock(k, k);
      } else {
        sha.Initialize();
        assert sha.message + k == k;
        sha.Finalize(k);
        KeyBlock(k, sha.hash[..]);
      }
    }

    method KeyBlock(ghost k: seq<bv8>, b: seq<bv8>)
      requires key.Length == 64 && b == BlockKey(k) && |b| <= 64
      modifies key
      ensures key[..] == PaddedKey(k, 0x36)
    {
      hide BlockKey;
      for i := 0 to |b|
        invariant forall j :: 0 <= j < i ==> key[j] == b[j] ^ 0x36
      {
        key[i] := b[i] ^ 0x36;
      }
      for i := |b| to 64
        invariant forall j :: 0 <= j < |b| ==> key[j] == b[j] ^ 0x36
        invariant forall j :: |b| <= j < i ==> key[j] == 0x36
      {
        key[i] := 0x36;
      }
      PadsMeet(0);
      assert key[..] == PaddedKey(k, 0x36);
    }

    method Update(msg: seq<bv8>)
      requires Valid() && |msg| < 0x1_0000_0000
      modifies this, sha, sha.buffer, sha.state, sha.length
      ensures Valid() && secret == old(secret) && message == old(message) + msg
    {
      hide Sha256Spec.Fold, WordsOf, Full, Rest, CountsBytes, PaddedKey, Value;
      sha.Update(msg);
      message := message + msg;
    }

    // The key block for the inner hash becomes the one for the outer hash.
    method FlipKey()
      requires key.Length == 64 && key[..] == PaddedKey(secret, 0x36)
      modifies key
      ensures key[..] == PaddedKey(secret, 0x5c)
    {
      hide BlockKey;
      ghost var inner := key[..];
      for i := 0 to 64
        invariant forall j :: 0 <= j < i ==> key[j] == inner[j] ^ 0x6a
        invariant forall j :: i <= j < 64 ==> key[j] == inner[j]
      {
        key[i] := key[i] ^ (0x36 ^ 0x5c);
        PadsMeet(0);
      }
      forall i | 0 <= i < 64
        ensures key[i] == PaddedKey(secret, 0x5c)[i]
      {
        PadsMeet(ByteOrZero(BlockKey(secret), i));
      }
    }

    method CopyHash()
      requires Shaped() && sha.hash.Length == 32
      modifies digest
      ensures digest[..] == sha.hash[..]
    {
      for i := 0 to 32
        invariant forall j :: 0 <= j < i ==> digest[j] == sha.hash[j]
      {
        digest[i] := sha.hash[i];
      }
    }

    method Finalize(msg: seq<bv8>)
      requires Valid() && |msg| < 0x1_0000_0000
      modifies this, digest, key, sha, sha.hash, sha.buffer, sha.state, sha.length
      ensures digest[..] == Hmac(old(secret), old(message) + msg)
    {
      hide Sha256Spec.Fold, WordsOf, Sha256Spec.Sha256, Value, PaddedKey;
      ghost var m := message + msg;
      ghost var inner := PaddedKey(secret, 0x36) + m;
      assert sha.message + msg == inner;
      sha.Finalize(msg);
      CopyHash();
      FlipKey();
      sha.Initialize();
      sha.Update(key[..]);
      assert sha.message == PaddedKey(secret, 0x5c);
      sha.Finalize(digest[..]);
      CopyHash();
    }
  }

  // The MAC of a message in two pieces.
  method Generate(key: seq<bv8>, data: seq<bv8>, digest: seq<bv8>) returns (result: seq<bv8>)
    requires |key| < 0x8000_0000 && |data| < 0x8000_0000 && |digest| < 0x8000_0000
    ensures result == Hmac(key, data + digest)
  {
    var hmac := new HmacContext(key);
    hmac.Update(data);
    assert hmac.message == data;
    hmac.Finalize(digest);
    result := hmac.digest[..];
  }

  method Get(message: seq<bv8>, key: seq<bv8>) returns (digest: seq<bv8>)
    requires |key| < 0x8000_0000 && |message| < 0x8000_0000
    ensures digest == Hmac(key, message)
  {
    var hmac := new HmacContext(key);
    assert hmac.message + message == message;
    hmac.Finalize(message);
    digest := hmac.digest[..];
  }
}
