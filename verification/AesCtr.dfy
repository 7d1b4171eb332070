// aes_ctr.c: counter mode over an abstract block cipher (section 6.5 of NIST SP 800-38A).
module AesCtr {
  import opened Blocks

  // ---------------------------------------------------------------------------------------
  // The counter

  // GETU32 and PUTU32 of aes.h.
  function GetU32(b0: bv8, b1: bv8, b2: bv8, b3: bv8): bv32 {
    ((b0 as bv32) << 24) ^ ((b1 as bv32) << 16) ^ ((b2 as bv32) << 8) ^ (b3 as bv32)
  }

  function ByteOfU32(w: bv32, i: nat): bv8
    requires i < 4
  {
    if i == 0 then (w >> 24) as bv8
    else if i == 1 then ((w >> 16) & 0xff) as bv8
    else if i == 2 then ((w >> 8) & 0xff) as bv8
    else (w & 0xff) as bv8
  }

  lemma GetPut(w: bv32)
    ensures GetU32(ByteOfU32(w, 0), ByteOfU32(w, 1), ByteOfU32(w, 2), ByteOfU32(w, 3)) == w
  {
  }

  // Word i of the counter, word 0 being the most significant.
  function WordAt(b: Block, i: nat): bv32
    requires i < 4
  {
    GetU32(b.at[4 * i], b.at[4 * i + 1], b.at[4 * i + 2], b.at[4 * i + 3])
  }

  const TWO_32 := 0x1_0000_0000
  const TWO_128 := 0x1_0000_0000_0000_0000_0000_0000_0000_0000

  function ByteValue(b: bv8): (v: nat)
    ensures v < 256
  {
    b as nat
  }

  // Four bytes as a big-endian number.
  function Value4(b0: bv8, b1: bv8, b2: bv8, b3: bv8): (v: nat)
    ensures v < TWO_32
  {
    ((ByteValue(b0) * 256 + ByteValue(b1)) * 256 + ByteValue(b2)) * 256 + ByteValue(b3)
  }

  function WordValue(b: Block, i: nat): (v: nat)
    requires i < 4
    ensures v < TWO_32
  {
    Value4(b.at[4 * i], b.at[4 * i + 1], b.at[4 * i + 2], b.at[4 * i + 3])
  }

  // The counter as a big-endian number.
  function Number(b: Block): (n: nat)
    ensures n < TWO_128
  {
    Value128(WordValue(b, 0), WordValue(b, 1), WordValue(b, 2), WordValue(b, 3))
  }

  function Value128(v0: nat, v1: nat, v2: nat, v3: nat): (n: nat)
    requires v0 < TWO_32 && v1 < TWO_32 && v2 < TWO_32 && v3 < TWO_32
    ensures n < TWO_128
  {
    ((v0 * TWO_32 + v1) * TWO_32 + v2) * TWO_32 + v3
  }

  // The successors wrap around.
  function Succ8(b: bv8): bv8 {
    b + 1
  }

  function Succ32(w: bv32): bv32 {
    w + 1
  }

  lemma Succ8Value(b: bv8)
    ensures ByteValue(Succ8(b)) == if b == 255 then 0 else ByteValue(b) + 1
    ensures b == 255 <==> ByteValue(b) == 255
    ensures ByteValue(0) == 0
  {
  }

  lemma PutGet(b0: bv8, b1: bv8, b2: bv8, b3: bv8)
    ensures var w := GetU32(b0, b1, b2, b3);
      ByteOfU32(w, 0) == b0 && ByteOfU32(w, 1) == b1 && ByteOfU32(w, 2) == b2 && ByteOfU32(w, 3) == b3
  {
  }

  lemma SuccBytes(b0: bv8, b1: bv8, b2: bv8, b3: bv8)
    ensures b3 != 255 ==> Succ32(GetU32(b0, b1, b2, b3)) == GetU32(b0, b1, b2, Succ8(b3))
    ensures b3 == 255 && b2 != 255 ==> Succ32(GetU32(b0, b1, b2, b3)) == GetU32(b0, b1, Succ8(b2), 0)
    ensures b3 == 255 && b2 == 255 && b1 != 255 ==> Succ32(GetU32(b0, b1, b2, b3)) == GetU32(b0, Succ8(b1), 0, 0)
    ensures b3 == 255 && b2 == 255 && b1 == 255 ==> Succ32(GetU32(b0, b1, b2, b3)) == GetU32(Succ8(b0), 0, 0, 0)
    ensures Succ32(GetU32(b0, b1, b2, b3)) == 0 <==> b0 == 255 && b1 == 255 && b2 == 255 && b3 == 255
  {
  }

  function BytesValue(w: bv32): nat {
    Value4(ByteOfU32(w, 0), ByteOfU32(w, 1), ByteOfU32(w, 2), ByteOfU32(w, 3))
  }

  // One more modulo 2^32, and zero exactly after the largest number.
  lemma Succ32Value(b0: bv8, b1: bv8, b2: bv8, b3: bv8)
    ensures var v, w := Value4(b0, b1, b2, b3), Succ32(GetU32(b0, b1, b2, b3));
      BytesValue(w) == (if v == TWO_32 - 1 then 0 else v + 1) && (w == 0 <==> v == TWO_32 - 1)
  {
    hide GetU32, ByteOfU32, Succ8, Succ32, ByteValue;
    SuccBytes(b0, b1, b2, b3);
    Succ8Value(b0);
    Succ8Value(b1);
    Succ8Value(b2);
    Succ8Value(b3);
    PutGet(b0, b1, b2, Succ8(b3));
    PutGet(b0, b1, Succ8(b2), 0);
    PutGet(b0, Succ8(b1), 0, 0);
    PutGet(Succ8(b0), 0, 0, 0);
  }

  lemma WordValueIs(b: Block, i: nat)
    requires i < 4
    ensures WordValue(b, i) == BytesValue(WordAt(b, i))
  {
    hide GetU32, ByteOfU32, Value4;
    PutGet(b.at[4 * i], b.at[4 * i + 1], b.at[4 * i + 2], b.at[4 * i + 3]);
  }

  lemma WordSucc(b: Block, i: nat)
    requires i < 4
    ensures var v, w := WordValue(b, i), Succ32(WordAt(b, i));
      BytesValue(w) == (if v == TWO_32 - 1 then 0 else v + 1) && (w == 0 <==> v == TWO_32 - 1)
  {
    hide GetU32, ByteOfU32, Value4, Succ32, BytesValue;
    Succ32Value(b.at[4 * i], b.at[4 * i + 1], b.at[4 * i + 2], b.at[4 * i + 3]);
  }

  function SetWord(b: Block, i: nat, w: bv32): Block
    requires i < 4
  {
    Bytes(seq(16, j requires 0 <= j < 16 => if j / 4 == i then ByteOfU32(w, j % 4) else b.at[j]))
  }

  lemma WordOfSet(b: Block, i: nat, w: bv32, k: nat)
    requires i < 4 && k < 4
    ensures WordAt(SetWord(b, i, w), k) == if k == i then w else WordAt(b, k)
  {
    hide GetU32, ByteOfU32;
    GetPut(w);
  }

  // Stepping word i leaves the other three alone.
  lemma SetOne(b: Block, i: nat)
    requires i < 4
    ensures var r := SetWord(b, i, Succ32(WordAt(b, i)));
      && WordAt(r, 0) == (if i == 0 then Succ32(WordAt(b, 0)) else WordAt(b, 0))
      && WordAt(r, 1) == (if i == 1 then Succ32(WordAt(b, 1)) else WordAt(b, 1))
      && WordAt(r, 2) == (if i == 2 then Succ32(WordAt(b, 2)) else WordAt(b, 2))
      && WordAt(r, 3) == if i == 3 then Succ32(WordAt(b, 3)) else WordAt(b, 3)
  {
    hide WordAt, SetWord, Succ32;
    WordOfSet(b, i, Succ32(WordAt(b, i)), 0);
    WordOfSet(b, i, Succ32(WordAt(b, i)), 1);
    WordOfSet(b, i, Succ32(WordAt(b, i)), 2);
    WordOfSet(b, i, Succ32(WordAt(b, i)), 3);
  }

  // AES_ctr128_inc on values: the next word is only touched when this one wraps to zero.
  function Increment(b: Block): Block {
    var w3 := Succ32(WordAt(b, 3));
    var b3 := SetWord(b, 3, w3);
    if w3 != 0 then b3 else
      var w2 := Succ32(WordAt(b3, 2));
      var b2 := SetWord(b3, 2, w2);
      if w2 != 0 then b2 else
        var w1 := Succ32(WordAt(b2, 1));
        var b1 := SetWord(b2, 1, w1);
        if w1 != 0 then b1 else SetWord(b1, 0, Succ32(WordAt(b1, 0)))
  }

  lemma IncrementWords(b: Block)
    ensures var w := [WordAt(b, 0), WordAt(b, 1), WordAt(b, 2), WordAt(b, 3)];
      var r := Increment(b);
      && WordAt(r, 3) == Succ32(w[3])
      && WordAt(r, 2) == (if Succ32(w[3]) == 0 then Succ32(w[2]) else w[2])
      && WordAt(r, 1) == (if Succ32(w[3]) == 0 && Succ32(w[2]) == 0 then Succ32(w[1]) else w[1])
      && WordAt(r, 0) == if Succ32(w[3]) == 0 && Succ32(w[2]) == 0 && Succ32(w[1]) == 0 then Succ32(w[0]) else w[0]
  {
    hide WordAt, SetWord, Succ32;
    var b3 := SetWord(b, 3, Succ32(WordAt(b, 3)));
    SetOne(b, 3);
    if Succ32(WordAt(b, 3)) == 0 {
      var b2 := SetWord(b3, 2, Succ32(WordAt(b3, 2)));
      SetOne(b3, 2);
      if Succ32(WordAt(b3, 2)) == 0 {
        var b1 := SetWord(b2, 1, Succ32(WordAt(b2, 1)));
        SetOne(b2, 1);
        if Succ32(WordAt(b2, 1)) == 0 {
          SetOne(b1, 0);
        }
      }
    }
  }

  function Next(v: nat): nat {
    if v == TWO_32 - 1 then 0 else v + 1
  }

  // Each word steps when all the words behind it wrap.
  lemma IncrementValues(b: Block)
    ensures var r, last := Increment(b), TWO_32 - 1;
      var v0, v1, v2, v3 := WordValue(b, 0), WordValue(b, 1), WordValue(b, 2), WordValue(b, 3);
      && WordValue(r, 3) == Next(v3)
      && WordValue(r, 2) == (if v3 == last then Next(v2) else v2)
      && WordValue(r, 1) == (if v3 == last && v2 == last then Next(v1) else v1)
      && WordValue(r, 0) == if v3 == last && v2 == last && v1 == last then Next(v0) else v0
  {
    hide WordAt, Increment, Succ32, BytesValue, WordValue;
    var r := Increment(b);
    IncrementWords(b);
    WordSucc(b, 0);
    WordSucc(b, 1);
    WordSucc(b, 2);
    WordSucc(b, 3);
    WordValueIs(b, 0);
    WordValueIs(b, 1);
    WordValueIs(b, 2);
    WordValueIs(r, 0);
    WordValueIs(r, 1);
    WordValueIs(r, 2);
    WordValueIs(r, 3);
  }

  // The increment adds one modulo 2^128, big-endian.
  lemma IncrementIsPlusOne(b: Block)
    ensures Number(Increment(b)) == (Number(b) + 1) % TWO_128
  {
    hide Increment, WordValue;
    IncrementValues(b);
    Wrapped(Number(b));
  }

  lemma Wrapped(n: nat)
    requires n < TWO_128
    ensures (n + 1) % TWO_128 == if n == TWO_128 - 1 then 0 else n + 1
  {
  }

  method PutU32(counter: array<bv8>, i: nat, w: bv32)
    requires counter.Length == 16 && i < 4
    modifies counter
    ensures BlockAt(counter, 0) == SetWord(old(BlockAt(counter, 0)), i, w)
  {
    hide ByteOfU32;
    ghost var b := BlockAt(counter, 0);
    counter[4 * i] := ByteOfU32(w, 0);
    counter[4 * i + 1] := ByteOfU32(w, 1);
    counter[4 * i + 2] := ByteOfU32(w, 2);
    counter[4 * i + 3] := ByteOfU32(w, 3);
    forall j | 0 <= j < 16
      ensures counter[j] == SetWord(b, i, w).at[j]
    {
    }
    SameBlock(counter, 0, SetWord(b, i, w));
  }

  method ReadU32(counter: array<bv8>, i: nat) returns (w: bv32)
    requires counter.Length == 16 && i < 4
    ensures w == WordAt(BlockAt(counter, 0), i)
  {
    hide GetU32;
    w := GetU32(counter[4 * i], counter[4 * i + 1], counter[4 * i + 2], counter[4 * i + 3]);
  }

  // AES_ctr128_inc
  method Inc(counter: array<bv8>)
    requires counter.Length == 16
    modifies counter
    ensures BlockAt(counter, 0) == Increment(old(BlockAt(counter, 0)))
  {
    hide WordAt, SetWord, Succ32;
    var c := ReadU32(counter, 3);
    c := Succ32(c);
    PutU32(counter, 3, c);
    if c != 0 {
      return;
    }
    c := ReadU32(counter, 2);
    c := Succ32(c);
    PutU32(counter, 2, c);
    if c != 0 {
      return;
    }
    c := ReadU32(counter, 1);
    c := Succ32(c);
    PutU32(counter, 1, c);
    if c != 0 {
      return;
    }
    c := ReadU32(counter, 0);
    c := Succ32(c);
    PutU32(counter, 0, c);
  }

  // ---------------------------------------------------------------------------------------
  // The key stream

  // ivec, ecount_buf and num: what one call leaves for the next.
  datatype Ctr = Ctr(ivec: Block, ecount: Block, num: nat)

  // At a block boundary the counter is encrypted and stepped.
  function Refill(E: Block -> Block, s: Ctr): (r: Ctr)
    ensures r.num == s.num
  {
    if s.num == 0 then Ctr(Increment(s.ivec), E(s.ivec), 0) else s
  }

  function KeyByte(E: Block -> Block, s: Ctr): bv8
    requires s.num < 16
  {
    Refill(E, s).ecount.at[s.num]
  }

  // The state after n bytes.
  function Advance(E: Block -> Block, s: Ctr, n: nat): (r: Ctr)
    requires s.num < 16
    ensures r.num < 16
  {
    if n == 0 then s
    else
      var t := Advance(E, s, n - 1);
      Refill(E, t).(num := (t.num + 1) % 16)
  }

  // Byte i of the stream from a state.
  function Stream(E: Block -> Block, s: Ctr, i: nat): bv8
    requires s.num < 16
  {
    KeyByte(E, Advance(E, s, i))
  }

  // Splitting an input: the state carried from one call to the next continues the same stream.
  lemma {:induction false} AdvanceSplit(E: Block -> Block, s: Ctr, m: nat, n: nat)
    requires s.num < 16
    ensures Advance(E, Advance(E, s, m), n) == Advance(E, s, m + n)
    ensures Stream(E, Advance(E, s, m), n) == Stream(E, s, m + n)
    decreases n
  {
    if n > 0 {
      AdvanceSplit(E, s, m, n - 1);
    }
  }

  // The counter stepped k times.
  function Counter(c: Block, k: nat): Block {
    if k == 0 then c else Increment(Counter(c, k - 1))
  }

  // T_k = T_0 + k modulo 2^128.
  lemma {:induction false} CounterValue(c: Block, k: nat)
    ensures Number(Counter(c, k)) == (Number(c) + k) % TWO_128
  {
    hide Increment, Number;
    if k > 0 {
      CounterValue(c, k - 1);
      IncrementIsPlusOne(Counter(c, k - 1));
      ModPlusOne(Number(c) + k - 1);
    }
  }

  lemma ModPlusOne(n: nat)
    ensures (n % TWO_128 + 1) % TWO_128 == (n + 1) % TWO_128
  {
  }

  // After q blocks and r bytes from a block boundary.
  lemma {:induction false} AdvanceBlocks(E: Block -> Block, s: Ctr, q: nat, r: nat)
    requires s.num == 0 && r < 16
    ensures var t := Advance(E, s, 16 * q + r);
      && t.num == r
      && t.ivec == Counter(s.ivec, if r == 0 then q else q + 1)
      && (r != 0 ==> t.ecount == E(Counter(s.ivec, q)))
    decreases q, r
  {
    hide Increment;
    if r > 0 {
      AdvanceBlocks(E, s, q, r - 1);
    } else if q > 0 {
      AdvanceBlocks(E, s, q - 1, 15);
      assert Advance(E, s, 16 * q) == Refill(E, Advance(E, s, 16 * q - 1)).(num := 0);
    }
  }

  // The closed form: byte i comes from the encryption of the counter i / 16 steps on.
  lemma StreamClosedForm(E: Block -> Block, s: Ctr, i: nat)
    requires s.num == 0
    ensures Stream(E, s, i) == E(Counter(s.ivec, i / 16)).at[i % 16]
  {
    hide Increment;
    AdvanceBlocks(E, s, i / 16, i % 16);
  }

  // ---------------------------------------------------------------------------------------
  // AES_ctr128_encrypt

  ghost function StateOf(ivec: array<bv8>, ecount: array<bv8>, num: nat): Ctr
    requires ivec.Length == 16 && ecount.Length == 16
    reads ivec, ecount
  {
    Ctr(BlockAt(ivec, 0), BlockAt(ecount, 0), num)
  }

  // AES_encrypt(ivec, ecount) followed by the increment, when a new block is needed.
  method RefillBuffers(E: Block -> Block, ivec: array<bv8>, ecount: array<bv8>, n: nat)
    requires ivec.Length == 16 && ecount.Length == 16 && ivec != ecount
    modifies ivec, ecount
    ensures StateOf(ivec, ecount, n) == Refill(E, old(StateOf(ivec, ecount, n)))
  {
    hide Increment;
    if n == 0 {
      var y := E(Bytes(ivec[..]));
      assert ivec[0..16] == ivec[..];
      for j := 0 to 16
        invariant forall k :: 0 <= k < j ==> ecount[k] == y.at[k]
        invariant BlockAt(ivec, 0) == old(BlockAt(ivec, 0))
      {
        ecount[j] := y.at[j];
      }
      SameBlock(ecount, 0, y);
      Inc(ivec);
    }
  }

  // Each byte is combined with the next byte of the stream. Input and output may be one buffer.
  method CtrEncrypt(E: Block -> Block, input: array<bv8>, output: array<bv8>, p: nat, length: nat,
                    ivec: array<bv8>, ecount: array<bv8>, num: nat)
    returns (num': nat)
    requires ivec.Length == 16 && ecount.Length == 16 && ivec != ecount && num < 16
    requires input != ivec && input != ecount && output != ivec && output != ecount
    requires p + length <= input.Length && p + length <= output.Length
    modifies output, ivec, ecount
    ensures num' < 16
    ensures StateOf(ivec, ecount, num') == Advance(E, old(StateOf(ivec, ecount, num)), length)
    ensures forall k :: 0 <= k < length ==>
      output[p + k] == Add(old(input[p + k]), Stream(E, old(StateOf(ivec, ecount, num)), k))
    ensures forall k :: 0 <= k < output.Length && !(p <= k < p + length) ==> output[k] == old(output[k])
  {
    hide Add, Refill, Increment;
    ghost var s := StateOf(ivec, ecount, num);
    var n: nat := num;
    for l := 0 to length
      invariant n < 16 && StateOf(ivec, ecount, n) == Advance(E, s, l)
      invariant forall k :: 0 <= k < l ==> output[p + k] == Add(old(input[p + k]), Stream(E, s, k))
      invariant forall k :: p + l <= k < p + length ==> input[k] == old(input[k])
      invariant forall k :: 0 <= k < output.Length && !(p <= k < p + l) ==> output[k] == old(output[k])
    {
      RefillBuffers(E, ivec, ecount, n);
      assert ecount[n] == Stream(E, s, l);
      output[p + l] := Add(input[p + l], ecount[n]);
      n := (n + 1) % 16;
    }
    return n;
  }

  // ---------------------------------------------------------------------------------------
  // encrypt_ctr

  const BYTES_SIZE := 1024

  // The global vector followed by eight zero bytes: init_ctr.
  const IV: seq<bv8> := [0x66, 0x61, 0x63, 0x65, 0x73, 0x65, 0x61, 0x00]
  const FirstCounter: Block := Bytes([0x66, 0x61, 0x63, 0x65, 0x73, 0x65, 0x61, 0x00, 0, 0, 0, 0, 0, 0, 0, 0])

  // Byte i of the stream that starts at the first counter.
  function KeyStream(E: Block -> Block, i: nat): bv8 {
    E(Counter(FirstCounter, i / 16)).at[i % 16]
  }

  // The stream starts again every 1024 bytes.
  function Apply(E: Block -> Block, x: seq<bv8>): seq<bv8> {
    seq(|x|, i requires 0 <= i < |x| => Add(x[i], KeyStream(E, i % BYTES_SIZE)))
  }

  // Encrypting twice decrypts, for every length.
  lemma ApplyTwice(E: Block -> Block, x: seq<bv8>)
    ensures Apply(E, Apply(E, x)) == x
  {
    hide Add, KeyStream;
    forall i | 0 <= i < |x|
      ensures Apply(E, Apply(E, x))[i] == x[i]
    {
      var k := KeyStream(E, i % BYTES_SIZE);
      AddIsCommutative(x[i], k);
      AddIsCommutative(Add(x[i], k), k);
      AddCancels(k, x[i]);
    }
  }

  lemma FirstCounterNumber()
    ensures Number(FirstCounter) == 0x6661_6365_7365_6100_0000_0000_0000_0000
  {
    var b := FirstCounter;
    assert b.at[0] == 0x66 && b.at[1] == 0x61 && b.at[2] == 0x63 && b.at[3] == 0x65;
    assert b.at[4] == 0x73 && b.at[5] == 0x65 && b.at[6] == 0x61 && b.at[7] == 0;
    assert forall i :: 8 <= i < 16 ==> b.at[i] == 0;
    assert WordValue(b, 0) == 0x6661_6365 && WordValue(b, 1) == 0x7365_6100 && WordValue(b, 2) == 0 && WordValue(b, 3) == 0;
  }

  // Byte i of the output in the terms of section 6.5: the counter blocks count up from the first
  // one, and start again every 1024 bytes.
  lemma ApplyAt(E: Block -> Block, x: seq<bv8>, i: nat)
    requires i < |x|
    ensures exists c: Block ::
      Number(c) == 0x6661_6365_7365_6100_0000_0000_0000_0000 + i % 1024 / 16 && Apply(E, x)[i] == x[i] ^ E(c).at[i % 16]
  {
    hide Counter, Number;
    var k := i % 1024 / 16;
    var c := Counter(FirstCounter, k);
    FirstCounterNumber();
    CounterValue(FirstCounter, k);
    assert Number(c) == 0x6661_6365_7365_6100_0000_0000_0000_0000 + k;
    assert i % 1024 % 16 == i % 16;
    assert Apply(E, x)[i] == x[i] ^ E(c).at[i % 16];
  }

  // Bytes 1024 apart are combined with the same byte of the stream.
  lemma StreamRepeats(E: Block -> Block, x: seq<bv8>, i: nat)
    requires i + 1024 < |x|
    ensures Apply(E, x)[i] ^ x[i] == Apply(E, x)[i + 1024] ^ x[i + 1024]
  {
    hide KeyStream;
    var k := KeyStream(E, i % 1024);
    assert Apply(E, x)[i] == x[i] ^ k && Apply(E, x)[i + 1024] == x[i + 1024] ^ k;
    SumBack(x[i], k);
    SumBack(x[i + 1024], k);
  }

  lemma SumBack(a: bv8, k: bv8)
    ensures a ^ k ^ a == k
  {
  }

  method InitCtr(ivec: array<bv8>, ecount: array<bv8>) returns (num: nat)
    requires ivec.Length == 16 && ecount.Length == 16 && ivec != ecount
    modifies ivec, ecount
    ensures num == 0 && BlockAt(ivec, 0) == FirstCounter
    ensures forall i :: 0 <= i < 16 ==> ecount[i] == 0
  {
    num := 0;
    for i := 0 to 16
      invariant forall j :: 0 <= j < i ==> ecount[j] == 0
    {
      ecount[i] := 0;
    }
    for i := 8 to 16
      invariant forall j :: 8 <= j < i ==> ivec[j] == 0
      invariant forall j :: 0 <= j < 16 ==> ecount[j] == 0
    {
      ivec[i] := 0;
    }
    for i := 0 to 8
      invariant forall j :: 0 <= j < i ==> ivec[j] == IV[j]
      invariant forall j :: 8 <= j < 16 ==> ivec[j] == 0
      invariant forall j :: 0 <= j < 16 ==> ecount[j] == 0
    {
      ivec[i] := IV[i];
    }
    SameBlock(ivec, 0, FirstCounter);
  }

  lemma FreshStream(E: Block -> Block, s: Ctr, i: nat)
    requires s.num == 0 && s.ivec == FirstCounter
    ensures Stream(E, s, i) == KeyStream(E, i)
  {
    StreamClosedForm(E, s, i);
  }

  // One chunk with a fresh state.
  method EncryptChunk(E: Block -> Block, input: array<bv8>, output: array<bv8>, p: nat, length: nat)
    requires length <= BYTES_SIZE
    requires p + length <= input.Length && p + length <= output.Length
    modifies output
    ensures forall k :: p <= k < p + length ==> output[k] == Add(old(input[k]), KeyStream(E, k - p))
    ensures forall k :: 0 <= k < output.Length && !(p <= k < p + length) ==> output[k] == old(output[k])
  {
    hide Add, Counter, Stream, KeyStream, Advance;
    var ivec, ecount := new bv8[16], new bv8[16];
    var num := InitCtr(ivec, ecount);
    ghost var s := StateOf(ivec, ecount, num);
    num := CtrEncrypt(E, input, output, p, length, ivec, ecount, num);
    forall k | p <= k < p + length
      ensures output[k] == Add(old(input[k]), KeyStream(E, k - p))
    {
      FreshStream(E, s, k - p);
      assert output[p + (k - p)] == Add(old(input[p + (k - p)]), Stream(E, s, k - p));
    }
  }

  // Short inputs in one chunk; longer ones in chunks of 1024 bytes and a rest.
  method EncryptCtr(E: Block -> Block, input: array<bv8>, output: array<bv8>, bytesRead: nat)
    requires bytesRead <= input.Length && bytesRead <= output.Length
    modifies output
    ensures output[..bytesRead] == Apply(E, old(input[..bytesRead]))
    ensures forall k :: bytesRead <= k < output.Length ==> output[k] == old(output[k])
  {
    hide Add, KeyStream;
    if bytesRead < BYTES_SIZE {
      EncryptChunk(E, input, output, 0, bytesRead);
      return;
    }
    var p := EncryptChunks(E, input, output, bytesRead);
    var modLen := bytesRead % BYTES_SIZE;
    if modLen != 0 {
      EncryptChunk(E, input, output, p, modLen);
    }
    assert forall k :: p <= k < bytesRead ==> k % BYTES_SIZE == k - p;
  }

  // The chunks of 1024 bytes.
  method EncryptChunks(E: Block -> Block, input: array<bv8>, output: array<bv8>, bytesRead: nat) returns (p: nat)
    requires bytesRead <= input.Length && bytesRead <= output.Length
    modifies output
    ensures p == bytesRead - bytesRead % BYTES_SIZE
    ensures forall k :: 0 <= k < p ==> output[k] == Add(old(input[k]), KeyStream(E, k % BYTES_SIZE))
    ensures forall k :: p <= k < bytesRead ==> input[k] == old(input[k])
    ensures forall k :: p <= k < output.Length ==> output[k] == old(output[k])
  {
    hide Add, KeyStream;
    p := 0;
    var i := BYTES_SIZE;
    ghost var q := 0;
    while i <= bytesRead
      invariant i == p + BYTES_SIZE && p == q * BYTES_SIZE && p <= bytesRead
      invariant forall k :: 0 <= k < p ==> output[k] == Add(old(input[k]), KeyStream(E, k % BYTES_SIZE))
      invariant forall k :: p <= k < bytesRead ==> input[k] == old(input[k])
      invariant forall k :: p <= k < output.Length ==> output[k] == old(output[k])
      decreases bytesRead - p
    {
      EncryptChunk(E, input, output, p, BYTES_SIZE);
      assert forall k :: p <= k < p + BYTES_SIZE ==> k % BYTES_SIZE == k - p;
      p := p + BYTES_SIZE;
      i := i + BYTES_SIZE;
      q := q + 1;
    }
  }
}
