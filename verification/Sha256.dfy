// hmac_sha256.c: SHA-256 over a message that arrives in pieces.
module Sha256 {
  import opened Sha256Spec

  // ---------------------------------------------------------------------------------------
  // The bit counter: eight bytes, most significant first

  // The counter as a number. Each byte is an int between 0 and 255.
  function Value(l: seq<int>): int
    requires |l| == 8
  {
    l[0] * 0x100_0000_0000_0000 + l[1] * 0x1_0000_0000_0000 + l[2] * 0x100_0000_0000 + l[3] * 0x1_0000_0000
      + l[4] * 0x100_0000 + l[5] * 0x1_0000 + l[6] * 0x100 + l[7]
  }

  const TWO_64 := 0x1_0000_0000_0000_0000

  ghost predicate AreBytes(l: seq<int>) {
    |l| == 8 && forall i :: 0 <= i < 8 ==> 0 <= l[i] < 256
  }

  lemma ValueUpdate(l: seq<int>, i: nat, x: int)
    requires |l| == 8 && i < 8
    ensures Value(l[i := x]) == Value(l) + (x - l[i]) * Weight(i)
  {
  }

  lemma ValueBound(l: seq<int>)
    requires AreBytes(l)
    ensures 0 <= Value(l) < TWO_64
  {
  }

  lemma Digit(v: int, high: int, b: int, low: int, w: nat)
    requires v == (high * 256 + b) * w + low && 0 <= low < w && 0 <= b < 256
    ensures (v / w) % 256 == b
  {
    assert v / w == high * 256 + b by {
      QuotientUnique(v, high * 256 + b, low, w);
    }
  }

  lemma TimesAtLeast(d: int, w: int)
    requires w > 0
    ensures d >= 1 ==> d * w >= w
    ensures d <= -1 ==> d * w <= -w
  {
  }

  lemma QuotientUnique(v: int, q: int, r: int, w: nat)
    requires w > 0 && v == q * w + r && 0 <= r < w
    ensures v / w == q
  {
    var p, s := v / w, v % w;
    assert v == p * w + s;
    TimesAtLeast(q - p, w);
    assert (q - p) * w == q * w - p * w == s - r;
  }

  // The value determines the bytes.
  lemma ValueByte(l: seq<int>, i: nat)
    requires AreBytes(l) && i < 8
    ensures l[i] == (Value(l) / Weight(i)) % 256
  {
    var v := Value(l);
    if i == 0 {
      Digit(v, 0, l[0], v - l[0] * 0x100_0000_0000_0000, 0x100_0000_0000_0000);
    } else if i == 1 {
      Digit(v, l[0], l[1], v - (l[0] * 256 + l[1]) * 0x1_0000_0000_0000, 0x1_0000_0000_0000);
    } else if i == 2 {
      var h := l[0] * 256 + l[1];
      Digit(v, h, l[2], v - (h * 256 + l[2]) * 0x100_0000_0000, 0x100_0000_0000);
    } else if i == 3 {
      var h := (l[0] * 256 + l[1]) * 256 + l[2];
      Digit(v, h, l[3], v - (h * 256 + l[3]) * 0x1_0000_0000, 0x1_0000_0000);
    } else if i == 4 {
      var h := ((l[0] * 256 + l[1]) * 256 + l[2]) * 256 + l[3];
      Digit(v, h, l[4], v - (h * 256 + l[4]) * 0x100_0000, 0x100_0000);
    } else if i == 5 {
      var h := (((l[0] * 256 + l[1]) * 256 + l[2]) * 256 + l[3]) * 256 + l[4];
      Digit(v, h, l[5], v - (h * 256 + l[5]) * 0x1_0000, 0x1_0000);
    } else if i == 6 {
      var h := ((((l[0] * 256 + l[1]) * 256 + l[2]) * 256 + l[3]) * 256 + l[4]) * 256 + l[5];
      Digit(v, h, l[6], v - (h * 256 + l[6]) * 0x100, 0x100);
    } else {
      var h := (((((l[0] * 256 + l[1]) * 256 + l[2]) * 256 + l[3]) * 256 + l[4]) * 256 + l[5]) * 256 + l[6];
      Digit(v, h, l[7], v - (h * 256 + l[7]), 1);
    }
  }

  // The weight of the carry out of position i.
  function Above(i: nat): nat {
    if i == 0 then TWO_64 else Weight(i - 1)
  }

  lemma AboveIsNext(i: nat)
    requires i < 8
    ensures Above(i) == 256 * Weight(i)
  {
  }

  // The bits of a 32-bit byte count that fall on the positions from i on.
  function BitsFrom(n: nat, i: nat): nat {
    if i >= 8 then 0 else (8 * n) % Above(i)
  }

  // The byte of the bit count at position i, as the shifts of hmac_sha256.c:119-126 compute it.
  function BitsByte(n: nat, i: nat): (b: nat)
    ensures b < 256
  {
    if i == 7 then (8 * n) % 256
    else if i < 3 then 0
    else if i == 3 then (n / 0x2000_0000) % 256
    else if i == 4 then (n / 0x20_0000) % 256
    else if i == 5 then (n / 0x2000) % 256
    else (n / 0x20) % 256
  }

  lemma Regroup(q: int, b: int, w: int, r: int)
    requires 0 <= b < 256 && 0 <= r < w
    ensures (q * 256 + b) * w + r == q * (256 * w) + (b * w + r)
    ensures 0 <= b * w + r < 256 * w
  {
    assert (q * 256 + b) * w == q * 256 * w + b * w;
    assert b * w <= 255 * w && b * w >= 0;
  }

  lemma RemainderUnique(v: int, q: int, r: int, w: nat)
    requires w > 0 && v == q * w + r && 0 <= r < w
    ensures v % w == r
  {
    QuotientUnique(v, q, r, w);
    assert v == (v / w) * w + v % w;
  }

  // A number cut at weight w, then the rest at 256.
  lemma TopDigit(v: nat, p: nat, q: nat, b: nat, r: nat, w: nat)
    requires v == p * w + r && p == q * 256 + b && b < 256 && r < w
    ensures v % (256 * w) == b * w + r
  {
    Regroup(q, b, w, r);
    RemainderUnique(v, q, b * w + r, 256 * w);
  }

  lemma BitsFromStep(n: nat, i: nat)
    requires n < 0x1_0000_0000 && i < 8
    ensures BitsFrom(n, i) == BitsByte(n, i) * Weight(i) + BitsFrom(n, i + 1)
  {
    hide BitsFrom, BitsByte;
    if i < 3 {
      BitsFromStepHigh(n, i);
    } else {
      BitsFromStepLow(n, i);
    }
  }

  lemma BitsFromStepHigh(n: nat, i: nat)
    requires n < 0x1_0000_0000 && i < 3
    ensures BitsFrom(n, i) == BitsByte(n, i) * Weight(i) + BitsFrom(n, i + 1)
  {
  }

  lemma BitsFromStepLow(n: nat, i: nat)
    requires n < 0x1_0000_0000 && 3 <= i < 8
    ensures BitsFrom(n, i) == BitsByte(n, i) * Weight(i) + BitsFrom(n, i + 1)
  {
    BitsByteIsDigit(n, i);
    BitsFromIs(n, i);
    hide BitsFrom, BitsByte, Weight;
    var v, w := 8 * n, Weight(i);
    TopDigit(v, v / w, v / w / 256, v / w % 256, v % w, w);
  }

  lemma BitsByteIsDigit(n: nat, i: nat)
    requires n < 0x1_0000_0000 && 3 <= i < 8
    ensures Weight(i) > 0 && BitsByte(n, i) == (8 * n / Weight(i)) % 256
  {
  }

  lemma BitsFromIs(n: nat, i: nat)
    requires 3 <= i < 8
    ensures BitsFrom(n, i) == (8 * n) % (256 * Weight(i))
    ensures BitsFrom(n, i + 1) == (8 * n) % Weight(i)
  {
  }

  // The carry loop has moved n bits into the counter when its value is off by a multiple of 2^64.
  lemma SameModulo(v: int, w: int, off: int)
    requires 0 <= v < TWO_64 && v == w + off * TWO_64
    ensures v == w % TWO_64
  {
  }

  ghost predicate CountsBytes(l: seq<int>, n: nat) {
    AreBytes(l) && Value(l) == (8 * n) % TWO_64
  }

  // The counter tells the number of bytes in an unfinished block.
  lemma IndexFromCounter(l: seq<int>, n: nat)
    requires CountsBytes(l, n)
    ensures l[6] % 2 * 32 + l[7] / 8 == n % 64
  {
    var high := l[0] * 0x8000_0000_0000 + l[1] * 0x80_0000_0000 + l[2] * 0x8000_0000 + l[3] * 0x80_0000 + l[4] * 0x8000 + l[5] * 0x80;
    assert Value(l) == high * 512 + l[6] * 256 + l[7];
    hide Value;
    var q := (8 * n) / TWO_64;
    LowNine(n, q * 0x80_0000_0000_0000 + high, l[6], l[7]);
  }

  lemma LowNine(n: nat, z: int, a: nat, b: nat)
    requires 8 * n == 512 * z + 256 * a + b && b < 256
    ensures a % 2 * 32 + b / 8 == n % 64
  {
    assert n == 64 * (z + a / 2) + (a % 2 * 32 + b / 8);
  }

  // The bytes of the counter are the length that the padding carries.
  lemma CounterIsLength(l: seq<int>, n: nat, i: nat)
    requires CountsBytes(l, n) && i < 8
    ensures l[i] == LengthByte(n, i)
  {
    ValueByte(l, i);
    hide Value;
    var v, q := Value(l), (8 * n) / TWO_64;
    assert 8 * n == q * TWO_64 + v;
    DropHigh(8 * n, q, v, i);
  }

  lemma DropHigh(m: nat, q: nat, v: nat, i: nat)
    requires m == q * TWO_64 + v && i < 8
    ensures (m / Weight(i)) % 256 == (v / Weight(i)) % 256
  {
    assert 256 * (Weight(i) * Weight(7 - i)) == TWO_64;
    DropHighAt(m, q, v, Weight(i), Weight(7 - i));
  }

  lemma DropHighAt(m: nat, q: nat, v: nat, w: nat, c: nat)
    requires w > 0 && m == q * (256 * (w * c)) + v
    ensures (m / w) % 256 == (v / w) % 256
  {
    var p := v / w;
    assert q * (256 * (w * c)) == (256 * (q * c)) * w;
    QuotientUnique(m, 256 * (q * c) + p, v % w, w);
    assert (256 * (q * c) + p) % 256 == p % 256;
  }

  // ---------------------------------------------------------------------------------------
  // The message so far

  function Rest(m: seq<bv8>): (r: seq<bv8>)
    ensures |r| == |m| % 64
  {
    m[|m| - |m| % 64..]
  }

  function Full(m: seq<bv8>): (f: seq<bv8>)
    ensures |f| % 64 == 0
  {
    m[..|m| - |m| % 64]
  }

  // A piece that stays below the block boundary only lengthens the rest; one that reaches it
  // completes a block.
  lemma Extend(m: seq<bv8>, x: seq<bv8>)
    requires |m| % 64 + |x| <= 64
    ensures |m| % 64 + |x| < 64 ==> Full(m + x) == Full(m) && Rest(m + x) == Rest(m) + x
    ensures |m| % 64 + |x| == 64 ==> Full(m + x) == Full(m) + (Rest(m) + x) && Rest(m + x) == []
  {
    if |m| % 64 + |x| < 64 {
      assert |m + x| % 64 == |m| % 64 + |x|;
    } else {
      assert |m + x| % 64 == 0;
      assert m == Full(m) + Rest(m);
    }
  }

  class Sha256Context {
    const hash: array<bv8>
    const buffer: array<bv32>
    const state: array<bv32>
    const length: array<int>

    // Everything hashed since initialization.
    ghost var message: seq<bv8>

    ghost predicate Shaped() {
      hash.Length == 32 && buffer.Length == 16 && state.Length == 8 && length.Length == 8 && buffer != state
      && length as object != buffer && length as object != state && hash as object != state
    }

    // The whole blocks of m are folded into the state and the bytes left are in the buffer.
    ghost predicate Holds(m: seq<bv8>)
      requires Shaped()
      reads buffer, state
    {
      state[..] == Fold(Full(m)) && buffer[..] == WordsOf(Rest(m))
    }

    ghost predicate Valid()
      reads this, buffer, state, length
    {
      Shaped() && Holds(message) && CountsBytes(length[..], |message|)
    }

    constructor ()
      ensures Valid() && message == []
      ensures fresh(hash) && fresh(buffer) && fresh(state) && fresh(length)
    {
      hash := new bv8[32];
      buffer := new bv32[16];
      state := new bv32[8];
      length := new int[8];
      new;
      Initialize();
    }

    method Initialize()
      requires Shaped()
      modifies this, buffer, state, length
      ensures Valid() && message == []
    {
      hide WordsOf, Value, Fold, Full, Rest;
      ClearBuffer();
      InitializeState();
      ClearLength();
      NothingLeft();
      message := [];
    }

    method ClearBuffer()
      requires Shaped()
      modifies buffer
      ensures buffer[..] == WordsOf([])
    {
      for i := 0 to 16
        invariant forall k :: 0 <= k < i ==> buffer[k] == 0
      {
        buffer[i] := 0;
      }
      EmptyBuffer(buffer);
    }

    method ClearLength()
      requires Shaped()
      modifies length
      ensures CountsBytes(length[..], 0)
    {
      for i := 0 to 8
        invariant forall k :: 0 <= k < i ==> length[k] == 0
      {
        length[i] := 0;
      }
    }

    method InitializeState()
      requires state.Length == 8
      modifies state
      ensures state[..] == Fold([])
    {
      state[0] := 0x6a09e667;
      state[1] := 0xbb67ae85;
      state[2] := 0x3c6ef372;
      state[3] := 0xa54ff53a;
      state[4] := 0x510e527f;
      state[5] := 0x9b05688c;
      state[6] := 0x1f83d9ab;
      state[7] := 0x5be0cd19;
    }

    // One is added at the position above i, with the carries this causes.
    method Carry(i: nat)
      requires Shaped() && AreBytes(length[..]) && i < 8
      modifies length
      ensures AreBytes(length[..])
      ensures forall k :: i <= k < 8 ==> length[k] == old(length[k])
      ensures Value(length[..]) == old(Value(length[..])) + Above(i)
           || Value(length[..]) == old(Value(length[..])) + Above(i) - TWO_64
    {
      hide Value, Above, Weight;
      ghost var v := Value(length[..]);
      var j := i - 1;
      var carry := true;
      while j >= 0 && carry
        decreases j + 1, carry
        invariant -1 <= j < i && AreBytes(length[..])
        invariant forall k :: i <= k < 8 ==> length[k] == old(length[k])
        invariant Value(length[..]) + (if carry then Above(j + 1) else 0) == v + Above(i)
      {
        CarryStep(length[..], j);
        carry := length[j] == 0xff;
        ghost var before := length[..];
        length[j] := (length[j] + 1) % 256;
        assert length[..] == before[j := (before[j] + 1) % 256];
        if carry {
          j := j - 1;
        }
      }
      AboveTop();
    }

    // The number of bits of n bytes is added to the counter, modulo 2^64.
    method Count(n: nat, ghost have: nat)
      requires Shaped() && CountsBytes(length[..], have) && n < 0x1_0000_0000
      modifies length
      ensures CountsBytes(length[..], have + n)
    {
      hide Value, Above, Weight, BitsByte, BitsFrom;
      ghost var v := Value(length[..]);
      ValueBound(length[..]);
      BitsEnds(n);
      for i := 8 downto 0
        invariant AreBytes(length[..])
        invariant Value(length[..]) == (v + BitsFrom(n, i)) % TWO_64
      {
        CountAt(n, i, v);
      }
      assert (v + 8 * n) % TWO_64 == (8 * (have + n)) % TWO_64;
    }

    method CountAt(n: nat, i: nat, ghost v: int)
      requires Shaped() && AreBytes(length[..]) && n < 0x1_0000_0000 && i < 8
      requires Value(length[..]) == (v + BitsFrom(n, i + 1)) % TWO_64
      modifies length
      ensures AreBytes(length[..])
      ensures Value(length[..]) == (v + BitsFrom(n, i)) % TWO_64
    {
      hide Value, Above, Weight, BitsByte, BitsFrom;
      var bits := BitsByte(n, i);
      ghost var v0 := Value(length[..]);
      if length[i] + bits > 0xff {
        Carry(i);
      }
      ghost var before := length[..];
      length[i] := (length[i] + bits) % 256;
      assert length[..] == before[i := (before[i] + bits) % 256];
      ValueUpdate(before, i, (before[i] + bits) % 256);
      AboveIsNext(i);
      BitsFromStep(n, i);
      ValueBound(length[..]);
      assert ((before[i] + bits) % 256 - before[i]) * Weight(i)
        == bits * Weight(i) - (if before[i] + bits > 0xff then Above(i) else 0) by {
        if before[i] + bits > 0xff {
          assert (bits - 256) * Weight(i) == bits * Weight(i) - 256 * Weight(i);
        }
      }
      ghost var off := (v + BitsFrom(n, i + 1)) / TWO_64;
      ghost var w := v + BitsFrom(n, i) - off * TWO_64;
      assert Value(length[..]) == w || Value(length[..]) == w - TWO_64;
      SameModulo(Value(length[..]), v + BitsFrom(n, i), if Value(length[..]) == w then -off else -off - 1);
    }

    // Bytes of the message from position k on go into the buffer until one of them ends.
    method Fill(msg: seq<bv8>, k: nat, start: nat, ghost x: seq<bv8>) returns (next: nat, index: nat)
      requires Shaped() && k < |msg| && start == |x| < 64
      requires buffer[..] == WordsOf(x)
      modifies buffer
      ensures k < next <= |msg| && index == start + (next - k) <= 64 && (index == 64 || next == |msg|)
      ensures buffer[..] == WordsOf(x + msg[k..next])
    {
      hide WordsOf, Or, Placed;
      next, index := k, start;
      assert x + msg[k..k] == x;
      while next < |msg| && index < 64
        invariant k <= next <= |msg| && index == start + (next - k) <= 64
        invariant buffer[..] == WordsOf(x + msg[k..next])
      {
        ghost var y := x + msg[k..next];
        forall i | 0 <= i < 16
          ensures WordsOf(y + [msg[next]])[i] == if i == |y| / 4 then Or(WordsOf(y)[i], Placed(msg[next], |y| % 4)) else WordsOf(y)[i]
        {
          AppendByte(y, msg[next], i);
        }
        ghost var before := buffer[..];
        buffer[index / 4] := Or(buffer[index / 4], Placed(msg[next], index % 4));
        assert buffer[..] == before[index / 4 := Or(before[index / 4], Placed(msg[next], index % 4))];
        assert buffer[..] == WordsOf(y + [msg[next]]);
        assert x + msg[k..next + 1] == y + [msg[next]];
        next, index := next + 1, index + 1;
      }
    }

    // The message schedule of the block in the buffer, which is cleared.
    method TakeSchedule() returns (w: array<bv32>)
      requires buffer.Length == 16
      modifies buffer
      ensures fresh(w) && w.Length == 64
      ensures forall t :: 0 <= t < 64 ==> w[t] == Schedule(old(buffer[..]), t)
      ensures forall t :: 0 <= t < 16 ==> buffer[t] == 0
    {
      hide Schedule;
      ghost var b: WordBlock := buffer[..];
      w := new bv32[64];
      for t := 0 to 16
        invariant forall k :: 0 <= k < t ==> w[k] == Schedule(b, k) && buffer[k] == 0
        invariant forall k :: t <= k < 16 ==> buffer[k] == b[k]
      {
        ScheduleStart(b, t);
        w[t] := buffer[t];
        buffer[t] := 0;
      }
      ExtendSchedule(w, b);
    }

    method CompressBuffer()
      requires Shaped()
      modifies buffer, state
      ensures state[..] == Compress(old(state[..]), old(buffer[..]))
      ensures buffer[..] == WordsOf([])
    {
      hide Round, Rounds, Schedule, KAt, Plus, WordsOf;
      ghost var h: Digest := state[..];
      ghost var block: WordBlock := buffer[..];
      var w := TakeSchedule();
      EmptyBuffer(buffer);
      CompressRounds(w, block);
    }

    method CompressRounds(w: array<bv32>, ghost block: WordBlock)
      requires Shaped() && w.Length == 64 && w != state
      requires forall t :: 0 <= t < 64 ==> w[t] == Schedule(block, t)
      modifies state
      ensures state[..] == Compress(old(state[..]), block)
    {
      hide Round, Rounds, Schedule, KAt, AddVars;
      ghost var h: Digest := state[..];
      var v := Vars(state[0], state[1], state[2], state[3], state[4], state[5], state[6], state[7]);
      ghost var v0 := v;
      RoundsStart(v0, block);
      for t := 0 to 64
        modifies {}
        invariant v == Rounds(v0, block, t)
      {
        RoundsNext(v0, block, t);
        v := OneRound(v, KAt(t), w[t]);
      }
      assert state[..] == h;
      assert Compress(h, block) == AddVars(h, v);
      AddToState(v);
    }

    method AddToState(v: Vars)
      requires state.Length == 8
      modifies state
      ensures state[..] == AddVars(old(state[..]), v)
    {
      hide Plus;
      AddWord(0, v.a);
      AddWord(1, v.b);
      AddWord(2, v.c);
      AddWord(3, v.d);
      AddWord(4, v.e);
      AddWord(5, v.f);
      AddWord(6, v.g);
      AddWord(7, v.h);
    }

    method AddWord(i: nat, x: bv32)
      requires state.Length == 8 && i < 8
      modifies state
      ensures state[..] == old(state[..])[i := Plus(old(state[i]), x)]
    {
      hide Plus;
      state[i] := Plus(state[i], x);
    }

    // Any piece of the message, of any length that fits in 32 bits.
    method Update(msg: seq<bv8>)
      requires Valid() && |msg| < 0x1_0000_0000
      modifies this, buffer, state, length
      ensures Valid() && message == old(message) + msg
    {
      hide Fold, WordsOf, Full, Rest, CountsBytes;
      ghost var m := message;
      Count(|msg|, |m|);
      assert |m + msg| == |m| + |msg|;
      var k := 0;
      assert m + msg[..0] == m;
      while k < |msg|
        invariant k <= |msg| && Holds(m + msg[..k])
        invariant CountsBytes(length[..], |m + msg|)
        modifies buffer, state
      {
        k := UpdateBlock(msg, k, m);
      }
      assert msg[..k] == msg;
      message := m + msg;
    }

    // The bytes of one buffer.
    method UpdateBlock(msg: seq<bv8>, k: nat, ghost m: seq<bv8>) returns (next: nat)
      requires Shaped() && k < |msg| && Holds(m + msg[..k])
      requires CountsBytes(length[..], |m + msg|)
      modifies buffer, state
      ensures k < next <= |msg| && Holds(m + msg[..next])
    {
      hide Fold, WordsOf, Full, Rest, Value;
      IndexFromCounter(length[..], |m + msg|);
      var rest := |msg| - k;
      var index := length[6] % 2 * 32 + length[7] / 8;
      ghost var done := m + msg[..k];
      IndexBefore(index, |m + msg|, |done|, rest);
      index := (index + 64 - rest % 64) % 64;
      next, index := Fill(msg, k, index, Rest(done));
      ghost var piece := msg[k..next];
      Extend(done, piece);
      assert m + msg[..next] == done + piece;
      if index == 64 {
        FoldBlock(Full(done), Rest(done) + piece);
        CompressBuffer();
      }
    }

    method Finalize(msg: seq<bv8>)
      requires Valid() && |msg| < 0x1_0000_0000
      modifies this, hash, buffer, state, length
      ensures Valid()
      ensures hash[..] == Sha256(old(message) + msg)
    {
      hide Fold, WordsOf, Value, DigestByte;
      if |msg| > 0 {
        Update(msg);
      }
      ghost var m := message;
      assert m == old(message) + msg;
      var terminator := Terminator();
      Update(terminator);
      assert message == m + Padding(|m|);
      assert Full(message) == message by {
        assert |message| % 64 == 0;
      }
      for i := 0 to 32
        modifies hash
        invariant forall j :: 0 <= j < i ==> hash[j] == DigestByte(Fold(message), j)
        invariant state[..] == Fold(message)
      {
        hash[i] := DigestByte(state[..], i);
      }
      assert hash[..] == DigestBytes(Fold(message));
    }

    // The stop bit, the zeros and the counter.
    method Terminator() returns (t: seq<bv8>)
      requires Valid()
      ensures t == Padding(|message|)
    {
      hide Fold, WordsOf, Value, LengthByte;
      ghost var n := |message|;
      IndexFromCounter(length[..], n);
      var terminator := new bv8[72](i => 0);
      terminator[0] := 0x80;
      var size := 64 - length[6] % 2 * 32 - length[7] / 8;
      if size < 9 {
        size := size + 64;
      }
      assert size == PadLength(n);
      for i := 0 to 8
        invariant terminator[0] == 0x80
        invariant forall j :: 1 <= j < size - 8 ==> terminator[j] == 0
        invariant forall j :: 0 <= j < i ==> terminator[size - 8 + j] == Byte(LengthByte(n, j))
      {
        CounterIsLength(length[..], n, i);
        terminator[size - 8 + i] := Byte(length[i]);
      }
      t := terminator[..size];
      forall j | 0 <= j < size
        ensures t[j] == PadByte(n, j)
      {
        if j >= size - 8 {
          assert terminator[size - 8 + (j - (size - 8))] == Byte(LengthByte(n, j - (size - 8)));
        }
      }
    }
  }

  lemma IndexBefore(index: nat, total: nat, done: nat, rest: nat)
    requires index == total % 64 && total == done + rest
    ensures (index + 64 - rest % 64) % 64 == done % 64
  {
  }

  method OneRound(v: Vars, k: bv32, w: bv32) returns (r: Vars)
    ensures r == Round(v, k, w)
  {
    hide Sigma0, Sigma1, Ch, Maj, Moved;
    var e0, e1 := StateSums(v.a, v.e);
    var choice, majority := Selections(v);
    r := Moved(v, e0, e1, choice, majority, k, w);
  }

  method StateSums(x: bv32, y: bv32) returns (e0: bv32, e1: bv32)
    ensures e0 == Sigma0(x) && e1 == Sigma1(y)
  {
    e0 := ((x >> 2) | (x << 30)) ^ ((x >> 13) | (x << 19)) ^ ((x >> 22) | (x << 10));
    e1 := ((y >> 6) | (y << 26)) ^ ((y >> 11) | (y << 21)) ^ ((y >> 25) | (y << 7));
  }

  method Selections(v: Vars) returns (choice: bv32, majority: bv32)
    ensures choice == Ch(v.e, v.f, v.g) && majority == Maj(v.a, v.b, v.c)
  {
    choice := (v.e & v.f) ^ (!v.e & v.g);
    majority := (v.a & v.b) ^ (v.a & v.c) ^ (v.b & v.c);
  }

  method ScheduleSums(x: bv32, y: bv32) returns (s0: bv32, s1: bv32)
    ensures s0 == SmallSigma0(x) && s1 == SmallSigma1(y)
  {
    s0 := ((x >> 7) | (x << 25)) ^ ((x >> 18) | (x << 14)) ^ (x >> 3);
    s1 := ((y >> 17) | (y << 15)) ^ ((y >> 19) | (y << 13)) ^ (y >> 10);
  }

  // The later words of the message schedule, from those before them.
  method ExtendSchedule(w: array<bv32>, ghost b: WordBlock)
    requires w.Length == 64 && forall t :: 0 <= t < 16 ==> w[t] == Schedule(b, t)
    modifies w
    ensures forall t :: 0 <= t < 64 ==> w[t] == Schedule(b, t)
  {
    hide Schedule, SmallSigma0, SmallSigma1, Plus;
    for t := 16 to 64
      invariant forall k :: 0 <= k < t ==> w[k] == Schedule(b, k)
    {
      var s0, s1 := ScheduleSums(w[t - 15], w[t - 2]);
      ScheduleNext(b, t);
      w[t] := Plus(Plus(Plus(s1, w[t - 7]), s0), w[t - 16]);
    }
  }

  lemma ScheduleStart(b: WordBlock, t: nat)
    requires t < 16
    ensures Schedule(b, t) == b[t]
  {
  }

  lemma ScheduleNext(b: WordBlock, t: nat)
    requires t >= 16
    ensures Schedule(b, t) == Plus(Plus(Plus(SmallSigma1(Schedule(b, t - 2)), Schedule(b, t - 7)),
                                        SmallSigma0(Schedule(b, t - 15))), Schedule(b, t - 16))
  {
    hide Plus, SmallSigma0, SmallSigma1;
  }

  lemma NothingLeft()
    ensures Full([]) == [] && Rest([]) == []
  {
  }

  lemma RoundsStart(v: Vars, b: WordBlock)
    ensures Rounds(v, b, 0) == v
  {
  }

  lemma RoundsNext(v: Vars, b: WordBlock, t: nat)
    requires t < 64
    ensures Rounds(v, b, t + 1) == Round(Rounds(v, b, t), KAt(t), Schedule(b, t))
  {
    hide Round, KAt, Schedule;
  }

  lemma EmptyBuffer(b: array<bv32>)
    requires b.Length == 16 && forall i :: 0 <= i < 16 ==> b[i] == 0
    ensures b[..] == WordsOf([])
  {
    hide WordsOf;
    forall i | 0 <= i < 16
      ensures b[..][i] == WordsOf([])[i]
    {
      EmptyWords(i);
    }
  }

  // One more at position j, with what is then carried above it.
  lemma CarryStep(l: seq<int>, j: nat)
    requires AreBytes(l) && j < 8
    ensures var r := l[j := (l[j] + 1) % 256];
      AreBytes(r) && Value(r) + (if l[j] == 0xff then Above(j) else 0) == Value(l) + Above(j + 1)
  {
    AboveIsNext(j);
    AboveAfter(j);
    ValueUpdate(l, j, (l[j] + 1) % 256);
    hide Value, Above, Weight;
    OneOrWrapped((l[j] + 1) % 256 - l[j], Weight(j));
  }

  lemma OneOrWrapped(d: int, w: int)
    requires d == 1 || d == -255
    ensures d * w == if d == 1 then w else w - 256 * w
  {
  }

  lemma AboveAfter(j: nat)
    requires j < 8
    ensures Above(j + 1) == Weight(j)
  {
  }

  lemma AboveTop()
    ensures Above(0) == TWO_64
  {
  }

  lemma BitsEnds(n: nat)
    requires n < 0x1_0000_0000
    ensures BitsFrom(n, 8) == 0 && BitsFrom(n, 0) == 8 * n
  {
  }

  // The digest of a whole message.
  method Sha256Get(msg: seq<bv8>) returns (digest: seq<bv8>)
    requires |msg| < 0x1_0000_0000
    ensures digest == Sha256(msg)
  {
    var sha := new Sha256Context();
    assert sha.message + msg == msg;
    sha.Finalize(msg);
    digest := sha.hash[..];
  }

  function Joined(pieces: seq<seq<bv8>>): seq<bv8> {
    if pieces == [] then [] else Joined(pieces[..|pieces| - 1]) + pieces[|pieces| - 1]
  }

  // However the message is cut into pieces, the digest is that of the whole.
  method HashPieces(pieces: seq<seq<bv8>>, last: seq<bv8>) returns (digest: seq<bv8>)
    requires |last| < 0x1_0000_0000 && forall p <- pieces :: |p| < 0x1_0000_0000
    ensures digest == Sha256(Joined(pieces) + last)
  {
    hide Sha256Spec.Sha256, Fold, WordsOf, Full, Rest, CountsBytes, Value;
    var sha := new Sha256Context();
    for i := 0 to |pieces|
      invariant sha.Valid() && sha.message == Joined(pieces[..i])
      invariant fresh(sha) && fresh(sha.hash) && fresh(sha.buffer) && fresh(sha.state) && fresh(sha.length)
    {
      assert pieces[..i + 1][..i] == pieces[..i];
      sha.Update(pieces[i]);
    }
    assert pieces[..|pieces|] == pieces;
    sha.Finalize(last);
    digest := sha.hash[..];
  }
}
