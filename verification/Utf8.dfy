// parson.c: validation of UTF-8, against section 4 of RFC 3629.
module Utf8 {
  import opened CStrings

  // ---------------------------------------------------------------------------------------
  // The encoding

  // Code points except surrogates.
  type Scalar = c: int | 0 <= c < 0xD800 || 0xE000 <= c <= 0x10FFFF

  function Continuation(v: int): Byte {
    0x80 + v % 64
  }

  function Encode(c: Scalar): (b: seq<Byte>)
    ensures 1 <= |b| <= 4
  {
    if c < 0x80 then [c]
    else if c < 0x800 then [0xC0 + c / 64, Continuation(c)]
    else if c < 0x1_0000 then [0xE0 + c / 4096, Continuation(c / 64), Continuation(c)]
    else [0xF0 + c / 0x4_0000, Continuation(c / 4096), Continuation(c / 64), Continuation(c)]
  }

  function Encoded(cs: seq<Scalar>): seq<Byte> {
    if cs == [] then [] else Encode(cs[0]) + Encoded(cs[1..])
  }

  // The strings that are concatenations of encodings.
  ghost predicate IsUtf8(s: seq<Byte>) {
    exists cs :: Encoded(cs) == s
  }

  // ---------------------------------------------------------------------------------------
  // One sequence

  // The byte at a position; the terminator behind the last.
  function At(s: seq<Byte>, i: nat): Byte {
    if i < |s| then s[i] else 0
  }

  predicate IsContinuation(b: Byte) {
    0x80 <= b < 0xC0
  }

  function NumBytes(c: Byte): (n: nat)
    ensures n <= 4
  {
    if c == 0xC0 || c == 0xC1 || c > 0xF4 || IsContinuation(c) then 0
    else if c < 0x80 then 1
    else if c < 0xE0 then 2
    else if c < 0xF0 then 3
    else 4
  }

  // The number that the payload bits spell, or -1 if a continuation byte is missing.
  function Spelled(s: seq<Byte>, i: nat): (cp: int) {
    var len := NumBytes(At(s, i));
    if len == 1 then At(s, i)
    else if len == 2 && IsContinuation(At(s, i + 1)) then At(s, i) % 32 * 64 + At(s, i + 1) % 64
    else if len == 3 && IsContinuation(At(s, i + 1)) && IsContinuation(At(s, i + 2)) then
      (At(s, i) % 16 * 64 + At(s, i + 1) % 64) * 64 + At(s, i + 2) % 64
    else if len == 4 && IsContinuation(At(s, i + 1)) && IsContinuation(At(s, i + 2)) && IsContinuation(At(s, i + 3)) then
      ((At(s, i) % 8 * 64 + At(s, i + 1) % 64) * 64 + At(s, i + 2) % 64) * 64 + At(s, i + 3) % 64
    else -1
  }

  // verify_utf8_sequence: its length, 0 if there is none at this position.
  function Verify(s: seq<Byte>, i: nat): (len: nat)
    requires i < |s|
    ensures len > 0 ==> i + len <= |s|
  {
    var len := NumBytes(s[i]);
    var cp := Spelled(s, i);
    if cp < 0 then 0
    else if (cp < 0x80 && len > 1) || (cp < 0x800 && len > 2) || (cp < 0x10000 && len > 3) then 0
    else if cp > 0x10FFFF then 0
    else if 0xD800 <= cp <= 0xDFFF then 0
    else len
  }

  lemma Digits(q: int, b: Byte)
    requires IsContinuation(b)
    ensures (q * 64 + b % 64) / 64 == q && Continuation(q * 64 + b % 64) == b
  {
  }

  lemma Digits3(v: nat)
    ensures v / 64 / 64 == v / 4096 && v / 64 / 64 / 64 == v / 0x4_0000
  {
  }

  lemma EncodeTwo(a: int, b: Byte)
    requires 0xC2 <= a < 0xE0 && IsContinuation(b)
    ensures Encode(a % 32 * 64 + b % 64) == [a, b]
  {
    Digits(a % 32, b);
  }

  lemma EncodeThree(a: int, b: Byte, c: Byte)
    requires 0xE0 <= a < 0xF0 && IsContinuation(b) && IsContinuation(c)
    requires var cp := (a % 16 * 64 + b % 64) * 64 + c % 64; 0x800 <= cp < 0xD800 || 0xE000 <= cp
    ensures Encode((a % 16 * 64 + b % 64) * 64 + c % 64) == [a, b, c]
  {
    var p := a % 16 * 64 + b % 64;
    Digits(a % 16, b);
    Digits(p, c);
    Digits3(p * 64 + c % 64);
    hide Continuation;
  }

  lemma EncodeFour(a: int, b: Byte, c: Byte, d: Byte)
    requires 0xF0 <= a < 0xF5 && IsContinuation(b) && IsContinuation(c) && IsContinuation(d)
    requires 0x1_0000 <= ((a % 8 * 64 + b % 64) * 64 + c % 64) * 64 + d % 64 <= 0x10FFFF
    ensures Encode(((a % 8 * 64 + b % 64) * 64 + c % 64) * 64 + d % 64) == [a, b, c, d]
  {
    var p := a % 8 * 64 + b % 64;
    var q := p * 64 + c % 64;
    Digits(a % 8, b);
    Digits(p, c);
    Digits(q, d);
    Digits3(q * 64 + d % 64);
    hide Continuation;
  }

  lemma VerifySound(s: seq<Byte>, i: nat)
    requires i < |s| && Verify(s, i) > 0
    ensures var cp := Spelled(s, i); (0 <= cp < 0xD800 || 0xE000 <= cp <= 0x10FFFF) && Encode(cp) == s[i..i + Verify(s, i)]
  {
    hide Encode;
    var len := NumBytes(s[i]);
    if len == 1 {
      EncodeOne(s[i]);
      assert s[i..i + 1] == [s[i]];
    } else if len == 2 {
      EncodeTwo(s[i], s[i + 1]);
      assert s[i..i + 2] == [s[i], s[i + 1]];
    } else if len == 3 {
      EncodeThree(s[i], s[i + 1], s[i + 2]);
      assert s[i..i + 3] == [s[i], s[i + 1], s[i + 2]];
    } else {
      EncodeFour(s[i], s[i + 1], s[i + 2], s[i + 3]);
      assert s[i..i + 4] == [s[i], s[i + 1], s[i + 2], s[i + 3]];
    }
  }

  lemma EncodeOne(a: Byte)
    requires a < 0x80
    ensures Encode(a) == [a]
  {
  }

  lemma VerifyComplete(s: seq<Byte>, i: nat, c: Scalar)
    requires i < |s| && i + |Encode(c)| <= |s| && Encode(c) == s[i..i + |Encode(c)|]
    ensures Spelled(s, i) == c && Verify(s, i) == |Encode(c)|
  {
    var e := Encode(c);
    assert forall k :: 0 <= k < |e| ==> e[k] == At(s, i + k);
    if c < 0x80 {
    } else if c < 0x800 {
      SpelledTwo(s, i, c);
    } else if c < 0x1_0000 {
      SpelledThree(s, i, c);
    } else {
      SpelledFour(s, i, c);
    }
  }

  lemma SpelledTwo(s: seq<Byte>, i: nat, c: Scalar)
    requires 0x80 <= c < 0x800
    requires At(s, i) == 0xC0 + c / 64 && At(s, i + 1) == Continuation(c)
    ensures NumBytes(At(s, i)) == 2 && Spelled(s, i) == c
  {
  }

  lemma SpelledThree(s: seq<Byte>, i: nat, c: Scalar)
    requires 0x800 <= c < 0x1_0000
    requires At(s, i) == 0xE0 + c / 4096 && At(s, i + 1) == Continuation(c / 64) && At(s, i + 2) == Continuation(c)
    ensures NumBytes(At(s, i)) == 3 && Spelled(s, i) == c
  {
    var p := c / 64;
    Digits3(c);
    assert At(s, i) % 16 == p / 64;
    assert At(s, i + 1) % 64 == p % 64;
    assert At(s, i + 2) % 64 == c % 64;
  }

  lemma SpelledFour(s: seq<Byte>, i: nat, c: Scalar)
    requires 0x1_0000 <= c
    requires At(s, i) == 0xF0 + c / 0x4_0000 && At(s, i + 1) == Continuation(c / 4096)
    requires At(s, i + 2) == Continuation(c / 64) && At(s, i + 3) == Continuation(c)
    ensures NumBytes(At(s, i)) == 4 && Spelled(s, i) == c
  {
    var p := c / 64;
    var q := p / 64;
    Digits3(c);
    assert At(s, i) % 8 == q / 64;
    assert At(s, i + 1) % 64 == q % 64;
    assert At(s, i + 2) % 64 == p % 64;
    assert At(s, i + 3) % 64 == c % 64;
  }

  // What follows a sequence decides whether the whole is valid.
  lemma Utf8Step(s: seq<Byte>, i: nat)
    requires i < |s|
    ensures Verify(s, i) > 0 ==> (IsUtf8(s[i..]) <==> IsUtf8(s[i + Verify(s, i)..]))
    ensures Verify(s, i) == 0 ==> !IsUtf8(s[i..])
  {
    hide IsUtf8, Verify;
    if IsUtf8(s[i..]) {
      StepIn(s, i);
    }
    if Verify(s, i) > 0 && IsUtf8(s[i + Verify(s, i)..]) {
      StepOut(s, i);
    }
  }

  lemma StepIn(s: seq<Byte>, i: nat)
    requires i < |s| && IsUtf8(s[i..])
    ensures Verify(s, i) > 0 && IsUtf8(s[i + Verify(s, i)..])
  {
    hide IsUtf8, Encode, Verify, Spelled;
    var c := FirstScalar(s[i..]);
    var n := |Encode(c)|;
    assert s[i..][..n] == s[i..i + n] && s[i..][n..] == s[i + n..];
    VerifyComplete(s, i, c);
  }

  lemma FirstScalar(t: seq<Byte>) returns (c: Scalar)
    requires t != [] && IsUtf8(t)
    ensures |Encode(c)| <= |t| && t[..|Encode(c)|] == Encode(c) && IsUtf8(t[|Encode(c)|..])
  {
    var cs :| Encoded(cs) == t;
    c := cs[0];
    hide Encode;
    assert t[|Encode(c)|..] == Encoded(cs[1..]);
  }

  lemma StepOut(s: seq<Byte>, i: nat)
    requires i < |s| && Verify(s, i) > 0 && IsUtf8(s[i + Verify(s, i)..])
    ensures IsUtf8(s[i..])
  {
    VerifySound(s, i);
    var cp: Scalar := Spelled(s, i);
    var cs :| Encoded(cs) == s[i + Verify(s, i)..];
    hide Encode, Verify, Spelled;
    assert ([cp] + cs)[1..] == cs;
    assert Encoded([cp] + cs) == s[i..];
  }

  // The whole string is visited, one sequence a step.
  method IsValidUtf8(s: seq<Byte>) returns (valid: bool)
    ensures valid <==> IsUtf8(s)
  {
    var i := 0;
    while i < |s|
      invariant i <= |s| && (IsUtf8(s) <==> IsUtf8(s[i..]))
    {
      var len := Verify(s, i);
      Utf8Step(s, i);
      if len == 0 {
        return false;
      }
      i := i + len;
    }
    assert Encoded([]) == s[i..];
    return true;
  }
}
