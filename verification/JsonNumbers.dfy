// parson.c: numbers as text, in decimal.
module JsonNumbers {
  import opened Wrappers
  import opened CStrings

  const MINUS: Byte := 45
  const DOT: Byte := 46

  // ---------------------------------------------------------------------------------------
  // Writing

  function DigitsOf(n: nat): (d: seq<Byte>)
    ensures |d| > 0
  {
    if n < 10 then [48 + n] else DigitsOf(n / 10) + [48 + n % 10]
  }

  // The conversion %d.
  function IntText(n: int): (t: seq<Byte>)
    ensures |t| > 0
  {
    if n < 0 then [MINUS] + DigitsOf(-n) else DigitsOf(n)
  }

  predicate IsInt32(x: real) {
    x == x.Floor as real && -0x8000_0000 <= x.Floor < 0x8000_0000
  }

  // To the nearest integer, to the even one from halfway.
  function Rounded(x: real): nat
    requires x >= 0.0
  {
    var f := x.Floor;
    if x - f as real > 0.5 || (x - f as real == 0.5 && f % 2 == 1) then f + 1 else f
  }

  function Padded(n: nat, width: nat): seq<Byte> {
    if width == 0 then [] else Padded(n / 10, width - 1) + [48 + n % 10]
  }

  // The conversion %f: six decimals.
  function Fixed(x: real): seq<Byte> {
    var n := Rounded((if x < 0.0 then -x else x) * 1000000.0);
    (if x < 0.0 then [MINUS] else []) + DigitsOf(n / 1000000) + [DOT] + Padded(n, 6)
  }

  function NumberText(x: real): seq<Byte> {
    if IsInt32(x) then IntText(x.Floor) else Fixed(x)
  }

  // ---------------------------------------------------------------------------------------
  // Reading

  predicate IsDigit(b: Byte) {
    48 <= b <= 57
  }

  // The number of digits that the text starts with, and the number that a run of digits spells.
  function DigitRun(s: seq<Byte>): (k: nat)
    ensures k <= |s|
  {
    if s == [] || !IsDigit(s[0]) then 0 else 1 + DigitRun(s[1..])
  }

  function DigitsValue(s: seq<Byte>): (v: int)
  {
    if s == [] then 0 else DigitsValue(s[..|s| - 1]) * 10 + (s[|s| - 1] as int - 48)
  }

  function Power10(n: nat): (p: real)
    ensures p > 0.0
  {
    if n == 0 then 1.0 else 10.0 * Power10(n - 1)
  }

  function Scaled(x: real, negative: bool, e: nat): real {
    if negative then x / Power10(e) else x * Power10(e)
  }

  predicate Is(s: seq<Byte>, i: nat, lower: Byte, upper: Byte) {
    i < |s| && (s[i] == lower || s[i] == upper)
  }

  // An exponent at the start of the text: its size, its sign and its digits.
  function ExponentSize(s: seq<Byte>): (n: nat)
    ensures n <= |s|
  {
    if !Is(s, 0, 101, 69) then 0
    else
      var k := if Is(s, 1, 43, 45) then 2 else 1;
      var d := DigitRun(s[k..]);
      if d == 0 then 0 else k + d
  }

  function WithExponent(x: real, s: seq<Byte>): real {
    var n := ExponentSize(s);
    if n == 0 then x
    else
      var k := if Is(s, 1, 43, 45) then 2 else 1;
      var e := DigitsValue(s[k..n]);
      if e < 0 then x else Scaled(x, s[1] == MINUS, e)
  }

  // What strtod takes: digits with a point among them or behind them, then an exponent.
  // Without any digit it takes nothing and gives zero.
  function Unsigned(s: seq<Byte>): (r: (real, nat))
    ensures r.1 <= |s|
  {
    var a := DigitRun(s);
    var f := if a < |s| && s[a] == DOT then DigitRun(s[a + 1..]) else 0;
    if a + f == 0 then (0.0, 0)
    else
      var m := if a < |s| && s[a] == DOT then a + 1 + f else a;
      var x := DigitsValue(s[..a]) as real + Scaled(DigitsValue(if f == 0 then [] else s[a + 1..m]) as real, true, f);
      (WithExponent(x, s[m..]), m + ExponentSize(s[m..]))
  }

  function Signed(s: seq<Byte>): (r: (real, nat))
    ensures r.1 <= |s|
  {
    if s != [] && s[0] == MINUS then
      var (x, n) := Unsigned(s[1..]);
      if n == 0 then (0.0, 0) else (-x, n + 1)
    else Unsigned(s)
  }

  // strtod takes a hexadecimal number where one starts.
  predicate IsHexadecimal(s: seq<Byte>) {
    var i := if s != [] && s[0] == MINUS then 1 else 0;
    i + 2 < |s| && s[i] == 48 && Is(s, i + 1, 120, 88)
    && (IsHexDigit(s[i + 2]) || (s[i + 2] == DOT && i + 3 < |s| && IsHexDigit(s[i + 3])))
  }

  predicate IsHexDigit(b: Byte) {
    IsDigit(b) || 65 <= b <= 70 || 97 <= b <= 102
  }

  // is_decimal: no zero in front of another digit or of an exponent. Hexadecimal numbers, which
  // it refuses too, are told apart above.
  predicate IsDecimal(s: seq<Byte>) {
    !(|s| > 1 && s[0] == 48 && s[1] != DOT) && !(|s| > 2 && s[0] == MINUS && s[1] == 48 && s[2] != DOT)
  }

  // parse_number_value: the number at the start of the text and what follows it.
  function ParseNumber(s: seq<Byte>): (r: Option<(real, seq<Byte>)>)
    ensures r.Some? ==> |r.value.1| <= |s|
  {
    var (x, n) := Signed(s);
    if IsHexadecimal(s) || !IsDecimal(s[..n]) then None else Some((x, s[n..]))
  }

  // ---------------------------------------------------------------------------------------
  // Integers are read back

  lemma {:induction false} DigitsAreDigits(n: nat)
    ensures forall i :: 0 <= i < |DigitsOf(n)| ==> IsDigit(DigitsOf(n)[i])
    ensures |DigitsOf(n)| > 1 ==> DigitsOf(n)[0] != 48
    ensures DigitsValue(DigitsOf(n)) == n
  {
    if n >= 10 {
      DigitsAreDigits(n / 10);
      var d := DigitsOf(n);
      assert d[..|d| - 1] == DigitsOf(n / 10);
      if n < 100 {
        assert DigitsOf(n / 10) == [48 + n / 10];
      }
    } else {
      assert DigitsValue([]) == 0;
      assert [48 + n][..0] == [];
    }
  }

  // Characters that do not continue a number.
  predicate EndsNumber(rest: seq<Byte>) {
    rest == [] || !(IsDigit(rest[0]) || rest[0] == DOT || Is(rest, 0, 101, 69) || Is(rest, 0, 120, 88))
  }

  lemma {:induction false} RunStops(d: seq<Byte>, rest: seq<Byte>)
    requires EndsNumber(rest) && forall i :: 0 <= i < |d| ==> IsDigit(d[i])
    ensures DigitRun(d + rest) == |d|
  {
    if d == [] {
      assert d + rest == rest;
    } else {
      RunStops(d[1..], rest);
      assert (d + rest)[1..] == d[1..] + rest;
    }
  }

  lemma UnsignedDigits(n: nat, rest: seq<Byte>)
    requires EndsNumber(rest)
    ensures Unsigned(DigitsOf(n) + rest) == (n as real, |DigitsOf(n)|)
  {
    var d := DigitsOf(n);
    DigitsAreDigits(n);
    RunStops(d, rest);
    assert (d + rest)[..|d|] == d && (d + rest)[|d|..] == rest;
    assert ExponentSize(rest) == 0;
  }

  lemma NotHexadecimal(d: seq<Byte>, t: seq<Byte>, i: nat, rest: seq<Byte>)
    requires i <= 1 && i <= |t| && t[i..] == d + rest && EndsNumber(rest) && d != []
    requires i == (if t != [] && t[0] == MINUS then 1 else 0)
    requires forall k :: 0 <= k < |d| ==> IsDigit(d[k])
    requires |d| > 1 ==> d[0] != 48
    ensures !IsHexadecimal(t)
  {
    if i + 1 < |t| {
      assert t[i] == t[i..][0] && t[i + 1] == t[i..][1];
    }
  }

  // A sign, if any, in front of an unsigned number.
  lemma ParseSigned(negative: bool, u: seq<Byte>, y: real, rest: seq<Byte>)
    requires u != [] && IsDigit(u[0]) && (|u| > 1 && u[0] == 48 ==> u[1] == DOT)
    requires Unsigned(u + rest) == (y, |u|)
    requires !IsHexadecimal((if negative then [MINUS] else []) + u + rest)
    ensures ParseNumber((if negative then [MINUS] else []) + u + rest) == Some((if negative then -y else y, rest))
  {
    hide Unsigned, IsHexadecimal;
    var sign: seq<Byte> := if negative then [MINUS] else [];
    var t := sign + u;
    assert (t + rest)[|sign|..] == u + rest;
    assert (t + rest)[..|t|] == t && (t + rest)[|t|..] == rest;
  }

  lemma IntTextIs(n: int)
    ensures IntText(n) == (if n < 0 then [MINUS] else []) + DigitsOf(if n < 0 then -n else n)
  {
    hide DigitsOf;
  }

  lemma NumberReadBack(n: int, rest: seq<Byte>)
    requires EndsNumber(rest)
    ensures ParseNumber(IntText(n) + rest) == Some((n as real, rest))
  {
    hide DigitsOf, Unsigned, EndsNumber, DigitsValue, ParseNumber, IntText, IsHexadecimal;
    var m := if n < 0 then -n else n;
    var sign: seq<Byte> := if n < 0 then [MINUS] else [];
    var d := DigitsOf(m);
    DigitsAreDigits(m);
    UnsignedDigits(m, rest);
    IntTextIs(n);
    assert (sign + d + rest)[|sign|..] == d + rest;
    NotHexadecimal(d, sign + d + rest, |sign|, rest);
    ParseSigned(n < 0, d, m as real, rest);
  }

  // ---------------------------------------------------------------------------------------
  // Decimals are read back to the sixth

  function Abs(x: real): (a: real)
    ensures a >= 0.0
  {
    if x < 0.0 then -x else x
  }

  // What six decimals keep of a number.
  function Nearest(x: real): real {
    var y := Rounded(Abs(x) * 1000000.0) as real / 1000000.0;
    if x < 0.0 then -y else y
  }

  lemma NearestIsNear(x: real)
    ensures Abs(x - Nearest(x)) <= 0.0000005
  {
    RoundedIsNear(Abs(x) * 1000000.0);
  }

  lemma RoundedIsNear(x: real)
    requires x >= 0.0
    ensures -0.5 <= x - Rounded(x) as real <= 0.5
  {
  }

  function IntPower(n: nat): (p: nat)
    ensures p > 0
  {
    if n == 0 then 1 else 10 * IntPower(n - 1)
  }

  lemma {:induction false} PaddedValue(n: nat, width: nat)
    ensures |Padded(n, width)| == width
    ensures forall i :: 0 <= i < width ==> IsDigit(Padded(n, width)[i])
    ensures 0 <= DigitsValue(Padded(n, width)) < IntPower(width)
    ensures exists q: nat :: n == q * IntPower(width) + DigitsValue(Padded(n, width))
  {
    if width == 0 {
      assert n == n * IntPower(0) + DigitsValue(Padded(n, 0));
    } else {
      PaddedValue(n / 10, width - 1);
      var q: nat :| n / 10 == q * IntPower(width - 1) + DigitsValue(Padded(n / 10, width - 1));
      var p := Padded(n, width);
      assert p[..width - 1] == Padded(n / 10, width - 1);
      assert DigitsValue(p) == 10 * DigitsValue(Padded(n / 10, width - 1)) + n % 10;
      TenTimes(q, IntPower(width - 1));
      hide Padded, DigitsValue;
      assert 10 * (n / 10) == 10 * (q * IntPower(width - 1)) + 10 * DigitsValue(Padded(n / 10, width - 1));
      assert n == q * IntPower(width) + DigitsValue(p);
    }
  }

  lemma TenTimes(q: nat, p: nat)
    ensures 10 * (q * p) == q * (10 * p)
  {
  }

  // The last six digits.
  lemma SixDigits(n: nat)
    ensures |Padded(n, 6)| == 6 && DigitsValue(Padded(n, 6)) == n % 1000000
    ensures forall i :: 0 <= i < 6 ==> IsDigit(Padded(n, 6)[i])
  {
    hide Padded, DigitsValue, IntPower;
    PaddedValue(n, 6);
    Million();
    var q: nat :| n == q * IntPower(6) + DigitsValue(Padded(n, 6));
    assert n == q * 1000000 + DigitsValue(Padded(n, 6));
  }

  lemma Million()
    ensures IntPower(6) == 1000000
  {
    assert IntPower(3) == 1000;
  }

  lemma {:induction false} RunToDot(d: seq<Byte>, rest: seq<Byte>)
    requires forall i :: 0 <= i < |d| ==> IsDigit(d[i])
    ensures DigitRun(d + [DOT] + rest) == |d|
  {
    if d == [] {
      assert d + [DOT] + rest == [DOT] + rest;
    } else {
      RunToDot(d[1..], rest);
      assert (d + [DOT] + rest)[1..] == d[1..] + [DOT] + rest;
    }
  }

  lemma SixPower()
    ensures Power10(6) == 1000000.0
  {
    assert Power10(3) == 1000.0;
  }

  lemma UnsignedFixed(n: nat, rest: seq<Byte>)
    requires EndsNumber(rest)
    ensures Unsigned(DigitsOf(n / 1000000) + [DOT] + Padded(n, 6) + rest)
      == (n as real / 1000000.0, |DigitsOf(n / 1000000)| + 7)
    ensures |Padded(n, 6)| == 6
  {
    hide *;
    DigitsAreDigits(n / 1000000);
    SixDigits(n);
    UnsignedDecimal(DigitsOf(n / 1000000), Padded(n, 6), rest);
    SixPower();
    SumOfParts(n);
  }

  lemma UnsignedDecimal(d: seq<Byte>, p: seq<Byte>, rest: seq<Byte>)
    requires EndsNumber(rest) && d != [] && |p| == 6
    requires (forall i :: 0 <= i < |d| ==> IsDigit(d[i])) && (forall i :: 0 <= i < |p| ==> IsDigit(p[i]))
    ensures Unsigned(d + [DOT] + p + rest) == (DigitsValue(d) as real + DigitsValue(p) as real / Power10(6), |d| + 7)
  {
    var s := d + [DOT] + p + rest;
    DecimalParts(d, p, rest);
    hide *;
    RunToDot(d, p + rest);
    RunStops(p, rest);
    NoExponent(rest);
    UnsignedSteps(s, |d|, 6);
  }

  lemma Cut(a: seq<Byte>, b: seq<Byte>)
    ensures (a + b)[..|a|] == a && (a + b)[|a|..] == b
  {
  }

  lemma DecimalParts(d: seq<Byte>, p: seq<Byte>, rest: seq<Byte>)
    ensures var s, n := d + [DOT] + p + rest, |d| + 1;
      s == d + [DOT] + (p + rest) && s[..|d|] == d && s[|d|] == DOT && s[n..] == p + rest
      && s[n..n + |p|] == p && s[n + |p|..] == rest
  {
    var s := d + [DOT] + p + rest;
    assert s == d + [DOT] + (p + rest);
    Cut(d + [DOT], p + rest);
    Cut(d, [DOT]);
    Cut(p, rest);
    assert s[..|d|] == s[..|d| + 1][..|d|];
    assert s[|d| + 1..|d| + 1 + |p|] == s[|d| + 1..][..|p|];
    assert s[|d| + 1 + |p|..] == s[|d| + 1..][|p|..];
  }

  lemma UnsignedSteps(s: seq<Byte>, a: nat, f: nat)
    requires a == DigitRun(s) && a < |s| && s[a] == DOT && f == DigitRun(s[a + 1..]) > 0
    requires a + 1 + f <= |s| && ExponentSize(s[a + 1 + f..]) == 0
    ensures Unsigned(s) == (DigitsValue(s[..a]) as real + DigitsValue(s[a + 1..a + 1 + f]) as real / Power10(f), a + 1 + f)
  {
    hide DigitRun, DigitsValue, ExponentSize, Power10;
  }

  lemma NoExponent(rest: seq<Byte>)
    requires EndsNumber(rest)
    ensures ExponentSize(rest) == 0
  {
  }

  lemma SumOfParts(n: nat)
    ensures (n / 1000000) as real + (n % 1000000) as real / 1000000.0 == n as real / 1000000.0
  {
    assert n == 1000000 * (n / 1000000) + n % 1000000;
    assert n as real == 1000000.0 * (n / 1000000) as real + (n % 1000000) as real;
  }

  // What is written with decimals is read back as the nearest number of six decimals.
  lemma FixedReadBack(x: real, rest: seq<Byte>)
    requires EndsNumber(rest)
    ensures ParseNumber(Fixed(x) + rest) == Some((Nearest(x), rest))
  {
    hide *;
    var n := Millionths(x);
    var d, p := DigitsOf(n / 1000000), Padded(n, 6);
    DigitsAreDigits(n / 1000000);
    UnsignedFixed(n, rest);
    FixedIs(x);
    ParseFixed(x < 0.0, d, d + [DOT] + p, p, n as real / 1000000.0, rest);
  }

  function Millionths(x: real): nat {
    Rounded(Abs(x) * 1000000.0)
  }

  lemma FixedIs(x: real)
    ensures var n := Millionths(x);
      Fixed(x) == (if x < 0.0 then [MINUS] else []) + (DigitsOf(n / 1000000) + [DOT] + Padded(n, 6))
      && Nearest(x) == if x < 0.0 then -(n as real / 1000000.0) else n as real / 1000000.0
  {
    hide Rounded, DigitsOf, Padded;
  }

  // A sign, if any, in front of digits with a point.
  lemma ParseFixed(negative: bool, d: seq<Byte>, u: seq<Byte>, p: seq<Byte>, y: real, rest: seq<Byte>)
    requires d != [] && u == d + [DOT] + p && forall k :: 0 <= k < |d| ==> IsDigit(d[k])
    requires |d| > 1 ==> d[0] != 48
    requires Unsigned(u + rest) == (y, |u|)
    ensures ParseNumber((if negative then [MINUS] else []) + u + rest) == Some((if negative then -y else y, rest))
  {
    hide Unsigned, IsHexadecimal, ParseNumber;
    var sign: seq<Byte> := if negative then [MINUS] else [];
    var s := sign + u + rest;
    assert s[|sign|..] == u + rest;
    assert u + rest == d + [DOT] + (p + rest);
    NotHexadecimalFixed(d, s, |sign|, p + rest);
    assert u[0] == d[0] && u[1] == if |d| == 1 then DOT else d[1];
    ParseSigned(negative, u, y, rest);
  }

  lemma NotHexadecimalFixed(d: seq<Byte>, t: seq<Byte>, i: nat, rest: seq<Byte>)
    requires i <= 1 && i <= |t| && t[i..] == d + [DOT] + rest && d != []
    requires i == (if t != [] && t[0] == MINUS then 1 else 0)
    requires forall k :: 0 <= k < |d| ==> IsDigit(d[k])
    ensures !IsHexadecimal(t)
  {
    if i + 1 < |t| {
      assert t[i] == t[i..][0] && t[i + 1] == t[i..][1];
    }
  }
}
