// The strings and numbers that parson.c takes, in literal characters: sections 2, 6 and 7 of RFC
// 8259, with what the code takes or refuses besides.
module JsonTokens {
  import opened Wrappers
  import opened CStrings
  import opened Utf8
  import opened JsonStrings
  import opened JsonNumbers
  import opened JsonText

  // ---------------------------------------------------------------------------------------
  // White space: section 2 of RFC 8259, and the two more that isspace knows

  predicate IsWhite(b: Byte) {
    b == ' ' as int || b == '\t' as int || b == '\n' as int || b == '\r' as int || b == 0x0b || b == 0x0c
  }

  function AfterWhite(s: seq<Byte>): seq<Byte> {
    if s != [] && IsWhite(s[0]) then AfterWhite(s[1..]) else s
  }

  lemma {:induction false} WhiteIsSkipped(s: seq<Byte>)
    ensures AfterWhite(s) == SkipSpaces(s)
  {
    if s != [] && IsWhite(s[0]) {
      WhiteIsSkipped(s[1..]);
    }
  }

  predicate Opens(s: seq<Byte>, c: char) {
    s != [] && s[0] == c as int
  }

  // ---------------------------------------------------------------------------------------
  // Strings: section 7

  predicate IsDigitOf(b: Byte, v: nat) {
    || ('0' as int <= b <= '9' as int && v == b - '0' as int)
    || ('a' as int <= b <= 'f' as int && v == b - 'a' as int + 10)
    || ('A' as int <= b <= 'F' as int && v == b - 'A' as int + 10)
  }

  // Four hexadecimal digits of a number.
  predicate IsUnit(h: seq<Byte>, c: nat) {
    |h| == 4 && IsDigitOf(h[0], c / 0x1000) && IsDigitOf(h[1], c / 0x100 % 0x10) && IsDigitOf(h[2], c / 0x10 % 0x10)
    && IsDigitOf(h[3], c % 0x10)
  }

  predicate IsShort(l: Byte, b: Byte) {
    || (l == '"' as int && b == '"' as int) || (l == '\\' as int && b == '\\' as int) || (l == '/' as int && b == '/' as int)
    || (l == 'b' as int && b == 0x08) || (l == 'f' as int && b == 0x0c) || (l == 'n' as int && b == 0x0a)
    || (l == 'r' as int && b == 0x0d) || (l == 't' as int && b == 0x09)
  }

  // A backslash, a u and four digits.
  predicate IsUnitEscape(p: seq<Byte>, c: nat) {
    |p| == 6 && p[0] == '\\' as int && p[1] == 'u' as int && IsUnit(p[2..], c)
  }

  // One character or escape and the bytes it stands for. A code point from 0x10000 on is spelled by
  // the two units of section 2.1 of RFC 2781.
  ghost predicate Stands(p: seq<Byte>, b: seq<Byte>) {
    || (|p| == 1 && p[0] >= 0x20 && p[0] != '"' as int && p[0] != '\\' as int && b == p)
    || (|p| == 2 && p[0] == '\\' as int && |b| == 1 && IsShort(p[1], b[0]))
    || (exists c: Scalar :: c < 0x1_0000 && IsUnitEscape(p, c) && b == Encode(c))
    || (exists c: Scalar :: c >= 0x1_0000 && IsPairEscape(p, c) && b == Encode(c))
  }

  predicate IsPairEscape(p: seq<Byte>, c: nat)
    requires c >= 0x1_0000
  {
    |p| == 12 && IsUnitEscape(p[..6], 0xD800 + (c - 0x1_0000) / 0x400)
    && IsUnitEscape(p[6..], 0xDC00 + (c - 0x1_0000) % 0x400)
  }

  // The contents of a quoted string and the bytes they stand for.
  ghost predicate Spells(t: seq<Byte>, u: seq<Byte>)
    decreases |t|
  {
    if t == [] then u == []
    else exists n, m :: 0 < n <= |t| && 0 <= m <= |u| && Stands(t[..n], u[..m]) && Spells(t[n..], u[m..])
  }

  lemma DigitIs(b: Byte, v: nat)
    ensures IsDigitOf(b, v) <==> IsHex(b) && HexValue(b) == v
  {
  }

  lemma UnitIs(h: seq<Byte>, c: nat)
    ensures IsUnit(h, c) <==> |h| == 4 && HasHex(h, 0) && Hex4(h, 0) == c
  {
    if |h| == 4 {
      DigitIs(h[0], c / 0x1000);
      DigitIs(h[1], c / 0x100 % 0x10);
      DigitIs(h[2], c / 0x10 % 0x10);
      DigitIs(h[3], c % 0x10);
      hide IsDigitOf, IsHex, HexValue;
      FourDigits(c);
    }
  }

  lemma FourDigits(c: nat)
    ensures c == c / 0x1000 * 0x1000 + c / 0x100 % 0x10 * 0x100 + c / 0x10 % 0x10 * 0x10 + c % 0x10
  {
    DropDigit(c);
    DropTwoDigits(c);
  }

  lemma DropDigit(c: nat)
    ensures c / 0x100 == c / 0x10 / 0x10
  {
  }

  lemma DropTwoDigits(c: nat)
    ensures c / 0x1000 == c / 0x100 / 0x10
  {
  }

  lemma UnitAt(p: seq<Byte>, c: nat, s: seq<Byte>, i: nat)
    requires |p| == 6 && i + 4 <= |s| && s[i..i + 4] == p[2..] && p[0] == '\\' as int && p[1] == 'u' as int
    ensures IsUnitEscape(p, c) <==> HasHex(s, i) && Hex4(s, i) == c
  {
    hide HexValue, IsHex, IsUnit;
    var h := p[2..];
    UnitIs(h, c);
    assert h[0] == s[i] && h[1] == s[i + 1] && h[2] == s[i + 2] && h[3] == s[i + 3];
  }

  // What stands for b is read as b, whatever follows.
  lemma StandsIsRead(p: seq<Byte>, b: seq<Byte>, rest: seq<Byte>)
    requires Stands(p, b)
    ensures p != [] && FirstPiece(p + rest) == Some(Piece(|p|, b)) && Close(p + rest) == Shifted(Close(rest), |p|)
  {
    hide FirstPiece, Close, IsUnitEscape, IsPairEscape, Encode;
    if exists c: Scalar :: c < 0x1_0000 && IsUnitEscape(p, c) && b == Encode(c) {
      var c: Scalar :| c < 0x1_0000 && IsUnitEscape(p, c) && b == Encode(c);
      UnitEscapeIsRead(p, c, rest);
    } else if exists c: Scalar :: c >= 0x1_0000 && IsPairEscape(p, c) && b == Encode(c) {
      var c: Scalar :| c >= 0x1_0000 && IsPairEscape(p, c) && b == Encode(c);
      PairEscapeIsRead(p, c, rest);
    } else {
      ShortIsRead(p, b, rest);
    }
  }

  lemma ShortIsRead(p: seq<Byte>, b: seq<Byte>, rest: seq<Byte>)
    requires (|p| == 1 && p[0] >= 0x20 && p[0] != '"' as int && p[0] != '\\' as int && b == p)
             || (|p| == 2 && p[0] == '\\' as int && |b| == 1 && IsShort(p[1], b[0]))
    ensures FirstPiece(p + rest) == Some(Piece(|p|, b)) && Close(p + rest) == Shifted(Close(rest), |p|)
  {
    hide UnicodePiece, Close;
    var s := p + rest;
    assert s[|p|..] == rest && s[0..] == s;
    assert s[0] == p[0] && (|p| == 2 ==> s[1] == p[1]);
    if |p| == 2 {
      assert b == [b[0]];
      CloseAfterPair(s, 0);
    } else {
      assert b == [s[0]];
      CloseAfterPlain(s, 0);
    }
  }

  lemma UnitEscapeIsRead(p: seq<Byte>, c: Scalar, rest: seq<Byte>)
    requires c < 0x1_0000 && IsUnitEscape(p, c)
    ensures |p| == 6 && FirstPiece(p + rest) == Some(Piece(6, Encode(c))) && Close(p + rest) == Shifted(Close(rest), 6)
  {
    hide Close, HasHex, Hex4, Encode, IsUnit;
    var s := p + rest;
    assert s[6..] == rest && s[0..] == s && s[2..6] == p[2..] && s[0] == p[0] && s[1] == p[1];
    UnitAt(p, c, s, 2);
    CloseAfterPair(s, 0);
    CloseAfterHex(s, 2);
  }

  lemma PairEscapeIsRead(p: seq<Byte>, c: Scalar, rest: seq<Byte>)
    requires c >= 0x1_0000 && IsPairEscape(p, c)
    ensures |p| == 12 && FirstPiece(p + rest) == Some(Piece(12, Encode(c))) && Close(p + rest) == Shifted(Close(rest), 12)
  {
    hide Close, HasHex, Hex4, Encode, IsUnit;
    var s := p + rest;
    assert s[12..] == rest && s[0..] == s && s[2..6] == p[..6][2..] && s[8..12] == p[6..][2..];
    assert s[0] == p[..6][0] && s[1] == p[..6][1] && s[6] == p[6..][0] && s[7] == p[6..][1];
    UnitAt(p[..6], 0xD800 + (c - 0x1_0000) / 0x400, s, 2);
    UnitAt(p[6..], 0xDC00 + (c - 0x1_0000) % 0x400, s, 8);
    CloseAfterPair(s, 0);
    CloseAfterHex(s, 2);
    CloseAfterPair(s, 6);
    CloseAfterHex(s, 8);
  }

  // The first piece of a closed string is such a character or escape.
  lemma FirstStands(s: seq<Byte>)
    requires s != [] && s[0] != '"' as int && FirstPiece(s).Some?
    ensures Stands(s[..FirstPiece(s).value.taken], FirstPiece(s).value.bytes)
  {
    hide Encode;
    var p := FirstPiece(s).value;
    if s[0] == '\\' as int {
      if s[1] == 'u' as int {
        UnicodeStands(s);
      } else {
        assert s[..2][0] == s[0] && s[..2][1] == s[1] && IsShort(s[1], p.bytes[0]);
      }
    } else {
      assert s[..1] == [s[0]];
    }
  }

  lemma UnicodeStands(s: seq<Byte>)
    requires |s| >= 2 && s[0] == '\\' as int && s[1] == 'u' as int && UnicodePiece(s).Some?
    ensures UnicodePiece(s).value.taken <= |s|
    ensures Stands(s[..UnicodePiece(s).value.taken], UnicodePiece(s).value.bytes)
  {
    hide Encode, HasHex, Hex4, IsUnit, IsShort;
    HexEnd(s, 2);
    HexEnd(s, 8);
    var c := Hex4(s, 2);
    assert s[..6][0] == s[0] && s[..6][1] == s[1] && s[2..6] == s[..6][2..];
    UnitAt(s[..6], c, s, 2);
    if !IsLead(c) && !IsTrail(c) {
      assert c < 0x1_0000 && IsUnitEscape(s[..6], c);
    } else {
      var trail := Hex4(s, 8);
      var pair := Paired(c, trail);
      var p := s[..12];
      assert p[..6] == s[..6] && p[6..][0] == s[6] && p[6..][1] == s[7] && s[8..12] == p[6..][2..];
      UnitAt(p[6..], trail, s, 8);
      PairedUnits(c, trail);
      assert IsPairEscape(p, pair);
    }
  }

  lemma PairedUnits(lead: nat, trail: nat)
    requires IsLead(lead) && IsTrail(trail)
    ensures Paired(lead, trail) >= 0x1_0000
    ensures 0xD800 + (Paired(lead, trail) - 0x1_0000) / 0x400 == lead && 0xDC00 + (Paired(lead, trail) - 0x1_0000) % 0x400 == trail
  {
  }

  lemma StandsStep(p: seq<Byte>, b: seq<Byte>, t: seq<Byte>)
    requires Stands(p, b)
    ensures p != [] && Unescape(p + t) == if Unescape(t).None? then None else Some(b + Unescape(t).value)
  {
    hide FirstPiece, Stands;
    StandsIsRead(p, b, t);
    assert (p + t)[|p|..] == t;
  }

  // What contents spell, they are unescaped to, and their closing quote is found behind them.
  lemma {:induction false} SpellsIsRead(t: seq<Byte>, u: seq<Byte>, rest: seq<Byte>)
    requires Spells(t, u)
    ensures Unescape(t) == Some(u) && Close(t + (['"' as int] + rest)) == Some(|t|)
    decreases |t|
  {
    hide FirstPiece, Stands, Unescape, Close;
    var behind := ['"' as int] + rest;
    if t == [] {
      NothingSpelled(rest);
      assert t + behind == behind;
    } else {
      var n, m :| 0 < n <= |t| && 0 <= m <= |u| && Stands(t[..n], u[..m]) && Spells(t[n..], u[m..]);
      SpellsIsRead(t[n..], u[m..], rest);
      assert t[..n] + t[n..] == t && u[..m] + u[m..] == u;
      StandsStep(t[..n], u[..m], t[n..]);
      StandsIsRead(t[..n], u[..m], t[n..] + behind);
      Assoc(t[..n], t[n..], behind);
    }
  }

  lemma NothingSpelled(rest: seq<Byte>)
    ensures Unescape([]) == Some([]) && Close(['"' as int] + rest) == Some(0)
  {
  }

  lemma UnescapeSplits(t: seq<Byte>)
    requires t != [] && Unescape(t).Some?
    ensures FirstPiece(t).Some?
    ensures var p := FirstPiece(t).value;
      Unescape(t[p.taken..]).Some? && Unescape(t).value == p.bytes + Unescape(t[p.taken..]).value
  {
    hide FirstPiece;
  }

  lemma {:induction false} ReadSpells(t: seq<Byte>, rest: seq<Byte>)
    requires Close(t + (['"' as int] + rest)) == Some(|t|) && Unescape(t).Some?
    ensures Spells(t, Unescape(t).value)
    decreases |t|
  {
    hide FirstPiece, Stands, Unescape, Close;
    if t == [] {
      NothingSpelled(rest);
    } else {
      UnescapeSplits(t);
      var p := FirstPiece(t).value;
      var behind := ['"' as int] + rest;
      var u := Unescape(t).value;
      var n, m := p.taken, |p.bytes|;
      ClosedStart(t + behind);
      FirstStands(t);
      StandsIsRead(t[..n], p.bytes, t[n..] + behind);
      Assoc(t[..n], t[n..], behind);
      assert t[..n] + t[n..] == t;
      ReadSpells(t[n..], rest);
      assert u[..m] == p.bytes && u[m..] == Unescape(t[n..]).value;
    }
  }

  lemma ClosedStart(s: seq<Byte>)
    requires s != [] && Close(s).Some? && Close(s).value > 0
    ensures s[0] != '"' as int
  {
  }

  // A quoted string at the start of a text: any character, the contents and a quote that something
  // follows.
  ghost predicate IsQuoted(s: seq<Byte>, t: seq<Byte>, u: seq<Byte>, rest: seq<Byte>) {
    s != [] && s[1..] == t + (['"' as int] + rest) && Spells(t, u) && rest != []
  }

  lemma QuotedIs(s: seq<Byte>, u: seq<Byte>, rest: seq<Byte>)
    requires s != []
    ensures Quoted(s) == Some((u, rest)) <==> exists t :: IsQuoted(s, t, u, rest)
  {
    hide Unescape, Close, Spells;
    if exists t :: IsQuoted(s, t, u, rest) {
      var t :| IsQuoted(s, t, u, rest);
      SpellsIsRead(t, u, rest);
      assert s[1..|t| + 1] == t by {
        assert s[1..|t| + 1] == s[1..][..|t|];
      }
      assert s[|t| + 2..] == rest by {
        assert s[|t| + 2..] == s[1..][|t| + 1..];
      }
      assert |s| == |t| + 2 + |rest|;
    }
    if Quoted(s) == Some((u, rest)) {
      var k := Close(s[1..]).value;
      var t := s[1..k + 1];
      assert s[1..] == t + (['"' as int] + s[k + 2..]);
      ReadSpells(t, s[k + 2..]);
      assert IsQuoted(s, t, u, rest);
    }
  }

  // ---------------------------------------------------------------------------------------
  // Numbers: section 6

  datatype Exponent = Exponent(letter: Byte, sign: seq<Byte>, digits: seq<Byte>)
  datatype Decimal = Decimal(negative: bool, whole: seq<Byte>, point: bool, fraction: seq<Byte>, exponent: Option<Exponent>)

  predicate AreDigits(d: seq<Byte>) {
    forall i :: 0 <= i < |d| ==> '0' as int <= d[i] <= '9' as int
  }

  // Digits in front of the point or behind it. The code takes a point without digits behind it, and
  // behind a minus sign one without digits in front of it; it refuses an exponent right behind a
  // leading zero.
  predicate WellMade(d: Decimal) {
    && AreDigits(d.whole) && AreDigits(d.fraction)
    && (d.fraction != [] ==> d.point)
    && (d.whole != [] || (d.negative && d.fraction != []))
    && (d.whole != [] && d.whole[0] == '0' as int ==> |d.whole| == 1 && (d.point || d.exponent.None?))
    && (d.exponent.Some? ==> IsExponent(d.exponent.value))
  }

  predicate IsExponent(e: Exponent) {
    && (e.letter == 'e' as int || e.letter == 'E' as int)
    && (e.sign == [] || e.sign == ['+' as int] || e.sign == ['-' as int])
    && e.digits != [] && AreDigits(e.digits)
  }

  function ExponentText(e: Option<Exponent>): seq<Byte> {
    if e.None? then [] else [e.value.letter] + (e.value.sign + e.value.digits)
  }

  function PlainText(d: Decimal): seq<Byte> {
    d.whole + ((if d.point then ['.' as int] else []) + d.fraction)
  }

  function DecimalText(d: Decimal): seq<Byte> {
    (if d.negative then ['-' as int] else []) + (PlainText(d) + ExponentText(d.exponent))
  }

  // What digits spell, and the powers of ten.
  function NatOf(d: seq<Byte>): int {
    if d == [] then 0 else 10 * NatOf(d[..|d| - 1]) + (d[|d| - 1] - '0' as int)
  }

  function Tens(n: nat): (p: real)
    ensures p > 0.0
  {
    if n == 0 then 1.0 else 10.0 * Tens(n - 1)
  }

  lemma {:induction false} NatIsPositive(d: seq<Byte>)
    requires AreDigits(d)
    ensures NatOf(d) >= 0
  {
    if d != [] {
      NatIsPositive(d[..|d| - 1]);
    }
  }

  function PlainValue(d: Decimal): real {
    NatOf(d.whole) as real + NatOf(d.fraction) as real / Tens(|d.fraction|)
  }

  function ExponentOf(e: Option<Exponent>): nat
    requires e.Some? ==> IsExponent(e.value)
  {
    if e.None? then 0 else NatIsPositive(e.value.digits); NatOf(e.value.digits)
  }

  function WithPower(x: real, e: Option<Exponent>): real
    requires e.Some? ==> IsExponent(e.value)
  {
    var power := Tens(ExponentOf(e));
    if e.Some? && e.value.sign == ['-' as int] then x / power else x * power
  }

  function DecimalValue(d: Decimal): real
    requires WellMade(d)
  {
    var y := WithPower(PlainValue(d), d.exponent);
    if d.negative then -y else y
  }

  lemma {:induction false} SameNumbers(d: seq<Byte>)
    ensures NatOf(d) == DigitsValue(d)
  {
    if d != [] {
      SameNumbers(d[..|d| - 1]);
    }
  }

  lemma {:induction false} SamePowers(n: nat)
    ensures Tens(n) == Power10(n)
  {
    if n > 0 {
      SamePowers(n - 1);
    }
  }

  lemma {:induction false} RunOf(d: seq<Byte>, rest: seq<Byte>)
    requires AreDigits(d) && (rest == [] || !IsDigit(rest[0]))
    ensures DigitRun(d + rest) == |d|
  {
    if d == [] {
      assert d + rest == rest;
    } else {
      RunOf(d[1..], rest);
      assert (d + rest)[1..] == d[1..] + rest;
    }
  }

  lemma ExponentParts(e: Exponent, rest: seq<Byte>)
    requires IsExponent(e)
    ensures var t, k, n := ExponentText(Some(e)) + rest, 1 + |e.sign|, |ExponentText(Some(e))|;
      |t| > 1 && n == k + |e.digits| && t[k..] == e.digits + rest && t[k..n] == e.digits && t[0] == e.letter
      && t[1] == (if e.sign == [] then e.digits[0] else e.sign[0])
  {
    var a, k := ExponentText(Some(e)), 1 + |e.sign|;
    assert |a| == k + |e.digits| && a[0] == e.letter;
    assert a[k..] == e.digits;
    assert a[1] == (if e.sign == [] then e.digits[0] else e.sign[0]);
    hide ExponentText, IsExponent;
    TwoParts(a, k, rest);
  }

  lemma TwoParts(a: seq<Byte>, k: nat, rest: seq<Byte>)
    requires k <= |a|
    ensures (a + rest)[k..] == a[k..] + rest && (a + rest)[k..|a|] == a[k..]
  {
  }

  lemma ExponentIsSized(e: Exponent, rest: seq<Byte>)
    requires IsExponent(e) && EndsNumber(rest)
    ensures ExponentSize(ExponentText(Some(e)) + rest) == |ExponentText(Some(e))|
    ensures Is(ExponentText(Some(e)) + rest, 1, 43, 45) <==> e.sign != []
  {
    ExponentParts(e, rest);
    RunOf(e.digits, rest);
    hide ExponentText, DigitRun;
  }

  lemma ExponentIsRead(e: Option<Exponent>, x: real, rest: seq<Byte>)
    requires (e.Some? ==> IsExponent(e.value)) && EndsNumber(rest)
    ensures var t := ExponentText(e) + rest;
      ExponentSize(t) == |ExponentText(e)| && WithExponent(x, t) == WithPower(x, e)
  {
    hide *;
    var t := ExponentText(e) + rest;
    match e
    case Some(y) =>
      ExponentParts(y, rest);
      ExponentIsSized(y, rest);
      PowerIsRead(y, x, t);
    case None =>
      NothingInFront(rest);
      NoExponent(x, rest);
  }

  lemma NothingInFront(rest: seq<Byte>)
    ensures ExponentText(None) + rest == rest && |ExponentText(None)| == 0
  {
  }

  lemma PowerIsRead(e: Exponent, x: real, t: seq<Byte>)
    requires IsExponent(e) && ExponentSize(t) == |ExponentText(Some(e))|
    requires Is(t, 1, 43, 45) <==> e.sign != []
    requires var k, n := 1 + |e.sign|, |ExponentText(Some(e))|;
      |t| > 1 && n == k + |e.digits| && t[k..n] == e.digits && t[1] == (if e.sign == [] then e.digits[0] else e.sign[0])
    ensures WithExponent(x, t) == WithPower(x, Some(e))
  {
    hide ExponentText, ExponentSize, DigitsValue, NatOf, Power10, Tens;
    SameNumbers(e.digits);
    NatIsPositive(e.digits);
    SamePowers(NatOf(e.digits));
  }

  lemma NoExponent(x: real, rest: seq<Byte>)
    requires EndsNumber(rest)
    ensures ExponentSize(rest) == 0 && WithExponent(x, rest) == x == WithPower(x, None)
  {
    NoPower();
    hide Tens;
  }

  // Digits, a point and an exponent in front of what does not go on with them.
  lemma PlainParts(d: Decimal, rest: seq<Byte>)
    ensures var s, a, f := PlainText(d) + rest, |d.whole|, |d.fraction|;
      s[|PlainText(d)|..] == rest && s[..a] == d.whole
      && s == d.whole + ((if d.point then ['.' as int] else []) + (d.fraction + rest))
      && (d.point ==> a < |s| && s[a] == '.' as int && s[a + 1..] == d.fraction + rest && s[a + 1..a + 1 + f] == d.fraction)
      && (!d.point && d.fraction == [] ==> s == d.whole + rest)
  {
    var dot: seq<Byte> := if d.point then ['.' as int] else [];
    Assoc(d.whole, dot + d.fraction, rest);
    Assoc(dot, d.fraction, rest);
  }

  lemma PlainRuns(d: Decimal, rest: seq<Byte>)
    requires AreDigits(d.whole) && AreDigits(d.fraction) && (d.fraction != [] ==> d.point)
    requires rest == [] || !(IsDigit(rest[0]) || rest[0] == '.' as int)
    ensures var s, a := PlainText(d) + rest, |d.whole|;
      DigitRun(s) == a <= |s|
      && (d.point ==> a < |s| && s[a] == DOT && DigitRun(s[a + 1..]) == |d.fraction|)
      && (!d.point ==> d.fraction == [] && !(a < |s| && s[a] == DOT))
  {
    hide DigitRun, PlainText;
    PlainParts(d, rest);
    RunOf(d.whole, (if d.point then ['.' as int] else []) + (d.fraction + rest));
    RunOf(d.fraction, rest);
  }

  lemma PlainIsRead(d: Decimal, rest: seq<Byte>)
    requires AreDigits(d.whole) && AreDigits(d.fraction) && (d.fraction != [] ==> d.point)
    requires d.whole != [] || d.fraction != []
    requires rest == [] || !(IsDigit(rest[0]) || rest[0] == '.' as int)
    ensures var s, m := PlainText(d) + rest, |PlainText(d)|;
      s[m..] == rest && Unsigned(s) == (WithExponent(PlainValue(d), rest), m + ExponentSize(rest))
  {
    hide ExponentSize, WithExponent, DigitRun, DigitsValue, NatOf, Power10, Tens;
    PlainRuns(d, rest);
    PlainParts(d, rest);
    PlainSize(d);
    SameNumbers(d.whole);
    SameNumbers(d.fraction);
    SamePowers(|d.fraction|);
    NoDigits();
    hide PlainText;
  }

  lemma PlainSize(d: Decimal)
    ensures |PlainText(d)| == |d.whole| + (if d.point then 1 else 0) + |d.fraction|
  {
  }

  lemma NoDigits()
    ensures NatOf([]) == 0 == DigitsValue([])
  {
  }

  // The code reads a number of the grammar as the number it spells.
  lemma DecimalIsParsed(d: Decimal, rest: seq<Byte>)
    requires WellMade(d) && EndsNumber(rest)
    ensures ParseNumber(DecimalText(d) + rest) == Some((DecimalValue(d), rest))
  {
    hide Unsigned, IsExponent, PlainValue, WithPower, ExponentText, PlainText, ParseNumber, IsHexadecimal, IsDecimal, EndsNumber,
         ExponentSize, WithExponent, IsDigit, Is;
    var u := PlainText(d) + ExponentText(d.exponent);
    ExponentIsRead(d.exponent, PlainValue(d), rest);
    ExponentStarts(d.exponent, rest);
    PlainIsRead(d, ExponentText(d.exponent) + rest);
    PlainSize(d);
    Assoc(PlainText(d), ExponentText(d.exponent), rest);
    DecimalStarts(d, rest);
    SignedIsParsed(d.negative, u, WithPower(PlainValue(d), d.exponent), rest);
  }

  lemma SignedIsParsed(negative: bool, u: seq<Byte>, y: real, rest: seq<Byte>)
    requires var t := (if negative then ['-' as int] else []) + u;
      t + rest != [] && ((t + rest)[0] == '-' as int <==> negative) && !IsHexadecimal(t + rest) && IsDecimal(t)
    requires Unsigned(u + rest) == (y, |u|) && u != []
    ensures ParseNumber((if negative then ['-' as int] else []) + u + rest) == Some((if negative then -y else y, rest))
  {
    hide Unsigned, IsHexadecimal, IsDecimal;
    var sign: seq<Byte> := if negative then ['-' as int] else [];
    var t := sign + u;
    assert (t + rest)[|sign|..] == u + rest;
    assert (t + rest)[..|t|] == t && (t + rest)[|t|..] == rest;
  }

  lemma ExponentStarts(e: Option<Exponent>, rest: seq<Byte>)
    requires (e.Some? ==> IsExponent(e.value)) && EndsNumber(rest)
    ensures var t := ExponentText(e) + rest; t == [] || !(IsDigit(t[0]) || t[0] == '.' as int || Is(t, 0, 120, 88))
    ensures ExponentText(e) == [] <==> e.None?
  {
    if e.Some? {
      assert (ExponentText(e) + rest)[0] == e.value.letter;
    } else {
      assert ExponentText(e) + rest == rest;
    }
  }

  // What stands behind the digits in front of the point.
  function Behind(d: Decimal, rest: seq<Byte>): seq<Byte> {
    (if d.point then ['.' as int] else []) + (d.fraction + (ExponentText(d.exponent) + rest))
  }

  lemma DecimalParts(d: Decimal, rest: seq<Byte>)
    ensures DecimalText(d) + rest == (if d.negative then ['-' as int] else []) + (d.whole + Behind(d, rest))
  {
    hide ExponentText;
    var sign: seq<Byte> := if d.negative then ['-' as int] else [];
    var dot: seq<Byte> := if d.point then ['.' as int] else [];
    var e := ExponentText(d.exponent);
    Assoc(sign, PlainText(d) + e, rest);
    Assoc(PlainText(d), e, rest);
    Assoc(d.whole, dot + d.fraction, e + rest);
    Assoc(dot, d.fraction, e + rest);
  }

  lemma BehindStarts(d: Decimal, rest: seq<Byte>)
    requires WellMade(d) && EndsNumber(rest)
    ensures var b := Behind(d, rest);
      (b == [] || !Is(b, 0, 120, 88)) && (d.whole == [] ==> b != [] && b[0] == '.' as int)
      && (d.whole != [] && d.whole[0] == '0' as int ==> Behind(d, []) == [] || Behind(d, [])[0] == '.' as int)
  {
    ExponentStarts(d.exponent, rest);
    ExponentStarts(d.exponent, []);
    hide ExponentText, IsExponent;
    if !d.point {
      assert Behind(d, rest) == ExponentText(d.exponent) + rest;
      assert Behind(d, []) == ExponentText(d.exponent) + [];
    }
  }

  lemma DecimalStarts(d: Decimal, rest: seq<Byte>)
    requires WellMade(d) && EndsNumber(rest)
    ensures var s := DecimalText(d) + rest;
      s != [] && (s[0] == '-' as int <==> d.negative) && !IsHexadecimal(s) && IsDecimal(DecimalText(d))
  {
    hide DecimalText, Behind, IsExponent;
    DecimalParts(d, rest);
    DecimalParts(d, []);
    BehindStarts(d, rest);
    BehindStarts(d, []);
    assert DecimalText(d) + [] == DecimalText(d);
    StartsWell(d.negative, d.whole, Behind(d, rest));
    DecimalWell(d.negative, d.whole, Behind(d, []));
  }

  lemma StartsWell(negative: bool, whole: seq<Byte>, b: seq<Byte>)
    requires AreDigits(whole) && (b == [] || !Is(b, 0, 120, 88)) && (whole == [] ==> negative && b != [] && b[0] == '.' as int)
    requires whole != [] && whole[0] == '0' as int ==> |whole| == 1
    ensures var s := (if negative then ['-' as int] else []) + (whole + b);
      s != [] && (s[0] == '-' as int <==> negative) && !IsHexadecimal(s)
  {
    var s := (if negative then ['-' as int] else []) + (whole + b);
    var i := if negative then 1 else 0;
    assert s[i..] == whole + b;
    assert i < |s| && s[i] == (whole + b)[0];
    assert i + 1 < |s| ==> s[i + 1] == (whole + b)[1];
    if |whole| == 1 && b != [] {
      assert (whole + b)[1] == b[0];
    }
  }

  lemma DecimalWell(negative: bool, whole: seq<Byte>, b: seq<Byte>)
    requires AreDigits(whole) && (whole == [] ==> negative && b != [] && b[0] == '.' as int)
    requires whole != [] && whole[0] == '0' as int ==> |whole| == 1 && (b == [] || b[0] == '.' as int)
    ensures IsDecimal((if negative then ['-' as int] else []) + (whole + b))
  {
    var s := (if negative then ['-' as int] else []) + (whole + b);
    var i := if negative then 1 else 0;
    assert s[i..] == whole + b;
    assert i < |s| && s[i] == (whole + b)[0];
    assert i + 1 < |s| ==> s[i + 1] == (whole + b)[1];
    if |whole| == 1 && b != [] {
      assert (whole + b)[1] == b[0];
    }
  }

  // The exponent that the code finds at the start of a text.
  lemma ExponentFound(s: seq<Byte>, x: real) returns (e: Option<Exponent>)
    ensures e.Some? ==> IsExponent(e.value)
    ensures ExponentText(e) == s[..ExponentSize(s)] && WithExponent(x, s) == WithPower(x, e)
  {
    hide DigitRun, NatOf, WithPower, WithExponent, AreDigits;
    var n := ExponentSize(s);
    if n == 0 {
      e := None;
      NoneFound(s, x);
    } else {
      var k := if Is(s, 1, 43, 45) then 2 else 1;
      e := Some(Exponent(s[0], s[1..k], s[k..n]));
      RunIsDigits(s[k..]);
      assert s[k..n] == s[k..][..n - k];
      ExponentSlices(s, k, n);
      PowerIsRead(e.value, x, s);
    }
  }

  lemma NoneFound(s: seq<Byte>, x: real)
    requires ExponentSize(s) == 0
    ensures WithExponent(x, s) == x == WithPower(x, None)
  {
    NoPower();
    hide Tens;
  }

  lemma NoPower()
    ensures Tens(0) == 1.0
  {
  }

  lemma ExponentSlices(s: seq<Byte>, k: nat, n: nat)
    requires 1 <= k <= 2 && k < n <= |s|
    ensures s[..n] == [s[0]] + (s[1..k] + s[k..n]) && s[1..k] == (if k == 1 then [] else [s[1]])
  {
  }

  lemma {:induction false} RunIsDigits(s: seq<Byte>)
    ensures AreDigits(s[..DigitRun(s)])
    ensures DigitRun(s) < |s| ==> !IsDigit(s[DigitRun(s)])
  {
    if s != [] && IsDigit(s[0]) {
      RunIsDigits(s[1..]);
      assert s[..DigitRun(s)] == [s[0]] + s[1..][..DigitRun(s[1..])];
    }
  }

  // What the code reads as a number, unless it reads nothing, is a number of the grammar.
  lemma ParsedIsDecimal(s: seq<Byte>, x: real, rest: seq<Byte>) returns (d: Decimal)
    requires s != [] && (s[0] == '-' as int || IsDigit(s[0])) && ParseNumber(s) == Some((x, rest)) && rest != s
    ensures WellMade(d) && s == DecimalText(d) + rest && x == DecimalValue(d)
  {
    hide Unsigned, IsHexadecimal, IsDecimal, PlainText, ExponentText, PlainValue, WithPower, IsExponent;
    var negative := s[0] == '-' as int;
    var u := if negative then s[1..] else s;
    assert s[0..] == s;
    var n := Unsigned(u).1;
    assert n > 0;
    d := UnsignedFound(negative, u);
    var i := if negative then 1 else 0;
    var sign: seq<Byte> := if negative then ['-' as int] else [];
    assert s == sign + u && rest == s[i + n..];
    assert s[..i + n] == sign + u[..n];
    assert DecimalText(d) == s[..i + n] && IsDecimal(DecimalText(d));
    assert u[..n][0] == u[0];
    IsWellMade(d, u[0]);
  }

  lemma IsWellMade(d: Decimal, first: Byte)
    requires AreDigits(d.whole) && AreDigits(d.fraction) && (d.fraction != [] ==> d.point)
    requires d.whole != [] || d.fraction != []
    requires d.exponent.Some? ==> IsExponent(d.exponent.value)
    requires var t := PlainText(d) + ExponentText(d.exponent); t != [] && first == t[0]
    requires d.negative || IsDigit(first)
    requires IsDecimal(DecimalText(d))
    ensures WellMade(d)
  {
    var i := if d.negative then 1 else 0;
    var t := DecimalText(d);
    var u := PlainText(d) + ExponentText(d.exponent);
    assert t[i..] == u;
    if d.whole == [] {
      assert u[0] == '.' as int;
    } else {
      assert t[i] == u[0] == d.whole[0];
      if |d.whole| > 1 {
        assert t[i + 1] == u[1] == d.whole[1];
      } else if !d.point && d.exponent.Some? {
        assert u == d.whole + ExponentText(d.exponent);
        assert t[i + 1] == u[1] == d.exponent.value.letter;
      }
    }
  }

  // The parts that the code finds in digits, a point and an exponent.
  lemma UnsignedFound(negative: bool, u: seq<Byte>) returns (d: Decimal)
    requires Unsigned(u).1 > 0
    ensures d.negative == negative && AreDigits(d.whole) && AreDigits(d.fraction) && (d.fraction != [] ==> d.point)
    ensures d.whole != [] || d.fraction != []
    ensures d.exponent.Some? ==> IsExponent(d.exponent.value)
    ensures PlainText(d) + ExponentText(d.exponent) == u[..Unsigned(u).1]
    ensures Unsigned(u).0 == WithPower(PlainValue(d), d.exponent)
  {
    hide ExponentSize, WithExponent, DigitRun, DigitsValue, NatOf, Power10, Tens, AreDigits, IsExponent, WithPower, ExponentText;
    var a := DigitRun(u);
    var point := a < |u| && u[a] == DOT;
    var f := if point then DigitRun(u[a + 1..]) else 0;
    var m := if point then a + 1 + f else a;
    var whole, fraction := u[..a], if point then u[a + 1..m] else [];
    RunIsDigits(u);
    NoneAreDigits();
    if point {
      RunIsDigits(u[a + 1..]);
      assert u[a + 1..m] == u[a + 1..][..f];
    }
    var x := PlainValue(Decimal(negative, whole, point, fraction, None));
    var e := ExponentFound(u[m..], x);
    d := Decimal(negative, whole, point, fraction, e);
    SameNumbers(whole);
    SameNumbers(fraction);
    SamePowers(f);
    NoDigits();
    PlainSlices(u, a, m, d);
    assert u[..m] + u[m..][..ExponentSize(u[m..])] == u[..m + ExponentSize(u[m..])];
  }

  lemma NoneAreDigits()
    ensures AreDigits([])
  {
  }

  lemma PlainSlices(u: seq<Byte>, a: nat, m: nat, d: Decimal)
    requires a <= m <= |u| && d.whole == u[..a]
    requires if d.point then a < m && u[a] == DOT && d.fraction == u[a + 1..m] else m == a && d.fraction == []
    ensures PlainText(d) == u[..m]
  {
    if d.point {
      assert u[..m] == u[..a] + ([u[a]] + u[a + 1..m]);
    }
  }

  // One with an exponent.
  lemma AHundred(rest: seq<Byte>)
    requires EndsNumber(rest)
    ensures ParseNumber(['1' as int, 'e' as int, '2' as int] + rest) == Some((100.0, rest))
  {
    hide ParseNumber, DecimalText, DecimalValue;
    var d := Decimal(false, ['1' as int], false, [], Some(Exponent('e' as int, [], ['2' as int])));
    HundredIs(d);
    DecimalIsParsed(d, rest);
  }

  lemma HundredIs(d: Decimal)
    requires d == Decimal(false, ['1' as int], false, [], Some(Exponent('e' as int, [], ['2' as int])))
    ensures WellMade(d) && DecimalText(d) == ['1' as int, 'e' as int, '2' as int] && DecimalValue(d) == 100.0
  {
    hide WithPower, NatOf, Tens;
    OneDigit('1' as int);
    OneDigit('2' as int);
    NoDigits();
    assert PlainValue(d) == 1.0 && ExponentOf(d.exponent) == 2;
    HundredPower(d.exponent);
  }

  lemma OneDigit(b: Byte)
    ensures NatOf([b]) == b - '0' as int
  {
    assert [b][..0] == [];
  }

  lemma HundredPower(e: Option<Exponent>)
    requires e.Some? && IsExponent(e.value) && e.value.sign == [] && ExponentOf(e) == 2
    ensures WithPower(1.0, e) == 100.0 && Tens(0) == 1.0
  {
    assert Tens(2) == 10.0 * Tens(1) && Tens(1) == 10.0 * Tens(0);
    hide NatOf;
  }

  // ---------------------------------------------------------------------------------------
  // What is written of numbers

  lemma NoFraction()
    ensures NatOf([]) == 0 && Tens(0) == 1.0
  {
  }

  // A 32-bit integer is written as its digits.
  lemma IntIsWritten(n: int) returns (d: Decimal)
    ensures WellMade(d) && IntText(n) == DecimalText(d) && DecimalValue(d) == n as real
    ensures d.negative == (n < 0) && !d.point && d.exponent.None?
  {
    hide DigitsOf, NatOf, Tens, IntText;
    var m := if n < 0 then -n else n;
    DigitsAreDigits(m);
    IntTextIs(n);
    SameNumbers(DigitsOf(m));
    NoFraction();
    d := Decimal(n < 0, DigitsOf(m), false, [], None);
    assert d.whole + ([] + d.fraction) + [] == DigitsOf(m);
  }

  // Any other number is written with six decimals, as the nearest such number.
  lemma FixedIsWritten(x: real) returns (d: Decimal)
    ensures WellMade(d) && Fixed(x) == DecimalText(d) && DecimalValue(d) == Nearest(x)
    ensures d.negative == (x < 0.0) && d.point && |d.fraction| == 6 && d.exponent.None?
  {
    hide DigitsOf, NatOf, Tens, Fixed, Padded, DigitsValue, Rounded, Nearest, Power10;
    var n := Millionths(x);
    DigitsAreDigits(n / 1000000);
    SixDigits(n);
    FixedIs(x);
    SameNumbers(DigitsOf(n / 1000000));
    SameNumbers(Padded(n, 6));
    SamePowers(6);
    SixPower();
    SumOfParts(n);
    NoFraction();
    d := Decimal(x < 0.0, DigitsOf(n / 1000000), true, Padded(n, 6), None);
    assert d.whole + ([DOT] + d.fraction) + [] == DigitsOf(n / 1000000) + [DOT] + Padded(n, 6);
  }

  // m millionths are as close to x as any number of millionths, and even if x is halfway.
  predicate NearestMillionths(x: real, m: int) {
    -0.5 <= x * 1000000.0 - m as real <= 0.5
    && (x * 1000000.0 - m as real == 0.5 || x * 1000000.0 - m as real == -0.5 ==> m % 2 == 0)
  }

  lemma MillionthsAreNearest(x: real) returns (m: int)
    ensures NearestMillionths(x, m) && Nearest(x) == m as real / 1000000.0
  {
    var n: int := Millionths(x);
    RoundedIsEven(Abs(x) * 1000000.0);
    FixedIs(x);
    m := if x < 0.0 then -n else n;
    hide Rounded, Fixed, Nearest;
    var y, z := x * 1000000.0, Abs(x) * 1000000.0;
    assert z == if x < 0.0 then -y else y;
    Mirrored(y, z, n, m);
  }

  lemma Mirrored(y: real, z: real, n: int, m: int)
    requires (z == y && m == n) || (z == -y && m == -n)
    requires -0.5 <= z - n as real <= 0.5 && (z - n as real == 0.5 || z - n as real == -0.5 ==> n % 2 == 0)
    ensures -0.5 <= y - m as real <= 0.5 && (y - m as real == 0.5 || y - m as real == -0.5 ==> m % 2 == 0)
  {
  }

  lemma RoundedIsEven(y: real)
    requires y >= 0.0
    ensures -0.5 <= y - Rounded(y) as real <= 0.5
    ensures y - Rounded(y) as real == 0.5 || y - Rounded(y) as real == -0.5 ==> Rounded(y) % 2 == 0
  {
  }

  // A C int is written as its digits, any other number with six decimals.
  lemma NumberIsWritten(x: real) returns (d: Decimal, m: int)
    ensures WellMade(d) && NumberText(x) == DecimalText(d) && d.negative == (x < 0.0) && d.exponent.None?
    ensures x == x.Floor as real && -2147483648.0 <= x <= 2147483647.0 ==> !d.point && DecimalValue(d) == x
    ensures !(x == x.Floor as real && -2147483648.0 <= x <= 2147483647.0) ==>
      d.point && |d.fraction| == 6 && DecimalValue(d) == m as real / 1000000.0 && NearestMillionths(x, m)
  {
    hide WellMade, DecimalText, DecimalValue, IntText, Fixed, Nearest, NearestMillionths;
    m := MillionthsAreNearest(x);
    if x == x.Floor as real && -2147483648.0 <= x <= 2147483647.0 {
      d := IntIsWritten(x.Floor);
    } else {
      d := FixedIsWritten(x);
    }
  }
}
