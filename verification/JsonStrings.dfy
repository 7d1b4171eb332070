// parson.c: quoted strings, their escapes and what they stand for.
module JsonStrings {
  import opened Wrappers
  import opened CStrings
  import opened Utf8

  const QUOTE: Byte := 34
  const BACKSLASH: Byte := 92
  const LETTER_U: Byte := 117

  // ---------------------------------------------------------------------------------------
  // Escapes

  predicate IsHex(b: Byte) {
    48 <= b <= 57 || 65 <= b <= 70 || 97 <= b <= 102
  }

  function HexValue(b: Byte): (v: nat)
    requires IsHex(b)
    ensures v < 16
  {
    if b <= 57 then b - 48 else if b <= 70 then b - 55 else b - 87
  }

  predicate HasHex(s: seq<Byte>, i: nat) {
    i + 4 <= |s| && IsHex(s[i]) && IsHex(s[i + 1]) && IsHex(s[i + 2]) && IsHex(s[i + 3])
  }

  function Hex4(s: seq<Byte>, i: nat): (v: nat)
    requires HasHex(s, i)
    ensures v < 0x1_0000
  {
    HexValue(s[i]) * 4096 + HexValue(s[i + 1]) * 256 + HexValue(s[i + 2]) * 16 + HexValue(s[i + 3])
  }

  // What the character after a backslash stands for; -1 if it is not one of the short escapes.
  function Short(c: Byte): (v: int)
    ensures v == -1 || 0 <= v < 0x80
  {
    if c == QUOTE || c == BACKSLASH || c == 47 then c
    else if c == 98 then 8
    else if c == 102 then 12
    else if c == 110 then 10
    else if c == 114 then 13
    else if c == 116 then 9
    else -1
  }

  // The bytes that the first character or escape of a string takes, and the bytes it gives.
  datatype Piece = Piece(taken: nat, bytes: seq<Byte>)

  predicate IsLead(v: nat) {
    0xD800 <= v <= 0xDBFF
  }

  predicate IsTrail(v: nat) {
    0xDC00 <= v <= 0xDFFF
  }

  // Section 2.2 of RFC 2781.
  function Paired(lead: nat, trail: nat): Scalar
    requires IsLead(lead) && IsTrail(trail)
  {
    0x1_0000 + (lead - 0xD800) * 0x400 + (trail - 0xDC00)
  }

  function UnicodePiece(s: seq<Byte>): Option<Piece> {
    if !HasHex(s, 2) then None
    else if !IsLead(Hex4(s, 2)) && !IsTrail(Hex4(s, 2)) then Some(Piece(6, Encode(Hex4(s, 2))))
    else if IsLead(Hex4(s, 2)) && HasHex(s, 8) && s[6] == BACKSLASH && s[7] == LETTER_U && IsTrail(Hex4(s, 8)) then
      Some(Piece(12, Encode(Paired(Hex4(s, 2), Hex4(s, 8)))))
    else None
  }

  function FirstPiece(s: seq<Byte>): (p: Option<Piece>)
    requires s != []
    ensures p.Some? ==> 0 < p.value.taken <= |s| && |p.value.bytes| <= p.value.taken
  {
    if s[0] == BACKSLASH then
      if |s| == 1 then None
      else if s[1] == LETTER_U then UnicodePiece(s)
      else if Short(s[1]) >= 0 then Some(Piece(2, [Short(s[1])]))
      else None
    else if s[0] < 0x20 then None
    else Some(Piece(1, [s[0]]))
  }

  // The text that the contents of a quoted string stand for.
  function Unescape(s: seq<Byte>): Option<seq<Byte>> {
    if s == [] then Some([])
    else match FirstPiece(s)
      case None => None
      case Some(p) =>
        match Unescape(s[p.taken..])
        case None => None
        case Some(t) => Some(p.bytes + t)
  }

  lemma {:induction false} UnescapeShrinks(s: seq<Byte>)
    ensures Unescape(s).Some? ==> |Unescape(s).value| <= |s|
  {
    if s != [] && FirstPiece(s).Some? {
      UnescapeShrinks(s[FirstPiece(s).value.taken..]);
    }
  }

  // ---------------------------------------------------------------------------------------
  // Unescaping keeps UTF-8

  lemma {:induction false} AsciiPrefix(s: seq<Byte>, n: nat)
    requires n <= |s| && forall i :: 0 <= i < n ==> s[i] < 0x80
    ensures IsUtf8(s) <==> IsUtf8(s[n..])
  {
    if n > 0 {
      AsciiPrefix(s, n - 1);
      Utf8Step(s, n - 1);
      assert Verify(s, n - 1) == 1;
    } else {
      assert s[0..] == s;
    }
  }

  lemma Prepend(c: Scalar, t: seq<Byte>)
    requires IsUtf8(t)
    ensures IsUtf8(Encode(c) + t)
  {
    var cs :| Encoded(cs) == t;
    assert ([c] + cs)[1..] == cs;
    assert Encoded([c] + cs) == Encode(c) + t;
  }

  lemma PlainPiece(s: seq<Byte>)
    requires s != [] && s[0] >= 0x20 && s[0] != BACKSLASH
    ensures FirstPiece(s) == Some(Piece(1, [s[0]]))
  {
  }

  // Bytes beyond ASCII stand for themselves.
  lemma {:induction false} PlainRun(s: seq<Byte>, n: nat)
    requires n <= |s| && forall i :: 0 <= i < n ==> s[i] >= 0x80
    requires Unescape(s).Some?
    ensures Unescape(s[n..]).Some? && Unescape(s).value == s[..n] + Unescape(s[n..]).value
  {
    hide FirstPiece;
    if n == 0 {
      assert s[0..] == s;
    } else {
      PlainPiece(s);
      PlainRun(s[1..], n - 1);
      assert s[1..][n - 1..] == s[n..];
      assert [s[0]] + s[1..][..n - 1] == s[..n];
    }
  }

  lemma EncodedBytes(c: Scalar)
    ensures c < 0x80 ==> Encode(c) == [c]
    ensures c >= 0x80 ==> forall i :: 0 <= i < |Encode(c)| ==> Encode(c)[i] >= 0x80
  {
  }

  lemma PieceIsAscii(s: seq<Byte>)
    requires s != [] && s[0] < 0x80 && FirstPiece(s).Some?
    ensures forall i :: 0 <= i < FirstPiece(s).value.taken ==> s[i] < 0x80
    ensures exists c: Scalar :: FirstPiece(s).value.bytes == Encode(c)
  {
    var p := FirstPiece(s).value;
    if s[0] != BACKSLASH {
      EncodedBytes(s[0]);
      assert p.bytes == Encode(s[0]);
    } else if s[1] != LETTER_U {
      EncodedBytes(Short(s[1]));
      assert p.bytes == Encode(Short(s[1]));
    }
  }

  lemma {:induction false} UnescapeKeepsUtf8(s: seq<Byte>)
    requires IsUtf8(s) && Unescape(s).Some?
    ensures IsUtf8(Unescape(s).value)
  {
    if s != [] {
      if s[0] < 0x80 {
        var p := FirstPiece(s).value;
        PieceIsAscii(s);
        AsciiPrefix(s, p.taken);
        UnescapeKeepsUtf8(s[p.taken..]);
        var c: Scalar :| p.bytes == Encode(c);
        Prepend(c, Unescape(s[p.taken..]).value);
      } else {
        var cs :| Encoded(cs) == s;
        var e := Encode(cs[0]);
        EncodedBytes(cs[0]);
        assert e == s[..|e|] && s[|e|..] == Encoded(cs[1..]);
        PlainRun(s, |e|);
        UnescapeKeepsUtf8(s[|e|..]);
        Prepend(cs[0], Unescape(s[|e|..]).value);
      }
    } else {
      assert Encoded([]) == [];
    }
  }

  // ---------------------------------------------------------------------------------------
  // Closing quotes

  function Shifted(k: Option<nat>, n: nat): Option<nat> {
    if k.None? then None else Some(k.value + n)
  }

  // The first quote that is not behind a backslash.
  function Close(s: seq<Byte>): (k: Option<nat>)
    ensures k.Some? ==> k.value < |s| && s[k.value] == QUOTE
  {
    if s == [] then None
    else if s[0] == QUOTE then Some(0)
    else if s[0] == BACKSLASH then if |s| == 1 then None else Shifted(Close(s[2..]), 2)
    else Shifted(Close(s[1..]), 1)
  }

  lemma CloseAfterPlain(s: seq<Byte>, i: nat)
    requires i < |s| && s[i] != QUOTE && s[i] != BACKSLASH
    ensures Close(s[i..]) == Shifted(Close(s[i + 1..]), 1)
  {
    assert s[i..][1..] == s[i + 1..];
  }

  lemma CloseAfterHex(s: seq<Byte>, i: nat)
    requires HasHex(s, i)
    ensures Close(s[i..]) == Shifted(Close(s[i + 4..]), 4)
  {
    hide Close;
    CloseAfterPlain(s, i);
    CloseAfterPlain(s, i + 1);
    CloseAfterPlain(s, i + 2);
    CloseAfterPlain(s, i + 3);
  }

  lemma CloseAfterPair(s: seq<Byte>, i: nat)
    requires i + 2 <= |s| && s[i] == BACKSLASH
    ensures Close(s[i..]) == Shifted(Close(s[i + 2..]), 2)
  {
    assert s[i..][2..] == s[i + 2..];
  }

  lemma HexIsLocal(s: seq<Byte>, k: nat, i: nat)
    requires k <= |s|
    ensures HasHex(s[..k], i) <==> HasHex(s, i) && i + 4 <= k
    ensures HasHex(s[..k], i) ==> Hex4(s[..k], i) == Hex4(s, i)
  {
  }

  // The first piece of the contents is the same whether one looks past the closing quote or not.
  lemma PieceIsLocal(s: seq<Byte>, k: nat)
    requires Close(s) == Some(k) && k > 0
    ensures FirstPiece(s) == FirstPiece(s[..k])
    ensures FirstPiece(s).Some? ==> Close(s[FirstPiece(s).value.taken..]) == Some(k - FirstPiece(s).value.taken)
  {
    hide UnicodePiece, Hex4;
    assert s[0..] == s;
    if s[0] == BACKSLASH {
      CloseAfterPair(s, 0);
      if s[1] == LETTER_U {
        UnicodeIsLocal(s, k);
      } else {
        assert |s[..k]| > 1 && s[..k][1] == s[1];
      }
    } else {
      hide Short;
      CloseAfterPlain(s, 0);
    }
  }

  lemma UnicodeIsLocal(s: seq<Byte>, k: nat)
    requires 2 <= k < |s| && Close(s[2..]) == Some(k - 2)
    ensures UnicodePiece(s) == UnicodePiece(s[..k])
    ensures UnicodePiece(s).Some? ==>
      UnicodePiece(s).value.taken <= |s| && Close(s[UnicodePiece(s).value.taken..]) == Some(k - UnicodePiece(s).value.taken)
  {
    hide Close, HasHex, Hex4;
    HexIsLocal(s, k, 2);
    HexIsLocal(s, k, 8);
    HexEnd(s, 2);
    HexEnd(s, 8);
    if HasHex(s, 2) {
      CloseAfterHex(s, 2);
      if HasHex(s, 8) && s[6] == BACKSLASH && s[7] == LETTER_U {
        CloseAfterPair(s, 6);
        CloseAfterHex(s, 8);
      }
    }
  }

  lemma HexEnd(s: seq<Byte>, i: nat)
    ensures HasHex(s, i) ==> i + 4 <= |s|
  {
  }

  // A quoted string at the start of the text: what it stands for and what follows. There must be
  // something behind the closing quote. The opening character is not looked at.
  function Quoted(s: seq<Byte>): (r: Option<(seq<Byte>, seq<Byte>)>)
    requires s != []
    ensures r.Some? ==> |r.value.1| < |s|
  {
    match Close(s[1..])
    case None => None
    case Some(k) =>
      if k + 2 == |s| then None
      else match Unescape(s[1..k + 1])
        case None => None
        case Some(t) => Some((t, s[k + 2..]))
  }

  // ---------------------------------------------------------------------------------------
  // Escaping

  // Everything above the control bytes, and the control bytes that have a short escape.
  predicate IsClean(b: Byte) {
    b >= 0x20 || b == 8 || b == 9 || b == 10 || b == 12 || b == 13
  }

  predicate Clean(s: seq<Byte>) {
    forall i :: 0 <= i < |s| ==> IsClean(s[i])
  }

  // The letter of the short escape for a byte; 0 if there is none.
  function ShortFor(b: Byte): Byte {
    if b == QUOTE || b == BACKSLASH || b == 47 then b
    else if b == 8 then 98
    else if b == 12 then 102
    else if b == 10 then 110
    else if b == 13 then 114
    else if b == 9 then 116
    else 0
  }

  function EscapeByte(b: Byte): (e: seq<Byte>)
    ensures 1 <= |e| <= 2
  {
    if ShortFor(b) == 0 then [b] else [BACKSLASH, ShortFor(b)]
  }

  function Escape(s: seq<Byte>): seq<Byte> {
    if s == [] then [] else EscapeByte(s[0]) + Escape(s[1..])
  }

  lemma EscapedPiece(b: Byte, rest: seq<Byte>)
    ensures FirstPiece(EscapeByte(b) + rest) == if IsClean(b) then Some(Piece(|EscapeByte(b)|, [b])) else None
  {
  }

  // Unescaping undoes escaping, except that a raw control byte is not read back.
  lemma {:induction false} UnescapeEscape(s: seq<Byte>)
    ensures Unescape(Escape(s)) == if Clean(s) then Some(s) else None
  {
    hide FirstPiece, EscapeByte;
    if s != [] {
      var e := EscapeByte(s[0]);
      EscapedPiece(s[0], Escape(s[1..]));
      UnescapeEscape(s[1..]);
      assert Escape(s) == e + Escape(s[1..]);
      assert Escape(s)[|e|..] == Escape(s[1..]);
      assert [s[0]] + s[1..] == s;
      assert Clean(s) <==> IsClean(s[0]) && Clean(s[1..]);
    }
  }

  lemma {:induction false} CloseEscape(s: seq<Byte>, rest: seq<Byte>)
    ensures Close(Escape(s) + [QUOTE] + rest) == Some(|Escape(s)|)
  {
    if s == [] {
    } else {
      CloseEscape(s[1..], rest);
      var e := EscapeByte(s[0]);
      var t := Escape(s) + [QUOTE] + rest;
      assert t[|e|..] == Escape(s[1..]) + [QUOTE] + rest;
      assert t[0] == e[0] && (|e| == 2 ==> t[1] == e[1]);
    }
  }

  // A quoted and escaped string is read back, up to what follows it.
  lemma QuotedEscape(s: seq<Byte>, rest: seq<Byte>)
    requires rest != []
    ensures Quoted([QUOTE] + Escape(s) + [QUOTE] + rest) == if Clean(s) then Some((s, rest)) else None
  {
    var t := [QUOTE] + Escape(s) + [QUOTE] + rest;
    CloseEscape(s, rest);
    UnescapeEscape(s);
    assert t[1..] == Escape(s) + [QUOTE] + rest;
    assert t[1..|Escape(s)| + 1] == Escape(s) && t[|Escape(s)| + 2..] == rest;
  }
}
