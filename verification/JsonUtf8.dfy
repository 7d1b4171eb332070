// parson.c: when the strings that come out of a text in UTF-8 are in UTF-8 themselves.
module JsonUtf8 {
  import opened Wrappers
  import opened CStrings
  import opened Utf8
  import opened JsonTree
  import opened JsonStrings
  import opened JsonNumbers
  import opened JsonText
  import opened JsonRoundTrip

  // Text can be cut in front of any ASCII character, and behind it.
  lemma {:induction false} CutAtAscii(s: seq<Byte>, k: nat)
    requires IsUtf8(s) && k < |s| && s[k] < 0x80
    ensures IsUtf8(s[..k]) && IsUtf8(s[k..]) && IsUtf8(s[k + 1..])
  {
    hide IsUtf8, Encode;
    NothingIsUtf8();
    if k == 0 {
      assert s[..0] == [] && s[0..] == s;
      AsciiPrefix(s, 1);
    } else {
      var c := FirstCharacter(s);
      var n := |Encode(c)|;
      var t := s[n..];
      Slices(s, n, k);
      CutAtAscii(t, k - n);
      Prepend(c, t[..k - n]);
    }
  }

  lemma Slices(s: seq<Byte>, n: nat, k: nat)
    requires n <= k < |s|
    ensures var t := s[n..];
      t[k - n] == s[k] && s[..k] == s[..n] + t[..k - n] && t[k - n..] == s[k..] && t[k - n + 1..] == s[k + 1..]
  {
  }

  lemma NothingIsUtf8()
    ensures IsUtf8([])
  {
    assert Encoded([]) == [];
  }

  lemma FirstCharacter(s: seq<Byte>) returns (c: Scalar)
    requires s != [] && IsUtf8(s)
    ensures |Encode(c)| <= |s| && s[..|Encode(c)|] == Encode(c) && IsUtf8(s[|Encode(c)|..])
    ensures forall k :: 0 < k < |Encode(c)| ==> s[k] >= 0x80
  {
    hide Encode, IsUtf8;
    c := FirstScalar(s);
    var e := Encode(c);
    EncodedBytes(c);
    assert forall k :: 0 <= k < |e| ==> s[..|e|][k] == s[k];
  }

  lemma {:induction false} UpToNulIs(s: seq<Byte>)
    ensures var n := |UpToNul(s)|; n <= |s| && UpToNul(s) == s[..n] && (n < |s| ==> s[n] == 0)
  {
    if s != [] && s[0] != 0 {
      UpToNulIs(s[1..]);
    }
  }

  lemma UpToNulIsUtf8(s: seq<Byte>)
    requires IsUtf8(s)
    ensures IsUtf8(UpToNul(s))
  {
    UpToNulIs(s);
    var n := |UpToNul(s)|;
    if n < |s| {
      CutAtAscii(s, n);
    } else {
      assert s[..n] == s;
    }
  }

  // A string is in UTF-8 exactly when its opening character is one byte; a quote always is. What
  // follows it is in UTF-8 in any case.
  lemma QuotedIsUtf8(s: seq<Byte>)
    requires s != [] && IsUtf8(s) && Quoted(s).Some?
    ensures IsUtf8(UpToNul(Quoted(s).value.0)) <==> s[0] < 0x80
    ensures IsUtf8(Quoted(s).value.1)
  {
    hide IsUtf8, Unescape, Close;
    var k := Close(s[1..]).value;
    var contents := s[1..k + 1];
    assert s[1..][k] == s[k + 1];
    CutAtAscii(s, k + 1);
    assert s[k + 2..] == Quoted(s).value.1;
    if s[0] < 0x80 {
      AsciiPrefix(s, 1);
      CutAtAscii(s[1..], k);
      assert s[1..][..k] == contents;
      UnescapeKeepsUtf8(contents);
      UpToNulIsUtf8(Unescape(contents).value);
    } else {
      ContinuationFollows(s);
      StartsInside(s, k);
    }
  }

  lemma ContinuationFollows(s: seq<Byte>)
    requires s != [] && IsUtf8(s) && s[0] >= 0x80
    ensures |s| > 1 && IsContinuation(s[1])
  {
    var cs :| Encoded(cs) == s;
    var e := Encode(cs[0]);
    assert |e| > 1 && e[1] == s[1];
  }

  lemma StartsInside(s: seq<Byte>, k: nat)
    requires |s| > 1 && IsContinuation(s[1]) && Close(s[1..]) == Some(k) && Quoted(s).Some?
    ensures !IsUtf8(UpToNul(Quoted(s).value.0))
  {
    var contents := s[1..k + 1];
    assert s[1..][0] == s[1] && k > 0;
    assert contents[0] == s[1];
    PlainPiece(contents);
    var t := Unescape(contents).value;
    assert t[0] == s[1];
    var u := UpToNul(t);
    assert u[0] == s[1];
    assert u[0..] == u;
    Utf8Step(u, 0);
  }

  // The opening character of a name is not looked at, so that half of a character can be skipped:
  // a text in UTF-8 gives a name that is not.
  lemma NameFromHalfACharacter()
    ensures var name := [0xA9];
      var text := [OPEN_BRACE, 0xC3, 0xA9, QUOTE, COLON, 49, CLOSE_BRACE];
      IsUtf8(text) && !IsUtf8(name) && Parse(text) == Some(Object([Member(name, Number(1.0))]))
  {
    var s, text := HalfText(), [OPEN_BRACE] + HalfText();
    assert text == [OPEN_BRACE, 0xC3, 0xA9, QUOTE, COLON, 49, CLOSE_BRACE];
    HalfIsUtf8();
    HalfIsRead();
    SkipNothing(text);
    SkipNothing(s);
    hide SkipSpaces, IsUtf8, ParseMembers, ParseValue;
    assert ParseObject(s, 1) == ParseMembers(s, [], 1);
    OpeningStep(Object([]), s, 0);
  }

  lemma HalfIsRead()
    ensures ParseMembers(HalfText(), [], 1) == Some((Object([Member(HalfName(), Number(1.0))]), []))
  {
    var colon: seq<Byte> := [COLON, 49, CLOSE_BRACE];
    HalfIsQuoted();
    OneIsRead();
    NoNul(HalfName());
    SkipNothing(colon);
    SkipNothing([CLOSE_BRACE]);
    assert colon[1..] == [49, CLOSE_BRACE];
    hide SkipSpaces, Quoted, ParseValue, UpToNul;
    MembersStep(HalfText(), [], 1, HalfName(), colon, colon);
    assert [] + [Member(HalfName(), Number(1.0))] == [Member(HalfName(), Number(1.0))];
  }

  function HalfName(): CString {
    [0xA9]
  }

  function HalfText(): seq<Byte> {
    [0xC3, 0xA9, QUOTE, COLON, 49, CLOSE_BRACE]
  }

  lemma HalfIsUtf8()
    ensures IsUtf8([OPEN_BRACE] + HalfText()) && !IsUtf8(HalfName())
  {
    var t := [OPEN_BRACE] + HalfText();
    assert Verify(t, 0) == 1 && Verify(t, 1) == 2;
    Utf8Step(t, 0);
    Utf8Step(t, 1);
    assert t[0..] == t;
    assert t[3..] == [QUOTE, COLON, 49, CLOSE_BRACE];
    AsciiPrefix(t[3..], 4);
    assert t[3..][4..] == [] && Encoded([]) == [];
    assert Verify(HalfName(), 0) == 0;
    Utf8Step(HalfName(), 0);
    assert HalfName()[0..] == HalfName();
  }

  lemma HalfIsQuoted()
    ensures Quoted(HalfText()) == Some(([0xA9], [COLON, 49, CLOSE_BRACE]))
  {
    var s := HalfText();
    var c := s[1..];
    assert c == [0xA9, QUOTE, COLON, 49, CLOSE_BRACE];
    CloseAfterPlain(c, 0);
    assert c[0..] == c && c[1..][0] == QUOTE;
    assert Close(c) == Some(1);
    assert s[1..2] == [0xA9] && s[3..] == [COLON, 49, CLOSE_BRACE];
    var none: seq<Byte> := [];
    PlainPiece(HalfName());
    assert HalfName()[1..] == none && Unescape(none) == Some(none);
    assert [0xA9] + none == HalfName();
    assert HalfName() == [0xA9] && Unescape([0xA9]) == Some([0xA9]);
  }

  lemma OneIsRead()
    ensures ParseValue([49, CLOSE_BRACE], 1) == Some((Number(1.0), [CLOSE_BRACE]))
  {
    var s: seq<Byte> := [49, CLOSE_BRACE];
    assert IntText(1) + [CLOSE_BRACE] == s;
    NumberReadBack(1, [CLOSE_BRACE]);
    SkipNothing(s);
    hide ParseNumber, SkipSpaces;
  }

  // ---------------------------------------------------------------------------------------
  // Whole trees

  // Every name and every string of the tree is in UTF-8.
  ghost predicate Utf8Strings(v: Json) {
    (v.String? ==> IsUtf8(v.text))
    && (IsContainer(v) ==> forall i :: 0 <= i < Count(v) ==> Utf8Entry(v, i))
  }

  ghost predicate Utf8Entry(v: Json, i: nat)
    requires IsContainer(v) && i < Count(v)
    decreases v, 0
  {
    (v.Object? ==> IsUtf8(v.members[i].name)) && Utf8Strings(Child(v, i))
  }

  // Along a text that is parsed, every name opens with a character of one byte.
  predicate ValueOpens(s: seq<Byte>, nesting: nat)
    requires ParseValue(s, nesting).Some?
    decreases |s|, 1
  {
    var t := SkipSpaces(s);
    if t[0] == OPEN_BRACE then
      var u := SkipSpaces(t[1..]);
      assert ParseObject(t[1..], nesting + 1).Some?;
      (u != [] && u[0] == CLOSE_BRACE) || MembersOpen(u, [], nesting + 1)
    else if t[0] == OPEN_BRACKET then
      var u := SkipSpaces(t[1..]);
      assert ParseArray(t[1..], nesting + 1).Some?;
      (u != [] && u[0] == CLOSE_BRACKET) || ItemsOpen(u, [], nesting + 1)
    else true
  }

  predicate MembersOpen(s: seq<Byte>, done: seq<Member>, nesting: nat)
    requires ParseMembers(s, done, nesting).Some?
    decreases |s|, 2
  {
    var (key, afterKey) := Quoted(s).value;
    var colon := SkipSpaces(afterKey);
    var (value, afterValue) := ParseValue(colon[1..], nesting).value;
    var next := SkipSpaces(afterValue);
    s[0] < 0x80 && ValueOpens(colon[1..], nesting)
    && (next[0] == COMMA ==> MembersOpen(SkipSpaces(next[1..]), done + [Member(UpToNul(key), value)], nesting))
  }

  predicate ItemsOpen(s: seq<Byte>, done: seq<Json>, nesting: nat)
    requires ParseItems(s, done, nesting).Some?
    decreases |s|, 2
  {
    var (value, afterValue) := ParseValue(s, nesting).value;
    var next := SkipSpaces(afterValue);
    ValueOpens(s, nesting) && (next[0] == COMMA ==> ItemsOpen(SkipSpaces(next[1..]), done + [value], nesting))
  }

  lemma {:induction false} SkipKeepsUtf8(s: seq<Byte>)
    requires IsUtf8(s)
    ensures IsUtf8(SkipSpaces(s))
  {
    if s != [] && IsSpace(s[0]) {
      AsciiPrefix(s, 1);
      SkipKeepsUtf8(s[1..]);
    }
  }

  // Behind one character of the syntax, and the white space that follows it.
  lemma Behind(s: seq<Byte>)
    requires s != [] && IsUtf8(s) && s[0] < 0x80
    ensures IsUtf8(s[1..]) && IsUtf8(SkipSpaces(s[1..]))
  {
    AsciiPrefix(s, 1);
    SkipKeepsUtf8(s[1..]);
  }

  lemma {:induction false} RunIsAscii(s: seq<Byte>)
    ensures forall i :: 0 <= i < DigitRun(s) ==> s[i] < 0x80
  {
    if s != [] && IsDigit(s[0]) {
      RunIsAscii(s[1..]);
      assert forall i :: 1 <= i < DigitRun(s) ==> s[i] == s[1..][i - 1];
    }
  }

  lemma ExponentIsAscii(s: seq<Byte>)
    ensures forall i :: 0 <= i < ExponentSize(s) ==> s[i] < 0x80
  {
    if Is(s, 0, 101, 69) {
      var k := if Is(s, 1, 43, 45) then 2 else 1;
      RunIsAscii(s[k..]);
      assert forall i :: k <= i < k + DigitRun(s[k..]) ==> s[i] == s[k..][i - k];
    }
  }

  lemma RunBehind(s: seq<Byte>, k: nat)
    requires k <= |s|
    ensures forall i :: k <= i < k + DigitRun(s[k..]) ==> s[i] < 0x80
  {
    RunIsAscii(s[k..]);
    assert forall i :: k <= i < k + DigitRun(s[k..]) ==> s[i] == s[k..][i - k];
  }

  lemma ExponentBehind(s: seq<Byte>, k: nat)
    requires k <= |s|
    ensures forall i :: k <= i < k + ExponentSize(s[k..]) ==> s[i] < 0x80
  {
    ExponentIsAscii(s[k..]);
    assert forall i :: k <= i < k + ExponentSize(s[k..]) ==> s[i] == s[k..][i - k];
  }

  // The size of an unsigned number in front of its exponent.
  function Mantissa(s: seq<Byte>): (m: nat)
    ensures m <= |s|
  {
    var a := DigitRun(s);
    if a < |s| && s[a] == DOT then a + 1 + DigitRun(s[a + 1..]) else a
  }

  lemma UnsignedSize(s: seq<Byte>)
    ensures var m := Mantissa(s); Unsigned(s).1 == 0 || Unsigned(s).1 == m + ExponentSize(s[m..])
  {
    hide DigitRun, ExponentSize, DigitsValue, Scaled, WithExponent;
  }

  lemma UnsignedIsAscii(s: seq<Byte>)
    ensures forall i :: 0 <= i < Unsigned(s).1 ==> s[i] < 0x80
  {
    hide Unsigned, DigitRun, ExponentSize;
    var a := DigitRun(s);
    RunIsAscii(s);
    if a < |s| && s[a] == DOT {
      RunBehind(s, a + 1);
    }
    ExponentBehind(s, Mantissa(s));
    UnsignedSize(s);
  }

  lemma NumberRestIsUtf8(s: seq<Byte>)
    requires s != [] && IsUtf8(s) && ParseNumber(s).Some?
    ensures IsUtf8(ParseNumber(s).value.1)
  {
    hide Unsigned, IsHexadecimal, IsDecimal;
    var n := Signed(s).1;
    UnsignedIsAscii(s);
    if s[0] == MINUS {
      UnsignedIsAscii(s[1..]);
      assert forall i :: 1 <= i < n ==> s[i] == s[1..][i - 1];
    }
    AsciiPrefix(s, n);
  }

  lemma LiteralRestIsUtf8(s: seq<Byte>, literal: seq<Byte>)
    requires IsUtf8(s) && literal <= s && forall i :: 0 <= i < |literal| ==> literal[i] < 0x80
    ensures IsUtf8(s[|literal|..])
  {
    AsciiPrefix(s, |literal|);
  }

  // Values without parts: a string opens with a quote, so that it is always in UTF-8.
  lemma ScalarIsUtf8(t: seq<Byte>, nesting: nat)
    requires t != [] && SkipSpaces(t) == t && IsUtf8(t) && t[0] != OPEN_BRACE && t[0] != OPEN_BRACKET
    requires ParseValue(t, nesting).Some?
    ensures var (v, rest) := ParseValue(t, nesting).value; Utf8Strings(v) && IsUtf8(rest)
  {
    hide IsUtf8, Quoted, ParseNumber, SkipSpaces;
    if t[0] == QUOTE {
      QuotedIsUtf8(t);
    } else if t[0] == MINUS || IsDigit(t[0]) {
      NumberRestIsUtf8(t);
    } else if TRUE <= t {
      LiteralRestIsUtf8(t, TRUE);
    } else if FALSE <= t {
      LiteralRestIsUtf8(t, FALSE);
    } else {
      LiteralRestIsUtf8(t, NULL);
    }
  }

  lemma EmptyIsUtf8()
    ensures Utf8Strings(Object([])) && Utf8Strings(Array([]))
  {
  }

  lemma MemberMore(done: seq<Member>, m: Member)
    ensures Utf8Strings(Object(done + [m])) <==> Utf8Strings(Object(done)) && IsUtf8(m.name) && Utf8Strings(m.value)
  {
    var v, w := Object(done), Object(done + [m]);
    assert forall i :: 0 <= i < |done| ==> w.members[i] == v.members[i];
    assert forall i :: 0 <= i < |done| ==> Child(w, i) == Child(v, i);
    assert Child(w, |done|) == m.value && w.members[|done|] == m;
    hide IsUtf8;
    assert Utf8Entry(w, |done|) <==> IsUtf8(m.name) && Utf8Strings(m.value);
    assert forall i :: 0 <= i < |done| ==> (Utf8Entry(w, i) <==> Utf8Entry(v, i));
  }

  lemma ItemMore(done: seq<Json>, x: Json)
    ensures Utf8Strings(Array(done + [x])) <==> Utf8Strings(Array(done)) && Utf8Strings(x)
  {
    var v, w := Array(done), Array(done + [x]);
    assert forall i :: 0 <= i < |done| ==> Child(w, i) == Child(v, i);
    assert Child(w, |done|) == x;
    assert Utf8Entry(w, |done|) <==> Utf8Strings(x);
    assert forall i :: 0 <= i < |done| ==> (Utf8Entry(w, i) <==> Utf8Entry(v, i));
  }

  // A tree parsed from a text in UTF-8 holds only UTF-8 exactly when every name along the text
  // opens with a character of one byte.
  lemma {:induction false} ParsedIsUtf8(s: seq<Byte>, nesting: nat)
    requires IsUtf8(s) && ParseValue(s, nesting).Some?
    ensures Utf8Strings(ParseValue(s, nesting).value.0) <==> ValueOpens(s, nesting)
    ensures IsUtf8(ParseValue(s, nesting).value.1)
    decreases |s|, 1
  {
    var t := SkipSpaces(s);
    SkipKeepsUtf8(s);
    EmptyIsUtf8();
    hide IsUtf8, Utf8Strings, ParseMembers, ParseItems, MembersOpen, ItemsOpen, Quoted, ParseNumber, ParseBoolean;
    if t[0] == OPEN_BRACE {
      Behind(t);
      var u := SkipSpaces(t[1..]);
      if u != [] && u[0] == CLOSE_BRACE {
        Behind(u);
      } else {
        MembersAreUtf8(u, [], nesting + 1);
      }
    } else if t[0] == OPEN_BRACKET {
      Behind(t);
      var u := SkipSpaces(t[1..]);
      if u != [] && u[0] == CLOSE_BRACKET {
        Behind(u);
      } else {
        ItemsAreUtf8(u, [], nesting + 1);
      }
    } else {
      SkipNothing(t);
      ParseSkips(s, t, nesting);
      ScalarIsUtf8(t, nesting);
    }
  }

  lemma {:induction false} MembersAreUtf8(s: seq<Byte>, done: seq<Member>, nesting: nat)
    requires IsUtf8(s) && ParseMembers(s, done, nesting).Some?
    ensures Utf8Strings(ParseMembers(s, done, nesting).value.0) <==> Utf8Strings(Object(done)) && MembersOpen(s, done, nesting)
    ensures IsUtf8(ParseMembers(s, done, nesting).value.1)
    decreases |s|, 0
  {
    hide IsUtf8, Utf8Strings, Quoted, SkipSpaces, ParseValue, ValueOpens, UpToNul, Find;
    var (key, afterKey) := Quoted(s).value;
    var colon := SkipSpaces(afterKey);
    QuotedIsUtf8(s);
    SkipKeepsUtf8(afterKey);
    Behind(colon);
    ParsedIsUtf8(colon[1..], nesting);
    var (value, afterValue) := ParseValue(colon[1..], nesting).value;
    var m := Member(UpToNul(key), value);
    MemberMore(done, m);
    var next := SkipSpaces(afterValue);
    SkipKeepsUtf8(afterValue);
    Behind(next);
    if next[0] == COMMA {
      MembersAreUtf8(SkipSpaces(next[1..]), done + [m], nesting);
    }
  }

  lemma {:induction false} ItemsAreUtf8(s: seq<Byte>, done: seq<Json>, nesting: nat)
    requires IsUtf8(s) && ParseItems(s, done, nesting).Some?
    ensures Utf8Strings(ParseItems(s, done, nesting).value.0) <==> Utf8Strings(Array(done)) && ItemsOpen(s, done, nesting)
    ensures IsUtf8(ParseItems(s, done, nesting).value.1)
    decreases |s|, 2
  {
    hide IsUtf8, Utf8Strings, SkipSpaces, ParseValue, ValueOpens;
    ParsedIsUtf8(s, nesting);
    var (value, afterValue) := ParseValue(s, nesting).value;
    ItemMore(done, value);
    var next := SkipSpaces(afterValue);
    SkipKeepsUtf8(afterValue);
    Behind(next);
    if next[0] == COMMA {
      ItemsAreUtf8(SkipSpaces(next[1..]), done + [value], nesting);
    }
  }
}
