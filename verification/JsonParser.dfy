// parson.c: the parser as it moves its cursor over the text. The text ends at its NUL, where the
// cursor is the length of the text.
module JsonParser {
  import opened Wrappers
  import opened CStrings
  import opened Utf8
  import opened JsonTree
  import opened JsonStrings
  import opened JsonNumbers
  import opened JsonText

  // SKIP_WHITESPACES
  method SkipWhitespaces(text: CString, p: nat) returns (q: nat)
    requires p <= |text|
    ensures p <= q <= |text| && text[q..] == SkipSpaces(text[p..])
  {
    q := p;
    while IsSpace(At(text, q))
      invariant p <= q <= |text| && SkipSpaces(text[q..]) == SkipSpaces(text[p..])
      decreases |text| - q
    {
      assert text[q..][1..] == text[q + 1..];
      q := q + 1;
    }
  }

  // ---------------------------------------------------------------------------------------
  // Strings

  // To the character behind the closing quote, or to the end of the text.
  method SkipQuotes(text: CString, p: nat) returns (q: nat)
    requires p < |text|
    ensures p < q <= |text|
    ensures match Close(text[p + 1..])
      case None => q == |text|
      case Some(k) => q == p + k + 2
  {
    hide Close;
    q := p + 1;
    while At(text, q) != QUOTE
      invariant p < q <= |text|
      invariant Close(text[p + 1..]) == Shifted(Close(text[q..]), q - (p + 1))
      decreases |text| - q
    {
      if At(text, q) == 0 {
        AtEnd(text, q);
        CloseEnds(text, q);
        return;
      }
      if text[q] == BACKSLASH {
        q := q + 1;
        if At(text, q) == 0 {
          AtEnd(text, q);
          CloseEnds(text, q - 1);
          return;
        }
        CloseAfterPair(text, q - 1);
      } else {
        CloseAfterPlain(text, q);
      }
      q := q + 1;
    }
    CloseEnds(text, q);
    q := q + 1;
  }

  lemma CloseEnds(text: seq<Byte>, q: nat)
    requires q <= |text|
    ensures q == |text| ==> Close(text[q..]) == None
    ensures q + 1 == |text| && text[q] == BACKSLASH ==> Close(text[q..]) == None
    ensures At(text, q) == QUOTE ==> Close(text[q..]) == Some(0)
  {
  }

  lemma InText(text: CString, q: nat)
    ensures At(text, q) == 0 <==> q >= |text|
  {
    assert forall k :: 0 <= k < |text| ==> text[k] in text;
  }

  lemma AtEnd(text: CString, q: nat)
    requires At(text, q) == 0 && q <= |text|
    ensures q == |text| && text[q..] == []
  {
    assert forall k :: 0 <= k < |text| ==> text[k] in text;
  }

  // The bytes of a code point, as the shifts and masks of parson.c:466-487 make them.
  function Masked(cp: nat): seq<Byte> {
    if cp < 0x80 then [cp]
    else if cp < 0x800 then [0xC0 + cp / 64 % 32, 0x80 + cp % 64]
    else if cp < 0x1_0000 then [0xE0 + cp / 4096 % 16, 0x80 + cp / 64 % 64, 0x80 + cp % 64]
    else [0xF0 + cp / 0x4_0000 % 8, 0x80 + cp / 4096 % 64, 0x80 + cp / 64 % 64, 0x80 + cp % 64]
  }

  lemma MaskedIsEncode(c: Scalar)
    ensures Masked(c) == Encode(c)
  {
  }

  method Write(output: array<Byte>, o: nat, bytes: seq<Byte>)
    requires o + |bytes| <= output.Length
    modifies output
    ensures output[..] == old(output[..o]) + bytes + old(output[o + |bytes|..])
  {
    for k := 0 to |bytes|
      invariant forall j :: 0 <= j < k ==> output[o + j] == bytes[j]
      invariant forall j :: 0 <= j < output.Length && !(o <= j < o + k) ==> output[j] == old(output[j])
    {
      output[o + k] := bytes[k];
    }
  }

  // parse_utf_16: the cursor stands on the letter of the escape and ends on its last character.
  method ParseUtf16(text: CString, i: nat, output: array<Byte>, o: nat) returns (ok: bool, next: nat, end: nat)
    requires 0 < i < |text| && text[i - 1] == BACKSLASH && text[i] == LETTER_U
    requires UnicodePiece(text[i - 1..]).Some? ==> o + |UnicodePiece(text[i - 1..]).value.bytes| <= output.Length
    modifies output
    ensures ok == UnicodePiece(text[i - 1..]).Some?
    ensures !ok ==> output[..] == old(output[..])
    ensures ok ==> var p := UnicodePiece(text[i - 1..]).value;
      next == i - 1 + p.taken - 1 && end == o + |p.bytes| - 1
      && output[..] == old(output[..o]) + p.bytes + old(output[o + |p.bytes|..])
  {
    var cp;
    ok, cp, next := ReadCodePoint(text, i);
    if !ok {
      return false, i, o;
    }
    MaskedIsEncode(cp);
    var bytes := Masked(cp);
    Write(output, o, bytes);
    end := o + |bytes| - 1;
  }

  // The hexadecimal digits of one escape or of a surrogate pair.
  method ReadCodePoint(text: CString, i: nat) returns (ok: bool, cp: Scalar, next: nat)
    requires 0 < i < |text| && text[i - 1] == BACKSLASH && text[i] == LETTER_U
    ensures ok == UnicodePiece(text[i - 1..]).Some?
    ensures ok ==> next > i
    ensures ok ==> UnicodePiece(text[i - 1..]) == Some(Piece(next - i + 2, Encode(cp)))
  {
    hide Encode, HasHex, Hex4;
    next := i + 1;
    HexInText(text, i - 1, 2);
    HexInText(text, i - 1, 8);
    if !HasHex(text, next) {
      return false, 0, i;
    }
    var v := Hex4(text, next);
    if IsLead(v) {
      next := next + 4;
      HexBound(text, next + 2);
      if At(text, next) != BACKSLASH || At(text, next + 1) != LETTER_U || !HasHex(text, next + 2)
         || !IsTrail(Hex4(text, next + 2)) {
        return false, 0, i;
      }
      next := next + 2;
      v := Paired(v, Hex4(text, next));
    } else if IsTrail(v) {
      return false, 0, i;
    }
    cp := v;
    next := next + 3;
    ok := true;
  }

  lemma HexBound(text: seq<Byte>, i: nat)
    ensures HasHex(text, i) ==> i + 4 <= |text|
  {
  }

  lemma HexInText(text: seq<Byte>, j: nat, k: nat)
    requires j <= |text|
    ensures HasHex(text[j..], k) <==> HasHex(text, j + k)
    ensures HasHex(text[j..], k) ==> Hex4(text[j..], k) == Hex4(text, j + k)
  {
  }

  // process_string, on contents that skip_quotes has delimited. No byte is written outside the
  // buffer, which is as long as the contents and one.
  method ProcessString(text: CString, start: nat, len: nat) returns (r: Option<seq<Byte>>)
    requires start <= |text| && Close(text[start..]) == Some(len)
    ensures r == Unescape(text[start..start + len])
  {
    hide Close, FirstPiece;
    var output := new Byte[len + 1](_ => 0);
    var i: nat, o: nat := start, 0;
    assert output[..0] == [];
    BehindNothing(Unescape(text[start..start + len]));
    ghost var end := start + len;
    while At(text, i) != 0 && i - start < len
      invariant start <= i <= end < |text| && o <= i - start
      invariant Close(text[i..]) == Some(end - i)
      invariant Unescape(text[start..end]) == Behind(output[..o], Unescape(text[i..end]))
      decreases end - i
    {
      var ok;
      ok, i, o := ProcessPiece(text, start, i, end, output, o);
      if !ok {
        return None;
      }
    }
    InText(text, i);
    assert text[i..end] == [];
    r := Some(output[..o]);
    assert output[..o] + [] == output[..o];
  }

  // What has been written, then what is still to come.
  function Behind(done: seq<Byte>, rest: Option<seq<Byte>>): Option<seq<Byte>> {
    if rest.None? then None else Some(done + rest.value)
  }

  // One character or one escape.
  method ProcessPiece(text: CString, start: nat, i: nat, ghost end: nat, output: array<Byte>, o: nat)
    returns (ok: bool, next: nat, last: nat)
    requires start <= i < end < |text| && o <= i - start && output.Length == end - start + 1
    requires Close(text[i..]) == Some(end - i)
    requires Unescape(text[start..end]) == Behind(output[..o], Unescape(text[i..end]))
    modifies output
    ensures !ok ==> Unescape(text[start..end]) == None
    ensures ok ==> i < next <= end && last <= next - start && Close(text[next..]) == Some(end - next)
    ensures ok ==> Unescape(text[start..end]) == Behind(output[..last], Unescape(text[next..end]))
  {
    hide Unescape, Close, UnicodePiece, Short;
    ghost var written, contents := output[..o], text[i..end];
    PieceIsLocal(text[i..], end - i);
    assert text[i..][..end - i] == contents;
    UnescapeStep(contents);
    ghost var p := FirstPiece(text[i..]);
    assert text[i..][0] == text[i];
    next, last := i, o;
    if text[i] == BACKSLASH {
      next := i + 1;
      var c := At(text, next);
      if c == LETTER_U {
        ok, next, last := ParseUtf16(text, next, output, o);
        if !ok {
          return;
        }
      } else if Short(c) >= 0 {
        output[o] := Short(c);
      } else {
        return false, next, last;
      }
    } else if text[i] < 0x20 {
      return false, next, last;
    } else {
      output[o] := text[i];
    }
    last := last + 1;
    next := next + 1;
    ok := true;
    assert output[..last] == written + p.value.bytes;
    assert next == i + p.value.taken;
    assert contents[p.value.taken..] == text[next..end];
    assert text[i..][p.value.taken..] == text[next..];
    BehindBoth(written, p.value.bytes, Unescape(text[next..end]));
  }

  lemma UnescapeStep(s: seq<Byte>)
    requires s != []
    ensures FirstPiece(s) == None ==> Unescape(s) == None
    ensures FirstPiece(s).Some? ==> Unescape(s) == Behind(FirstPiece(s).value.bytes, Unescape(s[FirstPiece(s).value.taken..]))
  {
    hide FirstPiece;
  }

  lemma BehindNothing(rest: Option<seq<Byte>>)
    ensures Behind([], rest) == rest
  {
    if rest.Some? {
      assert [] + rest.value == rest.value;
    }
  }

  lemma BehindBoth(a: seq<Byte>, b: seq<Byte>, rest: Option<seq<Byte>>)
    ensures Behind(a, Behind(b, rest)) == Behind(a + b, rest)
  {
    if rest.Some? {
      assert a + (b + rest.value) == (a + b) + rest.value;
    }
  }

  // get_quoted_string
  method GetQuotedString(text: CString, p: nat) returns (s: Option<seq<Byte>>, q: nat)
    requires p < |text|
    ensures p < q <= |text|
    ensures match Quoted(text[p..])
      case None => s.None?
      case Some((t, rest)) => s == Some(t) && text[q..] == rest
  {
    hide Close, Unescape;
    q := SkipQuotes(text, p);
    assert text[p..][1..] == text[p + 1..];
    if At(text, q) == 0 {
      AtEnd(text, q);
      return None, q;
    }
    var len := q - p - 2;
    assert text[p..][1..len + 1] == text[p + 1..p + 1 + len];
    assert text[p..][len + 2..] == text[q..];
    s := ProcessString(text, p + 1, len);
  }

  // ---------------------------------------------------------------------------------------
  // Values

  // The value and the cursor are what the text stands for.
  ghost predicate Reads(r: Parsed, text: CString, v: Option<Json>, q: nat) {
    if r.None? then v.None? else v == Some(r.value.0) && q <= |text| && text[q..] == r.value.1
  }

  lemma Suffix(text: seq<Byte>, q: nat, k: nat)
    requires q + k <= |text|
    ensures text[q..][k..] == text[q + k..]
    ensures k > 0 ==> text[q..][0] == text[q]
  {
  }

  method ParseValueAt(text: CString, p: nat, nesting: nat) returns (v: Option<Json>, q: nat)
    requires p <= |text|
    ensures p <= q <= |text|
    ensures Reads(ParseValue(text[p..], nesting), text, v, q)
    decreases |text| - p, 1
  {
    hide Quoted, ParseNumber, ParseObject, ParseArray, SkipSpaces, UpToNul;
    q := p;
    if nesting > MAX_NESTING {
      return None, p;
    }
    q := SkipWhitespaces(text, p);
    var c := At(text, q);
    if c == 0 {
      AtEnd(text, q);
      return None, q;
    }
    Suffix(text, q, 1);
    if c == OPEN_BRACE {
      v, q := ParseObjectAt(text, q, nesting + 1);
    } else if c == OPEN_BRACKET {
      v, q := ParseArrayAt(text, q, nesting + 1);
    } else if c == QUOTE {
      var s;
      s, q := GetQuotedString(text, q);
      v := if s.None? then None else Some(String(UpToNul(s.value)));
    } else if c == 102 || c == 116 {
      v, q := ParseBooleanAt(text, q);
    } else if c == MINUS || IsDigit(c) {
      v, q := ParseNumberAt(text, q);
    } else if NULL <= text[q..] {
      Suffix(text, q, 4);
      v, q := Some(Null), q + 4;
    } else {
      v := None;
    }
  }

  method ParseBooleanAt(text: CString, p: nat) returns (v: Option<Json>, q: nat)
    requires p <= |text|
    ensures p <= q <= |text| && Reads(ParseBoolean(text[p..]), text, v, q)
  {
    if TRUE <= text[p..] {
      Suffix(text, p, 4);
      v, q := Some(Boolean(true)), p + 4;
    } else if FALSE <= text[p..] {
      Suffix(text, p, 5);
      v, q := Some(Boolean(false)), p + 5;
    } else {
      v, q := None, p;
    }
  }

  method ParseNumberAt(text: CString, p: nat) returns (v: Option<Json>, q: nat)
    requires p <= |text|
    ensures p <= q <= |text|
    ensures match ParseNumber(text[p..])
      case None => v.None?
      case Some((x, rest)) => v == Some(Number(x)) && text[q..] == rest
  {
    hide Signed, IsHexadecimal, IsDecimal;
    var (x, n) := Signed(text[p..]);
    if !IsHexadecimal(text[p..]) && IsDecimal(text[p..][..n]) {
      Suffix(text, p, n);
      v, q := Some(Number(x)), p + n;
    } else {
      v, q := None, p;
    }
  }

  method ParseObjectAt(text: CString, p: nat, nesting: nat) returns (v: Option<Json>, q: nat)
    requires p < |text|
    ensures p <= q <= |text|
    ensures Reads(ParseObject(text[p + 1..], nesting), text, v, q)
    decreases |text| - p, 0
  {
    hide SkipSpaces, Quoted, ParseValue, ParseMembers, UpToNul;
    ghost var r := ParseObject(text[p + 1..], nesting);
    q := SkipAgain(text, p + 1);
    if At(text, q) == CLOSE_BRACE {
      Suffix(text, q, 1);
      return Some(Object([])), q + 1;
    }
    assert r == ParseMembers(text[q..], [], nesting);
    var ms: seq<Member> := [];
    var more := true;
    while more && q < |text|
      invariant p < q <= |text|
      invariant more ==> r == ParseMembers(text[q..], ms, nesting)
      invariant !more ==> r == Closed(text[q..], CLOSE_BRACE, Object(ms))
      decreases |text| - q, more
    {
      var ok;
      ok, more, ms, q := ParseMemberAt(text, q, nesting, ms);
      if !ok {
        return None, q;
      }
    }
    if more {
      MembersAre(text[q..], ms, nesting);
      return None, q;
    }
    q := SkipAgain(text, q);
    if At(text, q) != CLOSE_BRACE {
      return None, q;
    }
    Suffix(text, q, 1);
    v, q := Some(Object(ms)), q + 1;
  }

  // The end of a container whose entries have been read.
  function Closed(s: seq<Byte>, closing: Byte, v: Json): Parsed {
    var t := SkipSpaces(s);
    if t != [] && t[0] == closing then Some((v, t[1..])) else None
  }

  method SkipAgain(text: CString, p: nat) returns (q: nat)
    requires p <= |text|
    ensures p <= q <= |text| && text[q..] == SkipSpaces(text[p..])
    ensures q < |text| ==> text[q..][0] == text[q]
  {
    q := SkipWhitespaces(text, p);
  }

  // Behind a value: a comma takes the cursor to the next entry.
  method NextEntry(text: CString, p: nat) returns (more: bool, q: nat)
    requires p <= |text|
    ensures p <= q <= |text|
    ensures more ==> p < q && SkipSpaces(text[p..]) != [] && SkipSpaces(text[p..])[0] == COMMA
    ensures more ==> text[q..] == SkipSpaces(SkipSpaces(text[p..])[1..])
    ensures !more ==> text[q..] == SkipSpaces(text[p..]) && (text[q..] == [] || text[q..][0] != COMMA)
  {
    hide SkipSpaces;
    q := SkipAgain(text, p);
    more := At(text, q) == COMMA;
    if more {
      Suffix(text, q, 1);
      q := SkipWhitespaces(text, q + 1);
    }
  }

  // What the value of a member leads to: the entry is added, then the next one read.
  function AfterValue(r: Parsed, name: CString, done: seq<Member>, nesting: nat): Parsed {
    match r
    case None => None
    case Some((value, rest)) =>
      if |done| >= OBJECT_MAX_CAPACITY || Find(done, name) < |done| then None
      else MoreMembers(SkipSpaces(rest), done + [Member(name, value)], nesting)
  }

  function MoreMembers(next: seq<Byte>, ms: seq<Member>, nesting: nat): Parsed {
    if next != [] && next[0] == COMMA then ParseMembers(SkipSpaces(next[1..]), ms, nesting)
    else Closed(next, CLOSE_BRACE, Object(ms))
  }

  lemma MembersAre(s: seq<Byte>, done: seq<Member>, nesting: nat)
    ensures s == [] || Quoted(s).None? ==> ParseMembers(s, done, nesting) == None
    ensures s != [] && Quoted(s).Some? ==>
      var (key, rest) := Quoted(s).value;
      var colon := SkipSpaces(rest);
      ParseMembers(s, done, nesting) ==
        if colon == [] || colon[0] != COLON then None
        else AfterValue(ParseValue(colon[1..], nesting), UpToNul(key), done, nesting)
  {
    hide Quoted, ParseValue, UpToNul, Find;
    if s != [] && Quoted(s).Some? {
      var colon := SkipSpaces(Quoted(s).value.1);
      if colon != [] && colon[0] == COLON {
        var r := ParseValue(colon[1..], nesting);
        if r.Some? {
          SkipTwice(r.value.1);
        }
      }
    }
    hide SkipSpaces;
  }

  lemma SkipTwice(s: seq<Byte>)
    ensures SkipSpaces(SkipSpaces(s)) == SkipSpaces(s)
  {
  }

  // One pass of the loop: a name, a colon, a value and perhaps a comma.
  method ParseMemberAt(text: CString, p: nat, nesting: nat, ms: seq<Member>)
    returns (ok: bool, more: bool, all: seq<Member>, q: nat)
    requires p < |text|
    ensures p < q <= |text|
    ensures !ok ==> ParseMembers(text[p..], ms, nesting) == None
    ensures ok && more ==> ParseMembers(text[p..], ms, nesting) == ParseMembers(text[q..], all, nesting)
    ensures ok && !more ==> ParseMembers(text[p..], ms, nesting) == Closed(text[q..], CLOSE_BRACE, Object(all))
    decreases |text| - p, 0
  {
    hide SkipSpaces, Quoted, ParseValue, ParseMembers, UpToNul, Find;
    MembersAre(text[p..], ms, nesting);
    ok, more, all := false, false, ms;
    var key, value;
    key, q := GetQuotedString(text, p);
    q := SkipAgain(text, q);
    if key.None? || At(text, q) != COLON {
      return;
    }
    Suffix(text, q, 1);
    value, q := ParseValueAt(text, q + 1, nesting);
    if value.None? {
      return;
    }
    var name := UpToNul(key.value);
    if |ms| >= OBJECT_MAX_CAPACITY || Find(ms, name) < |ms| {
      return;
    }
    all := ms + [Member(name, value.value)];
    SkipTwice(text[q..]);
    more, q := NextEntry(text, q);
    ok := true;
  }

  method ParseArrayAt(text: CString, p: nat, nesting: nat) returns (v: Option<Json>, q: nat)
    requires p < |text|
    ensures p <= q <= |text|
    ensures Reads(ParseArray(text[p + 1..], nesting), text, v, q)
    decreases |text| - p, 0
  {
    hide SkipSpaces, ParseValue, ParseItems;
    ghost var r := ParseArray(text[p + 1..], nesting);
    q := SkipAgain(text, p + 1);
    if At(text, q) == CLOSE_BRACKET {
      Suffix(text, q, 1);
      return Some(Array([])), q + 1;
    }
    assert r == ParseItems(text[q..], [], nesting);
    var items: seq<Json> := [];
    var more := true;
    while more && q < |text|
      invariant p < q <= |text|
      invariant more ==> r == ParseItems(text[q..], items, nesting)
      invariant !more ==> r == Closed(text[q..], CLOSE_BRACKET, Array(items))
      decreases |text| - q, more
    {
      var ok;
      ok, more, items, q := ParseItemAt(text, q, nesting, items);
      if !ok {
        return None, q;
      }
    }
    if more {
      ItemsAre(text[q..], items, nesting);
      return None, q;
    }
    q := SkipAgain(text, q);
    if At(text, q) != CLOSE_BRACKET {
      return None, q;
    }
    Suffix(text, q, 1);
    v, q := Some(Array(items)), q + 1;
  }

  function MoreItems(next: seq<Byte>, items: seq<Json>, nesting: nat): Parsed {
    if next != [] && next[0] == COMMA then ParseItems(SkipSpaces(next[1..]), items, nesting)
    else Closed(next, CLOSE_BRACKET, Array(items))
  }

  lemma ItemsAre(s: seq<Byte>, done: seq<Json>, nesting: nat)
    ensures s == [] || ParseValue(s, nesting).None? || |done| >= ARRAY_MAX_CAPACITY ==> ParseItems(s, done, nesting) == None
    ensures s != [] && ParseValue(s, nesting).Some? && |done| < ARRAY_MAX_CAPACITY ==>
      var (value, rest) := ParseValue(s, nesting).value;
      ParseItems(s, done, nesting) == MoreItems(SkipSpaces(rest), done + [value], nesting)
  {
    hide ParseValue;
    if s != [] && ParseValue(s, nesting).Some? {
      SkipTwice(ParseValue(s, nesting).value.1);
    }
    hide SkipSpaces;
  }

  method ParseItemAt(text: CString, p: nat, nesting: nat, items: seq<Json>)
    returns (ok: bool, more: bool, all: seq<Json>, q: nat)
    requires p < |text|
    ensures p <= q <= |text| && (more ==> p < q)
    ensures !ok ==> ParseItems(text[p..], items, nesting) == None
    ensures ok && more ==> ParseItems(text[p..], items, nesting) == ParseItems(text[q..], all, nesting)
    ensures ok && !more ==> ParseItems(text[p..], items, nesting) == Closed(text[q..], CLOSE_BRACKET, Array(all))
    decreases |text| - p, 2
  {
    hide SkipSpaces, ParseValue, ParseItems;
    ItemsAre(text[p..], items, nesting);
    ok, more, all := false, false, items;
    var value;
    value, q := ParseValueAt(text, p, nesting);
    if value.None? || |items| >= ARRAY_MAX_CAPACITY {
      return;
    }
    all := items + [value.value];
    SkipTwice(text[q..]);
    more, q := NextEntry(text, q);
    ok := true;
  }

  // json_parse_string
  method JsonParseString(text: CString) returns (v: Option<Json>)
    ensures v == Parse(text)
  {
    hide SkipSpaces, ParseValue;
    assert text[0..] == text;
    var p := SkipAgain(text, 0);
    if At(text, p) != OPEN_BRACE && At(text, p) != OPEN_BRACKET {
      return None;
    }
    var q;
    v, q := ParseValueAt(text, p, 0);
  }
}
