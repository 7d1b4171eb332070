// parson.c: what the serializer writes, the parser reads back.
module JsonRoundTrip {
  import opened Wrappers
  import opened CStrings
  import opened JsonTree
  import opened JsonStrings
  import opened JsonNumbers
  import opened JsonText

  // ---------------------------------------------------------------------------------------
  // White space

  lemma {:induction false} SkipSomeSpaces(n: nat, x: seq<Byte>)
    ensures SkipSpaces(Spaces(n) + x) == SkipSpaces(x)
  {
    if n == 0 {
      assert Spaces(n) + x == x;
    } else {
      SkipSomeSpaces(n - 1, x);
      assert (Spaces(n) + x)[1..] == Spaces(n - 1) + x;
    }
  }

  lemma SkipIndent(level: nat, pretty: bool, x: seq<Byte>)
    ensures SkipSpaces(Indent(level, pretty) + x) == SkipSpaces(x)
  {
    if pretty {
      SkipSomeSpaces(4 * level, x);
    } else {
      assert Indent(level, pretty) + x == x;
    }
  }

  lemma SkipNewline(pretty: bool, x: seq<Byte>)
    ensures SkipSpaces(Newline(pretty) + x) == SkipSpaces(x)
  {
    if pretty {
      assert (Newline(pretty) + x)[1..] == x;
    } else {
      assert Newline(pretty) + x == x;
    }
  }

  predicate Starts(x: seq<Byte>) {
    x != [] && !IsSpace(x[0])
  }

  lemma SkipNothing(x: seq<Byte>)
    requires Starts(x)
    ensures SkipSpaces(x) == x
  {
  }

  lemma ParseSkips(x: seq<Byte>, y: seq<Byte>, nesting: nat)
    requires SkipSpaces(x) == SkipSpaces(y)
    ensures ParseValue(x, nesting) == ParseValue(y, nesting)
  {
    hide SkipSpaces, ParseObject, ParseArray, ParseString, ParseBoolean, ParseNumber;
  }

  lemma {:induction false} NoNul(s: CString)
    ensures UpToNul(s) == s
  {
    if s != [] {
      NoNul(s[1..]);
    }
  }

  // ---------------------------------------------------------------------------------------
  // Values without parts

  // What can follow a value inside a container.
  predicate Ends(rest: seq<Byte>) {
    rest != [] && (rest[0] == COMMA || rest[0] == CLOSE_BRACE || rest[0] == CLOSE_BRACKET || IsSpace(rest[0]))
  }

  lemma TextStarts(v: Json, level: nat, pretty: bool)
    ensures Starts(Text(v, level, pretty)) && Text(v, level, pretty)[0] != CLOSE_BRACKET
  {
    hide Inside;
    if v.Number? {
      NumberStarts(v.value);
    }
  }

  lemma NumberStarts(x: real)
    ensures NumberText(x)[0] == MINUS || IsDigit(NumberText(x)[0])
  {
    if IsInt32(x) {
      var n := x.Floor;
      DigitsAreDigits(if n < 0 then -n else n);
    } else {
      FixedIs(x);
      DigitsAreDigits(Millionths(x) / 1000000);
    }
  }

  lemma NumberIsRead(x: real, rest: seq<Byte>)
    requires EndsNumber(rest)
    ensures ParseNumber(NumberText(x) + rest) == Some((NumberAsRead(x), rest))
  {
    hide ParseNumber, IntText, Fixed, Nearest, EndsNumber;
    if IsInt32(x) {
      NumberReadBack(x.Floor, rest);
    } else {
      FixedReadBack(x, rest);
    }
  }

  lemma ParseScalar(v: Json, level: nat, pretty: bool, nesting: nat, rest: seq<Byte>)
    requires !IsContainer(v) && Ends(rest)
    ensures ParseValue(Text(v, level, pretty) + rest, nesting) == if Readable(v, nesting) then Some((AsRead(v), rest)) else None
  {
    hide Quoted, ParseNumber, Escape, NumberText, NumberAsRead;
    var t := Text(v, level, pretty);
    TextStarts(v, level, pretty);
    SkipNothing(t + rest);
    hide SkipSpaces;
    match v
    case String(s) =>
      QuotedEscape(s, rest);
      NoNul(s);
    case Number(x) =>
      NumberStarts(x);
      NumberIsRead(x, rest);
    case Boolean(b) =>
      assert (t + rest)[|t|..] == rest;
      assert t <= t + rest;
    case Null =>
      assert (t + rest)[4..] == rest;
      assert t <= t + rest;
  }

  // ---------------------------------------------------------------------------------------
  // Containers

  function ParseFrom(v: Json, s: seq<Byte>, i: nat, nesting: nat): Parsed
    requires IsContainer(v) && i <= Count(v)
  {
    if v.Object? then ParseMembers(s, v.members[..i], nesting) else ParseItems(s, v.items[..i], nesting)
  }

  // What stands behind the last entry, and what stands behind entry i.
  function Tail(v: Json, level: nat, pretty: bool, rest: seq<Byte>): seq<Byte>
    requires IsContainer(v)
  {
    Indent(level, pretty) + [Closing(v)] + rest
  }

  function After(v: Json, i: nat, level: nat, pretty: bool, rest: seq<Byte>): seq<Byte>
    requires IsContainer(v) && i < Count(v)
  {
    (if i < Count(v) - 1 then [COMMA] else []) + (Newline(pretty) + (Entries(v, i + 1, level, pretty) + Tail(v, level, pretty, rest)))
  }

  lemma AfterEnds(v: Json, i: nat, level: nat, pretty: bool, rest: seq<Byte>)
    requires IsContainer(v) && i < Count(v)
    ensures Ends(After(v, i, level, pretty, rest)) && After(v, i, level, pretty, rest) != []
    ensures i < Count(v) - 1 ==> After(v, i, level, pretty, rest)[0] == COMMA
    ensures i == Count(v) - 1 ==> SkipSpaces(After(v, i, level, pretty, rest)) == [Closing(v)] + rest
    ensures i < Count(v) - 1 ==> SkipSpaces(After(v, i, level, pretty, rest)) == After(v, i, level, pretty, rest)
    ensures i < Count(v) - 1 ==>
      SkipSpaces(After(v, i, level, pretty, rest)[1..]) == SkipSpaces(Entries(v, i + 1, level, pretty) + Tail(v, level, pretty, rest))
  {
    var more := Entries(v, i + 1, level, pretty) + Tail(v, level, pretty, rest);
    var a := After(v, i, level, pretty, rest);
    SkipNewline(pretty, more);
    if i == Count(v) - 1 {
      assert more == Indent(level, pretty) + ([Closing(v)] + rest);
      assert a == Newline(pretty) + more;
      SkipIndent(level, pretty, [Closing(v)] + rest);
      SkipNothing([Closing(v)] + rest);
      hide SkipSpaces;
      if pretty {
        assert a[0] == NEWLINE;
      } else {
        assert a == [Closing(v)] + rest;
      }
    } else {
      assert a[1..] == Newline(pretty) + more;
      SkipNothing(a);
    }
  }

  lemma EntryText(v: Json, i: nat, level: nat, pretty: bool, rest: seq<Byte>)
    requires IsContainer(v) && i < Count(v)
    ensures var entry := Label(v, i, pretty) + (Text(Child(v, i), level + 1, pretty) + After(v, i, level, pretty, rest));
      SkipSpaces(Entries(v, i, level, pretty) + Tail(v, level, pretty, rest)) == entry && Starts(entry)
      && entry != [] && entry[0] != Closing(v)
  {
    var after := After(v, i, level, pretty, rest);
    var heading, text := Label(v, i, pretty), Text(Child(v, i), level + 1, pretty);
    var entry := heading + (text + after);
    TextStarts(Child(v, i), level + 1, pretty);
    LabelStarts(v, i, pretty);
    Regroup(Indent(level + 1, pretty), heading, text, if i < Count(v) - 1 then [COMMA] else [], Newline(pretty),
            Entries(v, i + 1, level, pretty), Tail(v, level, pretty, rest));
    assert Entries(v, i, level, pretty) + Tail(v, level, pretty, rest) == Indent(level + 1, pretty) + entry;
    SkipIndent(level + 1, pretty, entry);
    hide Text, After, Label;
    assert entry[0] == if heading == [] then text[0] else heading[0];
    SkipNothing(entry);
  }

  lemma LabelStarts(v: Json, i: nat, pretty: bool)
    requires IsContainer(v) && i < Count(v)
    ensures if v.Array? then Label(v, i, pretty) == [] else Label(v, i, pretty) != [] && Label(v, i, pretty)[0] == QUOTE
  {
  }

  lemma Regroup(a: seq<Byte>, b: seq<Byte>, c: seq<Byte>, d: seq<Byte>, e: seq<Byte>, f: seq<Byte>, g: seq<Byte>)
    ensures a + b + c + d + e + f + g == a + (b + (c + (d + (e + (f + g)))))
  {
    Assoc(a + b + c + d + e, f, g);
    Assoc(a + b + c + d, e, f + g);
    Assoc(a + b + c, d, e + (f + g));
    Assoc(a + b, c, d + (e + (f + g)));
    Assoc(a, b, c + (d + (e + (f + g))));
  }

  lemma {:induction false} ParseText(v: Json, level: nat, pretty: bool, nesting: nat, rest: seq<Byte>)
    requires WellFormed(v) && (IsContainer(v) || Ends(rest))
    ensures ParseValue(Text(v, level, pretty) + rest, nesting) == if Readable(v, nesting) then Some((AsRead(v), rest)) else None
    decreases v, 1, 0
  {
    if !IsContainer(v) {
      ParseScalar(v, level, pretty, nesting, rest);
    } else {
      AsReadAlike(v);
      SameChildren(v, AsRead(v));
      ContainerText(v, AsRead(v), level, pretty, nesting, rest);
      if Count(v) > 0 && nesting <= MAX_NESTING {
        ParseEntries(v, 0, level, pretty, nesting, rest);
      }
    }
  }

  // The parser goes through the opening bracket and the white space behind it.
  lemma ContainerText(v: Json, w: Json, level: nat, pretty: bool, nesting: nat, rest: seq<Byte>)
    requires Alike(v, w)
    ensures nesting > MAX_NESTING ==> ParseValue(Text(v, level, pretty) + rest, nesting) == None
    ensures nesting <= MAX_NESTING && Count(v) == 0 ==> ParseValue(Text(v, level, pretty) + rest, nesting) == Some((v, rest))
    ensures nesting <= MAX_NESTING && Count(v) > 0 ==>
      ParseValue(Text(v, level, pretty) + rest, nesting)
      == ParseFrom(w, SkipSpaces(Entries(v, 0, level, pretty) + Tail(v, level, pretty, rest)), 0, nesting + 1)
  {
    assert IsContainer(v) && IsContainer(w) && Closing(v) == Closing(w) && (v.Object? <==> w.Object?);
    hide *;
    var x := Behind(v, level, pretty, rest);
    TextSplits(v, level, pretty, rest);
    OpeningStep(v, x, nesting);
    if Count(v) == 0 {
      EmptyStep(v, level, pretty, rest, nesting + 1);
    } else {
      var more := Entries(v, 0, level, pretty) + Tail(v, level, pretty, rest);
      EntryText(v, 0, level, pretty, rest);
      FirstStep(w, x, nesting + 1);
    }
  }

  // What stands behind the opening bracket.
  function Behind(v: Json, level: nat, pretty: bool, rest: seq<Byte>): seq<Byte>
    requires IsContainer(v)
  {
    Inside(v, level, pretty) + ([Closing(v)] + rest)
  }

  lemma TextSplits(v: Json, level: nat, pretty: bool, rest: seq<Byte>)
    requires IsContainer(v)
    ensures Text(v, level, pretty) + rest == [Opening(v)] + Behind(v, level, pretty, rest)
    ensures Count(v) == 0 ==> Behind(v, level, pretty, rest) == [Closing(v)] + rest
    ensures var more := Entries(v, 0, level, pretty) + Tail(v, level, pretty, rest);
      Count(v) > 0 ==> SkipSpaces(Behind(v, level, pretty, rest)) == SkipSpaces(more)
  {
    Assoc([Opening(v)] + Inside(v, level, pretty), [Closing(v)], rest);
    Assoc([Opening(v)], Inside(v, level, pretty), [Closing(v)] + rest);
    if Count(v) > 0 {
      var e, i := Entries(v, 0, level, pretty), Indent(level, pretty);
      Assoc(Newline(pretty) + e, i, [Closing(v)] + rest);
      Assoc(Newline(pretty), e, i + ([Closing(v)] + rest));
      Assoc(i, [Closing(v)], rest);
      SkipNewline(pretty, e + Tail(v, level, pretty, rest));
    }
  }

  lemma EmptyStep(v: Json, level: nat, pretty: bool, rest: seq<Byte>, nesting: nat)
    requires IsContainer(v) && Count(v) == 0
    ensures (if v.Object? then ParseObject([Closing(v)] + rest, nesting) else ParseArray([Closing(v)] + rest, nesting))
      == Some((v, rest))
  {
    var x := [Closing(v)] + rest;
    assert x[1..] == rest;
    SkipNothing(x);
    hide SkipSpaces;
  }

  lemma OpeningStep(v: Json, x: seq<Byte>, nesting: nat)
    requires IsContainer(v)
    ensures ParseValue([Opening(v)] + x, nesting) ==
      if nesting > MAX_NESTING then None else if v.Object? then ParseObject(x, nesting + 1) else ParseArray(x, nesting + 1)
  {
    hide ParseObject, ParseArray;
    assert ([Opening(v)] + x)[1..] == x;
    SkipNothing([Opening(v)] + x);
  }

  lemma FirstStep(v: Json, x: seq<Byte>, nesting: nat)
    requires IsContainer(v) && SkipSpaces(x) != [] && SkipSpaces(x)[0] != Closing(v)
    ensures (if v.Object? then ParseObject(x, nesting) else ParseArray(x, nesting)) == ParseFrom(v, SkipSpaces(x), 0, nesting)
  {
    hide ParseMembers, ParseItems, SkipSpaces;
    if v.Object? {
      assert v.members[..0] == [];
    } else {
      assert v.items[..0] == [];
    }
  }

  lemma {:induction false} ParseEntries(v: Json, i: nat, level: nat, pretty: bool, nesting: nat, rest: seq<Byte>)
    requires WellFormed(v) && IsContainer(v) && i < Count(v) == Count(AsRead(v)) && nesting <= MAX_NESTING
    ensures ParseFrom(AsRead(v), SkipSpaces(Entries(v, i, level, pretty) + Tail(v, level, pretty, rest)), i, nesting + 1)
      == if ReadableFrom(v, i, nesting) then Some((AsRead(v), rest)) else None
    decreases v, 0, Count(v) - i
  {
    EntryText(v, i, level, pretty, rest);
    AfterEnds(v, i, level, pretty, rest);
    var after := After(v, i, level, pretty, rest);
    ParseText(Child(v, i), level + 1, pretty, nesting + 1, after);
    if i < Count(v) - 1 {
      ParseEntries(v, i + 1, level, pretty, nesting, rest);
    }
    AsReadAlike(v);
    AsReadWellFormed(v);
    if v.Object? {
      ParseMember(v, AsRead(v), i, level, pretty, nesting, rest);
    } else {
      ParseItem(v, AsRead(v), i, level, pretty, nesting, rest);
    }
  }

  // One member: its name, its value and what follows.
  lemma ParseMember(v: Json, w: Json, i: nat, level: nat, pretty: bool, nesting: nat, rest: seq<Byte>)
    requires v.Object? && Alike(v, w) && WellFormed(w) && i < Count(v)
    requires var after, text := After(v, i, level, pretty, rest), Text(Child(v, i), level + 1, pretty);
      ParseValue(text + after, nesting + 1) == if Readable(Child(v, i), nesting + 1) then Some((Child(w, i), after)) else None
    ensures var after, text := After(v, i, level, pretty, rest), Text(Child(v, i), level + 1, pretty);
      ParseFrom(w, Label(v, i, pretty) + (text + after), i, nesting + 1)
      == if !CleanLabel(v, i) || !Readable(Child(v, i), nesting + 1) then None
         else if i == Count(v) - 1 then Some((w, rest))
         else ParseFrom(w, SkipSpaces(after[1..]), i + 1, nesting + 1)
  {
    FromMembers(v, [], 0, nesting);
    FromMembers(w, [], 0, nesting);
    assert IsContainer(v) && IsContainer(w) && v.members[i].name == w.members[i].name;
    assert CleanLabel(v, i) == Clean(v.members[i].name);
    hide *;
    var key := v.members[i].name;
    var after, text := After(v, i, level, pretty, rest), Text(Child(v, i), level + 1, pretty);
    var colon := Colon(pretty, text + after);
    var s := Label(v, i, pretty) + (text + after);
    LabelSplits(v, i, pretty, text + after);
    QuotedEscape(key, colon);
    NoNul(key);
    ColonStarts(pretty, text + after);
    ParseSkips(colon[1..], text + after, nesting + 1);
    AfterEnds(v, i, level, pretty, rest);
    Prefixes(w, i);
    MembersStep(s, w.members[..i], nesting + 1, key, colon, colon);
    FromMembers(w, s, i, nesting + 1);
    if i == Count(v) - 1 {
      assert ([Closing(v)] + rest)[1..] == rest;
    } else {
      FromMembers(w, SkipSpaces(after[1..]), i + 1, nesting + 1);
    }
  }

  // What stands behind the name of a member.
  function Colon(pretty: bool, x: seq<Byte>): (c: seq<Byte>)
    ensures c != []
  {
    [COLON] + ((if pretty then [SPACE] else []) + x)
  }

  lemma ColonStarts(pretty: bool, x: seq<Byte>)
    ensures var c := Colon(pretty, x); SkipSpaces(c) == c && c[0] == COLON && SkipSpaces(c[1..]) == SkipSpaces(x)
  {
    var space: seq<Byte> := if pretty then [SPACE] else [];
    SkipNothing(Colon(pretty, x));
    assert Colon(pretty, x)[1..] == space + x;
    assert space == Spaces(|space|);
    SkipSomeSpaces(|space|, x);
  }

  lemma FromMembers(v: Json, s: seq<Byte>, i: nat, nesting: nat)
    requires v.Object? && i <= |v.members|
    ensures Count(v) == |v.members| && Closing(v) == CLOSE_BRACE
    ensures ParseFrom(v, s, i, nesting) == ParseMembers(s, v.members[..i], nesting)
  {
    hide ParseMembers;
  }

  lemma Prefixes(v: Json, i: nat)
    requires v.Object? && WellFormed(v) && i < |v.members|
    ensures v.members[i] == Member(v.members[i].name, Child(v, i))
    ensures v.members[..i] + [v.members[i]] == v.members[..i + 1]
    ensures i == |v.members| - 1 ==> Object(v.members[..i + 1]) == v
    ensures i < OBJECT_MAX_CAPACITY && Find(v.members[..i], v.members[i].name) == i
  {
    FindInPrefix(v.members, i);
    if i == |v.members| - 1 {
      assert v.members[..i + 1] == v.members;
    }
  }

  lemma MembersStep(s: seq<Byte>, done: seq<Member>, nesting: nat, key: CString, afterKey: seq<Byte>, colon: seq<Byte>)
    requires s != [] && UpToNul(key) == key && colon != [] && SkipSpaces(afterKey) == colon && colon[0] == COLON
    requires |done| < OBJECT_MAX_CAPACITY && Find(done, key) == |done|
    ensures Quoted(s) == None ==> ParseMembers(s, done, nesting) == None
    ensures var r := ParseValue(colon[1..], nesting);
      Quoted(s) == Some((key, afterKey)) ==>
        (r.None? ==> ParseMembers(s, done, nesting) == None)
        && (r.Some? ==>
          var ms, next := done + [Member(key, r.value.0)], SkipSpaces(r.value.1);
          (next != [] && next[0] == COMMA ==> ParseMembers(s, done, nesting) == ParseMembers(SkipSpaces(next[1..]), ms, nesting))
          && (next != [] && next[0] == CLOSE_BRACE ==> ParseMembers(s, done, nesting) == Some((Object(ms), next[1..]))))
  {
    hide SkipSpaces, Quoted, Find, ParseValue, UpToNul;
  }

  lemma LabelSplits(v: Json, i: nat, pretty: bool, x: seq<Byte>)
    requires v.Object? && i < Count(v)
    ensures Label(v, i, pretty) + x
      == [QUOTE] + Escape(v.members[i].name) + [QUOTE] + Colon(pretty, x)
  {
    hide Escape;
    var q := [QUOTE] + Escape(v.members[i].name) + [QUOTE];
    var space: seq<Byte> := if pretty then [SPACE] else [];
    Assoc(q + [COLON], space, x);
    Assoc(q, [COLON], space + x);
  }

  lemma ParseItem(v: Json, w: Json, i: nat, level: nat, pretty: bool, nesting: nat, rest: seq<Byte>)
    requires v.Array? && Alike(v, w) && WellFormed(w) && i < Count(v)
    requires var after, text := After(v, i, level, pretty, rest), Text(Child(v, i), level + 1, pretty);
      ParseValue(text + after, nesting + 1) == if Readable(Child(v, i), nesting + 1) then Some((Child(w, i), after)) else None
    ensures var after, text := After(v, i, level, pretty, rest), Text(Child(v, i), level + 1, pretty);
      ParseFrom(w, Label(v, i, pretty) + (text + after), i, nesting + 1)
      == if !Readable(Child(v, i), nesting + 1) then None
         else if i == Count(v) - 1 then Some((w, rest))
         else ParseFrom(w, SkipSpaces(after[1..]), i + 1, nesting + 1)
  {
    var after, text := After(v, i, level, pretty, rest), Text(Child(v, i), level + 1, pretty);
    assert Label(v, i, pretty) + (text + after) == text + after;
    AfterEnds(v, i, level, pretty, rest);
    assert w.items[..i] + [w.items[i]] == w.items[..i + 1];
    hide SkipSpaces, Text, After, ParseValue, Entries, Tail, WellFormed, Readable;
    if i == Count(v) - 1 {
      assert w.items[..i + 1] == w.items;
      assert ([Closing(v)] + rest)[1..] == rest;
    }
  }

  // The main result: whatever follows the text of an object or array, parsing gives the tree
  // back, members in order and numbers to the sixth decimal, exactly when it is not nested too
  // deeply and its strings hold no control bytes but those with a short escape. Otherwise nothing
  // is read.
  lemma ParseUndoesSerialize(v: Json, pretty: bool, rest: seq<Byte>)
    requires IsContainer(v) && WellFormed(v)
    ensures Parse(Text(v, 0, pretty) + rest) == if Depth(v) <= MAX_NESTING && CleanStrings(v) then Some(AsRead(v)) else None
  {
    var t := Text(v, 0, pretty) + rest;
    TextStarts(v, 0, pretty);
    SkipNothing(t);
    ParseText(v, 0, pretty, 0, rest);
    ReadableIs(v, 0);
    assert t[0] == Opening(v);
    hide SkipSpaces, ParseValue, Text;
  }

  // The very same tree comes back exactly when its numbers are exact too.
  lemma RoundTripIsExact(v: Json, pretty: bool, rest: seq<Byte>)
    requires IsContainer(v) && WellFormed(v)
    ensures Parse(Text(v, 0, pretty) + rest) == Some(v) <==> Depth(v) <= MAX_NESTING && CleanStrings(v) && ExactNumbers(v)
  {
    ParseUndoesSerialize(v, pretty, rest);
    AsReadIsSame(v);
    hide Parse, Text, Depth, CleanStrings, ExactNumbers, AsRead;
  }

  // A control byte without a short escape is read from a \u escape but written raw, and what is
  // written is then refused.
  lemma ControlByteIsLost(pretty: bool)
    ensures var v := Array([String([1])]);
      Parse([OPEN_BRACKET, QUOTE, BACKSLASH, LETTER_U, 48, 48, 48, 49, QUOTE, CLOSE_BRACKET]) == Some(v)
      && Parse(Text(v, 0, pretty)) == None
  {
    var v := Array([String([1])]);
    assert WellFormed(v);
    assert !CleanStrings(v) by {
      var one: CString := [1];
      assert !IsClean(one[0]);
      assert Child(v, 0) == String(one) && !CleanStrings(String(one));
    }
    ParseUndoesSerialize(v, pretty, []);
    assert Text(v, 0, pretty) + [] == Text(v, 0, pretty);
    ReadControlByte();
  }

  lemma ReadEscape(e: seq<Byte>)
    requires e == [BACKSLASH, LETTER_U, 48, 48, 48, 49]
    ensures HasHex(e, 2) && Unescape(e) == Some([1])
  {
    assert Hex4(e, 2) == 1;
    assert FirstPiece(e) == Some(Piece(6, [1]));
    var none: seq<Byte> := [];
    assert e[6..] == none && Unescape(none) == Some(none);
    assert FirstPiece(e).value.bytes + none == [1];
  }

  lemma ReadQuoted(e: seq<Byte>, s: seq<Byte>)
    requires e == [BACKSLASH, LETTER_U, 48, 48, 48, 49] && s == [QUOTE] + e + [QUOTE] + [CLOSE_BRACKET]
    ensures Quoted(s) == Some(([1], [CLOSE_BRACKET]))
  {
    ReadEscape(e);
    var c := e + [QUOTE, CLOSE_BRACKET];
    assert s[1..] == c && c[0..] == c && HasHex(c, 2);
    CloseAfterPair(c, 0);
    CloseAfterHex(c, 2);
    assert c[6..] == [QUOTE, CLOSE_BRACKET];
    assert Close(c) == Some(6);
    assert s[1..7] == e && s[8..] == [CLOSE_BRACKET];
    hide Unescape, Close;
  }

  lemma ReadControlByte()
    ensures Parse([OPEN_BRACKET, QUOTE, BACKSLASH, LETTER_U, 48, 48, 48, 49, QUOTE, CLOSE_BRACKET])
      == Some(Array([String([1])]))
  {
    hide Quoted, SkipSpaces;
    var e: seq<Byte> := [BACKSLASH, LETTER_U, 48, 48, 48, 49];
    var s := [QUOTE] + e + [QUOTE] + [CLOSE_BRACKET];
    var t := [OPEN_BRACKET] + s;
    assert t == [OPEN_BRACKET, QUOTE, BACKSLASH, LETTER_U, 48, 48, 48, 49, QUOTE, CLOSE_BRACKET];
    ReadQuoted(e, s);
    SkipNothing(t);
    SkipNothing(s);
    SkipNothing([CLOSE_BRACKET]);
    NoNul([1]);
    assert t[1..] == s;
    assert ParseValue(s, 1) == Some((String([1]), [CLOSE_BRACKET]));
    assert [] + [String([1])] == [String([1])];
    assert ParseItems(s, [], 1) == Some((Array([String([1])]), []));
    assert ParseValue(t, 0) == Some((Array([String([1])]), []));
  }

  // ---------------------------------------------------------------------------------------
  // Whatever the parser takes

  lemma {:induction false} DepthBelow(v: Json, i: nat, k: nat)
    requires IsContainer(v) && i <= Count(v) && forall j :: i <= j < Count(v) ==> Depth(Child(v, j)) < k
    ensures DepthFrom(v, i) <= k
    decreases Count(v) - i
  {
    if i < Count(v) {
      DepthBelow(v, i + 1, k);
    }
  }

  // A value that can stand in a container at a nesting.
  predicate Fits(v: Json, nesting: nat) {
    WellFormed(v) && Depth(v) + nesting <= MAX_NESTING
  }

  lemma ContainerFits(v: Json, nesting: nat)
    requires IsContainer(v) && (nesting < MAX_NESTING || (nesting <= MAX_NESTING && Count(v) == 0))
    requires v.Object? ==> Distinct(v.members) && |v.members| <= OBJECT_MAX_CAPACITY
    requires v.Array? ==> |v.items| <= ARRAY_MAX_CAPACITY
    requires forall i :: 0 <= i < Count(v) ==> Fits(Child(v, i), nesting + 1)
    ensures Fits(v, nesting)
  {
    DepthBelow(v, 0, MAX_NESTING - nesting);
  }

  // Names are distinct, the capacities are kept and nothing is nested too deeply.
  lemma {:induction false} ParsedFits(s: seq<Byte>, nesting: nat)
    ensures ParseValue(s, nesting).Some? ==> Fits(ParseValue(s, nesting).value.0, nesting)
    decreases |s|, 1
  {
    hide ParseMembers, ParseItems, Quoted, ParseNumber, UpToNul;
    var t := SkipSpaces(s);
    if nesting <= MAX_NESTING && t != [] {
      if t[0] == OPEN_BRACE {
        var u := SkipSpaces(t[1..]);
        if u != [] && u[0] == CLOSE_BRACE {
          ContainerFits(Object([]), nesting);
        } else {
          ParsedMembersFit(u, [], nesting + 1);
        }
      } else if t[0] == OPEN_BRACKET {
        var u := SkipSpaces(t[1..]);
        if u != [] && u[0] == CLOSE_BRACKET {
          ContainerFits(Array([]), nesting);
        } else {
          ParsedItemsFit(u, [], nesting + 1);
        }
      }
    }
  }

  lemma {:induction false} ParsedMembersFit(s: seq<Byte>, done: seq<Member>, nesting: nat)
    requires nesting > 0 && Distinct(done) && |done| <= OBJECT_MAX_CAPACITY
    requires forall i :: 0 <= i < |done| ==> Fits(done[i].value, nesting)
    ensures ParseMembers(s, done, nesting).Some? ==> Fits(ParseMembers(s, done, nesting).value.0, nesting - 1)
    decreases |s|, 0
  {
    hide Quoted, UpToNul, SkipSpaces, Fits;
    if ParseMembers(s, done, nesting).Some? {
      var (key, afterKey) := Quoted(s).value;
      var colon := SkipSpaces(afterKey);
      ParsedFits(colon[1..], nesting);
      var (value, afterValue) := ParseValue(colon[1..], nesting).value;
      var ms := done + [Member(UpToNul(key), value)];
      var next := SkipSpaces(afterValue);
      if next[0] == COMMA {
        ParsedMembersFit(SkipSpaces(next[1..]), ms, nesting);
      } else {
        DoneFits(Object(ms), nesting);
      }
    }
  }

  lemma DoneFits(v: Json, nesting: nat)
    requires IsContainer(v) && nesting > 0 && Count(v) > 0
    requires v.Object? ==> Distinct(v.members) && |v.members| <= OBJECT_MAX_CAPACITY
    requires v.Array? ==> |v.items| <= ARRAY_MAX_CAPACITY
    requires forall i :: 0 <= i < Count(v) ==> Fits(Child(v, i), nesting)
    ensures Fits(v, nesting - 1)
  {
    assert Fits(Child(v, 0), nesting);
    ContainerFits(v, nesting - 1);
  }

  lemma {:induction false} ParsedItemsFit(s: seq<Byte>, done: seq<Json>, nesting: nat)
    requires nesting > 0 && |done| <= ARRAY_MAX_CAPACITY
    requires forall i :: 0 <= i < |done| ==> Fits(done[i], nesting)
    ensures ParseItems(s, done, nesting).Some? ==> Fits(ParseItems(s, done, nesting).value.0, nesting - 1)
    decreases |s|, 2
  {
    hide SkipSpaces, Fits, ParseValue;
    if ParseItems(s, done, nesting).Some? {
      ParsedFits(s, nesting);
      var (value, afterValue) := ParseValue(s, nesting).value;
      var items := done + [value];
      var next := SkipSpaces(afterValue);
      if next[0] == COMMA {
        ParsedItemsFit(SkipSpaces(next[1..]), items, nesting);
      } else {
        DoneFits(Array(items), nesting);
      }
    }
  }

  // What the parser returns is a tree as the containers keep it, at most as deep as can be read.
  lemma ParsedIsWellFormed(s: seq<Byte>)
    requires Parse(s).Some?
    ensures WellFormed(Parse(s).value) && Depth(Parse(s).value) <= MAX_NESTING
  {
    ParsedFits(SkipSpaces(s), 0);
  }
}
