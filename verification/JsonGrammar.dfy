// The texts that parson.c takes, derived from their trees in literal characters: RFC 8259, with
// what the code takes or refuses besides.
module JsonGrammar {
  import opened Wrappers
  import opened CStrings
  import opened JsonTree
  import opened JsonStrings
  import opened JsonNumbers
  import opened JsonText
  import opened JsonRoundTrip
  import opened JsonTokens

  // ---------------------------------------------------------------------------------------
  // Derivations

  // The value v at the start of a text, behind white space, with the rest behind it; at most 19
  // containers around it. A string ends at the first \u0000.
  ghost predicate Derives(s: seq<Byte>, v: Json, rest: seq<Byte>, nesting: nat)
    decreases v, 2, 0
  {
    var t := AfterWhite(s);
    nesting <= 19 &&
    match v
    case Null => t == Ascii("null") + rest
    case Boolean(b) => t == Ascii(if b then "true" else "false") + rest
    case Number(x) => exists d :: IsNumberAt(t, d, x, rest)
    case String(u) => Opens(t, '"') && exists c, full :: IsQuoted(t, c, full, rest) && u == UpToNul(full)
    case Array(items) =>
      Opens(t, '[') && |items| <= 122880
      && if items == [] then AfterWhite(t[1..]) == [']' as int] + rest else DerivesItems(t[1..], v, 0, rest, nesting + 1)
    case Object(ms) =>
      Opens(t, '{') && |ms| <= 960 && Distinct(ms)
      && if ms == [] then AfterWhite(t[1..]) == ['}' as int] + rest
         else !Opens(AfterWhite(t[1..]), '}') && DerivesMembers(t[1..], v, 0, rest, nesting + 1)
  }

  ghost predicate IsNumberAt(t: seq<Byte>, d: Decimal, x: real, rest: seq<Byte>) {
    WellMade(d) && t == DecimalText(d) + rest && x == DecimalValue(d)
  }

  // The items from position i on: each with a comma behind it, the last one with the closing
  // bracket.
  ghost predicate DerivesItems(s: seq<Byte>, v: Json, i: nat, rest: seq<Byte>, nesting: nat)
    requires v.Array? && i < |v.items|
    decreases v, 1, |v.items| - i
  {
    exists mid :: Derives(s, v.items[i], mid, nesting)
      && if i == |v.items| - 1 then AfterWhite(mid) == [']' as int] + rest
         else Opens(AfterWhite(mid), ',') && DerivesItems(AfterWhite(mid)[1..], v, i + 1, rest, nesting)
  }

  // The members from position i on: a name, a colon and a value each. The opening character of a
  // name is not looked at.
  ghost predicate DerivesMembers(s: seq<Byte>, v: Json, i: nat, rest: seq<Byte>, nesting: nat)
    requires v.Object? && i < |v.members|
    decreases v, 1, |v.members| - i
  {
    exists c, full, after, mid ::
      IsNamed(AfterWhite(s), c, full, after, v.members[i].name) && Derives(AfterWhite(after)[1..], v.members[i].value, mid, nesting)
      && if i == |v.members| - 1 then AfterWhite(mid) == ['}' as int] + rest
         else Opens(AfterWhite(mid), ',') && DerivesMembers(AfterWhite(mid)[1..], v, i + 1, rest, nesting)
  }

  ghost predicate IsNamed(t: seq<Byte>, c: seq<Byte>, full: seq<Byte>, after: seq<Byte>, name: CString) {
    IsQuoted(t, c, full, after) && name == UpToNul(full) && Opens(AfterWhite(after), ':')
  }

  // ---------------------------------------------------------------------------------------
  // What is derived is parsed

  lemma {:induction false} WhiteTwice(s: seq<Byte>)
    ensures AfterWhite(AfterWhite(s)) == AfterWhite(s)
  {
    if s != [] && IsWhite(s[0]) {
      WhiteTwice(s[1..]);
    }
  }

  lemma Literals()
    ensures Ascii("null") == NULL && Ascii("true") == TRUE && Ascii("false") == FALSE
  {
  }

  lemma LiteralIsParsed(v: Json, s: seq<Byte>, rest: seq<Byte>, nesting: nat)
    requires (v.Null? || v.Boolean?) && Derives(s, v, rest, nesting)
    ensures ParseValue(s, nesting) == Some((v, rest))
  {
    hide ParseObject, ParseArray, ParseString, ParseNumber, SkipSpaces, Ascii;
    WhiteIsSkipped(s);
    Literals();
    var t := SkipSpaces(s);
    if v.Null? {
      assert t[4..] == rest && NULL <= t;
    } else if v.truth {
      assert t[4..] == rest && TRUE <= t;
    } else {
      assert t[5..] == rest && FALSE <= t && !(TRUE <= t);
    }
  }

  lemma NumberIsParsed(s: seq<Byte>, x: real, rest: seq<Byte>, nesting: nat)
    requires Derives(s, Number(x), rest, nesting) && EndsNumber(rest)
    ensures ParseValue(s, nesting) == Some((Number(x), rest))
  {
    hide ParseObject, ParseArray, ParseString, ParseNumber, SkipSpaces, DecimalText, WellMade;
    WhiteIsSkipped(s);
    var d :| IsNumberAt(AfterWhite(s), d, x, rest);
    DecimalIsParsed(d, rest);
    DecimalOpens(d, rest);
  }

  lemma DecimalOpens(d: Decimal, rest: seq<Byte>)
    requires WellMade(d)
    ensures var t := DecimalText(d) + rest; t != [] && (t[0] == MINUS || IsDigit(t[0]))
  {
    hide ExponentText, IsExponent;
    if !d.negative {
      assert (DecimalText(d) + rest)[0] == d.whole[0];
    }
  }

  lemma StringIsParsed(s: seq<Byte>, u: CString, rest: seq<Byte>, nesting: nat)
    requires Derives(s, String(u), rest, nesting)
    ensures ParseValue(s, nesting) == Some((String(u), rest))
  {
    hide ParseObject, ParseArray, ParseNumber, SkipSpaces, Quoted, IsQuoted;
    WhiteIsSkipped(s);
    var t := SkipSpaces(s);
    var c, full :| IsQuoted(t, c, full, rest) && u == UpToNul(full);
    QuotedIs(t, full, rest);
  }

  // What follows a value in a container.
  lemma Follows(mid: seq<Byte>)
    requires Opens(AfterWhite(mid), ',') || Opens(AfterWhite(mid), ']') || Opens(AfterWhite(mid), '}')
    ensures Ends(mid)
  {
  }

  lemma EndsIsEnd(rest: seq<Byte>)
    requires Ends(rest)
    ensures EndsNumber(rest)
  {
  }

  lemma ParsedOpens(s: seq<Byte>, nesting: nat)
    requires ParseValue(s, nesting).Some?
    ensures SkipSpaces(s) != [] && SkipSpaces(s)[0] != CLOSE_BRACKET
  {
    hide ParseObject, ParseArray, ParseString, ParseNumber, SkipSpaces, ParseBoolean;
  }

  lemma {:induction false} DerivedIsParsed(s: seq<Byte>, v: Json, rest: seq<Byte>, nesting: nat)
    requires Derives(s, v, rest, nesting) && (IsContainer(v) || Ends(rest))
    ensures ParseValue(s, nesting) == Some((v, rest))
    decreases v, 2, 0
  {
    hide ParseValue, Ends;
    match v
    case Null => LiteralIsParsed(v, s, rest, nesting);
    case Boolean(_) => LiteralIsParsed(v, s, rest, nesting);
    case Number(x) =>
      EndsIsEnd(rest);
      NumberIsParsed(s, x, rest, nesting);
    case String(u) => StringIsParsed(s, u, rest, nesting);
    case Array(items) =>
      var x := AfterWhite(s)[1..];
      if items != [] {
        ItemsAreParsed(x, v, 0, rest, nesting + 1);
      }
      ArrayIsParsed(s, v, rest, nesting);
    case Object(ms) =>
      var x := AfterWhite(s)[1..];
      if ms != [] {
        MembersAreParsed(x, v, 0, rest, nesting + 1);
      }
      ObjectIsParsed(s, v, rest, nesting);
  }

  lemma ArrayIsParsed(s: seq<Byte>, v: Json, rest: seq<Byte>, nesting: nat)
    requires v.Array? && Derives(s, v, rest, nesting)
    requires v.items != [] ==>
      var x := SkipSpaces(AfterWhite(s)[1..]);
      x != [] && x[0] != CLOSE_BRACKET && ParseItems(x, [], nesting + 1) == Some((v, rest))
    ensures ParseValue(s, nesting) == Some((v, rest))
  {
    hide ParseItems, ParseObject, ParseString, ParseNumber, SkipSpaces, DerivesItems;
    WhiteIsSkipped(s);
    WhiteIsSkipped(AfterWhite(s)[1..]);
    if v.items == [] {
      assert ([']' as int] + rest)[1..] == rest;
    }
  }

  lemma ObjectIsParsed(s: seq<Byte>, v: Json, rest: seq<Byte>, nesting: nat)
    requires v.Object? && Derives(s, v, rest, nesting)
    requires v.members != [] ==>
      var x := SkipSpaces(AfterWhite(s)[1..]); ParseMembers(x, [], nesting + 1) == Some((v, rest))
    ensures ParseValue(s, nesting) == Some((v, rest))
  {
    hide ParseMembers, ParseArray, ParseString, ParseNumber, SkipSpaces, DerivesMembers;
    WhiteIsSkipped(s);
    WhiteIsSkipped(AfterWhite(s)[1..]);
    if v.members == [] {
      assert (['}' as int] + rest)[1..] == rest;
    }
  }

  lemma {:induction false} ItemsAreParsed(s: seq<Byte>, v: Json, i: nat, rest: seq<Byte>, nesting: nat)
    requires v.Array? && i < |v.items| <= 122880 && DerivesItems(s, v, i, rest, nesting)
    ensures SkipSpaces(s) != [] && SkipSpaces(s)[0] != CLOSE_BRACKET
    ensures ParseItems(SkipSpaces(s), v.items[..i], nesting) == Some((v, rest))
    decreases v, 1, |v.items| - i
  {
    hide ParseValue, ParseItems, SkipSpaces, Ends, Derives;
    var mid :| Derives(s, v.items[i], mid, nesting)
      && if i == |v.items| - 1 then AfterWhite(mid) == [']' as int] + rest
         else Opens(AfterWhite(mid), ',') && DerivesItems(AfterWhite(mid)[1..], v, i + 1, rest, nesting);
    Follows(mid);
    DerivedIsParsed(s, v.items[i], mid, nesting);
    ParsedOpens(s, nesting);
    SkipNothing(SkipSpaces(s));
    ParseSkips(SkipSpaces(s), s, nesting);
    WhiteIsSkipped(mid);
    if i < |v.items| - 1 {
      ItemsAreParsed(AfterWhite(mid)[1..], v, i + 1, rest, nesting);
    }
    ItemStep(SkipSpaces(s), v, i, mid, rest, nesting);
  }

  lemma ItemStep(s: seq<Byte>, v: Json, i: nat, mid: seq<Byte>, rest: seq<Byte>, nesting: nat)
    requires v.Array? && i < |v.items| <= 122880 && s != [] && ParseValue(s, nesting) == Some((v.items[i], mid))
    requires if i == |v.items| - 1 then SkipSpaces(mid) == [']' as int] + rest
             else Opens(SkipSpaces(mid), ',')
                  && ParseItems(SkipSpaces(SkipSpaces(mid)[1..]), v.items[..i + 1], nesting) == Some((v, rest))
    ensures ParseItems(s, v.items[..i], nesting) == Some((v, rest))
  {
    hide ParseValue, SkipSpaces;
    assert v.items[..i] + [v.items[i]] == v.items[..i + 1];
    if i == |v.items| - 1 {
      assert v.items[..i + 1] == v.items && ([']' as int] + rest)[1..] == rest;
    }
  }

  lemma {:induction false} MembersAreParsed(s: seq<Byte>, v: Json, i: nat, rest: seq<Byte>, nesting: nat)
    requires v.Object? && i < |v.members| <= 960 && Distinct(v.members) && DerivesMembers(s, v, i, rest, nesting)
    ensures ParseMembers(SkipSpaces(s), v.members[..i], nesting) == Some((v, rest))
    decreases v, 1, |v.members| - i
  {
    hide ParseValue, ParseMembers, SkipSpaces, Ends, Derives, IsQuoted;
    var m := v.members[i];
    var c, full, after, mid :| IsNamed(AfterWhite(s), c, full, after, m.name) && Derives(AfterWhite(after)[1..], m.value, mid, nesting)
      && if i == |v.members| - 1 then AfterWhite(mid) == ['}' as int] + rest
         else Opens(AfterWhite(mid), ',') && DerivesMembers(AfterWhite(mid)[1..], v, i + 1, rest, nesting);
    Follows(mid);
    DerivedIsParsed(AfterWhite(after)[1..], m.value, mid, nesting);
    WhiteIsSkipped(s);
    WhiteIsSkipped(after);
    WhiteIsSkipped(mid);
    if i < |v.members| - 1 {
      MembersAreParsed(AfterWhite(mid)[1..], v, i + 1, rest, nesting);
    }
    MemberStep(SkipSpaces(s), v, i, c, full, after, mid, rest, nesting);
  }

  lemma MemberStep(s: seq<Byte>, v: Json, i: nat, c: seq<Byte>, full: seq<Byte>, after: seq<Byte>, mid: seq<Byte>,
                   rest: seq<Byte>, nesting: nat)
    requires v.Object? && i < |v.members| <= 960 && Distinct(v.members)
    requires IsNamed(s, c, full, after, v.members[i].name) && SkipSpaces(after) != []
    requires ParseValue(SkipSpaces(after)[1..], nesting) == Some((v.members[i].value, mid))
    requires if i == |v.members| - 1 then SkipSpaces(mid) == ['}' as int] + rest
             else Opens(SkipSpaces(mid), ',')
                  && ParseMembers(SkipSpaces(SkipSpaces(mid)[1..]), v.members[..i + 1], nesting) == Some((v, rest))
    ensures ParseMembers(s, v.members[..i], nesting) == Some((v, rest))
  {
    hide ParseValue, SkipSpaces, Quoted, Spells, UpToNul;
    QuotedIs(s, full, after);
    WhiteIsSkipped(after);
    FindInPrefix(v.members, i);
    assert v.members[i] == Member(v.members[i].name, v.members[i].value);
    assert v.members[..i] + [v.members[i]] == v.members[..i + 1];
    if i == |v.members| - 1 {
      assert v.members[..i + 1] == v.members && (['}' as int] + rest)[1..] == rest;
    }
  }

  // ---------------------------------------------------------------------------------------
  // What is parsed is derived

  lemma {:induction false} ParsedIsDerived(s: seq<Byte>, v: Json, rest: seq<Byte>, nesting: nat)
    requires ParseValue(s, nesting) == Some((v, rest)) && (IsContainer(v) || Ends(rest))
    ensures Derives(s, v, rest, nesting)
    decreases |s|, 2
  {
    hide ParseMembers, ParseItems, ParseString, ParseNumber, ParseBoolean, SkipSpaces, Derives, DerivesItems, DerivesMembers;
    WhiteIsSkipped(s);
    var t := SkipSpaces(s);
    if t[0] == OPEN_BRACE {
      var x := SkipSpaces(t[1..]);
      if !(x != [] && x[0] == CLOSE_BRACE) {
        SkipTwice(t[1..]);
        ParsedMembersAreDerived(x, [], v, rest, nesting + 1);
      }
      ObjectIsDerived(s, v, rest, nesting);
    } else if t[0] == OPEN_BRACKET {
      var x := SkipSpaces(t[1..]);
      if !(x != [] && x[0] == CLOSE_BRACKET) {
        ParsedItemsAreDerived(x, [], v, rest, nesting + 1);
      }
      ArrayIsDerived(s, v, rest, nesting);
    } else {
      ScalarIsDerived(s, v, rest, nesting);
    }
  }

  lemma ScalarIsDerived(s: seq<Byte>, v: Json, rest: seq<Byte>, nesting: nat)
    requires ParseValue(s, nesting) == Some((v, rest)) && (IsContainer(v) || Ends(rest))
    requires SkipSpaces(s)[0] != OPEN_BRACE && SkipSpaces(s)[0] != OPEN_BRACKET
    ensures Derives(s, v, rest, nesting)
  {
    hide SkipSpaces, ParseNumber, Quoted, Ascii, DecimalText, WellMade, ParseObject, ParseArray;
    WhiteIsSkipped(s);
    Literals();
    var t := SkipSpaces(s);
    if t[0] == QUOTE {
      var full := Quoted(t).value.0;
      QuotedIs(t, full, rest);
      var c :| IsQuoted(t, c, full, rest);
      assert v == String(UpToNul(full));
    } else if t[0] == MINUS || IsDigit(t[0]) {
      var x := ParseNumber(t).value.0;
      var d := ParsedIsDecimal(t, x, rest);
      assert IsNumberAt(t, d, x, rest);
    } else {
      LiteralIsDerived(t, v, rest);
    }
  }

  lemma LiteralIsDerived(t: seq<Byte>, v: Json, rest: seq<Byte>)
    requires ParseBoolean(t) == Some((v, rest)) || (NULL <= t && v == Null && rest == t[4..])
    ensures if v.Null? then t == NULL + rest else v.Boolean? && t == (if v.truth then TRUE else FALSE) + rest
  {
  }

  lemma ArrayIsDerived(s: seq<Byte>, v: Json, rest: seq<Byte>, nesting: nat)
    requires SkipSpaces(s) != [] && SkipSpaces(s)[0] == OPEN_BRACKET && ParseValue(s, nesting) == Some((v, rest))
    requires var x := SkipSpaces(SkipSpaces(s)[1..]);
      x == [] || x[0] != CLOSE_BRACKET ==>
        v.Array? && 0 < |v.items| <= 122880 && DerivesItems(x, v, 0, rest, nesting + 1)
    ensures Derives(s, v, rest, nesting)
  {
    hide SkipSpaces, ParseItems, ParseObject, ParseString, ParseBoolean, ParseNumber;
    var t := SkipSpaces(s);
    WhiteIsSkipped(s);
    WhiteIsSkipped(t[1..]);
    var x := SkipSpaces(t[1..]);
    if x != [] && x[0] == CLOSE_BRACKET {
      assert x == [']' as int] + rest;
    } else {
      ItemsSkip(t[1..], v, 0, rest, nesting + 1);
    }
  }

  // White space in front of the first item or name makes no difference.
  lemma ItemsSkip(s: seq<Byte>, v: Json, i: nat, rest: seq<Byte>, nesting: nat)
    requires v.Array? && i < |v.items| && DerivesItems(AfterWhite(s), v, i, rest, nesting)
    ensures DerivesItems(s, v, i, rest, nesting)
  {
    hide Derives;
    var mid :| Derives(AfterWhite(s), v.items[i], mid, nesting)
      && if i == |v.items| - 1 then AfterWhite(mid) == [']' as int] + rest
         else Opens(AfterWhite(mid), ',') && DerivesItems(AfterWhite(mid)[1..], v, i + 1, rest, nesting);
    DerivesSkips(s, v.items[i], mid, nesting);
  }

  lemma DerivesSkips(s: seq<Byte>, v: Json, rest: seq<Byte>, nesting: nat)
    requires Derives(AfterWhite(s), v, rest, nesting)
    ensures Derives(s, v, rest, nesting)
  {
    WhiteTwice(s);
    hide DerivesItems, DerivesMembers, IsNumberAt, IsQuoted, AfterWhite, Ascii;
  }

  lemma MembersSkip(s: seq<Byte>, v: Json, i: nat, rest: seq<Byte>, nesting: nat)
    requires v.Object? && i < |v.members| && DerivesMembers(AfterWhite(s), v, i, rest, nesting)
    ensures DerivesMembers(s, v, i, rest, nesting)
  {
    hide Derives, IsQuoted;
    WhiteTwice(s);
    hide AfterWhite;
  }

  lemma ObjectIsDerived(s: seq<Byte>, v: Json, rest: seq<Byte>, nesting: nat)
    requires SkipSpaces(s) != [] && SkipSpaces(s)[0] == OPEN_BRACE && ParseValue(s, nesting) == Some((v, rest))
    requires var x := SkipSpaces(SkipSpaces(s)[1..]);
      x == [] || x[0] != CLOSE_BRACE ==>
        v.Object? && 0 < |v.members| <= 960 && Distinct(v.members) && DerivesMembers(x, v, 0, rest, nesting + 1)
    ensures Derives(s, v, rest, nesting)
  {
    hide SkipSpaces, ParseMembers, ParseArray, ParseString, ParseBoolean, ParseNumber;
    var t := SkipSpaces(s);
    WhiteIsSkipped(s);
    WhiteIsSkipped(t[1..]);
    var x := SkipSpaces(t[1..]);
    if x != [] && x[0] == CLOSE_BRACE {
      assert x == ['}' as int] + rest;
    } else {
      MembersSkip(t[1..], v, 0, rest, nesting + 1);
    }
  }

  lemma {:induction false} ParsedItemsAreDerived(s: seq<Byte>, done: seq<Json>, v: Json, rest: seq<Byte>, nesting: nat)
    requires ParseItems(s, done, nesting) == Some((v, rest)) && |done| <= 122880
    ensures v.Array? && |done| < |v.items| <= 122880 && v.items[..|done|] == done
    ensures DerivesItems(s, v, |done|, rest, nesting)
    decreases |s|, 3
  {
    hide SkipSpaces, Derives, ParseValue, Ends, AfterWhite;
    var (value, mid) := ParseValue(s, nesting).value;
    var items := done + [value];
    var next := SkipSpaces(mid);
    WhiteIsSkipped(mid);
    Follows(mid);
    ParsedIsDerived(s, value, mid, nesting);
    if next[0] == COMMA {
      ParsedItemsAreDerived(SkipSpaces(next[1..]), items, v, rest, nesting);
      WhiteIsSkipped(next[1..]);
      ItemsSkip(next[1..], v, |done| + 1, rest, nesting);
      assert v.items[|done|] == v.items[..|done| + 1][|done|] == value;
      assert v.items[..|done|] == v.items[..|done| + 1][..|done|];
    } else {
      assert next == [']' as int] + rest && v == Array(items);
    }
    assert Derives(s, v.items[|done|], mid, nesting);
  }

  lemma {:induction false} ParsedMembersAreDerived(s: seq<Byte>, done: seq<Member>, v: Json, rest: seq<Byte>, nesting: nat)
    requires ParseMembers(s, done, nesting) == Some((v, rest)) && |done| <= 960 && Distinct(done) && SkipSpaces(s) == s
    ensures v.Object? && |done| < |v.members| <= 960 && Distinct(v.members) && v.members[..|done|] == done
    ensures DerivesMembers(s, v, |done|, rest, nesting)
    decreases |s|, 1
  {
    hide SkipSpaces, Derives, ParseValue, Ends, AfterWhite, Quoted, IsQuoted, UpToNul, Find;
    var (full, after) := Quoted(s).value;
    var colon := SkipSpaces(after);
    var (value, mid) := ParseValue(colon[1..], nesting).value;
    var m := Member(UpToNul(full), value);
    var ms := done + [m];
    var next := SkipSpaces(mid);
    QuotedIs(s, full, after);
    var c :| IsQuoted(s, c, full, after);
    WhiteIsSkipped(s);
    WhiteIsSkipped(after);
    WhiteIsSkipped(mid);
    Follows(mid);
    ParsedIsDerived(colon[1..], value, mid, nesting);
    StillDistinct(done, m);
    if next[0] == COMMA {
      SkipTwice(next[1..]);
      ParsedMembersAreDerived(SkipSpaces(next[1..]), ms, v, rest, nesting);
      WhiteIsSkipped(next[1..]);
      MembersSkip(next[1..], v, |done| + 1, rest, nesting);
      assert v.members[|done|] == v.members[..|done| + 1][|done|] == m;
      assert v.members[..|done|] == v.members[..|done| + 1][..|done|];
    } else {
      assert next == ['}' as int] + rest && v == Object(ms);
    }
    assert IsNamed(AfterWhite(s), c, full, after, v.members[|done|].name);
    assert Derives(AfterWhite(after)[1..], v.members[|done|].value, mid, nesting);
  }

  lemma SkipTwice(s: seq<Byte>)
    ensures SkipSpaces(SkipSpaces(s)) == SkipSpaces(s)
  {
    WhiteTwice(s);
    WhiteIsSkipped(s);
    WhiteIsSkipped(SkipSpaces(s));
  }

  lemma StillDistinct(done: seq<Member>, m: Member)
    requires Distinct(done) && Find(done, m.name) == |done|
    ensures Distinct(done + [m])
  {
  }

  // The parser takes exactly the texts of the grammar, for the trees that they are derived from.
  lemma ParsedExactly(s: seq<Byte>, v: Json)
    ensures Parse(s) == Some(v) <==> IsContainer(v) && exists rest :: Derives(s, v, rest, 0)
  {
    hide ParseValue, Derives, SkipSpaces;
    WhiteIsSkipped(s);
    if IsContainer(v) && exists rest :: Derives(s, v, rest, 0) {
      var rest :| Derives(s, v, rest, 0);
      DerivedIsParsed(s, v, rest, 0);
      DerivedOpens(s, v, rest, 0);
      SkipTwice(s);
      ParseSkips(SkipSpaces(s), s, 0);
    }
    if Parse(s) == Some(v) {
      var rest := ParseValue(SkipSpaces(s), 0).value.1;
      SkipTwice(s);
      ParseSkips(SkipSpaces(s), s, 0);
      ContainerOpens(s, v, rest);
      ParsedIsDerived(s, v, rest, 0);
    }
  }

  lemma DerivedOpens(s: seq<Byte>, v: Json, rest: seq<Byte>, nesting: nat)
    requires IsContainer(v) && Derives(s, v, rest, nesting)
    ensures Opens(AfterWhite(s), '{') || Opens(AfterWhite(s), '[')
  {
  }

  lemma ContainerOpens(s: seq<Byte>, v: Json, rest: seq<Byte>)
    requires ParseValue(s, 0) == Some((v, rest))
    requires SkipSpaces(s)[0] == OPEN_BRACE || SkipSpaces(s)[0] == OPEN_BRACKET
    ensures IsContainer(v)
  {
    hide SkipSpaces, ParseMembers, ParseItems;
    var x := SkipSpaces(SkipSpaces(s)[1..]);
    MembersMakeObject(x, [], 1);
    ItemsMakeArray(x, [], 1);
  }

  lemma {:induction false} MembersMakeObject(s: seq<Byte>, done: seq<Member>, nesting: nat)
    ensures ParseMembers(s, done, nesting).Some? ==> ParseMembers(s, done, nesting).value.0.Object?
    decreases |s|
  {
    hide SkipSpaces, Quoted, ParseValue, Find, UpToNul;
    if ParseMembers(s, done, nesting).Some? {
      var (full, after) := Quoted(s).value;
      var (value, mid) := ParseValue(SkipSpaces(after)[1..], nesting).value;
      var next := SkipSpaces(mid);
      if next[0] == COMMA {
        MembersMakeObject(SkipSpaces(next[1..]), done + [Member(UpToNul(full), value)], nesting);
      }
    }
  }

  lemma {:induction false} ItemsMakeArray(s: seq<Byte>, done: seq<Json>, nesting: nat)
    ensures ParseItems(s, done, nesting).Some? ==> ParseItems(s, done, nesting).value.0.Array?
    decreases |s|
  {
    hide SkipSpaces, ParseValue;
    if ParseItems(s, done, nesting).Some? {
      var (value, mid) := ParseValue(s, nesting).value;
      var next := SkipSpaces(mid);
      if next[0] == COMMA {
        ItemsMakeArray(SkipSpaces(next[1..]), done + [value], nesting);
      }
    }
  }

  // ---------------------------------------------------------------------------------------
  // What is written

  // A serialization is in the grammar, for the tree that is read from it.
  lemma TextIsDerived(v: Json, level: nat, pretty: bool, rest: seq<Byte>)
    requires IsContainer(v) && WellFormed(v) && Readable(v, 0)
    ensures Derives(Text(v, level, pretty) + rest, AsRead(v), rest, 0)
  {
    hide Text, Readable, AsRead, ParseValue, Derives;
    ParseText(v, level, pretty, 0, rest);
    AsReadIsContainer(v);
    ParsedIsDerived(Text(v, level, pretty) + rest, AsRead(v), rest, 0);
  }

  lemma AsReadIsContainer(v: Json)
    requires IsContainer(v)
    ensures IsContainer(AsRead(v))
  {
  }

  // The writer, in literal characters: the text of a value in front of the rest.
  function Written(v: Json, level: nat, pretty: bool, rest: seq<Byte>): seq<Byte>
    decreases v, 1, 0
  {
    match v
    case Null => Ascii("null") + rest
    case Boolean(b) => Ascii(if b then "true" else "false") + rest
    case Number(x) => NumberText(x) + rest
    case String(s) => WrittenString(s, rest)
    case Array(items) => ['[' as int] + if items == [] then [']' as int] + rest else Line(pretty) + WrittenFrom(v, 0, level, pretty, rest)
    case Object(ms) => ['{' as int] + if ms == [] then ['}' as int] + rest else Line(pretty) + WrittenFrom(v, 0, level, pretty, rest)
  }

  // The entries from position i on and the closing bracket.
  function WrittenFrom(v: Json, i: nat, level: nat, pretty: bool, rest: seq<Byte>): seq<Byte>
    requires IsContainer(v) && i <= Count(v)
    decreases v, 0, Count(v) - i
  {
    if i == Count(v) then Margin(level, pretty) + ([if v.Object? then '}' as int else ']' as int] + rest)
    else
      var next := WrittenFrom(v, i + 1, level, pretty, rest);
      var value := Written(Child(v, i), level + 1, pretty, (if i + 1 < Count(v) then [',' as int] else []) + (Line(pretty) + next));
      Margin(level + 1, pretty)
      + if v.Object? then WrittenString(v.members[i].name, [':' as int] + ((if pretty then [' ' as int] else []) + value)) else value
  }

  function Line(pretty: bool): seq<Byte> {
    if pretty then ['\n' as int] else []
  }

  // Four spaces a level.
  function Margin(level: nat, pretty: bool): seq<Byte> {
    if !pretty || level == 0 then [] else Ascii("    ") + Margin(level - 1, pretty)
  }

  function WrittenString(s: CString, rest: seq<Byte>): seq<Byte> {
    ['"' as int] + (Escaped(s) + (['"' as int] + rest))
  }

  function Escaped(s: CString): seq<Byte> {
    if s == [] then [] else EscapedByte(s[0]) + Escaped(s[1..])
  }

  // The short escapes of section 7, the slash among them; all other bytes stand as they are.
  function EscapedByte(b: Byte): seq<Byte> {
    if b == '"' as int then Ascii("\\\"") else if b == '\\' as int then Ascii("\\\\") else if b == '/' as int then Ascii("\\/")
    else if b == 0x08 then Ascii("\\b") else if b == 0x0c then Ascii("\\f") else if b == 0x0a then Ascii("\\n")
    else if b == 0x0d then Ascii("\\r") else if b == 0x09 then Ascii("\\t") else [b]
  }

  lemma EscapedByteIs(b: Byte)
    ensures EscapedByte(b) == EscapeByte(b)
  {
  }

  lemma {:induction false} EscapedIs(s: CString)
    ensures Escaped(s) == Escape(s)
  {
    hide EscapedByte, EscapeByte;
    if s != [] {
      EscapedByteIs(s[0]);
      EscapedIs(s[1..]);
    }
  }

  lemma {:induction false} MarginIs(level: nat, pretty: bool)
    ensures Margin(level, pretty) == Indent(level, pretty)
  {
    if pretty && level > 0 {
      MarginIs(level - 1, pretty);
      assert Spaces(4 * level) == Spaces(4) + Spaces(4 * (level - 1));
      assert Ascii("    ") == Spaces(4);
    }
  }

  lemma StringIsWritten(s: CString, rest: seq<Byte>)
    ensures StringText(s) + rest == WrittenString(s, rest)
  {
    hide Escape, Escaped;
    EscapedIs(s);
    Assoc([QUOTE] + Escape(s), [QUOTE], rest);
    Assoc([QUOTE], Escape(s), [QUOTE] + rest);
  }

  // What is written is what this writer writes.
  lemma {:induction false} TextIsWritten(v: Json, level: nat, pretty: bool, rest: seq<Byte>)
    ensures Text(v, level, pretty) + rest == Written(v, level, pretty, rest)
    decreases v, 1, 0
  {
    hide Entries, WrittenFrom, StringText, WrittenString, NumberText;
    match v
    case Null => Literals();
    case Boolean(_) => Literals();
    case Number(_) =>
    case String(s) => StringIsWritten(s, rest);
    case _ =>
      if Count(v) > 0 {
        EntriesAreWritten(v, 0, level, pretty, rest);
      }
      ContainerIsWritten(v, level, pretty, rest);
  }

  lemma ContainerIsWritten(v: Json, level: nat, pretty: bool, rest: seq<Byte>)
    requires IsContainer(v)
    requires Count(v) > 0 ==> WrittenFrom(v, 0, level, pretty, rest) == Entries(v, 0, level, pretty) + Tail(v, level, pretty, rest)
    ensures Text(v, level, pretty) + rest == Written(v, level, pretty, rest)
  {
    hide Entries, WrittenFrom, Indent;
    var e, i, close := Entries(v, 0, level, pretty), Indent(level, pretty), [Closing(v)];
    Assoc([Opening(v)] + Inside(v, level, pretty), close, rest);
    Assoc([Opening(v)], Inside(v, level, pretty), close + rest);
    if Count(v) > 0 {
      Assoc(Newline(pretty) + e, i, close + rest);
      Assoc(Newline(pretty), e, i + (close + rest));
      Assoc(i, close, rest);
    } else {
      assert Inside(v, level, pretty) + (close + rest) == close + rest;
    }
  }

  lemma {:induction false} EntriesAreWritten(v: Json, i: nat, level: nat, pretty: bool, rest: seq<Byte>)
    requires IsContainer(v) && i <= Count(v)
    ensures WrittenFrom(v, i, level, pretty, rest) == Entries(v, i, level, pretty) + Tail(v, level, pretty, rest)
    decreases v, 0, Count(v) - i
  {
    hide *;
    if i == Count(v) {
      NoneAreWritten(v, level, pretty, rest);
    } else {
      EntriesAreWritten(v, i + 1, level, pretty, rest);
      TextIsWritten(Child(v, i), level + 1, pretty,
                    Separator(v, i) + (Line(pretty) + WrittenFrom(v, i + 1, level, pretty, rest)));
      EntryIsWritten(v, i, level, pretty, rest);
    }
  }

  function Separator(v: Json, i: nat): seq<Byte>
    requires IsContainer(v)
  {
    if i + 1 < Count(v) then [',' as int] else []
  }

  lemma NoneAreWritten(v: Json, level: nat, pretty: bool, rest: seq<Byte>)
    requires IsContainer(v)
    ensures WrittenFrom(v, Count(v), level, pretty, rest) == Entries(v, Count(v), level, pretty) + Tail(v, level, pretty, rest)
  {
    hide Margin, Indent;
    MarginIs(level, pretty);
    Assoc(Indent(level, pretty), [Closing(v)], rest);
    assert [] + Tail(v, level, pretty, rest) == Tail(v, level, pretty, rest);
  }

  lemma EntryIsWritten(v: Json, i: nat, level: nat, pretty: bool, rest: seq<Byte>)
    requires IsContainer(v) && i < Count(v)
    requires var next := WrittenFrom(v, i + 1, level, pretty, rest);
      next == Entries(v, i + 1, level, pretty) + Tail(v, level, pretty, rest)
      && Text(Child(v, i), level + 1, pretty) + (Separator(v, i) + (Line(pretty) + next))
         == Written(Child(v, i), level + 1, pretty, Separator(v, i) + (Line(pretty) + next))
    ensures WrittenFrom(v, i, level, pretty, rest) == Entries(v, i, level, pretty) + Tail(v, level, pretty, rest)
  {
    hide Margin, Indent, Text, Written, Label, Tail, WrittenString;
    MarginIs(level + 1, pretty);
    var more, tail := Entries(v, i + 1, level, pretty), Tail(v, level, pretty, rest);
    var text, comma := Text(Child(v, i), level + 1, pretty), Separator(v, i);
    var heading, margin := Label(v, i, pretty), Indent(level + 1, pretty);
    assert Line(pretty) == Newline(pretty);
    assert Entries(v, i, level, pretty) == margin + heading + text + comma + Newline(pretty) + more;
    Regroup(margin, heading, text, comma, Newline(pretty), more, tail);
    HeadingIsWritten(v, i, pretty, text + (comma + (Newline(pretty) + (more + tail))));
  }

  lemma HeadingIsWritten(v: Json, i: nat, pretty: bool, x: seq<Byte>)
    requires IsContainer(v) && i < Count(v)
    ensures Label(v, i, pretty) + x
      == if v.Object? then WrittenString(v.members[i].name, [':' as int] + ((if pretty then [' ' as int] else []) + x)) else x
  {
    hide StringText, WrittenString;
    if v.Object? {
      var name := v.members[i].name;
      var space: seq<Byte> := if pretty then [SPACE] else [];
      Assoc(StringText(name) + [COLON], space, x);
      Assoc(StringText(name), [COLON], space + x);
      StringIsWritten(name, [COLON] + (space + x));
    } else {
      assert [] + x == x;
    }
  }

  // ---------------------------------------------------------------------------------------
  // A document with several members, literals, a nested array and an escape

  function Sample(): Json {
    Object([Member(Ascii("a"), Inner()), Member(Ascii("b\n"), Boolean(false))])
  }

  function Inner(): Json {
    Array([Number(1.0), Innermost()])
  }

  function Innermost(): Json {
    Array([Boolean(true)])
  }

  lemma OneIsWritten(level: nat, rest: seq<Byte>)
    ensures Written(Number(1.0), level, false, rest) == Ascii("1") + rest
  {
    assert 1.0.Floor == 1;
  }

  // Without line breaks and spaces.
  lemma CompactItem(v: Json, i: nat, level: nat, rest: seq<Byte>)
    requires v.Array? && i < Count(v)
    ensures WrittenFrom(v, i, level, false, rest)
      == Written(v.items[i], level + 1, false, Separator(v, i) + WrittenFrom(v, i + 1, level, false, rest))
  {
    hide Written;
    var next := WrittenFrom(v, i + 1, level, false, rest);
    assert [] + next == next;
    assert Child(v, i) == v.items[i];
    var x := Written(v.items[i], level + 1, false, Separator(v, i) + next);
    assert [] + x == x;
  }

  lemma CompactMember(v: Json, i: nat, level: nat, rest: seq<Byte>)
    requires v.Object? && i < Count(v)
    ensures WrittenFrom(v, i, level, false, rest)
      == WrittenString(v.members[i].name,
                       [':' as int] + Written(v.members[i].value, level + 1, false, Separator(v, i) + WrittenFrom(v, i + 1, level, false, rest)))
  {
    hide Written, WrittenString;
    var next := WrittenFrom(v, i + 1, level, false, rest);
    assert [] + next == next;
    assert Child(v, i) == v.members[i].value;
    var x := Written(v.members[i].value, level + 1, false, Separator(v, i) + next);
    assert [] + x == x;
    var y := WrittenString(v.members[i].name, [':' as int] + x);
    assert [] + y == y;
  }

  lemma CompactEnd(v: Json, level: nat, rest: seq<Byte>)
    requires IsContainer(v)
    ensures WrittenFrom(v, Count(v), level, false, rest) == [if v.Object? then '}' as int else ']' as int] + rest
  {
  }

  lemma CompactOpens(v: Json, level: nat, rest: seq<Byte>)
    requires IsContainer(v) && Count(v) > 0
    ensures Written(v, level, false, rest) == [if v.Object? then '{' as int else '[' as int] + WrittenFrom(v, 0, level, false, rest)
  {
    hide WrittenFrom;
    var x := WrittenFrom(v, 0, level, false, rest);
    assert [] + x == x;
  }

  lemma InnermostIsWritten(level: nat, rest: seq<Byte>)
    ensures Written(Innermost(), level, false, rest) == Ascii("[true]") + rest
  {
    hide WrittenFrom, Ascii;
    var v := Innermost();
    CompactOpens(v, level, rest);
    CompactItem(v, 0, level, rest);
    CompactEnd(v, level, rest);
    InnermostText(rest);
  }

  lemma InnermostText(rest: seq<Byte>)
    ensures ['[' as int] + (Ascii("true") + ([] + ([']' as int] + rest))) == Ascii("[true]") + rest
  {
  }

  lemma InnerIsWritten(level: nat, rest: seq<Byte>)
    ensures Written(Inner(), level, false, rest) == Ascii("[1,[true]]") + rest
  {
    hide Written, WrittenFrom, Ascii;
    var v := Inner();
    CompactOpens(v, level, rest);
    CompactItem(v, 0, level, rest);
    CompactItem(v, 1, level, rest);
    CompactEnd(v, level, rest);
    OneIsWritten(level + 1, Separator(v, 0) + WrittenFrom(v, 1, level, false, rest));
    InnermostIsWritten(level + 1, Separator(v, 1) + WrittenFrom(v, 2, level, false, rest));
    InnerText(rest);
  }

  lemma InnerText(rest: seq<Byte>)
    ensures ['[' as int] + (Ascii("1") + ([',' as int] + (Ascii("[true]") + ([] + ([']' as int] + rest)))))
      == Ascii("[1,[true]]") + rest
  {
  }

  lemma NameA(rest: seq<Byte>)
    ensures WrittenString(Ascii("a"), rest) == Ascii("\"a\"") + rest
  {
    var s := Ascii("a");
    assert s[1..] == [] && Escaped(s) == EscapedByte(s[0]) + Escaped(s[1..]);
    assert Escaped(s) == ['a' as int];
    assert Ascii("\"a\"") == ['"' as int] + ['a' as int] + ['"' as int];
    hide Escaped;
  }

  lemma NameB(rest: seq<Byte>)
    ensures WrittenString(Ascii("b\n"), rest) == Ascii("\"b\\n\"") + rest
  {
    var s := Ascii("b\n");
    assert s[1..][1..] == [] && Escaped(s[1..]) == EscapedByte(s[1]) + Escaped(s[1..][1..]);
    assert Escaped(s[1..]) == Ascii("\\n");
    assert Escaped(s) == ['b' as int] + Ascii("\\n");
    assert Ascii("\"b\\n\"") == ['"' as int] + (['b' as int] + Ascii("\\n")) + ['"' as int];
    hide Escaped;
  }

  // The compact text of the document, and what is parsed of it.
  lemma SampleText()
    ensures Text(Sample(), 0, false) == Ascii("{\"a\":[1,[true]],") + Ascii("\"b\\n\":false}")
  {
    hide Written, WrittenFrom, Ascii, WrittenString, Text;
    var v := Sample();
    TextIsWritten(v, 0, false, []);
    assert Text(v, 0, false) + [] == Text(v, 0, false);
    CompactOpens(v, 0, []);
    CompactMember(v, 0, 0, []);
    CompactMember(v, 1, 0, []);
    CompactEnd(v, 0, []);
    var last := WrittenFrom(v, 2, 0, false, []);
    FalseIsWritten(1, Separator(v, 1) + last);
    NameB([':' as int] + Written(Boolean(false), 1, false, Separator(v, 1) + last));
    InnerIsWritten(1, Separator(v, 0) + WrittenFrom(v, 1, 0, false, []));
    NameA([':' as int] + Written(Inner(), 1, false, Separator(v, 0) + WrittenFrom(v, 1, 0, false, [])));
    SamplePieces();
  }

  lemma FalseIsWritten(level: nat, rest: seq<Byte>)
    ensures Written(Boolean(false), level, false, rest) == Ascii("false") + rest
  {
  }

  lemma SamplePieces()
    ensures ['{' as int] + (Ascii("\"a\"") + ([':' as int] + (Ascii("[1,[true]]") + ([',' as int]
            + (Ascii("\"b\\n\"") + ([':' as int] + (Ascii("false") + ([] + (['}' as int] + [])))))))))
      == Ascii("{\"a\":[1,[true]],") + Ascii("\"b\\n\":false}")
  {
    hide Ascii;
    FrontPiece();
    LastPiece();
    var rest := Ascii("\"b\\n\":false}");
    Assoc(['{' as int], Ascii("\"a\"") + ([':' as int] + (Ascii("[1,[true]]") + [',' as int])), rest);
  }

  lemma FrontPiece()
    ensures Ascii("{\"a\":[1,[true]],")
      == ['{' as int] + (Ascii("\"a\"") + ([':' as int] + (Ascii("[1,[true]]") + [',' as int])))
  {
  }

  lemma LastPiece()
    ensures Ascii("\"b\\n\":false}") == Ascii("\"b\\n\"") + ([':' as int] + (Ascii("false") + ['}' as int]))
  {
  }

  lemma SampleIsParsed()
    ensures Parse(Ascii("{\"a\":[1,[true]],") + Ascii("\"b\\n\":false}")) == Some(Sample())
  {
    hide Text, Parse, Ascii, Readable, Depth, CleanStrings, ExactNumbers;
    var v := Sample();
    SampleText();
    SampleIsReadable();
    ReadableIs(v, 0);
    SampleIsExact();
    RoundTripIsExact(v, false, []);
    assert Text(v, 0, false) + [] == Text(v, 0, false);
  }

  lemma SampleIsReadable()
    ensures WellFormed(Sample()) && Readable(Sample(), 0)
  {
    var v, x, y := Sample(), Inner(), Innermost();
    assert Child(v, 0) == x && Child(v, 1) == Boolean(false) && Child(x, 0) == Number(1.0) && Child(x, 1) == y;
    assert Child(y, 0) == Boolean(true);
    assert Ascii("a")[0] != Ascii("b\n")[0];
    assert Readable(y, 2) by {
      assert ReadableFrom(y, 1, 2) && ReadableFrom(y, 0, 2);
    }
    assert Readable(x, 1) by {
      assert ReadableFrom(x, 2, 1) && ReadableFrom(x, 1, 1) && ReadableFrom(x, 0, 1);
    }
    assert ReadableFrom(v, 2, 0) && ReadableFrom(v, 1, 0) && ReadableFrom(v, 0, 0);
  }

  lemma SampleIsExact()
    ensures ExactNumbers(Sample())
  {
    var v, x, y := Sample(), Inner(), Innermost();
    assert Child(v, 0) == x && Child(v, 1) == Boolean(false) && Child(x, 0) == Number(1.0) && Child(x, 1) == y;
    assert Child(y, 0) == Boolean(true);
    assert 1.0.Floor == 1;
    assert ExactNumbers(y) && ExactNumbers(x);
  }
}
