// parson.c as a caller sees it: a value is serialized into a C string, and the string is parsed.
module JsonLibrary {
  import opened Wrappers
  import opened CStrings
  import opened JsonTree
  import opened JsonStrings
  import opened JsonNumbers
  import opened JsonText
  import opened JsonRoundTrip
  import opened JsonComments
  import opened Doubles
  import opened JsonDoubles
  import JsonSerializer

  // ---------------------------------------------------------------------------------------
  // The text of a value has no NUL inside

  lemma {:induction false} EscapeHasNoNul(s: CString)
    ensures 0 !in Escape(s)
  {
    if s != [] {
      assert s[0] in s;
      EscapeHasNoNul(s[1..]);
    }
  }

  lemma NumberHasNoNul(x: real)
    ensures 0 !in NumberText(x)
  {
    if IsInt32(x) {
      IntTextIs(x.Floor);
      DigitsAreDigits(if x < 0.0 then -x.Floor else x.Floor);
    } else {
      FixedIs(x);
      DigitsAreDigits(Millionths(x) / 1000000);
      SixDigits(Millionths(x));
    }
    hide DigitsOf, Padded, IntText, Fixed;
  }

  lemma {:induction false} TextHasNoNul(v: Json, level: nat, pretty: bool)
    ensures 0 !in Text(v, level, pretty)
    decreases v, 1, 0
  {
    hide Escape, NumberText, Entries;
    match v
    case String(s) => EscapeHasNoNul(s);
    case Number(x) => NumberHasNoNul(x);
    case Boolean(b) =>
    case Null =>
    case _ => EntriesHaveNoNul(v, 0, level, pretty);
  }

  lemma {:induction false} EntriesHaveNoNul(v: Json, i: nat, level: nat, pretty: bool)
    requires IsContainer(v) && i <= Count(v)
    ensures 0 !in Entries(v, i, level, pretty)
    decreases v, 0, Count(v) - i
  {
    hide Text, Label, Indent, Newline, Entries;
    if i == Count(v) {
      JsonSerializer.NoEntries(v, level, pretty);
    } else {
      TextHasNoNul(Child(v, i), level + 1, pretty);
      EntriesHaveNoNul(v, i + 1, level, pretty);
      LabelHasNoNul(v, i, pretty);
      EntryHasNoNul(v, i, level, pretty);
    }
  }

  lemma LabelHasNoNul(v: Json, i: nat, pretty: bool)
    requires IsContainer(v) && i < Count(v)
    ensures 0 !in Label(v, i, pretty)
  {
    if v.Object? {
      EscapeHasNoNul(v.members[i].name);
    }
    hide Escape;
  }

  lemma EntryHasNoNul(v: Json, i: nat, level: nat, pretty: bool)
    requires IsContainer(v) && i < Count(v)
    requires 0 !in Text(Child(v, i), level + 1, pretty) && 0 !in Entries(v, i + 1, level, pretty) && 0 !in Label(v, i, pretty)
    ensures 0 !in Entries(v, i, level, pretty)
  {
    assert 0 !in Indent(level + 1, pretty) && 0 !in Newline(pretty);
    hide Text, Label, Indent, Newline;
    NoneInSix(Indent(level + 1, pretty), Label(v, i, pretty), Text(Child(v, i), level + 1, pretty),
              if i < Count(v) - 1 then [COMMA] else [], Newline(pretty), Entries(v, i + 1, level, pretty));
  }

  lemma NoneInSix(a: seq<Byte>, b: seq<Byte>, c: seq<Byte>, d: seq<Byte>, e: seq<Byte>, f: seq<Byte>)
    requires 0 !in a && 0 !in b && 0 !in c && 0 !in d && 0 !in e && 0 !in f
    ensures 0 !in a + b + c + d + e + f
  {
  }

  // ---------------------------------------------------------------------------------------
  // There and back

  // The string in a buffer, up to its NUL.
  method StringIn(buf: array<Byte>) returns (s: CString)
    requires exists i :: 0 <= i < buf.Length && buf[i] == 0
    ensures |s| < buf.Length && s == buf[..|s|] && buf[|s|] == 0
  {
    var n := 0;
    while buf[n] != 0
      invariant n < buf.Length && 0 !in buf[..n]
      invariant exists i :: n <= i < buf.Length && buf[i] == 0
      decreases buf.Length - n
    {
      n := n + 1;
    }
    s := buf[..n];
  }

  lemma FirstNul(s: seq<Byte>, t: seq<Byte>, b: seq<Byte>)
    requires b == t + [0] && 0 !in t && 0 !in s && |s| < |b| && s == b[..|s|] && b[|s|] == 0
    ensures s == t
  {
    assert forall i :: 0 <= i < |t| ==> b[i] in t;
    assert |s| >= |t|;
  }

  // The string that json_serialize_to_string leaves is the whole text.
  method SerializedString(v: Json, pretty: bool) returns (s: CString)
    requires WellFormed(v)
    ensures s == Text(v, 0, pretty)
  {
    hide Text;
    ghost var t := Text(v, 0, pretty);
    TextHasNoNul(v, 0, pretty);
    var buf := JsonSerializer.SerializeToString(v, pretty);
    assert buf[..][|t|] == 0;
    s := StringIn(buf);
    FirstNul(s, t, buf[..]);
  }

  // json_serialize_to_string, then json_parse_string, whose numbers strtod rounds.
  method SerializeThenParse(v: Json, pretty: bool, strtod: real -> real) returns (r: Option<Json>)
    requires IsContainer(v) && WellFormed(v)
    ensures r == if Depth(v) <= MAX_NESTING && CleanStrings(v) then Some(ReadBack(v, strtod)) else None
    ensures AllNumbers(v, IsDouble) && RoundsAll(strtod) ==>
      (r == Some(v) <==> Depth(v) <= MAX_NESTING && CleanStrings(v) && AllNumbers(v, Readings(strtod)))
  {
    hide Text, Parse, Depth, CleanStrings, AsRead, WithNumbers, AllNumbers, RoundsAll, IsDouble;
    var s := SerializedString(v, pretty);
    var exact := JsonParser.JsonParseString(s);
    assert Text(v, 0, pretty) + [] == Text(v, 0, pretty);
    ParseUndoesSerialize(v, pretty, []);
    r := if exact.Some? then Some(WithNumbers(exact.value, strtod)) else None;
    if AllNumbers(v, IsDouble) && RoundsAll(strtod) {
      ComesBack(v, strtod);
    }
  }

  // json_serialize_to_string, then json_parse_string_with_comments.
  method SerializeThenParseWithComments(v: Json, pretty: bool, strtod: real -> real) returns (r: Option<Json>)
    requires IsContainer(v) && WellFormed(v)
    ensures r == if Depth(v) <= MAX_NESTING && CleanStrings(v) then Some(ReadBack(v, strtod)) else None
  {
    hide Text, Parse, Depth, CleanStrings, AsRead, WithNumbers, WithoutComments;
    var s := SerializedString(v, pretty);
    var exact := JsonParseStringWithComments(s);
    ParseWithCommentsUndoesSerialize(v, pretty);
    r := if exact.Some? then Some(WithNumbers(exact.value, strtod)) else None;
  }

  // A tree that has been there and back comes back unchanged from then on, in any layout.
  method ThereAndBackAgain(v: Json, pretty: bool, layout: bool, strtod: real -> real) returns (r: Option<Json>, again: Option<Json>)
    requires IsContainer(v) && WellFormed(v) && AllNumbers(v, IsDouble) && RoundsAll(strtod)
    ensures r == if Depth(v) <= MAX_NESTING && CleanStrings(v) then Some(ReadBack(v, strtod)) else None
    ensures again == r
  {
    hide Depth, CleanStrings, AllNumbers, RoundsAll, IsDouble, WellFormed;
    r := SerializeThenParse(v, pretty, strtod);
    again := r;
    if r.Some? {
      ReadBackAlike(v, strtod);
      ReadBackKeepsShape(v, strtod);
      ReadBackHasSixDecimals(v, strtod);
      again := SerializeThenParse(r.value, layout, strtod);
    }
  }
}
