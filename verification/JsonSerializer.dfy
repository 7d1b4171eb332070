// parson.c: the serializer, which measures the text without a buffer and writes it into one.
module JsonSerializer {
  import opened CStrings
  import opened JsonTree
  import opened JsonStrings
  import opened JsonNumbers
  import opened JsonText

  // ---------------------------------------------------------------------------------------
  // What a write leaves behind

  // The text stands at a position of the buffer. Nothing else has changed, except perhaps the
  // byte behind the text.
  ghost predicate Placed(now: seq<Byte>, before: seq<Byte>, at: nat, t: seq<Byte>) {
    && |now| == |before| && at + |t| < |now|
    && now[at..at + |t|] == t
    && now[..at] == before[..at] && now[at + |t| + 1..] == before[at + |t| + 1..]
  }

  // The buffer, if there is one, holds the text, and a terminator behind it.
  ghost predicate Written(buf: array?<Byte>, before: seq<Byte>, at: nat, t: seq<Byte>)
    reads buf
  {
    buf != null ==> Placed(buf[..], before, at, t)
  }

  ghost predicate Ended(buf: array?<Byte>, at: nat)
    reads buf
  {
    buf != null ==> at < buf.Length && buf[at] == 0
  }

  ghost function Image(buf: array?<Byte>): seq<Byte>
    reads buf
  {
    if buf == null then [] else buf[..]
  }

  ghost predicate Room(buf: array?<Byte>, at: nat, n: nat) {
    buf != null ==> at + n < buf.Length
  }

  lemma PlacedThen(b0: seq<Byte>, b1: seq<Byte>, b2: seq<Byte>, at: nat, s: seq<Byte>, t: seq<Byte>)
    requires Placed(b1, b0, at, s) && Placed(b2, b1, at + |s|, t)
    ensures Placed(b2, b0, at, s + t)
  {
    assert b2[at..at + |s|] == b2[..at + |s|][at..] == b1[..at + |s|][at..] == s;
    assert b2[at..at + |s + t|] == b2[at..at + |s|] + b2[at + |s|..at + |s| + |t|];
    assert b2[..at] == b2[..at + |s|][..at] == b1[..at + |s|][..at] == b1[..at];
    var k := |t|;
    assert b1[at + |s| + |t| + 1..] == b1[at + |s| + 1..][|t|..];
    assert b0[at + |s| + |t| + 1..] == b0[at + |s| + 1..][|t|..];
  }

  lemma WrittenThen(buf: array?<Byte>, b0: seq<Byte>, b1: seq<Byte>, at: nat, s: seq<Byte>, t: seq<Byte>)
    requires buf != null ==> Placed(b1, b0, at, s)
    requires Written(buf, b1, at + |s|, t)
    ensures Written(buf, b0, at, s + t)
  {
    hide Placed;
    if buf != null {
      PlacedThen(b0, b1, buf[..], at, s, t);
    }
  }

  // ---------------------------------------------------------------------------------------
  // Pieces of text

  // append_string
  method AppendString(buf: array?<Byte>, at: nat, t: seq<Byte>) returns (written: nat)
    requires Room(buf, at, |t|)
    modifies buf
    ensures written == |t|
    ensures Written(buf, old(Image(buf)), at, t) && Ended(buf, at + |t|)
  {
    if buf != null {
      for k := 0 to |t|
        invariant forall j :: 0 <= j < k ==> buf[at + j] == t[j]
        invariant forall j :: 0 <= j < buf.Length && !(at <= j < at + k) ==> buf[j] == old(buf[j])
      {
        buf[at + k] := t[k];
      }
      buf[at + |t|] := 0;
      ghost var before := old(buf[..]);
      assert forall j :: 0 <= j < at ==> buf[..][j] == before[j];
      assert buf[at + |t| + 1..] == before[at + |t| + 1..];
    }
    written := |t|;
  }

  // append_indent
  method AppendIndent(buf: array?<Byte>, at: nat, level: nat) returns (written: nat)
    requires Room(buf, at, 4 * level)
    modifies buf
    ensures written == 4 * level
    ensures Written(buf, old(Image(buf)), at, Spaces(4 * level))
    ensures buf != null && level > 0 ==> buf[at + 4 * level] == 0
  {
    written := 0;
    ghost var b0 := Image(buf);
    for i := 0 to level
      invariant written == 4 * i && Written(buf, b0, at, Spaces(4 * i)) && (i > 0 ==> Ended(buf, at + written))
    {
      ghost var b1 := Image(buf);
      var n := AppendString(buf, at + written, Spaces(4));
      WrittenThen(buf, b0, b1, at, Spaces(4 * i), Spaces(4));
      assert Spaces(4 * i) + Spaces(4) == Spaces(4 * (i + 1));
      written := written + n;
    }
  }

  lemma {:induction false} EscapeSplit(s: seq<Byte>, i: nat)
    requires i <= |s|
    ensures Escape(s) == Escape(s[..i]) + Escape(s[i..])
  {
    hide EscapeByte;
    if i == 0 {
      assert s[..0] == [] && s[0..] == s;
    } else {
      EscapeSplit(s[1..], i - 1);
      assert s[1..][..i - 1] == s[..i][1..] && s[1..][i - 1..] == s[i..];
      assert s[..i][0] == s[0];
      Assoc(EscapeByte(s[0]), Escape(s[..i][1..]), Escape(s[i..]));
    }
  }

  lemma EscapeNext(s: seq<Byte>, i: nat)
    requires i < |s|
    ensures Escape(s[..i + 1]) == Escape(s[..i]) + EscapeByte(s[i])
    ensures |Escape(s[..i + 1])| <= |Escape(s)|
  {
    EscapeSplit(s[..i + 1], i);
    EscapeSplit(s, i + 1);
    assert s[..i + 1][..i] == s[..i] && s[..i + 1][i..] == [s[i]];
    assert [s[i]][1..] == [];
  }

  // json_serialize_string
  method SerializeString(s: CString, buf: array?<Byte>, at: nat) returns (written: nat)
    requires Room(buf, at, |StringText(s)|)
    modifies buf
    ensures written == |StringText(s)|
    ensures Written(buf, old(Image(buf)), at, StringText(s)) && Ended(buf, at + written)
  {
    hide Escape, Placed;
    ghost var b0 := Image(buf);
    written := AppendString(buf, at, [QUOTE]);
    EscapeNothing(s);
    assert [QUOTE] + Escape(s[..0]) == [QUOTE];
    for i := 0 to |s|
      invariant written == 1 + |Escape(s[..i])| && |Escape(s[..i])| <= |Escape(s)|
      invariant Written(buf, b0, at, [QUOTE] + Escape(s[..i]))
    {
      written := SerializeNext(s, i, buf, at, written, b0);
    }
    assert s[..|s|] == s;
    ghost var b1 := Image(buf);
    var n := AppendString(buf, at + written, [QUOTE]);
    WrittenThen(buf, b0, b1, at, [QUOTE] + Escape(s), [QUOTE]);
    written := written + n;
  }

  // One pass of its loop.
  method SerializeNext(s: CString, i: nat, buf: array?<Byte>, at: nat, written: nat, ghost b0: seq<Byte>)
    returns (total: nat)
    requires i < |s| && Room(buf, at, |StringText(s)|)
    requires written == 1 + |Escape(s[..i])| && Written(buf, b0, at, [QUOTE] + Escape(s[..i]))
    modifies buf
    ensures total == 1 + |Escape(s[..i + 1])| && |Escape(s[..i + 1])| <= |Escape(s)|
    ensures Written(buf, b0, at, [QUOTE] + Escape(s[..i + 1]))
  {
    EscapeNext(s, i);
    hide Escape, Placed, EscapeByte;
    ghost var b1, e := Image(buf), Escape(s[..i]);
    var n := SerializeChar(s[i], buf, at + written);
    WrittenThen(buf, b0, b1, at, [QUOTE] + e, EscapeByte(s[i]));
    Assoc([QUOTE], e, EscapeByte(s[i]));
    total := written + n;
  }

  lemma EscapeNothing(s: seq<Byte>)
    ensures Escape(s[..0]) == []
  {
  }

  // One character of a string, escaped where it has an escape.
  method SerializeChar(c: Byte, buf: array?<Byte>, at: nat) returns (written: nat)
    requires Room(buf, at, |EscapeByte(c)|)
    modifies buf
    ensures written == |EscapeByte(c)|
    ensures Written(buf, old(Image(buf)), at, EscapeByte(c))
  {
    if c == QUOTE {
      written := AppendString(buf, at, [BACKSLASH, QUOTE]);
    } else if c == BACKSLASH {
      written := AppendString(buf, at, [BACKSLASH, BACKSLASH]);
    } else if c == 47 {
      written := AppendString(buf, at, [BACKSLASH, 47]);
    } else if c == 8 {
      written := AppendString(buf, at, [BACKSLASH, 98]);
    } else if c == 12 {
      written := AppendString(buf, at, [BACKSLASH, 102]);
    } else if c == 10 {
      written := AppendString(buf, at, [BACKSLASH, 110]);
    } else if c == 13 {
      written := AppendString(buf, at, [BACKSLASH, 114]);
    } else if c == 9 {
      written := AppendString(buf, at, [BACKSLASH, 116]);
    } else {
      if buf != null {
        buf[at] := c;
      }
      written := 1;
    }
  }

  // ---------------------------------------------------------------------------------------
  // Values

  // One entry of a container with the punctuation around it.
  function Entry(v: Json, i: nat, level: nat, pretty: bool): seq<Byte>
    requires IsContainer(v) && i < Count(v)
  {
    Indent(level + 1, pretty) + Label(v, i, pretty) + Text(Child(v, i), level + 1, pretty)
    + (if i < Count(v) - 1 then [COMMA] else []) + Newline(pretty)
  }

  // json_serialize_to_buffer_r. Without a buffer nothing is written and the size is the same.
  method Serialize(v: Json, buf: array?<Byte>, at: nat, level: nat, pretty: bool) returns (written: nat)
    requires WellFormed(v) && Room(buf, at, |Text(v, level, pretty)|)
    modifies buf
    ensures written == |Text(v, level, pretty)|
    ensures Written(buf, old(Image(buf)), at, Text(v, level, pretty)) && Ended(buf, at + written)
    decreases v, 3
  {
    match v
    case Array(_) =>
      written := SerializeContainer(v, buf, at, level, pretty);
    case Object(_) =>
      written := SerializeContainer(v, buf, at, level, pretty);
    case String(s) =>
      written := SerializeString(s, buf, at);
    case Boolean(b) =>
      written := AppendString(buf, at, if b then TRUE else FALSE);
    case Number(x) =>
      written := AppendString(buf, at, NumberText(x));
    case Null =>
      written := AppendString(buf, at, NULL);
  }

  // The text written so far and the text still to come make up the whole.
  ghost predicate Progress(v: Json, i: nat, level: nat, pretty: bool, done: seq<Byte>)
    requires IsContainer(v) && i <= Count(v)
  {
    done + Entries(v, i, level, pretty) + (if Count(v) > 0 then Indent(level, pretty) else []) + [Closing(v)]
    == Text(v, level, pretty)
  }

  method SerializeContainer(v: Json, buf: array?<Byte>, at: nat, level: nat, pretty: bool) returns (written: nat)
    requires IsContainer(v) && WellFormed(v) && Room(buf, at, |Text(v, level, pretty)|)
    modifies buf
    ensures written == |Text(v, level, pretty)|
    ensures Written(buf, old(Image(buf)), at, Text(v, level, pretty)) && Ended(buf, at + written)
    decreases v, 2
  {
    hide Text, Placed, Entries;
    ghost var b0 := Image(buf);
    ProgressStart(v, level, pretty);
    written := SerializeOpening(v, buf, at, pretty);
    ghost var done;
    done, written := SerializeEntries(v, buf, at, written, level, pretty, b0, Start(v, pretty));
    ProgressEnd(v, level, pretty, done);
    ghost var b1 := Image(buf);
    var n := SerializeClosing(v, buf, at + written, level, pretty);
    WrittenThen(buf, b0, b1, at, done, Indent(level, Count(v) > 0 && pretty) + [Closing(v)]);
    Assoc(done, Indent(level, Count(v) > 0 && pretty), [Closing(v)]);
    written := written + n;
  }

  // The bracket, and the line break behind it.
  function Start(v: Json, pretty: bool): seq<Byte>
    requires IsContainer(v)
  {
    [Opening(v)] + if Count(v) > 0 && pretty then [NEWLINE] else []
  }

  method SerializeOpening(v: Json, buf: array?<Byte>, at: nat, pretty: bool) returns (written: nat)
    requires IsContainer(v) && Room(buf, at, |Start(v, pretty)|)
    modifies buf
    ensures written == |Start(v, pretty)| && Written(buf, old(Image(buf)), at, Start(v, pretty))
  {
    hide Placed;
    ghost var b0 := Image(buf);
    written := AppendString(buf, at, [Opening(v)]);
    ghost var b1 := Image(buf);
    var n := AppendWhen(Count(v) > 0 && pretty, buf, at + written, [NEWLINE]);
    WrittenThen(buf, b0, b1, at, [Opening(v)], if Count(v) > 0 && pretty then [NEWLINE] else []);
    written := written + n;
  }

  method SerializeClosing(v: Json, buf: array?<Byte>, at: nat, level: nat, pretty: bool) returns (written: nat)
    requires IsContainer(v) && Room(buf, at, |Indent(level, Count(v) > 0 && pretty)| + 1)
    modifies buf
    ensures var t := Indent(level, Count(v) > 0 && pretty) + [Closing(v)];
      written == |t| && Written(buf, old(Image(buf)), at, t) && Ended(buf, at + written)
  {
    hide Placed;
    ghost var b0, t := Image(buf), Indent(level, Count(v) > 0 && pretty);
    written := AppendIndentWhen(Count(v) > 0 && pretty, buf, at, level);
    ghost var b1 := Image(buf);
    var n := AppendString(buf, at + written, [Closing(v)]);
    WrittenThen(buf, b0, b1, at, t, [Closing(v)]);
    written := written + n;
  }

  method SerializeEntries(v: Json, buf: array?<Byte>, at: nat, start: nat, level: nat, pretty: bool,
                          ghost b0: seq<Byte>, ghost opening: seq<Byte>) returns (ghost done: seq<Byte>, written: nat)
    requires IsContainer(v) && WellFormed(v) && Room(buf, at, |Text(v, level, pretty)|)
    requires start == |opening| && Progress(v, 0, level, pretty, opening) && Written(buf, b0, at, opening)
    modifies buf
    ensures written == |done| && Progress(v, Count(v), level, pretty, done) && Written(buf, b0, at, done)
    decreases v, 1
  {
    hide Text, Placed, Entries, Entry, WellFormed;
    written, done := start, opening;
    for i := 0 to Count(v)
      invariant written == |done| && Progress(v, i, level, pretty, done) && Written(buf, b0, at, done)
    {
      ProgressNext(v, i, level, pretty, done);
      ghost var b1 := Image(buf);
      var n := SerializeEntry(v, i, buf, at + written, level, pretty);
      WrittenThen(buf, b0, b1, at, done, Entry(v, i, level, pretty));
      written := written + n;
      done := done + Entry(v, i, level, pretty);
    }
  }

  lemma ProgressStart(v: Json, level: nat, pretty: bool)
    requires IsContainer(v)
    ensures Progress(v, 0, level, pretty, Start(v, pretty)) && |Text(v, level, pretty)| > |Start(v, pretty)|
  {
    var e, i, n := Entries(v, 0, level, pretty), Indent(level, pretty), Newline(pretty);
    assert Text(v, level, pretty) == [Opening(v)] + Inside(v, level, pretty) + [Closing(v)];
    hide Text, Entries, Indent;
    if Count(v) > 0 {
      assert Inside(v, level, pretty) == n + e + i;
      Assoc([Opening(v)], n + e, i);
      Assoc([Opening(v)], n, e);
    } else {
      assert e == [] by {
        NoEntries(v, level, pretty);
      }
    }
  }

  lemma NoEntries(v: Json, level: nat, pretty: bool)
    requires IsContainer(v)
    ensures Entries(v, Count(v), level, pretty) == []
  {
  }

  lemma ProgressNext(v: Json, i: nat, level: nat, pretty: bool, done: seq<Byte>)
    requires IsContainer(v) && i < Count(v) && Progress(v, i, level, pretty, done)
    ensures Progress(v, i + 1, level, pretty, done + Entry(v, i, level, pretty))
    ensures |done| + |Entry(v, i, level, pretty)| < |Text(v, level, pretty)|
  {
    hide Text, Label, Newline, Indent;
    var e, more := Entry(v, i, level, pretty), Entries(v, i + 1, level, pretty);
    assert Entries(v, i, level, pretty) == e + more;
    hide Entries, Entry;
    assert done + (e + more) == done + e + more;
  }

  lemma ProgressEnd(v: Json, level: nat, pretty: bool, done: seq<Byte>)
    requires IsContainer(v) && Progress(v, Count(v), level, pretty, done)
    ensures Text(v, level, pretty) == done + Indent(level, Count(v) > 0 && pretty) + [Closing(v)]
  {
    hide Text;
    assert done + Entries(v, Count(v), level, pretty) == done;
  }

  // One pass of the loop over the entries. A member's value is looked up by its name.
  method SerializeEntry(v: Json, i: nat, buf: array?<Byte>, at: nat, level: nat, pretty: bool) returns (written: nat)
    requires IsContainer(v) && WellFormed(v) && i < Count(v) && Room(buf, at, |Entry(v, i, level, pretty)|)
    modifies buf
    ensures written == |Entry(v, i, level, pretty)|
    ensures Written(buf, old(Image(buf)), at, Entry(v, i, level, pretty))
    decreases v, 0
  {
    hide Text, Placed, WellFormed, Label, Indent, Newline;
    ghost var b0 := Image(buf);
    ghost var head, text := Indent(level + 1, pretty) + Label(v, i, pretty), Text(Child(v, i), level + 1, pretty);
    ghost var comma: seq<Byte>, newline := if i < Count(v) - 1 then [COMMA] else [], Newline(pretty);
    Assoc(head + text, comma, newline);
    written := SerializeHead(v, i, buf, at, level, pretty);
    var child := if v.Object? then v.members[Find(v.members, v.members[i].name)].value else v.items[i];
    ChildIs(v, i);
    ghost var b1 := Image(buf);
    var n := Serialize(child, buf, at + written, level + 1, pretty);
    WrittenThen(buf, b0, b1, at, head, text);
    written := written + n;
    b1 := Image(buf);
    n := SerializeBreak(i < Count(v) - 1, buf, at + written, pretty);
    WrittenThen(buf, b0, b1, at, head + text, comma + newline);
    written := written + n;
  }

  // The indentation and the name of an entry.
  method SerializeHead(v: Json, i: nat, buf: array?<Byte>, at: nat, level: nat, pretty: bool) returns (written: nat)
    requires IsContainer(v) && i < Count(v) && Room(buf, at, |Indent(level + 1, pretty) + Label(v, i, pretty)|)
    modifies buf
    ensures var t := Indent(level + 1, pretty) + Label(v, i, pretty);
      written == |t| && Written(buf, old(Image(buf)), at, t)
  {
    hide Placed, Label, Indent;
    IndentSize(level + 1, pretty);
    ghost var b0, indent, name := Image(buf), Indent(level + 1, pretty), Label(v, i, pretty);
    assert |indent + name| == |indent| + |name|;
    written := AppendIndentWhen(pretty, buf, at, level + 1);
    assert written == |indent|;
    ghost var b1 := Image(buf);
    var n := SerializeLabel(v, i, buf, at + written, pretty);
    WrittenThen(buf, b0, b1, at, indent, name);
    written := written + n;
  }

  lemma IndentSize(level: nat, pretty: bool)
    ensures |Indent(level, pretty)| == if pretty then 4 * level else 0
  {
  }

  // The comma between entries and the line break.
  method SerializeBreak(more: bool, buf: array?<Byte>, at: nat, pretty: bool) returns (written: nat)
    requires Room(buf, at, |(if more then [COMMA] else []) + Newline(pretty)|)
    modifies buf
    ensures var t := (if more then [COMMA] else []) + Newline(pretty);
      written == |t| && Written(buf, old(Image(buf)), at, t)
  {
    hide Placed;
    ghost var b0 := Image(buf);
    written := AppendWhen(more, buf, at, [COMMA]);
    ghost var b1 := Image(buf);
    var n := AppendWhen(pretty, buf, at + written, [NEWLINE]);
    WrittenThen(buf, b0, b1, at, if more then [COMMA] else [], Newline(pretty));
    written := written + n;
  }

  lemma ChildIs(v: Json, i: nat)
    requires IsContainer(v) && WellFormed(v) && i < Count(v)
    ensures WellFormed(Child(v, i))
    ensures v.Object? ==> Find(v.members, v.members[i].name) == i
  {
    if v.Object? {
      FindDistinct(v.members, i);
    }
  }

  method AppendWhen(condition: bool, buf: array?<Byte>, at: nat, t: seq<Byte>) returns (written: nat)
    requires Room(buf, at, if condition then |t| else 0)
    modifies buf
    ensures written == if condition then |t| else 0
    ensures Written(buf, old(Image(buf)), at, if condition then t else [])
  {
    if condition {
      written := AppendString(buf, at, t);
    } else {
      written := 0;
      NothingWritten(buf, at);
    }
  }

  method AppendIndentWhen(condition: bool, buf: array?<Byte>, at: nat, level: nat) returns (written: nat)
    requires Room(buf, at, if condition then 4 * level else 0)
    modifies buf
    ensures written == if condition then 4 * level else 0
    ensures Written(buf, old(Image(buf)), at, Indent(level, condition))
  {
    if condition {
      written := AppendIndent(buf, at, level);
    } else {
      written := 0;
      NothingWritten(buf, at);
    }
  }

  lemma NothingWritten(buf: array?<Byte>, at: nat)
    requires Room(buf, at, 0)
    ensures Written(buf, Image(buf), at, [])
  {
  }

  // The name of a member with its colon.
  method SerializeLabel(v: Json, i: nat, buf: array?<Byte>, at: nat, pretty: bool) returns (written: nat)
    requires IsContainer(v) && i < Count(v) && Room(buf, at, |Label(v, i, pretty)|)
    modifies buf
    ensures written == |Label(v, i, pretty)|
    ensures Written(buf, old(Image(buf)), at, Label(v, i, pretty))
  {
    hide Placed, StringText;
    ghost var b0 := Image(buf);
    written := 0;
    if v.Array? {
      NothingWritten(buf, at);
    } else {
      ghost var name := StringText(v.members[i].name);
      written := SerializeString(v.members[i].name, buf, at);
      ghost var b1 := Image(buf);
      var n := AppendString(buf, at + written, [COLON]);
      WrittenThen(buf, b0, b1, at, name, [COLON]);
      written := written + n;
      b1 := Image(buf);
      n := AppendWhen(pretty, buf, at + written, [SPACE]);
      WrittenThen(buf, b0, b1, at, name + [COLON], if pretty then [SPACE] else []);
      written := written + n;
    }
  }

  // ---------------------------------------------------------------------------------------
  // The calls of the library

  // json_serialization_size and json_serialization_size_pretty
  method SerializationSize(v: Json, pretty: bool) returns (size: nat)
    requires WellFormed(v)
    ensures size == |Text(v, 0, pretty)| + 1
  {
    var n := Serialize(v, null, 0, 0, pretty);
    size := n + 1;
  }

  // json_serialize_to_buffer and json_serialize_to_buffer_pretty: the text and its terminator take
  // exactly the measured size, and nothing behind them is touched.
  method SerializeToBuffer(v: Json, buf: array<Byte>, size: nat, pretty: bool) returns (success: bool)
    requires WellFormed(v) && size <= buf.Length
    modifies buf
    ensures success == (size >= |Text(v, 0, pretty)| + 1)
    ensures !success ==> buf[..] == old(buf[..])
    ensures success ==> buf[..] == Text(v, 0, pretty) + [0] + old(buf[|Text(v, 0, pretty)| + 1..])
  {
    hide Text;
    var needed := SerializationSize(v, pretty);
    if size < needed {
      return false;
    }
    var n := Serialize(v, buf, 0, 0, pretty);
    assert buf[..] == buf[0..n] + [buf[n]] + buf[n + 1..];
    return true;
  }

  // json_serialize_to_string and json_serialize_to_string_pretty
  method SerializeToString(v: Json, pretty: bool) returns (buf: array<Byte>)
    requires WellFormed(v)
    ensures buf[..] == Text(v, 0, pretty) + [0]
  {
    hide Text;
    var size := SerializationSize(v, pretty);
    buf := new Byte[size](_ => 0);
    var success := SerializeToBuffer(v, buf, size, pretty);
  }
}
