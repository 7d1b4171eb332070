// parson.c: the text of a value, what a text stands for, and that each undoes the other.
module JsonText {
  import opened Wrappers
  import opened CStrings
  import opened JsonTree
  import opened JsonStrings
  import opened JsonNumbers

  const COMMA: Byte := 44
  const COLON: Byte := 58
  const OPEN_BRACKET: Byte := 91
  const CLOSE_BRACKET: Byte := 93
  const OPEN_BRACE: Byte := 123
  const CLOSE_BRACE: Byte := 125
  const NEWLINE: Byte := 10
  const SPACE: Byte := 32

  const TRUE: seq<Byte> := [116, 114, 117, 101]
  const FALSE: seq<Byte> := [102, 97, 108, 115, 101]
  const NULL: seq<Byte> := [110, 117, 108, 108]

  // ---------------------------------------------------------------------------------------
  // Writing

  function Spaces(n: nat): (s: seq<Byte>)
    ensures |s| == n
  {
    seq(n, i => SPACE)
  }

  function Indent(level: nat, pretty: bool): seq<Byte> {
    if pretty then Spaces(4 * level) else []
  }

  function Newline(pretty: bool): seq<Byte> {
    if pretty then [NEWLINE] else []
  }

  function StringText(s: CString): seq<Byte> {
    [QUOTE] + Escape(s) + [QUOTE]
  }

  function Opening(v: Json): Byte
    requires IsContainer(v)
  {
    if v.Object? then OPEN_BRACE else OPEN_BRACKET
  }

  function Closing(v: Json): Byte
    requires IsContainer(v)
  {
    if v.Object? then CLOSE_BRACE else CLOSE_BRACKET
  }

  // The name in front of a member's value.
  function Label(v: Json, i: nat, pretty: bool): seq<Byte>
    requires IsContainer(v) && i < Count(v)
  {
    if v.Array? then []
    else StringText(v.members[i].name) + [COLON] + if pretty then [SPACE] else []
  }

  function Text(v: Json, level: nat, pretty: bool): (t: seq<Byte>)
    ensures |t| > 0
    decreases v, 1, 0
  {
    match v
    case Object(_) => [OPEN_BRACE] + Inside(v, level, pretty) + [CLOSE_BRACE]
    case Array(_) => [OPEN_BRACKET] + Inside(v, level, pretty) + [CLOSE_BRACKET]
    case String(s) => StringText(s)
    case Number(x) => NumberText(x)
    case Boolean(b) => if b then TRUE else FALSE
    case Null => NULL
  }

  function Inside(v: Json, level: nat, pretty: bool): seq<Byte>
    requires IsContainer(v)
    decreases v, 0, Count(v) + 1
  {
    if Count(v) == 0 then [] else Newline(pretty) + Entries(v, 0, level, pretty) + Indent(level, pretty)
  }

  // The entries from position i on.
  function Entries(v: Json, i: nat, level: nat, pretty: bool): seq<Byte>
    requires IsContainer(v) && i <= Count(v)
    decreases v, 0, Count(v) - i
  {
    if i == Count(v) then []
    else
      Indent(level + 1, pretty) + Label(v, i, pretty) + Text(Child(v, i), level + 1, pretty)
      + (if i < Count(v) - 1 then [COMMA] else []) + Newline(pretty) + Entries(v, i + 1, level, pretty)
  }

  lemma Assoc(a: seq<Byte>, b: seq<Byte>, c: seq<Byte>)
    ensures (a + b) + c == a + (b + c)
  {
  }

  // ---------------------------------------------------------------------------------------
  // Reading

  predicate IsSpace(b: Byte) {
    b == SPACE || 9 <= b <= 13
  }

  function SkipSpaces(s: seq<Byte>): (t: seq<Byte>)
    ensures |t| <= |s| && (t != [] ==> !IsSpace(t[0]))
  {
    if s != [] && IsSpace(s[0]) then SkipSpaces(s[1..]) else s
  }

  // The text up to the terminator: a \u0000 ends the string.
  function UpToNul(s: seq<Byte>): CString {
    if s == [] || s[0] == 0 then [] else [s[0]] + UpToNul(s[1..])
  }

  type Parsed = Option<(Json, seq<Byte>)>

  // The value at the start of the text and what follows it.
  function ParseValue(s: seq<Byte>, nesting: nat): (r: Parsed)
    ensures r.Some? ==> |r.value.1| <= |s|
    decreases |s|, 1
  {
    var t := SkipSpaces(s);
    if nesting > MAX_NESTING || t == [] then None
    else if t[0] == OPEN_BRACE then ParseObject(t[1..], nesting + 1)
    else if t[0] == OPEN_BRACKET then ParseArray(t[1..], nesting + 1)
    else if t[0] == QUOTE then ParseString(t)
    else if t[0] == FALSE[0] || t[0] == TRUE[0] then ParseBoolean(t)
    else if t[0] == MINUS || IsDigit(t[0]) then
      match ParseNumber(t)
      case None => None
      case Some((x, rest)) => Some((Number(x), rest))
    else if NULL <= t then Some((Null, t[4..]))
    else None
  }

  function ParseString(s: seq<Byte>): (r: Parsed)
    requires s != []
    ensures r.Some? ==> |r.value.1| < |s|
  {
    match Quoted(s)
    case None => None
    case Some((t, rest)) => Some((String(UpToNul(t)), rest))
  }

  function ParseBoolean(s: seq<Byte>): (r: Parsed)
    ensures r.Some? ==> |r.value.1| <= |s|
  {
    if TRUE <= s then Some((Boolean(true), s[4..]))
    else if FALSE <= s then Some((Boolean(false), s[5..]))
    else None
  }

  // Behind an opening brace.
  function ParseObject(s: seq<Byte>, nesting: nat): (r: Parsed)
    ensures r.Some? ==> |r.value.1| <= |s|
    decreases |s|, 3
  {
    var t := SkipSpaces(s);
    if t != [] && t[0] == CLOSE_BRACE then Some((Object([]), t[1..]))
    else ParseMembers(t, [], nesting)
  }

  // Another member, behind those that have been read.
  function ParseMembers(s: seq<Byte>, done: seq<Member>, nesting: nat): (r: Parsed)
    ensures r.Some? ==> |r.value.1| <= |s|
    decreases |s|, 2
  {
    if s == [] || Quoted(s).None? then None
    else
      var (key, afterKey) := Quoted(s).value;
      var colon := SkipSpaces(afterKey);
      if colon == [] || colon[0] != COLON then None
      else
        match ParseValue(colon[1..], nesting)
        case None => None
        case Some((value, afterValue)) =>
          var name := UpToNul(key);
          if |done| >= OBJECT_MAX_CAPACITY || Find(done, name) < |done| then None
          else
            var ms := done + [Member(name, value)];
            var next := SkipSpaces(afterValue);
            if next == [] then None
            else if next[0] == COMMA then ParseMembers(SkipSpaces(next[1..]), ms, nesting)
            else if next[0] == CLOSE_BRACE then Some((Object(ms), next[1..]))
            else None
  }

  // Behind an opening bracket.
  function ParseArray(s: seq<Byte>, nesting: nat): (r: Parsed)
    ensures r.Some? ==> |r.value.1| <= |s|
    decreases |s|, 3
  {
    var t := SkipSpaces(s);
    if t != [] && t[0] == CLOSE_BRACKET then Some((Array([]), t[1..]))
    else ParseItems(t, [], nesting)
  }

  function ParseItems(s: seq<Byte>, done: seq<Json>, nesting: nat): (r: Parsed)
    ensures r.Some? ==> |r.value.1| <= |s|
    decreases |s|, 2
  {
    if s == [] then None
    else
      match ParseValue(s, nesting)
      case None => None
      case Some((value, afterValue)) =>
        if |done| >= ARRAY_MAX_CAPACITY then None
        else
          var items := done + [value];
          var next := SkipSpaces(afterValue);
          if next == [] then None
          else if next[0] == COMMA then ParseItems(SkipSpaces(next[1..]), items, nesting)
          else if next[0] == CLOSE_BRACKET then Some((Array(items), next[1..]))
          else None
  }

  // json_parse_string: an object or an array; what follows it is not looked at.
  function Parse(s: seq<Byte>): Option<Json> {
    var t := SkipSpaces(s);
    if t == [] || !(t[0] == OPEN_BRACE || t[0] == OPEN_BRACKET) then None
    else match ParseValue(t, 0)
      case None => None
      case Some((v, _)) => Some(v)
  }

  // ---------------------------------------------------------------------------------------
  // Writing and reading back

  // What is read back of a tree: the tree itself, but for the numbers that need more than six
  // decimals.
  function AsRead(v: Json): Json {
    match v
    case Object(ms) => Object(seq(|ms|, i requires 0 <= i < |ms| => Member(ms[i].name, AsRead(ms[i].value))))
    case Array(items) => Array(seq(|items|, i requires 0 <= i < |items| => AsRead(items[i])))
    case Number(x) => Number(NumberAsRead(x))
    case _ => v
  }

  function NumberAsRead(x: real): real {
    if IsInt32(x) then x else Nearest(x)
  }

  // Every number of the tree is a 32-bit integer or has at most six decimals.
  predicate ExactNumbers(v: Json) {
    (v.Number? ==> NumberAsRead(v.value) == v.value)
    && (IsContainer(v) ==> forall i :: 0 <= i < Count(v) ==> ExactNumbers(Child(v, i)))
  }

  // Containers of the same kind, with as many entries of the same names.
  predicate Alike(v: Json, w: Json) {
    IsContainer(v) && IsContainer(w) && Count(v) == Count(w) && (v.Object? <==> w.Object?)
    && (v.Object? ==> forall i :: 0 <= i < Count(v) ==> v.members[i].name == w.members[i].name)
  }

  lemma AsReadAlike(v: Json)
    requires IsContainer(v)
    ensures Alike(v, AsRead(v))
    ensures forall i :: 0 <= i < Count(v) ==> Child(AsRead(v), i) == AsRead(Child(v, i))
  {
  }

  lemma {:induction false} AsReadWellFormed(v: Json)
    requires WellFormed(v)
    ensures WellFormed(AsRead(v))
  {
    if IsContainer(v) {
      AsReadAlike(v);
      forall i | 0 <= i < Count(v)
        ensures WellFormed(Child(AsRead(v), i))
      {
        AsReadWellFormed(Child(v, i));
      }
    }
  }

  lemma {:induction false} AsReadIsSame(v: Json)
    ensures AsRead(v) == v <==> ExactNumbers(v)
  {
    if IsContainer(v) {
      AsReadAlike(v);
      forall i | 0 <= i < Count(v)
        ensures Child(AsRead(v), i) == Child(v, i) <==> ExactNumbers(Child(v, i))
      {
        AsReadIsSame(Child(v, i));
      }
      SameChildren(v, AsRead(v));
    }
  }

  lemma SameChildren(v: Json, w: Json)
    requires Alike(v, w)
    ensures v == w <==> forall i :: 0 <= i < Count(v) ==> Child(v, i) == Child(w, i)
  {
    if forall i :: 0 <= i < Count(v) ==> Child(v, i) == Child(w, i) {
      if v.Object? {
        forall i | 0 <= i < |v.members|
          ensures v.members[i] == w.members[i]
        {
          assert Child(v, i) == Child(w, i);
        }
        assert v.members == w.members;
      } else {
        assert forall i :: 0 <= i < |v.items| ==> Child(v, i) == v.items[i] && Child(w, i) == w.items[i];
        assert v.items == w.items;
      }
    }
  }

  // The levels of values below the root.
  function Depth(v: Json): nat {
    if IsContainer(v) then DepthFrom(v, 0) else 0
  }

  function DepthFrom(v: Json, i: nat): nat
    requires IsContainer(v) && i <= Count(v)
    decreases v, Count(v) - i
  {
    if i == Count(v) then 0
    else
      var d, e := 1 + Depth(Child(v, i)), DepthFrom(v, i + 1);
      if d < e then e else d
  }

  predicate CleanLabel(v: Json, i: nat)
    requires IsContainer(v) && i < Count(v)
  {
    v.Object? ==> Clean(v.members[i].name)
  }

  // No string or name of the tree holds a control byte without a short escape.
  predicate CleanStrings(v: Json) {
    (v.String? ==> Clean(v.text))
    && (IsContainer(v) ==> forall i :: 0 <= i < Count(v) ==> CleanLabel(v, i) && CleanStrings(Child(v, i)))
  }

  // What the parser takes at a given nesting.
  predicate Readable(v: Json, nesting: nat)
    decreases v, 1, 0
  {
    nesting <= MAX_NESTING && (v.String? ==> Clean(v.text)) && (IsContainer(v) ==> ReadableFrom(v, 0, nesting))
  }

  predicate ReadableFrom(v: Json, i: nat, nesting: nat)
    requires IsContainer(v) && i <= Count(v)
    decreases v, 0, Count(v) - i
  {
    i == Count(v) || (CleanLabel(v, i) && Readable(Child(v, i), nesting + 1) && ReadableFrom(v, i + 1, nesting))
  }

  lemma {:induction false} ReadableIs(v: Json, nesting: nat)
    ensures Readable(v, nesting) <==> Depth(v) + nesting <= MAX_NESTING && CleanStrings(v)
    decreases v, 1, 0
  {
    if IsContainer(v) {
      ReadableFromIs(v, 0, nesting);
    }
  }

  lemma {:induction false} ReadableFromIs(v: Json, i: nat, nesting: nat)
    requires IsContainer(v) && i <= Count(v)
    ensures nesting <= MAX_NESTING ==> (ReadableFrom(v, i, nesting) <==>
      DepthFrom(v, i) + nesting <= MAX_NESTING && forall j :: i <= j < Count(v) ==> CleanLabel(v, j) && CleanStrings(Child(v, j)))
    decreases v, 0, Count(v) - i
  {
    if i < Count(v) {
      ReadableIs(Child(v, i), nesting + 1);
      ReadableFromIs(v, i + 1, nesting);
    }
  }
}
