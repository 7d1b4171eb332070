// parson.c: the parser takes the tokens of a value with any white space between them, and with
// comments too if it is asked to.
module JsonLayout {
  import opened Wrappers
  import opened CStrings
  import opened JsonTree
  import opened JsonStrings
  import opened JsonNumbers
  import opened JsonText
  import opened JsonRoundTrip
  import opened JsonComments

  // What stands in the gaps between tokens, in order; nothing in those behind the last.
  type Layout = seq<seq<Byte>>

  function At(gap: Layout, k: nat): seq<Byte> {
    if k < |gap| then gap[k] else []
  }

  // ---------------------------------------------------------------------------------------
  // Spread out text

  // How many gaps there are inside a value.
  function Gaps(v: Json): nat
    decreases v, 1, 0
  {
    if IsContainer(v) then 1 + GapsFrom(v, 0) else 0
  }

  function GapsFrom(v: Json, i: nat): nat
    requires IsContainer(v) && i <= Count(v)
    decreases v, 0, Count(v) - i
  {
    if i == Count(v) then 0 else Behind(v, i, 0) + (if i + 1 < Count(v) then 2 else 1) + GapsFrom(v, i + 1)
  }

  // The number of the gap in front of the value of an entry with label gaps from k on, and of the
  // one behind it.
  function Before(v: Json, k: nat): nat {
    if v.Object? then k + 2 else k
  }

  function Behind(v: Json, i: nat, k: nat): nat
    requires IsContainer(v) && i < Count(v)
    decreases v, 0, 0
  {
    Before(v, k) + Gaps(Child(v, i))
  }

  // The tokens of a value in front of the rest, with the gaps from number k on.
  function Spread(v: Json, k: nat, gap: Layout, rest: seq<Byte>): (t: seq<Byte>)
    decreases v, 1, 0
  {
    if IsContainer(v) then [Opening(v)] + (At(gap, k) + SpreadFrom(v, 0, k + 1, gap, rest)) else Text(v, 0, false) + rest
  }

  // The entries from position i on and the closing bracket.
  function SpreadFrom(v: Json, i: nat, k: nat, gap: Layout, rest: seq<Byte>): (t: seq<Byte>)
    requires IsContainer(v) && i <= Count(v)
    decreases v, 0, Count(v) - i, 1
  {
    if i == Count(v) then [Closing(v)] + rest
    else
      SpreadLabel(v, i, k, gap, Spread(Child(v, i), Before(v, k), gap, SpreadAfter(v, i, Behind(v, i, k), gap, rest)))
  }

  // What stands behind the value of an entry.
  function SpreadAfter(v: Json, i: nat, k: nat, gap: Layout, rest: seq<Byte>): seq<Byte>
    requires IsContainer(v) && i < Count(v)
    decreases v, 0, Count(v) - i, 0
  {
    At(gap, k) + if i + 1 < Count(v) then [COMMA] + (At(gap, k + 1) + SpreadFrom(v, i + 1, k + 2, gap, rest))
             else SpreadFrom(v, i + 1, k + 1, gap, rest)
  }

  function SpreadLabel(v: Json, i: nat, k: nat, gap: Layout, x: seq<Byte>): seq<Byte>
    requires IsContainer(v) && i < Count(v)
  {
    if v.Array? then x else StringText(v.members[i].name) + (At(gap, k) + ([COLON] + (At(gap, k + 1) + x)))
  }

  // ---------------------------------------------------------------------------------------
  // White space

  predicate White(g: seq<Byte>) {
    forall b <- g :: IsSpace(b)
  }

  ghost predicate WhiteLayout(gap: Layout) {
    forall k: nat :: White(At(gap, k))
  }

  lemma {:induction false} SkipWhite(g: seq<Byte>, x: seq<Byte>)
    requires White(g)
    ensures SkipSpaces(g + x) == SkipSpaces(x)
  {
    if g == [] {
      assert g + x == x;
    } else {
      assert IsSpace(g[0]) && (g + x)[1..] == g[1..] + x;
      SkipWhite(g[1..], x);
    }
  }

  lemma SkipToStart(g: seq<Byte>, x: seq<Byte>)
    requires White(g) && Starts(x)
    ensures SkipSpaces(g + x) == x
  {
    SkipWhite(g, x);
    SkipNothing(x);
  }

  lemma SpreadStarts(v: Json, k: nat, gap: Layout, rest: seq<Byte>)
    ensures Starts(Spread(v, k, gap, rest)) && Spread(v, k, gap, rest)[0] != CLOSE_BRACKET
  {
    hide SpreadFrom;
    if !IsContainer(v) {
      TextStarts(v, 0, false);
    }
  }

  lemma SpreadFromStarts(v: Json, i: nat, k: nat, gap: Layout, rest: seq<Byte>)
    requires IsContainer(v) && i <= Count(v)
    ensures Starts(SpreadFrom(v, i, k, gap, rest))
    ensures i < Count(v) ==> SpreadFrom(v, i, k, gap, rest)[0] != Closing(v)
  {
    if i < Count(v) {
      hide Spread, SpreadAfter, Behind;
      SpreadStarts(Child(v, i), Before(v, k), gap, SpreadAfter(v, i, Behind(v, i, k), gap, rest));
    }
  }

  // ---------------------------------------------------------------------------------------
  // Reading it

  lemma {:induction false} SpreadIsParsed(v: Json, k: nat, gap: Layout, nesting: nat, rest: seq<Byte>)
    requires WellFormed(v) && WhiteLayout(gap) && (IsContainer(v) || Ends(rest))
    ensures ParseValue(Spread(v, k, gap, rest), nesting) == if Readable(v, nesting) then Some((AsRead(v), rest)) else None
    decreases v, 1, 0
  {
    hide *;
    if IsContainer(v) {
      if Count(v) > 0 && nesting <= MAX_NESTING {
        SpreadEntries(v, 0, k + 1, gap, nesting, rest);
      }
      ContainerIsParsed(v, k, gap, nesting, rest);
    } else {
      ScalarIsParsed(v, k, gap, nesting, rest);
    }
  }

  lemma ScalarIsParsed(v: Json, k: nat, gap: Layout, nesting: nat, rest: seq<Byte>)
    requires !IsContainer(v) && Ends(rest)
    ensures ParseValue(Spread(v, k, gap, rest), nesting) == if Readable(v, nesting) then Some((AsRead(v), rest)) else None
  {
    hide ParseValue, Text, Readable, AsRead, Ends;
    ParseScalar(v, 0, false, nesting, rest);
  }

  lemma ContainerIsParsed(v: Json, k: nat, gap: Layout, nesting: nat, rest: seq<Byte>)
    requires IsContainer(v) && WellFormed(v) && WhiteLayout(gap)
    requires Count(v) > 0 && nesting <= MAX_NESTING ==> EntriesAreParsed(v, 0, k + 1, gap, nesting, rest)
    ensures ParseValue(Spread(v, k, gap, rest), nesting) == if Readable(v, nesting) then Some((AsRead(v), rest)) else None
  {
    AsReadAlike(v);
    SameChildren(v, AsRead(v));
    assert White(At(gap, k));
    hide AsRead, ParseValue, ParseFrom, Spread, SpreadFrom, WellFormed;
    SpreadOpens(v, AsRead(v), k, gap, nesting, rest);
  }

  lemma SpreadOpens(v: Json, w: Json, k: nat, gap: Layout, nesting: nat, rest: seq<Byte>)
    requires Alike(v, w) && White(At(gap, k))
    ensures nesting > MAX_NESTING ==> ParseValue(Spread(v, k, gap, rest), nesting) == None
    ensures nesting <= MAX_NESTING && Count(v) == 0 ==> ParseValue(Spread(v, k, gap, rest), nesting) == Some((v, rest))
    ensures nesting <= MAX_NESTING && Count(v) > 0 ==>
      ParseValue(Spread(v, k, gap, rest), nesting) == ParseFrom(w, SpreadFrom(v, 0, k + 1, gap, rest), 0, nesting + 1)
  {
    hide ParseValue, ParseMembers, ParseItems, SkipSpaces;
    var inside := SpreadFrom(v, 0, k + 1, gap, rest);
    var x := At(gap, k) + inside;
    OpeningStep(v, x, nesting);
    SpreadFromStarts(v, 0, k + 1, gap, rest);
    SkipToStart(At(gap, k), inside);
    if Count(v) == 0 {
      assert inside[1..] == rest;
    } else {
      hide SpreadFrom;
      FirstStep(w, x, nesting + 1);
    }
  }

  // What is read of the entries from position i on.
  ghost predicate EntriesAreParsed(v: Json, i: nat, k: nat, gap: Layout, nesting: nat, rest: seq<Byte>)
    requires IsContainer(v) && i < Count(v)
  {
    Alike(v, AsRead(v)) && ParseFrom(AsRead(v), SpreadFrom(v, i, k, gap, rest), i, nesting + 1)
      == if ReadableFrom(v, i, nesting) then Some((AsRead(v), rest)) else None
  }

  lemma {:induction false} SpreadEntries(v: Json, i: nat, k: nat, gap: Layout, nesting: nat, rest: seq<Byte>)
    requires IsContainer(v) && WellFormed(v) && i < Count(v) && nesting <= MAX_NESTING && WhiteLayout(gap)
    ensures EntriesAreParsed(v, i, k, gap, nesting, rest)
    decreases v, 0, Count(v) - i
  {
    hide *;
    WellFormedChild(v, i);
    var behind := Behind(v, i, k);
    AfterSkips(v, i, behind, gap, rest);
    SpreadIsParsed(Child(v, i), Before(v, k), gap, nesting + 1, SpreadAfter(v, i, behind, gap, rest));
    if i < Count(v) - 1 {
      SpreadEntries(v, i + 1, behind + 2, gap, nesting, rest);
    }
    EntriesStep(v, i, k, behind, gap, nesting, rest);
  }

  lemma WellFormedChild(v: Json, i: nat)
    requires IsContainer(v) && WellFormed(v) && i < Count(v)
    ensures WellFormed(Child(v, i))
  {
  }

  lemma EntriesStep(v: Json, i: nat, k: nat, behind: nat, gap: Layout, nesting: nat, rest: seq<Byte>)
    requires IsContainer(v) && WellFormed(v) && i < Count(v) && WhiteLayout(gap) && behind == Behind(v, i, k)
    requires var after := SpreadAfter(v, i, behind, gap, rest);
      ParseValue(Spread(Child(v, i), Before(v, k), gap, after), nesting + 1)
      == if Readable(Child(v, i), nesting + 1) then Some((AsRead(Child(v, i)), after)) else None
    requires i < Count(v) - 1 ==> EntriesAreParsed(v, i + 1, behind + 2, gap, nesting, rest)
    ensures EntriesAreParsed(v, i, k, gap, nesting, rest)
  {
    EntryAsRead(v, i, nesting);
    assert White(At(gap, k)) && White(At(gap, k + 1));
    var after := SpreadAfter(v, i, behind, gap, rest);
    var more := if i < Count(v) - 1 then SpreadFrom(v, i + 1, behind + 2, gap, rest) else rest;
    SpreadFromIs(v, i, k, gap, rest);
    hide Spread, SpreadAfter, SpreadLabel, SpreadFrom, ParseFrom, ParseValue, SkipSpaces, AsRead, WellFormed, Readable,
         ReadableFrom, Behind, Before;
    AfterSkips(v, i, behind, gap, rest);
    SpreadStarts(Child(v, i), Before(v, k), gap, after);
    SpreadEntry(v, AsRead(v), i, k, gap, nesting, Spread(Child(v, i), Before(v, k), gap, after), after, more);
  }

  lemma SpreadFromIs(v: Json, i: nat, k: nat, gap: Layout, rest: seq<Byte>)
    requires IsContainer(v) && i < Count(v)
    ensures SpreadFrom(v, i, k, gap, rest)
      == SpreadLabel(v, i, k, gap, Spread(Child(v, i), Before(v, k), gap, SpreadAfter(v, i, Behind(v, i, k), gap, rest)))
  {
  }

  lemma EntryAsRead(v: Json, i: nat, nesting: nat)
    requires WellFormed(v) && IsContainer(v) && i < Count(v)
    ensures Alike(v, AsRead(v)) && WellFormed(AsRead(v)) && WellFormed(Child(v, i))
    ensures Child(AsRead(v), i) == AsRead(Child(v, i))
    ensures ReadableFrom(v, i, nesting) <==>
      CleanLabel(v, i) && Readable(Child(v, i), nesting + 1) && ReadableFrom(v, i + 1, nesting)
    ensures i == Count(v) - 1 ==> ReadableFrom(v, i + 1, nesting)
  {
    AsReadAlike(v);
    AsReadWellFormed(v);
  }

  // Behind the value of an entry stands a comma and the next entry, or the closing bracket and the
  // rest.
  predicate Follows(v: Json, i: nat, after: seq<Byte>, more: seq<Byte>)
    requires IsContainer(v) && i < Count(v)
  {
    var t := SkipSpaces(after);
    t != [] && if i < Count(v) - 1 then t[0] == COMMA && SkipSpaces(t[1..]) == more else t[0] == Closing(v) && t[1..] == more
  }

  lemma AfterSkips(v: Json, i: nat, k: nat, gap: Layout, rest: seq<Byte>)
    requires IsContainer(v) && i < Count(v) && WhiteLayout(gap)
    ensures Ends(SpreadAfter(v, i, k, gap, rest))
    ensures Follows(v, i, SpreadAfter(v, i, k, gap, rest),
                    if i < Count(v) - 1 then SpreadFrom(v, i + 1, k + 2, gap, rest) else rest)
  {
    var last := i == Count(v) - 1;
    var more := SpreadFrom(v, i + 1, if last then k + 1 else k + 2, gap, rest);
    var next := if last then more else [COMMA] + (At(gap, k + 1) + more);
    assert SpreadAfter(v, i, k, gap, rest) == At(gap, k) + next;
    assert White(At(gap, k)) && White(At(gap, k + 1));
    SpreadFromStarts(v, i + 1, if last then k + 1 else k + 2, gap, rest);
    assert last ==> more == [Closing(v)] + rest;
    hide SpreadFrom, SpreadAfter, SkipSpaces;
    SkipToStart(At(gap, k + 1), more);
    SkipToStart(At(gap, k), next);
    if !last {
      assert next[1..] == At(gap, k + 1) + more;
    }
    if At(gap, k) != [] {
      assert (At(gap, k) + next)[0] == At(gap, k)[0] && At(gap, k)[0] in At(gap, k);
    }
  }

  lemma SpreadEntry(v: Json, w: Json, i: nat, k: nat, gap: Layout, nesting: nat, text: seq<Byte>, after: seq<Byte>, more: seq<Byte>)
    requires Alike(v, w) && WellFormed(w) && i < Count(v) && White(At(gap, k)) && White(At(gap, k + 1)) && Starts(text)
    requires ParseValue(text, nesting + 1) == if Readable(Child(v, i), nesting + 1) then Some((Child(w, i), after)) else None
    requires Follows(v, i, after, more)
    ensures ParseFrom(w, SpreadLabel(v, i, k, gap, text), i, nesting + 1)
      == if !CleanLabel(v, i) || !Readable(Child(v, i), nesting + 1) then None
         else if i == Count(v) - 1 then Some((w, more)) else ParseFrom(w, more, i + 1, nesting + 1)
  {
    hide ParseValue, SkipSpaces, WellFormed, Readable, ParseMembers, ParseItems;
    if v.Object? {
      SpreadMember(v, w, i, k, gap, nesting, text, after, more);
    } else {
      SpreadItem(w, i, nesting + 1, text, after, more);
    }
  }

  lemma SpreadMember(v: Json, w: Json, i: nat, k: nat, gap: Layout, nesting: nat, text: seq<Byte>, after: seq<Byte>, more: seq<Byte>)
    requires v.Object? && Alike(v, w) && WellFormed(w) && i < Count(v) && White(At(gap, k)) && White(At(gap, k + 1))
    requires ParseValue(text, nesting + 1) == if Readable(Child(v, i), nesting + 1) then Some((Child(w, i), after)) else None
    requires Follows(v, i, after, more)
    ensures ParseFrom(w, SpreadLabel(v, i, k, gap, text), i, nesting + 1)
      == if !CleanLabel(v, i) || !Readable(Child(v, i), nesting + 1) then None
         else if i == Count(v) - 1 then Some((w, more)) else ParseFrom(w, more, i + 1, nesting + 1)
  {
    hide ParseValue, ParseMembers, Quoted, SkipSpaces, Escape, WellFormed, Readable;
    var key := v.members[i].name;
    var colon := [COLON] + (At(gap, k + 1) + text);
    var s := SpreadLabel(v, i, k, gap, text);
    assert colon[1..] == At(gap, k + 1) + text;
    SkipToStart(At(gap, k), colon);
    SkipWhite(At(gap, k + 1), text);
    ParseSkips(colon[1..], text, nesting + 1);
    QuotedEscape(key, At(gap, k) + colon);
    NoNul(key);
    Prefixes(w, i);
    MembersStep(s, w.members[..i], nesting + 1, key, At(gap, k) + colon, colon);
    hide UpToNul, Find;
  }

  lemma SpreadItem(w: Json, i: nat, nesting: nat, text: seq<Byte>, after: seq<Byte>, more: seq<Byte>)
    requires w.Array? && WellFormed(w) && i < Count(w) && text != []
    requires ParseValue(text, nesting).Some? ==> ParseValue(text, nesting) == Some((Child(w, i), after))
    requires Follows(w, i, after, more)
    ensures ParseFrom(w, text, i, nesting)
      == if ParseValue(text, nesting).None? then None
         else if i == Count(w) - 1 then Some((w, more)) else ParseFrom(w, more, i + 1, nesting)
  {
    assert w.items[..i] + [w.items[i]] == w.items[..i + 1];
    hide ParseValue, SkipSpaces;
    if i == Count(w) - 1 {
      assert w.items[..i + 1] == w.items;
    }
  }

  // Whatever white space stands between the tokens, the tree that is read is the one that is read
  // from the serialization.
  lemma SpreadIsRead(v: Json, gap: Layout, rest: seq<Byte>)
    requires IsContainer(v) && WellFormed(v) && WhiteLayout(gap)
    ensures Parse(At(gap, 0) + Spread(v, 1, gap, rest)) == if Depth(v) <= MAX_NESTING && CleanStrings(v) then Some(AsRead(v)) else None
  {
    var t := Spread(v, 1, gap, rest);
    SpreadStarts(v, 1, gap, rest);
    SkipToStart(At(gap, 0), t);
    SkipNothing(t);
    SpreadIsParsed(v, 1, gap, 0, rest);
    ReadableIs(v, 0);
    assert t[0] == Opening(v);
    hide SkipSpaces, ParseValue, Spread, Readable, Depth, CleanStrings, AsRead;
  }

  // Without any gaps it is the compact serialization.
  lemma {:induction false} SpreadIsCompact(v: Json, k: nat, level: nat, rest: seq<Byte>)
    ensures Spread(v, k, [], rest) == Text(v, level, false) + rest
    decreases v, 1, 0
  {
    hide *;
    if IsContainer(v) {
      EntriesAreCompact(v, 0, k + 1, level, rest);
    }
    CompactText(v, k, level, rest);
  }

  lemma CompactText(v: Json, k: nat, level: nat, rest: seq<Byte>)
    requires IsContainer(v) ==> SpreadFrom(v, 0, k + 1, [], rest) == Entries(v, 0, level, false) + ([Closing(v)] + rest)
    ensures Spread(v, k, [], rest) == Text(v, level, false) + rest
  {
    hide SpreadFrom, Entries, Escape, NumberText;
    if IsContainer(v) {
      var inside := Inside(v, level, false);
      CompactInside(v, level);
      hide Inside;
      Assoc([Opening(v)] + inside, [Closing(v)], rest);
      Assoc([Opening(v)], inside, [Closing(v)] + rest);
    }
  }

  lemma CompactInside(v: Json, level: nat)
    requires IsContainer(v)
    ensures Inside(v, level, false) == Entries(v, 0, level, false)
  {
    var e := Entries(v, 0, level, false);
    assert [] + e + [] == e;
  }

  lemma {:induction false} EntriesAreCompact(v: Json, i: nat, k: nat, level: nat, rest: seq<Byte>)
    requires IsContainer(v) && i <= Count(v)
    ensures SpreadFrom(v, i, k, [], rest) == Entries(v, i, level, false) + ([Closing(v)] + rest)
    decreases v, 0, Count(v) - i
  {
    hide *;
    var tail := [Closing(v)] + rest;
    if i == Count(v) {
      NoEntries(v, i, k, level, rest);
    } else {
      var behind := Behind(v, i, k);
      SpreadFromIs(v, i, k, [], rest);
      SpreadIsCompact(Child(v, i), Before(v, k), level + 1, SpreadAfter(v, i, behind, [], rest));
      EntriesAreCompact(v, i + 1, if i + 1 < Count(v) then behind + 2 else behind + 1, level, rest);
      CompactEntry(v, i, k, behind, level, rest);
    }
  }

  lemma NoEntries(v: Json, i: nat, k: nat, level: nat, rest: seq<Byte>)
    requires IsContainer(v) && i == Count(v)
    ensures SpreadFrom(v, i, k, [], rest) == Entries(v, i, level, false) + ([Closing(v)] + rest)
  {
  }

  lemma CompactEntry(v: Json, i: nat, k: nat, behind: nat, level: nat, rest: seq<Byte>)
    requires IsContainer(v) && i < Count(v)
    requires var more := SpreadFrom(v, i + 1, if i + 1 < Count(v) then behind + 2 else behind + 1, [], rest);
      more == Entries(v, i + 1, level, false) + ([Closing(v)] + rest)
    ensures SpreadLabel(v, i, k, [], Text(Child(v, i), level + 1, false) + SpreadAfter(v, i, behind, [], rest))
      == Entries(v, i, level, false) + ([Closing(v)] + rest)
  {
    hide SpreadFrom, Text, Label, SpreadLabel;
    var tail := [Closing(v)] + rest;
    var comma: seq<Byte> := if i < Count(v) - 1 then [COMMA] else [];
    var text, more := Text(Child(v, i), level + 1, false), Entries(v, i + 1, level, false);
    var heading := Label(v, i, false);
    assert SpreadAfter(v, i, behind, [], rest) == comma + (more + tail);
    assert Entries(v, i, level, false) == [] + heading + text + comma + [] + more;
    hide SpreadAfter, Entries;
    CompactLabel(v, i, k, text + (comma + (more + tail)));
    CompactParts(heading, text, comma, more, tail);
  }

  lemma CompactParts(a: seq<Byte>, b: seq<Byte>, c: seq<Byte>, d: seq<Byte>, e: seq<Byte>)
    ensures [] + a + b + c + [] + d + e == a + (b + (c + (d + e)))
  {
    Regroup([], a, b, c, [], d, e);
  }

  lemma CompactLabel(v: Json, i: nat, k: nat, x: seq<Byte>)
    requires IsContainer(v) && i < Count(v)
    ensures SpreadLabel(v, i, k, [], x) == Label(v, i, false) + x
  {
  }

  // ---------------------------------------------------------------------------------------
  // Comments

  // What a gap is made of: a space, a comment up to its end token, or one up to the end of the
  // line.
  datatype Piece = Blank(b: Byte) | Block(body: seq<Byte>) | Line(body: seq<Byte>)

  // Block comments are looked for first, also in line comments, and so are the quotes of strings.
  predicate IsPiece(p: Piece) {
    match p
    case Blank(b) => IsSpace(b)
    case Block(body) => FindToken(body + CLOSE_COMMENT, CLOSE_COMMENT) == Some(|body|)
    case Line(body) => NEWLINE !in body && NothingOpens([SLASH] + body + [NEWLINE])
  }

  predicate NothingOpens(s: seq<Byte>) {
    QUOTE !in s && forall i :: 0 <= i < |s| - 1 ==> !(s[i] == SLASH && s[i + 1] == STAR)
  }

  function PieceText(p: Piece): seq<Byte> {
    match p
    case Blank(b) => [b]
    case Block(body) => OPEN_COMMENT + (body + CLOSE_COMMENT)
    case Line(body) => LINE_COMMENT + (body + [NEWLINE])
  }

  // The tokens of both kinds of comments, and the order in which they are looked for.
  lemma CommentTokens(s: seq<Byte>, body: seq<Byte>)
    ensures PieceText(Block(body)) == Ascii("/*") + (body + Ascii("*/"))
    ensures PieceText(Line(body)) == Ascii("//") + (body + Ascii("\n"))
    ensures WithoutComments(s)
      == Remaining(Remaining(s, false, false, Ascii("/*"), Ascii("*/")), false, false, Ascii("//"), Ascii("\n"))
  {
    hide Remaining;
    assert OPEN_COMMENT == Ascii("/*") && CLOSE_COMMENT == Ascii("*/") && LINE_COMMENT == Ascii("//") && [NEWLINE] == Ascii("\n");
  }

  // What is left after block comments, and after line comments too.
  function WithoutBlock(p: Piece): seq<Byte> {
    if p.Block? then Spaces(4 + |p.body|) else PieceText(p)
  }

  function WithoutLine(p: Piece): seq<Byte> {
    if p.Line? then Spaces(3 + |p.body|) else WithoutBlock(p)
  }

  function Joined(ps: seq<Piece>, text: Piece -> seq<Byte>): seq<Byte> {
    if ps == [] then [] else text(ps[0]) + Joined(ps[1..], text)
  }

  function Gap(ps: seq<seq<Piece>>, text: Piece -> seq<Byte>): Layout {
    seq(|ps|, i requires 0 <= i < |ps| => Joined(ps[i], text))
  }

  // What a stripping makes of a text, whatever stands behind it.
  ghost predicate Strips(g: seq<Byte>, h: seq<Byte>, start: seq<Byte>, end: seq<Byte>)
    requires start != [] && end != []
  {
    forall t :: Remaining(g + t, false, false, start, end) == h + Remaining(t, false, false, start, end)
  }

  lemma StripsJoin(a: seq<Byte>, b: seq<Byte>, c: seq<Byte>, d: seq<Byte>, start: seq<Byte>, end: seq<Byte>)
    requires start != [] && end != [] && Strips(a, b, start, end) && Strips(c, d, start, end)
    ensures Strips(a + c, b + d, start, end)
  {
    hide Remaining;
    forall t
      ensures Remaining(a + c + t, false, false, start, end) == b + d + Remaining(t, false, false, start, end)
    {
      Assoc(a, c, t);
      Assoc(b, d, Remaining(t, false, false, start, end));
    }
  }

  lemma QuietStrips(a: seq<Byte>, start: seq<Byte>, end: seq<Byte>)
    requires Quiet(a) && start != [] && start[0] == SLASH && end != []
    ensures Strips(a, a, start, end)
  {
    hide Remaining, SlashFree, Final;
    forall t
      ensures Remaining(a + t, false, false, start, end) == a + Remaining(t, false, false, start, end)
    {
      QuietKept(a, false, false, start, end, t);
    }
  }

  lemma CommentStrips(start: seq<Byte>, body: seq<Byte>, end: seq<Byte>)
    requires start != [] && start[0] == SLASH && end != [] && FindToken(body + end, end) == Some(|body|)
    ensures Strips(start + (body + end), Spaces(|start| + |body| + |end|), start, end)
  {
    hide Remaining, FindToken, Spaces;
    forall t
      ensures Remaining(start + (body + end) + t, false, false, start, end)
        == Spaces(|start| + |body| + |end|) + Remaining(t, false, false, start, end)
    {
      FoundInFront(body + end, t, end);
      Assoc(start, body + end, t);
      CommentHere(false, start, body, end, t);
    }
  }

  lemma {:induction false} FoundInFront(s: seq<Byte>, t: seq<Byte>, token: seq<Byte>)
    requires FindToken(s, token).Some?
    ensures FindToken(s + t, token) == FindToken(s, token)
  {
    if token <= s {
      assert token <= s + t;
    } else {
      assert !(token <= s + t) by {
        var k := FindToken(s, token).value;
        assert |token| <= |s|;
        assert (s + t)[..|token|] == s[..|token|];
      }
      assert (s + t)[1..] == s[1..] + t;
      FoundInFront(s[1..], t, token);
    }
  }

  lemma {:induction false} LineIsFound(body: seq<Byte>)
    requires NEWLINE !in body
    ensures FindToken(body + [NEWLINE], [NEWLINE]) == Some(|body|)
  {
    var s := body + [NEWLINE];
    if body == [] {
      assert [NEWLINE] <= s;
    } else {
      assert s[0] == body[0] && body[0] in body && !([NEWLINE] <= s);
      assert s[1..] == body[1..] + [NEWLINE];
      LineIsFound(body[1..]);
    }
  }

  // A line comment is no block comment.
  lemma {:induction false} LineKept(s: seq<Byte>, escaped: bool, t: seq<Byte>)
    requires s != [] && s[|s| - 1] == NEWLINE && NothingOpens(s)
    ensures Remaining(s + t, false, escaped, OPEN_COMMENT, CLOSE_COMMENT)
      == s + Remaining(t, false, false, OPEN_COMMENT, CLOSE_COMMENT)
  {
    var left := Remaining(t, false, false, OPEN_COMMENT, CLOSE_COMMENT);
    var behind := s[0] == BACKSLASH && !escaped;
    assert (s + t)[1..] == s[1..] + t && s[0] in s;
    OtherStep(s, escaped, t);
    if |s| == 1 {
      assert s[1..] + t == t && s == [s[0]];
    } else {
      LineKept(s[1..], behind, t);
      hide Remaining;
      Assoc([s[0]], s[1..], left);
      assert [s[0]] + s[1..] == s;
    }
  }

  lemma OtherStep(s: seq<Byte>, escaped: bool, t: seq<Byte>)
    requires s != [] && s[|s| - 1] == NEWLINE && NothingOpens(s)
    ensures Remaining(s + t, false, escaped, OPEN_COMMENT, CLOSE_COMMENT)
      == [s[0]] + Remaining((s + t)[1..], false, s[0] == BACKSLASH && !escaped, OPEN_COMMENT, CLOSE_COMMENT)
  {
    assert s[0] in s && (s[0] == SLASH ==> |s| > 1 && s[1] != STAR);
    assert (s + t)[0] == s[0] && (|s| > 1 ==> (s + t)[1] == s[1]);
    assert OPEN_COMMENT[0] == SLASH && OPEN_COMMENT[1] == STAR;
  }

  lemma BlockStrips(p: Piece)
    requires IsPiece(p)
    ensures Strips(PieceText(p), WithoutBlock(p), OPEN_COMMENT, CLOSE_COMMENT)
  {
    hide Strips, FindToken, NothingOpens, Quiet;
    match p
    case Blank(b) =>
      QuietPlain([b]);
      QuietStrips([b], OPEN_COMMENT, CLOSE_COMMENT);
    case Block(body) =>
      CommentStrips(OPEN_COMMENT, body, CLOSE_COMMENT);
    case Line(body) =>
      LineOpensNothing(body);
      LineStays(LINE_COMMENT + (body + [NEWLINE]));
  }

  lemma LineStays(s: seq<Byte>)
    requires s != [] && s[|s| - 1] == NEWLINE && NothingOpens(s)
    ensures Strips(s, s, OPEN_COMMENT, CLOSE_COMMENT)
  {
    hide Remaining, NothingOpens;
    forall t
      ensures Remaining(s + t, false, false, OPEN_COMMENT, CLOSE_COMMENT)
        == s + Remaining(t, false, false, OPEN_COMMENT, CLOSE_COMMENT)
    {
      LineKept(s, false, t);
    }
  }

  lemma LineOpensNothing(body: seq<Byte>)
    requires NothingOpens([SLASH] + body + [NEWLINE])
    ensures NothingOpens(LINE_COMMENT + (body + [NEWLINE]))
  {
    var r, s := [SLASH] + body + [NEWLINE], LINE_COMMENT + (body + [NEWLINE]);
    assert LINE_COMMENT == [SLASH] + [SLASH];
    Assoc([SLASH], [SLASH], body + [NEWLINE]);
    Assoc([SLASH], body, [NEWLINE]);
    assert s == [SLASH] + r && r[0] == SLASH;
  }

  lemma LineStrips(p: Piece)
    requires IsPiece(p)
    ensures Strips(WithoutBlock(p), WithoutLine(p), LINE_COMMENT, [NEWLINE])
  {
    if p.Line? {
      LineIsFound(p.body);
      CommentStrips(LINE_COMMENT, p.body, [NEWLINE]);
    } else {
      QuietPlain(WithoutBlock(p));
      QuietStrips(WithoutBlock(p), LINE_COMMENT, [NEWLINE]);
    }
  }

  lemma {:induction false} JoinedStrips(ps: seq<Piece>, f: Piece -> seq<Byte>, g: Piece -> seq<Byte>, start: seq<Byte>, end: seq<Byte>)
    requires start != [] && end != [] && forall p <- ps :: Strips(f(p), g(p), start, end)
    ensures Strips(Joined(ps, f), Joined(ps, g), start, end)
  {
    hide Strips;
    if ps == [] {
      NothingStrips(start, end);
    } else {
      JoinedStrips(ps[1..], f, g, start, end);
      assert ps[0] in ps;
      StripsJoin(f(ps[0]), g(ps[0]), Joined(ps[1..], f), Joined(ps[1..], g), start, end);
    }
  }

  lemma NothingStrips(start: seq<Byte>, end: seq<Byte>)
    requires start != [] && end != []
    ensures Strips([], [], start, end)
  {
    hide Remaining;
    forall t
      ensures Remaining([] + t, false, false, start, end) == [] + Remaining(t, false, false, start, end)
    {
      assert [] + t == t;
    }
  }

  // ---------------------------------------------------------------------------------------
  // Stripping spread out text

  // A stripping makes one layout of another.
  ghost predicate StripsLayout(g: Layout, h: Layout, start: seq<Byte>, end: seq<Byte>)
    requires start != [] && end != []
  {
    forall k: nat :: Strips(At(g, k), At(h, k), start, end)
  }

  lemma StripsInFront(g: seq<Byte>, h: seq<Byte>, start: seq<Byte>, end: seq<Byte>, t: seq<Byte>)
    requires start != [] && end != [] && Strips(g, h, start, end)
    ensures Remaining(g + t, false, false, start, end) == h + Remaining(t, false, false, start, end)
  {
  }

  lemma QuietInFront(a: seq<Byte>, start: seq<Byte>, end: seq<Byte>, t: seq<Byte>)
    requires Quiet(a) && start != [] && start[0] == SLASH && end != []
    ensures Remaining(a + t, false, false, start, end) == a + Remaining(t, false, false, start, end)
  {
    hide Remaining;
    QuietStrips(a, start, end);
  }

  lemma {:induction false} SpreadStrips(v: Json, k: nat, g: Layout, h: Layout, start: seq<Byte>, end: seq<Byte>, rest: seq<Byte>)
    requires start != [] && start[0] == SLASH && end != [] && StripsLayout(g, h, start, end)
    ensures Remaining(Spread(v, k, g, rest), false, false, start, end) == Spread(v, k, h, Remaining(rest, false, false, start, end))
    decreases v, 1, 0
  {
    hide Remaining, Strips, SpreadFrom, Quiet, Text;
    if IsContainer(v) {
      QuietPlain([Opening(v)]);
      QuietInFront([Opening(v)], start, end, At(g, k) + SpreadFrom(v, 0, k + 1, g, rest));
      StripsInFront(At(g, k), At(h, k), start, end, SpreadFrom(v, 0, k + 1, g, rest));
      SpreadFromStrips(v, 0, k + 1, g, h, start, end, rest);
    } else {
      QuietText(v, 0, false);
      QuietInFront(Text(v, 0, false), start, end, rest);
    }
  }

  lemma {:induction false} SpreadFromStrips(v: Json, i: nat, k: nat, g: Layout, h: Layout, start: seq<Byte>, end: seq<Byte>, rest: seq<Byte>)
    requires IsContainer(v) && i <= Count(v)
    requires start != [] && start[0] == SLASH && end != [] && StripsLayout(g, h, start, end)
    ensures Remaining(SpreadFrom(v, i, k, g, rest), false, false, start, end)
      == SpreadFrom(v, i, k, h, Remaining(rest, false, false, start, end))
    decreases v, 0, Count(v) - i
  {
    hide *;
    var left := Remaining(rest, false, false, start, end);
    if i == Count(v) {
      ClosingStrips(v, k, g, h, start, end, rest);
    } else {
      var behind := Behind(v, i, k);
      SpreadFromIs(v, i, k, g, rest);
      SpreadFromIs(v, i, k, h, left);
      LabelStrips(v, i, k, g, h, start, end, Spread(Child(v, i), Before(v, k), g, SpreadAfter(v, i, behind, g, rest)));
      SpreadStrips(Child(v, i), Before(v, k), g, h, start, end, SpreadAfter(v, i, behind, g, rest));
      SpreadFromStrips(v, i + 1, if i + 1 < Count(v) then behind + 2 else behind + 1, g, h, start, end, rest);
      AfterStrips(v, i, behind, g, h, start, end, rest);
    }
  }

  lemma ClosingStrips(v: Json, k: nat, g: Layout, h: Layout, start: seq<Byte>, end: seq<Byte>, rest: seq<Byte>)
    requires IsContainer(v) && start != [] && start[0] == SLASH && end != []
    ensures Remaining(SpreadFrom(v, Count(v), k, g, rest), false, false, start, end)
      == SpreadFrom(v, Count(v), k, h, Remaining(rest, false, false, start, end))
  {
    hide Remaining;
    QuietPlain([Closing(v)]);
    QuietInFront([Closing(v)], start, end, rest);
  }

  lemma LabelStrips(v: Json, i: nat, k: nat, g: Layout, h: Layout, start: seq<Byte>, end: seq<Byte>, x: seq<Byte>)
    requires IsContainer(v) && i < Count(v)
    requires start != [] && start[0] == SLASH && end != [] && StripsLayout(g, h, start, end)
    ensures Remaining(SpreadLabel(v, i, k, g, x), false, false, start, end)
      == SpreadLabel(v, i, k, h, Remaining(x, false, false, start, end))
  {
    hide Remaining, Strips, Quiet, StringText;
    if v.Object? {
      var name := v.members[i].name;
      var colon := [COLON] + (At(g, k + 1) + x);
      QuietString(name);
      QuietInFront(StringText(name), start, end, At(g, k) + colon);
      StripsInFront(At(g, k), At(h, k), start, end, colon);
      QuietPlain([COLON]);
      QuietInFront([COLON], start, end, At(g, k + 1) + x);
      StripsInFront(At(g, k + 1), At(h, k + 1), start, end, x);
    }
  }

  lemma AfterStrips(v: Json, i: nat, k: nat, g: Layout, h: Layout, start: seq<Byte>, end: seq<Byte>, rest: seq<Byte>)
    requires IsContainer(v) && i < Count(v)
    requires start != [] && start[0] == SLASH && end != [] && StripsLayout(g, h, start, end)
    requires var next := if i + 1 < Count(v) then k + 2 else k + 1;
      Remaining(SpreadFrom(v, i + 1, next, g, rest), false, false, start, end)
      == SpreadFrom(v, i + 1, next, h, Remaining(rest, false, false, start, end))
    ensures Remaining(SpreadAfter(v, i, k, g, rest), false, false, start, end)
      == SpreadAfter(v, i, k, h, Remaining(rest, false, false, start, end))
  {
    hide Remaining, Strips, Quiet, SpreadFrom;
    if i + 1 < Count(v) {
      var more := SpreadFrom(v, i + 1, k + 2, g, rest);
      StripsInFront(At(g, k), At(h, k), start, end, [COMMA] + (At(g, k + 1) + more));
      QuietPlain([COMMA]);
      QuietInFront([COMMA], start, end, At(g, k + 1) + more);
      StripsInFront(At(g, k + 1), At(h, k + 1), start, end, more);
    } else {
      StripsInFront(At(g, k), At(h, k), start, end, SpreadFrom(v, i + 1, k + 1, g, rest));
    }
  }

  ghost predicate ArePieces(ps: seq<seq<Piece>>) {
    forall k, i :: 0 <= k < |ps| && 0 <= i < |ps[k]| ==> IsPiece(ps[k][i])
  }

  lemma GapStrips(ps: seq<seq<Piece>>, f: Piece -> seq<Byte>, g: Piece -> seq<Byte>, start: seq<Byte>, end: seq<Byte>)
    requires start != [] && end != [] && ArePieces(ps) && forall p | IsPiece(p) :: Strips(f(p), g(p), start, end)
    ensures StripsLayout(Gap(ps, f), Gap(ps, g), start, end)
  {
    hide Strips, IsPiece, Joined;
    NothingStrips(start, end);
    forall k: nat
      ensures Strips(At(Gap(ps, f), k), At(Gap(ps, g), k), start, end)
    {
      if k < |ps| {
        forall p <- ps[k]
          ensures Strips(f(p), g(p), start, end)
        {
          var i :| 0 <= i < |ps[k]| && ps[k][i] == p;
          assert IsPiece(ps[k][i]);
        }
        JoinedStrips(ps[k], f, g, start, end);
      }
    }
  }

  lemma {:induction false} JoinedIsWhite(ps: seq<Piece>)
    requires forall i :: 0 <= i < |ps| ==> IsPiece(ps[i])
    ensures White(Joined(ps, WithoutLine))
  {
    if ps != [] {
      JoinedIsWhite(ps[1..]);
      assert White(WithoutLine(ps[0])) by {
        assert IsPiece(ps[0]);
        hide FindToken, NothingOpens;
      }
    }
  }

  // The text of a value with white space and comments in its gaps.
  function Commented(v: Json, ps: seq<seq<Piece>>, rest: seq<Byte>): seq<Byte> {
    At(Gap(ps, PieceText), 0) + Spread(v, 1, Gap(ps, PieceText), rest)
  }

  // Stripping leaves the same tokens with white space in the gaps.
  lemma CommentsAreStripped(v: Json, ps: seq<seq<Piece>>, rest: seq<Byte>)
    requires ArePieces(ps)
    ensures var white := Gap(ps, WithoutLine);
      WhiteLayout(white) && WithoutComments(Commented(v, ps, rest)) == At(white, 0) + Spread(v, 1, white, WithoutComments(rest))
  {
    hide Remaining, Spread, Strips, IsPiece, Joined, White, PieceText, WithoutBlock, WithoutLine;
    var a, b, c := Gap(ps, PieceText), Gap(ps, WithoutBlock), Gap(ps, WithoutLine);
    var left := Remaining(rest, false, false, OPEN_COMMENT, CLOSE_COMMENT);
    forall p | IsPiece(p)
      ensures Strips(PieceText(p), WithoutBlock(p), OPEN_COMMENT, CLOSE_COMMENT)
      ensures Strips(WithoutBlock(p), WithoutLine(p), LINE_COMMENT, [NEWLINE])
    {
      BlockStrips(p);
      LineStrips(p);
    }
    GapStrips(ps, PieceText, WithoutBlock, OPEN_COMMENT, CLOSE_COMMENT);
    GapStrips(ps, WithoutBlock, WithoutLine, LINE_COMMENT, [NEWLINE]);
    StripsInFront(At(a, 0), At(b, 0), OPEN_COMMENT, CLOSE_COMMENT, Spread(v, 1, a, rest));
    SpreadStrips(v, 1, a, b, OPEN_COMMENT, CLOSE_COMMENT, rest);
    StripsInFront(At(b, 0), At(c, 0), LINE_COMMENT, [NEWLINE], Spread(v, 1, b, left));
    SpreadStrips(v, 1, b, c, LINE_COMMENT, [NEWLINE], left);
    WhiteGaps(ps);
  }

  lemma WhiteGaps(ps: seq<seq<Piece>>)
    requires ArePieces(ps)
    ensures WhiteLayout(Gap(ps, WithoutLine))
  {
    hide IsPiece, Joined;
    forall k: nat
      ensures White(At(Gap(ps, WithoutLine), k))
    {
      if k < |ps| {
        JoinedIsWhite(ps[k]);
      }
    }
  }

  // With white space and comments wherever two tokens meet, the tree that is read is the one that
  // is read from the serialization.
  lemma CommentedIsRead(v: Json, ps: seq<seq<Piece>>, rest: seq<Byte>)
    requires IsContainer(v) && WellFormed(v) && ArePieces(ps)
    ensures Parse(WithoutComments(Commented(v, ps, rest)))
      == if Depth(v) <= MAX_NESTING && CleanStrings(v) then Some(AsRead(v)) else None
  {
    hide *;
    CommentsAreStripped(v, ps, rest);
    SpreadIsRead(v, Gap(ps, WithoutLine), WithoutComments(rest));
  }

  // A quote in a line comment hides a block comment behind it: the first stripping takes it for
  // the beginning of a string. Both are in this text of an empty array.
  function QuotedComment(): seq<Byte> {
    [OPEN_BRACKET] + (PieceText(Line([QUOTE])) + (PieceText(Block([])) + [CLOSE_BRACKET]))
  }

  lemma QuoteInLineComment()
    ensures Parse(WithoutComments(QuotedComment())) == None
  {
    hide Remaining, QuotedComment, Spaces, Parse;
    FirstStripping();
    SecondStripping();
    NotParsed();
  }

  const HIDDEN: seq<Byte> := [SLASH, STAR, STAR, SLASH, CLOSE_BRACKET]

  lemma NotParsed()
    requires WithoutComments(QuotedComment()) == [OPEN_BRACKET] + (Spaces(4) + HIDDEN)
    ensures Parse(WithoutComments(QuotedComment())) == None
  {
    var x := Spaces(4) + HIDDEN;
    SkipNothing([OPEN_BRACKET] + x);
    SkipSomeSpaces(4, HIDDEN);
    SkipNothing(HIDDEN);
    assert SkipSpaces(x) == HIDDEN && ([OPEN_BRACKET] + x)[1..] == x;
    hide SkipSpaces, Spaces, WithoutComments, QuotedComment;
    assert !(NULL <= HIDDEN);
    assert ParseValue(HIDDEN, 1) == None;
    assert ParseItems(HIDDEN, [], 1) == None;
    assert ParseArray(x, 1) == None;
  }

  // A byte that opens nothing is kept.
  lemma OneInFront(b: Byte, start: seq<Byte>, end: seq<Byte>, t: seq<Byte>)
    requires b != QUOTE && b != BACKSLASH && |start| == 2 && end != []
    requires b != start[0] || t == [] || t[0] != start[1]
    ensures Remaining([b] + t, false, false, start, end) == [b] + Remaining(t, false, false, start, end)
  {
    assert ([b] + t)[1..] == t;
    assert !(start <= [b] + t) by {
      assert ([b] + t)[0] == b && (t != [] ==> ([b] + t)[1] == t[0]);
    }
  }

  lemma FirstStripping()
    ensures Remaining(QuotedComment(), false, false, OPEN_COMMENT, CLOSE_COMMENT) == QuotedComment()
  {
    var quoted := [QUOTE] + ([NEWLINE] + HIDDEN);
    assert QuotedComment() == [OPEN_BRACKET] + ([SLASH] + ([SLASH] + quoted));
    InString(HIDDEN, 5);
    SlashFreeRemains(quoted, false, false, OPEN_COMMENT, CLOSE_COMMENT) by {
      assert quoted[1..] == [NEWLINE] + HIDDEN && ([NEWLINE] + HIDDEN)[1..] == HIDDEN;
    }
    hide Remaining;
    OneInFront(SLASH, OPEN_COMMENT, CLOSE_COMMENT, quoted);
    OneInFront(SLASH, OPEN_COMMENT, CLOSE_COMMENT, [SLASH] + quoted);
    OneInFront(OPEN_BRACKET, OPEN_COMMENT, CLOSE_COMMENT, [SLASH] + ([SLASH] + quoted));
  }

  lemma {:induction false} InString(s: seq<Byte>, n: nat)
    requires |s| == n && QUOTE !in s && BACKSLASH !in s
    ensures SlashFree(s, true, false)
  {
    if n > 0 {
      assert s[0] in s;
      InString(s[1..], n - 1);
    }
  }

  lemma SecondStripping()
    ensures Remaining(QuotedComment(), false, false, LINE_COMMENT, [NEWLINE]) == [OPEN_BRACKET] + (Spaces(4) + HIDDEN)
  {
    hide Remaining, FindToken, Spaces, Quiet;
    var body: seq<Byte> := [QUOTE];
    assert QuotedComment() == [OPEN_BRACKET] + (LINE_COMMENT + (body + [NEWLINE] + HIDDEN));
    LineIsFound(body);
    FoundInFront(body + [NEWLINE], HIDDEN, [NEWLINE]);
    OneInFront(OPEN_BRACKET, LINE_COMMENT, [NEWLINE], LINE_COMMENT + (body + [NEWLINE] + HIDDEN));
    CommentHere(false, LINE_COMMENT, body, [NEWLINE], HIDDEN);
    HiddenStays();
  }

  lemma HiddenStays()
    ensures Remaining(HIDDEN, false, false, LINE_COMMENT, [NEWLINE]) == HIDDEN
  {
    hide Remaining, Quiet;
    var stars, close: seq<Byte> := [STAR, STAR], [CLOSE_BRACKET];
    assert HIDDEN == [SLASH] + (stars + ([SLASH] + (close + [])));
    assert (close + [])[0] == CLOSE_BRACKET && (stars + ([SLASH] + (close + [])))[0] == STAR;
    OneInFront(SLASH, LINE_COMMENT, [NEWLINE], stars + ([SLASH] + (close + [])));
    QuietPlain(stars);
    QuietInFront(stars, LINE_COMMENT, [NEWLINE], [SLASH] + (close + []));
    OneInFront(SLASH, LINE_COMMENT, [NEWLINE], close + []);
    QuietPlain(close);
    QuietInFront(close, LINE_COMMENT, [NEWLINE], []);
    RemainingEnd([], false, false, LINE_COMMENT, [NEWLINE]);
  }
}
