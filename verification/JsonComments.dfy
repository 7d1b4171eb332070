// parson.c: comments are overwritten with spaces before the text is parsed.
module JsonComments {
  import opened Wrappers
  import opened CStrings
  import opened JsonTree
  import opened JsonStrings
  import opened JsonNumbers
  import opened JsonText
  import opened JsonRoundTrip
  import opened JsonParser

  const SLASH: Byte := 47
  const STAR: Byte := 42

  // ---------------------------------------------------------------------------------------
  // What is left of a text

  // strstr
  function FindToken(s: seq<Byte>, token: seq<Byte>): (k: Option<nat>)
    ensures k.Some? ==> k.value + |token| <= |s| && token <= s[k.value..]
  {
    if token <= s then Some(0) else if s == [] then None else Shifted(FindToken(s[1..], token), 1)
  }

  // The token at position k, and nowhere before it.
  ghost predicate FirstAt(s: seq<Byte>, token: seq<Byte>, k: nat) {
    k <= |s| && token <= s[k..] && forall j | 0 <= j < k :: !(token <= s[j..])
  }

  lemma {:induction false} TokenIsFirst(s: seq<Byte>, token: seq<Byte>)
    ensures match FindToken(s, token)
      case Some(k) => FirstAt(s, token, k)
      case None => forall j | 0 <= j <= |s| :: !(token <= s[j..])
  {
    if token <= s {
      assert s[0..] == s;
    } else if s != [] {
      TokenIsFirst(s[1..], token);
      forall j | 0 <= j <= |s|
        ensures j == 0 ==> s[j..] == s
        ensures j > 0 ==> s[j..] == s[1..][j - 1..]
      {
      }
    } else {
      assert forall j | 0 <= j <= |s| :: s[j..] == s;
    }
  }

  // The scan knows whether it is inside a string and behind a backslash. A comment that does not
  // end loses only its start token, and nothing behind it is looked at.
  function Remaining(s: seq<Byte>, inString: bool, escaped: bool, start: seq<Byte>, end: seq<Byte>): (r: seq<Byte>)
    requires start != [] && end != []
    ensures |r| == |s|
    decreases |s|
  {
    if s == [] then []
    else if s[0] == BACKSLASH && !escaped then [s[0]] + Remaining(s[1..], inString, true, start, end)
    else if s[0] == QUOTE && !escaped then [s[0]] + Remaining(s[1..], !inString, false, start, end)
    else if !inString && start <= s then
      var t := s[|start|..];
      match FindToken(t, end)
      case None => Spaces(|start|) + t
      case Some(k) => Spaces(|start|) + (Spaces(k + |end|) + Remaining(t[k + |end|..], false, false, start, end))
    else [s[0]] + Remaining(s[1..], inString, false, start, end)
  }

  // ---------------------------------------------------------------------------------------
  // In place

  // The text with n bytes from position p on overwritten.
  function Blanked(s: seq<Byte>, p: nat, n: nat): (r: seq<Byte>)
    requires p + n <= |s|
    ensures |r| == |s|
  {
    s[..p] + Spaces(n) + s[p + n..]
  }

  method Blank(a: array<Byte>, p: nat, n: nat)
    requires p + n <= a.Length
    modifies a
    ensures a[..] == Blanked(old(a[..]), p, n)
  {
    for i := 0 to n
      invariant forall j :: 0 <= j < a.Length ==> a[j] == if p <= j < p + i then SPACE else old(a[j])
    {
      a[p + i] := SPACE;
    }
  }

  lemma BlankedParts(s: seq<Byte>, p: nat, n: nat)
    requires p + n <= |s|
    ensures Blanked(s, p, n)[..p + n] == s[..p] + Spaces(n) && Blanked(s, p, n)[p + n..] == s[p + n..]
  {
    hide Spaces;
    var r := Blanked(s, p, n);
    assert r == (s[..p] + Spaces(n)) + s[p + n..];
  }

  lemma BlankTwice(s: seq<Byte>, p: nat, m: nat, n: nat)
    requires p + m + n <= |s|
    ensures Blanked(Blanked(s, p, m), p + m, n) == Blanked(s, p, m + n)
  {
    BlankedParts(s, p, m);
    assert Spaces(m + n) == Spaces(m) + Spaces(n);
    hide Spaces;
    var r := Blanked(s, p, m);
    assert r[p + m + n..] == r[p + m..][n..] && s[p + m + n..] == s[p + m..][n..];
    assert (s[..p] + Spaces(m)) + Spaces(n) == s[..p] + (Spaces(m) + Spaces(n));
  }

  // remove_comments. The string ends at the NUL in position n.
  method RemoveComments(a: array<Byte>, n: nat, start: seq<Byte>, end: seq<Byte>)
    requires n < a.Length && a[n] == 0 && 0 !in a[..n] && start != [] && end != [] && 0 !in start && 0 !in end
    modifies a
    ensures a[..n] == Remaining(old(a[..n]), false, false, start, end)
    ensures a[n..] == old(a[n..])
  {
    hide Remaining;
    ghost var s := a[..n];
    ghost var r := Remaining(s, false, false, start, end);
    var p := 0;
    var inString, escaped := false, false;
    while p < n
      invariant p <= n && a[p..] == old(a[p..])
      invariant r == a[..p] + Remaining(s[p..], inString, escaped, start, end)
      decreases n - p
    {
      var stop;
      stop, p, inString, escaped := RemoveStep(a, n, p, inString, escaped, start, end, s);
      if stop {
        return;
      }
    }
    RemainingEnd(s[p..], inString, escaped, start, end);
  }

  lemma RemainingEnd(s: seq<Byte>, inString: bool, escaped: bool, start: seq<Byte>, end: seq<Byte>)
    requires s == [] && start != [] && end != []
    ensures Remaining(s, inString, escaped, start, end) == []
  {
  }

  // One pass of the loop: a character or a comment.
  method RemoveStep(a: array<Byte>, n: nat, p: nat, inString: bool, escaped: bool, start: seq<Byte>, end: seq<Byte>,
                    ghost s: seq<Byte>) returns (stop: bool, next: nat, inside: bool, behind: bool)
    requires p < n < a.Length && |s| == n && a[p..n] == s[p..] && start != [] && end != []
    modifies a
    ensures p < next <= n && a[next..] == old(a[next..])
    ensures var r := old(a[..p]) + Remaining(s[p..], inString, escaped, start, end);
      (stop ==> a[..n] == r) && (!stop ==> a[..next] + Remaining(s[next..], inside, behind, start, end) == r)
  {
    var c := a[p];
    assert c == a[p..n][0] == s[p..][0];
    stop, next := false, p + 1;
    inside, behind := inString, false;
    if c == BACKSLASH && !escaped {
      behind := true;
      OneKept(a[..], s, p, Remaining(s[next..], inside, behind, start, end));
    } else if c == QUOTE && !escaped {
      inside := !inString;
      OneKept(a[..], s, p, Remaining(s[next..], inside, behind, start, end));
    } else if !inString && start <= a[p..n] {
      stop, next := RemoveBlanked(a, n, p, escaped, start, end, s);
    } else {
      OneKept(a[..], s, p, Remaining(s[next..], inside, behind, start, end));
    }
  }

  method RemoveBlanked(a: array<Byte>, n: nat, p: nat, ghost escaped: bool, start: seq<Byte>, end: seq<Byte>, ghost s: seq<Byte>)
    returns (stop: bool, next: nat)
    requires p < n < a.Length && |s| == n && a[p..n] == s[p..] && start != [] && end != [] && start <= s[p..]
    requires !((s[p] == BACKSLASH || s[p] == QUOTE) && !escaped)
    modifies a
    ensures p < next <= n && a[next..] == old(a[next..])
    ensures var r := old(a[..p]) + Remaining(s[p..], false, escaped, start, end);
      (stop ==> a[..n] == r) && (!stop ==> a[..next] + Remaining(s[next..], false, false, start, end) == r)
  {
    hide Remaining, FindToken, Blanked;
    ghost var b := a[..];
    ghost var t := s[p..][|start|..];
    SliceOfSlice(b, p, |start|, n);
    assert a[p..n] == b[p..n] && a[..p] == b[..p];
    ghost var k := FindToken(t, end);
    if k.None? {
      UnterminatedMeaning(b, s, p, n, escaped, start, end);
    } else {
      CommentMeaning(b, s, p, n, escaped, start, end, k.value);
    }
    assert a[p + |start|..n] == t;
    stop, next := RemoveComment(a, n, p, start, end);
    ghost var c := a[..];
    BlankedParts(b, p, next - p);
    assert a[..n] == c[..n] && a[..next] == c[..next] && a[next..] == c[next..];
    assert b[next..] == old(a[next..]);
  }

  lemma OneKept(a: seq<Byte>, s: seq<Byte>, p: nat, rest: seq<Byte>)
    requires p < |s| && p < |a| && a[p] == s[p]
    ensures s[p..][1..] == s[p + 1..]
    ensures a[..p + 1] + rest == a[..p] + ([s[p..][0]] + rest)
  {
  }

  // A comment that starts at the cursor: it is blanked up to the end of its end token, or only its
  // start token where there is none.
  method RemoveComment(a: array<Byte>, n: nat, p: nat, start: seq<Byte>, end: seq<Byte>) returns (stop: bool, next: nat)
    requires p + |start| <= n < a.Length && start != [] && end != []
    modifies a
    ensures p < next <= n && a[..] == Blanked(old(a[..]), p, next - p)
    ensures var k := FindToken(old(a[p + |start|..n]), end);
      if k.None? then stop && next == p + |start| else !stop && next == p + (|start| + (k.value + |end|))
  {
    hide FindToken, Blanked;
    ghost var b := a[..];
    next := p + |start|;
    Blank(a, p, |start|);
    BlankedParts(b, p, |start|);
    assert a[next..n] == b[next..n] by {
      assert a[next..n] == a[..][next..][..n - next] && b[next..n] == b[next..][..n - next];
    }
    var k := FindToken(a[next..n], end);
    stop := k.None?;
    if !stop {
      var size := k.value + |end|;
      Blank(a, next, size);
      BlankTwice(b, p, |start|, size);
      next := next + size;
    }
  }

  // What is left when a comment has been blanked is what remains of the text.
  lemma CommentMeaning(b: seq<Byte>, s: seq<Byte>, p: nat, n: nat, escaped: bool, start: seq<Byte>, end: seq<Byte>, size: nat)
    requires p < n <= |b| && |s| == n && b[p..n] == s[p..] && start != [] && end != [] && start <= s[p..]
    requires !((s[p] == BACKSLASH || s[p] == QUOTE) && !escaped)
    requires FindToken(s[p..][|start|..], end) == Some(size)
    ensures var m, r := |start| + (size + |end|), b[..p] + Remaining(s[p..], false, escaped, start, end);
      p + m <= n && Blanked(b, p, m)[..p + m] + Remaining(s[p + m..], false, false, start, end) == r
  {
    hide *;
    var m, end_ := |start|, size + |end|;
    var rest := Remaining(s[p + m + end_..], false, false, start, end);
    RemainingAfter(s, p, escaped, start, end, size);
    BlankedParts(b, p, m + end_);
    SpacesJoin(b[..p], m, end_, rest);
  }

  lemma RemainingAfter(s: seq<Byte>, p: nat, escaped: bool, start: seq<Byte>, end: seq<Byte>, size: nat)
    requires p < |s| && start != [] && end != [] && start <= s[p..]
    requires !((s[p] == BACKSLASH || s[p] == QUOTE) && !escaped)
    requires FindToken(s[p..][|start|..], end) == Some(size)
    ensures p + |start| + (size + |end|) <= |s|
    ensures var m, n := |start|, size + |end|;
      Remaining(s[p..], false, escaped, start, end)
      == Spaces(m) + (Spaces(n) + Remaining(s[p + m + n..], false, false, start, end))
  {
    hide Remaining, FindToken, Spaces;
    CommentRemaining(s[p..], escaped, start, end);
    assert s[p..][|start|..][size + |end|..] == s[p + |start| + (size + |end|)..];
  }

  lemma SpacesJoin(a: seq<Byte>, m: nat, n: nat, rest: seq<Byte>)
    ensures a + Spaces(m + n) + rest == a + (Spaces(m) + (Spaces(n) + rest))
  {
    assert Spaces(m + n) == Spaces(m) + Spaces(n);
    hide Spaces;
    Assoc(a, Spaces(m) + Spaces(n), rest);
    Assoc(Spaces(m), Spaces(n), rest);
  }

  lemma UnterminatedMeaning(b: seq<Byte>, s: seq<Byte>, p: nat, n: nat, escaped: bool, start: seq<Byte>, end: seq<Byte>)
    requires p < n <= |b| && |s| == n && b[p..n] == s[p..] && start != [] && end != [] && start <= s[p..]
    requires !((s[p] == BACKSLASH || s[p] == QUOTE) && !escaped)
    requires FindToken(s[p..][|start|..], end) == None
    ensures p + |start| <= n && Blanked(b, p, |start|)[..n] == b[..p] + Remaining(s[p..], false, escaped, start, end)
  {
    var m, t := |start|, s[p..][|start|..];
    CommentRemaining(s[p..], escaped, start, end);
    SliceOfSlice(b, p, m, n);
    hide Remaining, Blanked, FindToken, Spaces;
    BlankedParts(b, p, m);
    Unterminated(b, Blanked(b, p, m), t, p, m, n);
  }

  lemma SliceOfSlice(b: seq<Byte>, p: nat, m: nat, n: nat)
    requires p <= n <= |b|
    ensures p + m <= n ==> b[p + m..n] == b[p..n][m..]
  {
  }

  lemma Unterminated(b: seq<Byte>, c: seq<Byte>, t: seq<Byte>, p: nat, m: nat, n: nat)
    requires p + m <= n <= |b| == |c| && c[..p + m] == b[..p] + Spaces(m)
    requires c[p + m..] == b[p + m..] && b[p + m..n] == t
    ensures c[..n] == b[..p] + (Spaces(m) + t)
  {
    hide Spaces;
    assert c[p + m..n] == c[p + m..][..n - p - m] && b[p + m..n] == b[p + m..][..n - p - m];
    assert c[..n] == c[..p + m] + c[p + m..n];
    Assoc(b[..p], Spaces(m), t);
  }

  // A start token of m bytes in front of t, blanked with what it opens.
  function CommentText(t: seq<Byte>, m: nat, start: seq<Byte>, end: seq<Byte>): seq<Byte>
    requires start != [] && end != []
  {
    match FindToken(t, end)
    case None => Spaces(m) + t
    case Some(k) => Spaces(m) + (Spaces(k + |end|) + Remaining(t[k + |end|..], false, false, start, end))
  }

  lemma CommentRemaining(s: seq<Byte>, escaped: bool, start: seq<Byte>, end: seq<Byte>)
    requires start != [] && end != [] && s != [] && start <= s && !((s[0] == BACKSLASH || s[0] == QUOTE) && !escaped)
    ensures Remaining(s, false, escaped, start, end) == CommentText(s[|start|..], |start|, start, end)
  {
  }

  // ---------------------------------------------------------------------------------------
  // Texts without comments

  // No slash outside a string.
  predicate SlashFree(s: seq<Byte>, inString: bool, escaped: bool) {
    s == [] ||
      if s[0] == BACKSLASH && !escaped then SlashFree(s[1..], inString, true)
      else if s[0] == QUOTE && !escaped then SlashFree(s[1..], !inString, false)
      else (inString || s[0] != SLASH) && SlashFree(s[1..], inString, false)
  }

  // Whether the scan is inside a string at the end, and behind a backslash.
  function Final(s: seq<Byte>, inString: bool, escaped: bool): (bool, bool) {
    if s == [] then (inString, escaped)
    else if s[0] == BACKSLASH && !escaped then Final(s[1..], inString, true)
    else if s[0] == QUOTE && !escaped then Final(s[1..], !inString, false)
    else Final(s[1..], inString, false)
  }

  lemma {:induction false} SlashFreeRemains(s: seq<Byte>, inString: bool, escaped: bool, start: seq<Byte>, end: seq<Byte>)
    requires SlashFree(s, inString, escaped) && start != [] && start[0] == SLASH && end != []
    ensures Remaining(s, inString, escaped, start, end) == s
  {
    if s != [] {
      var inside := if s[0] == QUOTE && !escaped then !inString else inString;
      SlashFreeRemains(s[1..], inside, s[0] == BACKSLASH && !escaped, start, end);
      assert [s[0]] + s[1..] == s;
    }
  }

  lemma {:induction false} SlashFreeJoin(a: seq<Byte>, b: seq<Byte>, inString: bool, escaped: bool)
    ensures var f := Final(a, inString, escaped);
      (SlashFree(a + b, inString, escaped) <==> SlashFree(a, inString, escaped) && SlashFree(b, f.0, f.1))
      && Final(a + b, inString, escaped) == Final(b, f.0, f.1)
  {
    if a == [] {
      assert a + b == b;
    } else {
      assert (a + b)[1..] == a[1..] + b;
      var inside := if a[0] == QUOTE && !escaped then !inString else inString;
      SlashFreeJoin(a[1..], b, inside, a[0] == BACKSLASH && !escaped);
    }
  }

  // Text that begins and ends outside strings and has no slash there.
  predicate Quiet(s: seq<Byte>) {
    SlashFree(s, false, false) && Final(s, false, false) == (false, false)
  }

  lemma QuietJoin(a: seq<Byte>, b: seq<Byte>)
    requires Quiet(a) && Quiet(b)
    ensures Quiet(a + b)
  {
    SlashFreeJoin(a, b, false, false);
  }

  predicate Plain(b: Byte) {
    b != QUOTE && b != BACKSLASH && b != SLASH
  }

  lemma {:induction false} QuietPlain(s: seq<Byte>)
    requires forall i :: 0 <= i < |s| ==> Plain(s[i])
    ensures Quiet(s)
  {
    if s != [] {
      QuietPlain(s[1..]);
    }
  }

  lemma {:induction false} InsideEscape(s: seq<Byte>)
    ensures SlashFree(Escape(s), true, false) && Final(Escape(s), true, false) == (true, false)
  {
    if s != [] {
      var e := EscapeByte(s[0]);
      InsideEscape(s[1..]);
      SlashFreeJoin(e, Escape(s[1..]), true, false);
      EscapeByteInside(s[0]);
    }
  }

  lemma EscapeByteInside(b: Byte)
    ensures SlashFree(EscapeByte(b), true, false) && Final(EscapeByte(b), true, false) == (true, false)
  {
    var e := EscapeByte(b);
    assert e[1..] == if |e| == 1 then [] else [e[1]];
    if |e| == 2 {
      assert e[1..][1..] == [];
      assert SlashFree(e[1..], true, true) && Final(e[1..], true, true) == (true, false);
    }
  }

  lemma QuietString(s: CString)
    ensures Quiet(StringText(s))
  {
    var e, q: seq<Byte> := Escape(s), [QUOTE];
    InsideEscape(s);
    assert Final(q, false, false) == (true, false) && SlashFree(q, false, false) by {
      assert q[1..] == [];
    }
    assert Final(q, true, false) == (false, false) && SlashFree(q, true, false) by {
      assert q[1..] == [];
    }
    SlashFreeJoin(q, e, false, false);
    SlashFreeJoin(q + e, q, false, false);
  }

  lemma {:induction false} PaddedDigits(n: nat, width: nat)
    ensures forall i :: 0 <= i < |Padded(n, width)| ==> IsDigit(Padded(n, width)[i])
  {
    if width > 0 {
      PaddedDigits(n / 10, width - 1);
    }
  }

  lemma QuietNumber(x: real)
    ensures Quiet(NumberText(x))
  {
    if IsInt32(x) {
      var n := x.Floor;
      DigitsAreDigits(if n < 0 then -n else n);
    } else {
      var n := Rounded((if x < 0.0 then -x else x) * 1000000.0);
      DigitsAreDigits(n / 1000000);
      PaddedDigits(n, 6);
    }
    hide DigitsOf, Padded, Rounded;
    assert forall i :: 0 <= i < |NumberText(x)| ==> Plain(NumberText(x)[i]);
    QuietPlain(NumberText(x));
  }

  lemma {:induction false} QuietText(v: Json, level: nat, pretty: bool)
    ensures Quiet(Text(v, level, pretty))
    decreases v, 1, 0
  {
    match v
    case String(s) => QuietString(s);
    case Number(x) => QuietNumber(x);
    case Boolean(b) => QuietPlain(Text(v, level, pretty));
    case Null => QuietPlain(Text(v, level, pretty));
    case _ =>
      hide Quiet;
      QuietPlain([Opening(v)]);
      QuietPlain([Closing(v)]);
      QuietPlain([]);
      QuietPlain(Newline(pretty));
      QuietPlain(Indent(level, pretty));
      QuietEntries(v, 0, level, pretty);
      var entries := Entries(v, 0, level, pretty);
      QuietJoin(Newline(pretty), entries);
      QuietJoin(Newline(pretty) + entries, Indent(level, pretty));
      QuietJoin([Opening(v)], Inside(v, level, pretty));
      QuietJoin([Opening(v)] + Inside(v, level, pretty), [Closing(v)]);
  }

  lemma {:induction false} QuietEntries(v: Json, i: nat, level: nat, pretty: bool)
    requires IsContainer(v) && i <= Count(v)
    ensures Quiet(Entries(v, i, level, pretty))
    decreases v, 0, Count(v) - i
  {
    hide Quiet, Text, Label;
    if i == Count(v) {
      QuietPlain([]);
    } else {
      QuietText(Child(v, i), level + 1, pretty);
      QuietEntries(v, i + 1, level, pretty);
      QuietLabel(v, i, pretty);
      QuietEntry(v, i, level, pretty);
    }
  }

  lemma QuietEntry(v: Json, i: nat, level: nat, pretty: bool)
    requires IsContainer(v) && i < Count(v)
    requires Quiet(Text(Child(v, i), level + 1, pretty)) && Quiet(Entries(v, i + 1, level, pretty)) && Quiet(Label(v, i, pretty))
    ensures Quiet(Entries(v, i, level, pretty))
  {
    var comma: seq<Byte> := if i < Count(v) - 1 then [COMMA] else [];
    QuietPlain(Indent(level + 1, pretty));
    QuietPlain(comma);
    QuietPlain(Newline(pretty));
    hide Quiet, Text, Indent, Newline, Label;
    QuietSix(Indent(level + 1, pretty), Label(v, i, pretty), Text(Child(v, i), level + 1, pretty), comma, Newline(pretty),
             Entries(v, i + 1, level, pretty));
  }

  lemma QuietSix(a: seq<Byte>, b: seq<Byte>, c: seq<Byte>, d: seq<Byte>, e: seq<Byte>, f: seq<Byte>)
    requires Quiet(a) && Quiet(b) && Quiet(c) && Quiet(d) && Quiet(e) && Quiet(f)
    ensures Quiet(a + b + c + d + e + f)
  {
    hide Quiet;
    QuietJoin(a, b);
    QuietJoin(a + b, c);
    QuietJoin(a + b + c, d);
    QuietJoin(a + b + c + d, e);
    QuietJoin(a + b + c + d + e, f);
  }

  lemma QuietLabel(v: Json, i: nat, pretty: bool)
    requires IsContainer(v) && i < Count(v)
    ensures Quiet(Label(v, i, pretty))
  {
    if v.Array? {
      QuietPlain([]);
    } else {
      var s := StringText(v.members[i].name);
      var space: seq<Byte> := if pretty then [SPACE] else [];
      QuietString(v.members[i].name);
      QuietPlain([COLON]);
      QuietPlain(space);
      hide Quiet;
      QuietJoin(s, [COLON]);
      QuietJoin(s + [COLON], space);
    }
  }

  // ---------------------------------------------------------------------------------------
  // Parsing with comments

  const OPEN_COMMENT: seq<Byte> := [SLASH, STAR]
  const CLOSE_COMMENT: seq<Byte> := [STAR, SLASH]
  const LINE_COMMENT: seq<Byte> := [SLASH, SLASH]

  function WithoutComments(s: seq<Byte>): seq<Byte> {
    var t := Remaining(s, false, false, OPEN_COMMENT, CLOSE_COMMENT);
    Remaining(t, false, false, LINE_COMMENT, [NEWLINE])
  }

  // Stripping comments leaves what the serializer writes as it is, so both ways of parsing it
  // give the same tree.
  lemma SerializedHasNoComments(v: Json, level: nat, pretty: bool)
    ensures WithoutComments(Text(v, level, pretty)) == Text(v, level, pretty)
  {
    var t := Text(v, level, pretty);
    QuietText(v, level, pretty);
    SlashFreeRemains(t, false, false, OPEN_COMMENT, CLOSE_COMMENT);
    SlashFreeRemains(t, false, false, LINE_COMMENT, [NEWLINE]);
  }

  lemma ParseWithCommentsUndoesSerialize(v: Json, pretty: bool)
    requires IsContainer(v) && WellFormed(v)
    ensures Parse(WithoutComments(Text(v, 0, pretty)))
      == if Depth(v) <= MAX_NESTING && CleanStrings(v) then Some(AsRead(v)) else None
  {
    SerializedHasNoComments(v, 0, pretty);
    assert Text(v, 0, pretty) + [] == Text(v, 0, pretty);
    ParseUndoesSerialize(v, pretty, []);
  }

  lemma KeptStep(s: seq<Byte>, inString: bool, escaped: bool, start: seq<Byte>, end: seq<Byte>)
    requires s != [] && (inString || s[0] != SLASH) && start != [] && start[0] == SLASH && end != []
    ensures Remaining(s, inString, escaped, start, end) == [s[0]] +
      Remaining(s[1..], if s[0] == QUOTE && !escaped then !inString else inString, s[0] == BACKSLASH && !escaped, start, end)
  {
  }

  // Text without slashes outside strings is kept in front of whatever follows.
  lemma {:induction false} QuietKept(a: seq<Byte>, inString: bool, escaped: bool, start: seq<Byte>, end: seq<Byte>, t: seq<Byte>)
    requires SlashFree(a, inString, escaped) && Final(a, inString, escaped) == (false, false)
    requires start != [] && start[0] == SLASH && end != []
    ensures Remaining(a + t, inString, escaped, start, end) == a + Remaining(t, false, false, start, end)
  {
    hide Remaining, SlashFree, Final;
    var left := Remaining(t, false, false, start, end);
    ScanStep(a, inString, escaped);
    if a == [] {
      assert a + t == t && a + left == left;
    } else {
      var inside := if a[0] == QUOTE && !escaped then !inString else inString;
      QuietKept(a[1..], inside, a[0] == BACKSLASH && !escaped, start, end, t);
      assert (a + t)[1..] == a[1..] + t;
      KeptStep(a + t, inString, escaped, start, end);
      assert [a[0]] + a[1..] == a;
      Assoc([a[0]], a[1..], left);
    }
  }

  // A comment outside strings turns into as many spaces.
  lemma CommentBecomesSpaces(a: seq<Byte>, inString: bool, escaped: bool, start: seq<Byte>, body: seq<Byte>,
                             end: seq<Byte>, b: seq<Byte>)
    requires SlashFree(a, inString, escaped) && Final(a, inString, escaped) == (false, false)
    requires start != [] && start[0] == SLASH && end != [] && FindToken(body + end + b, end) == Some(|body|)
    ensures Remaining(a + (start + (body + end + b)), inString, escaped, start, end)
      == a + (Spaces(|start| + |body| + |end|) + Remaining(b, false, false, start, end))
  {
    hide Remaining, FindToken, SlashFree, Final, Spaces;
    QuietKept(a, inString, escaped, start, end, start + (body + end + b));
    CommentHere(false, start, body, end, b);
  }

  lemma ScanStep(a: seq<Byte>, inString: bool, escaped: bool)
    requires SlashFree(a, inString, escaped)
    ensures a == [] ==> Final(a, inString, escaped) == (inString, escaped)
    ensures a != [] ==>
      var inside, behind := if a[0] == QUOTE && !escaped then !inString else inString, a[0] == BACKSLASH && !escaped;
      SlashFree(a[1..], inside, behind) && Final(a, inString, escaped) == Final(a[1..], inside, behind)
      && (inString || a[0] != SLASH)
  {
  }

  lemma CommentHere(escaped: bool, start: seq<Byte>, body: seq<Byte>, end: seq<Byte>, b: seq<Byte>)
    requires start != [] && start[0] == SLASH && end != [] && FindToken(body + end + b, end) == Some(|body|)
    ensures Remaining(start + (body + end + b), false, escaped, start, end)
      == Spaces(|start| + |body| + |end|) + Remaining(b, false, false, start, end)
  {
    hide Remaining, FindToken;
    var t := body + end + b;
    var s := start + t;
    assert s[|start|..] == t && t[|body| + |end|..] == b;
    assert s[0] == SLASH && start <= s;
    CommentRemaining(s, escaped, start, end);
    assert Spaces(|start| + |body| + |end|) == Spaces(|start|) + Spaces(|body| + |end|);
    Assoc(Spaces(|start|), Spaces(|body| + |end|), Remaining(b, false, false, start, end));
  }

  // Nothing but bytes of the other text and spaces.
  predicate MadeOf(r: seq<Byte>, s: seq<Byte>) {
    forall b <- r :: b in s || b == SPACE
  }

  lemma MadeOfJoin(a: seq<Byte>, b: seq<Byte>, s: seq<Byte>)
    requires MadeOf(a, s) && MadeOf(b, s)
    ensures MadeOf(a + b, s)
  {
  }

  lemma MadeOfPart(r: seq<Byte>, s: seq<Byte>, k: nat)
    requires k <= |s| && MadeOf(r, s[k..])
    ensures MadeOf(r, s)
  {
  }

  lemma {:induction false} RemainingBytes(s: seq<Byte>, inString: bool, escaped: bool, start: seq<Byte>, end: seq<Byte>)
    requires start != [] && end != []
    ensures MadeOf(Remaining(s, inString, escaped, start, end), s)
    decreases |s|, 1
  {
    hide FindToken, MadeOf;
    if s == [] {
      TextBytes(s);
    } else if !inString && start <= s && !((s[0] == BACKSLASH || s[0] == QUOTE) && !escaped) {
      CommentRemaining(s, escaped, start, end);
      hide Remaining;
      CommentBytes(s, |start|, start, end);
    } else {
      var inside, behind := if s[0] == QUOTE && !escaped then !inString else inString, s[0] == BACKSLASH && !escaped;
      assert Remaining(s, inString, escaped, start, end) == [s[0]] + Remaining(s[1..], inside, behind, start, end);
      hide Remaining;
      RemainingBytes(s[1..], inside, behind, start, end);
      MadeOfPart(Remaining(s[1..], inside, behind, start, end), s, 1);
      FirstByte(s);
      MadeOfJoin([s[0]], Remaining(s[1..], inside, behind, start, end), s);
    }
  }

  lemma FirstByte(s: seq<Byte>)
    requires s != []
    ensures MadeOf([s[0]], s)
  {
    assert s[0] in s;
  }

  lemma SpaceBytes(n: nat, s: seq<Byte>)
    ensures MadeOf(Spaces(n), s)
  {
  }

  lemma {:induction false} CommentBytes(s: seq<Byte>, m: nat, start: seq<Byte>, end: seq<Byte>)
    requires start != [] && end != [] && 0 < m <= |s|
    ensures MadeOf(CommentText(s[m..], m, start, end), s)
    decreases |s|, 0
  {
    hide Remaining, FindToken, MadeOf, Spaces;
    var t := s[m..];
    var k := FindToken(t, end);
    SpaceBytes(m, s);
    if k.None? {
      TextBytes(t);
      MadeOfPart(t, s, m);
      MadeOfJoin(Spaces(m), t, s);
    } else {
      var n := k.value + |end|;
      var more := Remaining(t[n..], false, false, start, end);
      RemainingBytes(t[n..], false, false, start, end);
      MadeOfPart(more, t, n);
      MadeOfPart(more, s, m);
      SpaceBytes(n, s);
      MadeOfJoin(Spaces(n), more, s);
      MadeOfJoin(Spaces(m), Spaces(n) + more, s);
    }
  }

  lemma TextBytes(s: seq<Byte>)
    ensures MadeOf(s, s)
  {
  }

  // json_parse_string_with_comments: the copy of the text is stripped in place, then parsed.
  method JsonParseStringWithComments(text: CString) returns (v: Option<Json>)
    ensures v == Parse(WithoutComments(text))
  {
    hide Remaining, Parse;
    var n := |text|;
    var a := new Byte[n + 1](i => if 0 <= i < n then text[i] else 0);
    assert a[..n] == text;
    RemoveComments(a, n, OPEN_COMMENT, CLOSE_COMMENT);
    RemainingBytes(text, false, false, OPEN_COMMENT, CLOSE_COMMENT);
    ghost var t := a[..n];
    assert a[n..][0] == 0;
    RemoveComments(a, n, LINE_COMMENT, [NEWLINE]);
    RemainingBytes(t, false, false, LINE_COMMENT, [NEWLINE]);
    v := JsonParseString(a[..n]);
  }
}
