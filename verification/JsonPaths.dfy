// parson.c: what setting, removing and dotted paths mean for the members of an object.
module JsonPaths {
  import opened Wrappers
  import opened CStrings
  import opened JsonTree

  const PERIOD: Byte := 46

  // ---------------------------------------------------------------------------------------
  // Members

  // json_object_get_value
  function Lookup(ms: seq<Member>, name: CString): Option<Json> {
    var k := Find(ms, name);
    if k < |ms| then Some(ms[k].value) else None
  }

  // The value of a member replaced, or a new member behind the others.
  function SetMember(ms: seq<Member>, name: CString, v: Json): (r: seq<Member>)
  {
    var k := Find(ms, name);
    if k < |ms| then ms[k := Member(name, v)] else ms + [Member(name, v)]
  }

  // The last member takes the place of the one that goes.
  function RemoveMember(ms: seq<Member>, k: nat): seq<Member>
    requires k < |ms|
  {
    ms[k := ms[|ms| - 1]][..|ms| - 1]
  }

  lemma LookupIs(ms: seq<Member>, name: CString)
    ensures Lookup(ms, name) == None <==> forall i :: 0 <= i < |ms| ==> ms[i].name != name
    ensures forall i :: 0 <= i < |ms| && Distinct(ms) && ms[i].name == name ==> Lookup(ms, name) == Some(ms[i].value)
  {
    forall i | 0 <= i < |ms| && Distinct(ms) && ms[i].name == name
      ensures Lookup(ms, name) == Some(ms[i].value)
    {
      FindDistinct(ms, i);
    }
  }

  lemma SetMemberLaws(ms: seq<Member>, name: CString, v: Json, other: CString)
    requires Distinct(ms)
    ensures Distinct(SetMember(ms, name, v))
    ensures Lookup(SetMember(ms, name, v), other) == if other == name then Some(v) else Lookup(ms, other)
  {
    var r, k := SetMember(ms, name, v), Find(ms, name);
    LookupIs(ms, other);
    LookupIs(r, other);
    hide Lookup;
    assert r[k] == Member(name, v);
    assert forall i :: 0 <= i < |ms| && i != k ==> r[i] == ms[i];
  }

  lemma RemoveMemberLaws(ms: seq<Member>, k: nat, other: CString)
    requires Distinct(ms) && k < |ms|
    ensures Distinct(RemoveMember(ms, k))
    ensures Lookup(RemoveMember(ms, k), other) == if other == ms[k].name then None else Lookup(ms, other)
  {
    var r, n := RemoveMember(ms, k), |ms| - 1;
    LookupIs(ms, other);
    LookupIs(r, other);
    hide Lookup;
    assert forall i :: 0 <= i < n ==> r[i] == ms[if i == k then n else i];
    assert forall i :: 0 <= i < |ms| && i != k ==> ms[i] == r[if i == n then k else i];
  }

  // ---------------------------------------------------------------------------------------
  // Dotted paths

  // The position of the first period, or the length.
  function Dot(path: seq<Byte>): (k: nat)
    ensures k <= |path| && (k < |path| ==> path[k] == PERIOD)
    ensures forall i :: 0 <= i < k ==> path[i] != PERIOD
  {
    if path == [] || path[0] == PERIOD then 0 else 1 + Dot(path[1..])
  }

  // json_object_dotget_value
  function DotGet(v: Json, path: CString): Option<Json>
    decreases |path|
  {
    var d := Dot(path);
    if !v.Object? then None
    else if d == |path| then Lookup(v.members, path)
    else
      match Lookup(v.members, path[..d])
      case None => None
      case Some(child) => DotGet(child, path[d + 1..])
  }

  // One period between two names: the object under the first name is asked for the second one.
  lemma GetThroughPeriod(v: Json, first: CString, rest: CString)
    requires '.' as int !in first
    ensures DotGet(v, first) == if v.Object? then Lookup(v.members, first) else None
    ensures DotGet(v, first + ['.' as int] + rest)
      == if DotGet(v, first).Some? then DotGet(DotGet(v, first).value, rest) else None
  {
    var path := first + ['.' as int] + rest;
    assert path[|first|] == '.' as int && forall i :: 0 <= i < |first| ==> path[i] == first[i];
    assert Dot(path) == |first| && Dot(first) == |first|;
    assert path[..|first|] == first && path[|first| + 1..] == rest;
  }

  // The object that a path leads through, a new one if there is none yet.
  function Through(v: Json, name: CString): Json
    requires v.Object?
  {
    var child := Lookup(v.members, name);
    if child.Some? then child.value else Object([])
  }

  // The tree after a path has been set, with the objects that were missing on the way. A member
  // that is not an object blocks the way.
  function DotPut(v: Json, path: CString, x: Json): (r: Json)
    requires v.Object?
    ensures r.Object?
    decreases |path|
  {
    var d := Dot(path);
    if d == |path| then Object(SetMember(v.members, path, x))
    else
      var child := Through(v, path[..d]);
      if child.Object? then Object(SetMember(v.members, path[..d], DotPut(child, path[d + 1..], x))) else v
  }

  // A path without a period names a member, and a period leads into the object in front of it.
  lemma PutThroughPeriod(v: Json, first: CString, rest: CString, x: Json)
    requires v.Object? && '.' as int !in first
    ensures DotPut(v, first, x) == Object(SetMember(v.members, first, x))
    ensures Lookup(v.members, first) == None ==>
      DotPut(v, first + ['.' as int] + rest, x) == DotPut(v, first, DotPut(Object([]), rest, x))
    ensures Lookup(v.members, first).Some? ==>
      var child := Lookup(v.members, first).value;
      DotPut(v, first + ['.' as int] + rest, x) == if child.Object? then DotPut(v, first, DotPut(child, rest, x)) else v
  {
    var path := first + ['.' as int] + rest;
    assert path[|first|] == '.' as int && forall i :: 0 <= i < |first| ==> path[i] == first[i];
    assert Dot(path) == |first| && Dot(first) == |first|;
    assert path[..|first|] == first && path[|first| + 1..] == rest;
  }

  lemma OneMember(name: CString, x: Json)
    ensures SetMember([], name, x) == [Member(name, x)] && Lookup([Member(name, x)], name) == Some(x)
  {
  }

  // The path gw.id of an object without members.
  lemma SamplePath(x: Json)
    ensures var v := Object([Member(Ascii("gw"), Object([Member(Ascii("id"), x)]))]);
      DotPut(Object([]), Ascii("gw.id"), x) == v && DotGet(v, Ascii("gw.id")) == Some(x)
  {
    hide DotPut, DotGet;
    var empty, path := Object([]), Ascii("gw.id");
    assert path == Ascii("gw") + ['.' as int] + Ascii("id");
    var inner := Object([Member(Ascii("id"), x)]);
    OneMember(Ascii("id"), x);
    OneMember(Ascii("gw"), inner);
    PutThroughPeriod(empty, Ascii("id"), [], x);
    PutThroughPeriod(empty, Ascii("gw"), Ascii("id"), x);
    PutThroughPeriod(empty, Ascii("gw"), Ascii("id"), inner);
    GetThroughPeriod(inner, Ascii("id"), []);
    GetThroughPeriod(Object([Member(Ascii("gw"), inner)]), Ascii("gw"), Ascii("id"));
  }

  lemma DotPutSteps(v: Json, path: CString, x: Json)
    requires v.Object?
    ensures Dot(path) == |path| ==> DotPut(v, path, x) == Object(SetMember(v.members, path, x))
    ensures Dot(path) < |path| ==>
      var name, rest := path[..Dot(path)], path[Dot(path) + 1..];
      var k := Find(v.members, name);
      if k == |v.members| then DotPut(v, path, x) == Object(v.members + [Member(name, DotPut(Object([]), rest, x))])
      else if v.members[k].value.Object? then
        DotPut(v, path, x) == Object(v.members[k := Member(name, DotPut(v.members[k].value, rest, x))])
      else DotPut(v, path, x) == v
  {
  }

  // No member on the way that is not an object.
  predicate Passable(v: Json, path: CString)
    requires v.Object?
    decreases |path|
  {
    var d := Dot(path);
    d == |path| || (Through(v, path[..d]).Object? && Passable(Through(v, path[..d]), path[d + 1..]))
  }

  lemma EmptyIsPassable(path: CString)
    ensures Passable(Object([]), path)
  {
  }

  // Every object of the tree has distinct names.
  predicate DistinctNames(v: Json) {
    (v.Object? ==> Distinct(v.members))
    && (IsContainer(v) ==> forall i :: 0 <= i < Count(v) ==> DistinctNames(Child(v, i)))
  }

  lemma DistinctThrough(v: Json, name: CString)
    requires v.Object? && DistinctNames(v)
    ensures DistinctNames(Through(v, name)) && Distinct(v.members)
  {
    var k := Find(v.members, name);
    if k < |v.members| {
      assert Child(v, k) == v.members[k].value;
    }
  }

  // What has been set is what is got, unless the way is blocked: then nothing is.
  lemma {:induction false} GetAfterPut(v: Json, path: CString, x: Json)
    requires v.Object? && DistinctNames(v)
    ensures DotGet(DotPut(v, path, x), path) == if Passable(v, path) then Some(x) else None
    decreases |path|
  {
    hide Lookup, SetMember, DistinctNames, Through;
    var d := Dot(path);
    var name := path[..d];
    DistinctThrough(v, name);
    if d == |path| {
      SetMemberLaws(v.members, path, x, path);
    } else if !Through(v, name).Object? {
      ThroughIs(v, name, path[d + 1..]);
    } else {
      var child, rest := Through(v, name), path[d + 1..];
      GetAfterPut(child, rest, x);
      SetMemberLaws(v.members, name, DotPut(child, rest, x), name);
    }
  }

  // The paths part at some component: neither leads through the other.
  predicate Apart(p: CString, q: CString)
    decreases |p|
  {
    var d, e := Dot(p), Dot(q);
    p[..d] != q[..e] || (d < |p| && e < |q| && Apart(p[d + 1..], q[e + 1..]))
  }

  // Paths that part from the one set are not touched.
  lemma {:induction false} PutKeepsOthers(v: Json, path: CString, x: Json, other: CString)
    requires v.Object? && DistinctNames(v) && Apart(path, other)
    ensures DotGet(DotPut(v, path, x), other) == DotGet(v, other)
    decreases |path|
  {
    hide Lookup, SetMember, DistinctNames, Through, DotGet;
    var d, e := Dot(path), Dot(other);
    var name := path[..d];
    DistinctThrough(v, name);
    DotGetSteps(v, other);
    DotGetSteps(DotPut(v, path, x), other);
    assert d == |path| ==> name == path;
    assert e == |other| ==> other[..e] == other;
    if d == |path| {
      SetMemberLaws(v.members, path, x, other[..e]);
    } else if Through(v, name).Object? {
      var child, rest := Through(v, name), path[d + 1..];
      SetMemberLaws(v.members, name, DotPut(child, rest, x), other[..e]);
      if name == other[..e] {
        PutKeepsOthers(child, rest, x, other[e + 1..]);
        ThroughIs(v, name, other[e + 1..]);
      }
    }
  }

  lemma DotGetSteps(v: Json, path: CString)
    requires v.Object?
    ensures var d := Dot(path);
      DotGet(v, path) == if d == |path| then Lookup(v.members, path) else GetInside(Lookup(v.members, path[..d]), path[d + 1..])
  {
    hide Lookup, Dot;
  }

  function GetInside(v: Option<Json>, path: CString): Option<Json> {
    if v.None? then None else DotGet(v.value, path)
  }

  lemma ThroughIs(v: Json, name: CString, rest: CString)
    requires v.Object?
    ensures DotGet(Through(v, name), rest) == match Lookup(v.members, name) case None => None case Some(c) => DotGet(c, rest)
    ensures !Through(v, name).Object? ==> DotGet(Through(v, name), rest) == None && Lookup(v.members, name).Some?
  {
  }

  // A path that goes on beyond the one set leads into the new value.
  lemma {:induction false} GetBeyondPut(v: Json, path: CString, x: Json, more: CString)
    requires v.Object? && DistinctNames(v)
    ensures DotGet(DotPut(v, path, x), path + [PERIOD] + more) == if Passable(v, path) then DotGet(x, more) else None
    decreases |path|
  {
    hide Lookup, SetMember, DistinctNames, Through;
    var d := Dot(path);
    var longer, name := path + [PERIOD] + more, path[..d];
    DotUnique(longer, d);
    assert longer[..d] == name;
    DistinctThrough(v, name);
    if d == |path| {
      assert name == path && longer[d + 1..] == more;
      SetMemberLaws(v.members, path, x, path);
    } else if !Through(v, name).Object? {
      assert longer[d + 1..] == path[d + 1..] + [PERIOD] + more;
      ThroughIs(v, name, longer[d + 1..]);
    } else {
      var child, rest := Through(v, name), path[d + 1..];
      assert longer[d + 1..] == rest + [PERIOD] + more;
      GetBeyondPut(child, rest, x, more);
      SetMemberLaws(v.members, name, DotPut(child, rest, x), name);
    }
  }

  lemma DotUnique(path: seq<Byte>, d: nat)
    requires d < |path| && path[d] == PERIOD && forall i :: 0 <= i < d ==> path[i] != PERIOD
    ensures Dot(path) == d
  {
  }

  // Setting keeps names distinct everywhere.
  lemma {:induction false} PutKeepsDistinct(v: Json, path: CString, x: Json)
    requires v.Object? && DistinctNames(v) && DistinctNames(x)
    ensures DistinctNames(DotPut(v, path, x))
    decreases |path|
  {
    var d := Dot(path);
    var name := path[..d];
    DistinctThrough(v, name);
    if d == |path| {
      SetKeepsDistinct(v.members, path, x);
    } else if Through(v, name).Object? {
      PutKeepsDistinct(Through(v, name), path[d + 1..], x);
      SetKeepsDistinct(v.members, name, DotPut(Through(v, name), path[d + 1..], x));
    }
  }

  lemma SetKeepsDistinct(ms: seq<Member>, name: CString, x: Json)
    requires DistinctNames(Object(ms)) && DistinctNames(x)
    ensures DistinctNames(Object(SetMember(ms, name, x)))
  {
    SetMemberLaws(ms, name, x, name);
    var r := Object(SetMember(ms, name, x));
    forall i | 0 <= i < Count(r)
      ensures DistinctNames(Child(r, i))
    {
      if r.members[i].value != x {
        assert Child(Object(ms), i) == Child(r, i);
      }
    }
  }

  lemma {:induction false} WellFormedDistinct(v: Json)
    requires WellFormed(v)
    ensures DistinctNames(v)
  {
    if IsContainer(v) {
      forall i | 0 <= i < Count(v)
        ensures DistinctNames(Child(v, i))
      {
        WellFormedDistinct(Child(v, i));
      }
    }
  }
}
