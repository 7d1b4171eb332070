// json_wrap.c: members and array items of a value, by name and by index.
module JsonWrap {
  import opened Wrappers
  import opened CStrings
  import opened JsonTree
  import opened JsonPaths

  // jsonval_dotget_value, for a name without periods.
  function Get(v: Json, name: CString): Option<Json> {
    if v.Object? then Lookup(v.members, name) else None
  }

  // jsonobj_dotset_value, for a name without periods. A null pointer is not stored, and a full
  // object takes no new name.
  function Set(v: Json, name: CString, x: Option<Json>): Json {
    if !v.Object? || x.None? then v
    else if Lookup(v.members, name).Some? || |v.members| < OBJECT_MAX_CAPACITY then
      Object(SetMember(v.members, name, x.value))
    else v
  }

  lemma PlainNames(v: Json, name: CString, x: Json)
    requires PERIOD !in name
    ensures DotGet(v, name) == Get(v, name)
    ensures Takes(v, name) ==> Set(v, name, Some(x)) == DotPut(v, name, x)
    ensures !Takes(v, name) ==> Set(v, name, Some(x)) == v
  {
    assert forall i :: 0 <= i < |name| ==> name[i] in name;
    assert Dot(name) == |name|;
  }

  // The items of an array; none if there is no array under the name.
  function Items(v: Json, name: CString): seq<Json> {
    var a := Get(v, name);
    if a.Some? && a.value.Array? then a.value.items else []
  }

  // jsonval_dotget_value_on_arrray_with_index: the index is taken as a size, so that a negative
  // one is too large.
  function ItemAt(v: Json, name: CString, idx: int): Option<Json> {
    if 0 <= idx < |Items(v, name)| then Some(Items(v, name)[idx]) else None
  }

  // jsonobj_check_array
  function CheckArray(v: Json, name: CString): Json {
    var a := Get(v, name);
    if a.Some? && a.value.Array? then v else Set(v, name, Some(Array([])))
  }

  // jsonval_append_value_to_arrray
  function Append(v: Json, name: CString, x: Json): Json {
    var w := CheckArray(v, name);
    var a := Get(w, name);
    if a.Some? && a.value.Array? && |a.value.items| < ARRAY_MAX_CAPACITY then Set(w, name, Some(Array(a.value.items + [x]))) else w
  }

  // The value after the item at an index has changed in place.
  function WithItem(v: Json, name: CString, i: nat, y: Json): Json
    requires i < |Items(v, name)|
  {
    Object(SetMember(v.members, name, Array(Items(v, name)[i := y])))
  }

  // An item more, unless the array is full.
  function Appended<X>(s: seq<X>, x: X): seq<X> {
    if |s| < ARRAY_MAX_CAPACITY then s + [x] else s
  }

  // An object that has the name or takes a new one.
  predicate Takes(v: Json, name: CString) {
    v.Object? && (Lookup(v.members, name).Some? || |v.members| < OBJECT_MAX_CAPACITY)
  }

  // An object that takes any name.
  predicate Open(v: Json) {
    v.Object? && Distinct(v.members) && |v.members| < OBJECT_MAX_CAPACITY
  }

  lemma SetLaws(v: Json, name: CString, x: Json, other: CString)
    requires Takes(v, name) && Distinct(v.members)
    ensures Set(v, name, Some(x)) == Object(SetMember(v.members, name, x))
    ensures Distinct(SetMember(v.members, name, x))
    ensures Get(Set(v, name, Some(x)), other) == if other == name then Some(x) else Get(v, other)
  {
    SetMemberLaws(v.members, name, x, other);
  }

  // Where there is neither the name nor room for it, nothing changes.
  lemma NotTaken(v: Json, name: CString, x: Json)
    requires !Takes(v, name)
    ensures Append(v, name, x) == v && Items(v, name) == []
  {
  }

  lemma AppendLaws(v: Json, name: CString, x: Json, other: CString)
    requires Takes(v, name) && Distinct(v.members)
    ensures Append(v, name, x).Object? && Distinct(Append(v, name, x).members)
    ensures Items(Append(v, name, x), name) == Appended(Items(v, name), x)
    ensures other != name ==> Get(Append(v, name, x), other) == Get(v, other)
    ensures Append(v, name, x) == Object(SetMember(v.members, name, Array(Appended(Items(v, name), x))))
  {
    var a := Get(v, name);
    var w := CheckArray(v, name);
    SetLaws(v, name, Array([]), name);
    SetLaws(v, name, Array([]), other);
    SetTwice(v.members, name, Array([]), Array([x]));
    var ys := Appended(Items(v, name), x);
    SetLaws(v, name, Array(ys), name);
    SetLaws(v, name, Array(ys), other);
    if a.Some? && a.value.Array? && |a.value.items| >= ARRAY_MAX_CAPACITY {
      SetSame(v.members, name);
    }
    assert Append(v, name, x) == Object(SetMember(v.members, name, Array(ys)));
  }

  lemma SetTwice(ms: seq<Member>, name: CString, x: Json, y: Json)
    requires Distinct(ms)
    ensures SetMember(SetMember(ms, name, x), name, y) == SetMember(ms, name, y)
    ensures |SetMember(ms, name, x)| <= |ms| + 1
  {
    var k, r := Find(ms, name), SetMember(ms, name, x);
    SetMemberLaws(ms, name, x, name);
    assert r[k].name == name;
    FindDistinct(r, k);
  }

  lemma SetSame(ms: seq<Member>, name: CString)
    requires Lookup(ms, name).Some?
    ensures SetMember(ms, name, Lookup(ms, name).value) == ms
  {
  }

  lemma WithItemLaws(v: Json, name: CString, i: nat, y: Json, other: CString)
    requires v.Object? && Distinct(v.members) && i < |Items(v, name)|
    ensures Distinct(WithItem(v, name, i, y).members)
    ensures Items(WithItem(v, name, i, y), name) == Items(v, name)[i := y]
    ensures other != name ==> Get(WithItem(v, name, i, y), other) == Get(v, other)
  {
    SetMemberLaws(v.members, name, Array(Items(v, name)[i := y]), name);
    SetMemberLaws(v.members, name, Array(Items(v, name)[i := y]), other);
  }

  // ---------------------------------------------------------------------------------------
  // Shape: well formed, and at most so deep

  predicate Good(v: Json, n: nat) {
    (v.Object? ==> Distinct(v.members) && |v.members| <= OBJECT_MAX_CAPACITY)
    && (v.Array? ==> |v.items| <= ARRAY_MAX_CAPACITY)
    && (IsContainer(v) && Count(v) > 0 ==> n > 0 && forall i :: 0 <= i < Count(v) ==> Good(Child(v, i), n - 1))
  }

  lemma GoodMember(v: Json, name: CString, n: nat)
    requires Good(v, n) && Get(v, name).Some?
    ensures n > 0 && Good(Get(v, name).value, n - 1)
  {
    var k := Find(v.members, name);
    assert Child(v, k) == v.members[k].value;
  }

  lemma GoodItem(v: Json, name: CString, i: nat, n: nat)
    requires Good(v, n) && i < |Items(v, name)|
    ensures n > 1 && Good(Items(v, name)[i], n - 2)
  {
    GoodMember(v, name, n);
    var a := Get(v, name).value;
    assert Child(a, i) == a.items[i];
  }

  lemma GoodArray(items: seq<Json>, n: nat)
    requires n > 0 && |items| <= ARRAY_MAX_CAPACITY && forall i :: 0 <= i < |items| ==> Good(items[i], n - 1)
    ensures Good(Array(items), n)
  {
  }

  lemma GoodSet(v: Json, name: CString, x: Json, n: nat)
    requires Good(v, n) && v.Object? && n > 0 && Good(x, n - 1) && |v.members| < OBJECT_MAX_CAPACITY
    ensures Good(Object(SetMember(v.members, name, x)), n)
  {
    SetMemberLaws(v.members, name, x, name);
    var r := Object(SetMember(v.members, name, x));
    forall i | 0 <= i < Count(r)
      ensures Good(Child(r, i), n - 1)
    {
      if i < Count(v) && i != Find(v.members, name) {
        assert Child(v, i) == Child(r, i);
      }
    }
  }

  lemma GoodAppend(v: Json, name: CString, x: Json, n: nat)
    requires Open(v) && Good(v, n) && n > 1 && Good(x, n - 2)
    ensures Good(Append(v, name, x), n)
  {
    AppendLaws(v, name, x, name);
    var y := Array(Appended(Items(v, name), x));
    forall i | 0 <= i < |y.items|
      ensures Good(y.items[i], n - 2)
    {
      if i < |Items(v, name)| {
        GoodItem(v, name, i, n);
      }
    }
    if Get(v, name).Some? {
      GoodMember(v, name, n);
    }
    GoodArray(y.items, n - 1);
    GoodSet(v, name, y, n);
  }

  lemma GoodWithItem(v: Json, name: CString, i: nat, y: Json, n: nat)
    requires Open(v) && Good(v, n) && n > 1 && i < |Items(v, name)| && Good(y, n - 2)
    ensures Good(WithItem(v, name, i, y), n)
  {
    var items := Items(v, name)[i := y];
    forall j | 0 <= j < |items|
      ensures Good(items[j], n - 2)
    {
      if j != i {
        GoodItem(v, name, j, n);
      }
    }
    GoodMember(v, name, n);
    GoodArray(items, n - 1);
    GoodSet(v, name, Array(items), n);
  }
}
