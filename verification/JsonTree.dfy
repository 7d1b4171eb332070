// The values of parson.c as trees. Object members keep their order.
module JsonTree {
  import opened CStrings

  datatype Json =
    | Object(members: seq<Member>)
    | Array(items: seq<Json>)
    | String(text: CString)
    | Number(value: real)
    | Boolean(truth: bool)
    | Null

  datatype Member = Member(name: CString, value: Json)

  const OBJECT_MAX_CAPACITY := 960
  const ARRAY_MAX_CAPACITY := 122880
  const MAX_NESTING := 19

  predicate IsContainer(v: Json) {
    v.Object? || v.Array?
  }

  function Count(v: Json): nat
    requires IsContainer(v)
  {
    if v.Object? then |v.members| else |v.items|
  }

  function Child(v: Json, i: nat): (c: Json)
    requires IsContainer(v) && i < Count(v)
    ensures c < v
  {
    if v.Object? then v.members[i].value else v.items[i]
  }

  // The position of a name, or the number of members.
  function Find(ms: seq<Member>, name: CString): (k: nat)
    ensures k <= |ms|
    ensures k < |ms| ==> ms[k].name == name
    ensures forall i :: 0 <= i < k ==> ms[i].name != name
  {
    if ms == [] then 0 else if ms[0].name == name then 0 else 1 + Find(ms[1..], name)
  }

  predicate Distinct(ms: seq<Member>) {
    forall i, j :: 0 <= i < j < |ms| ==> ms[i].name != ms[j].name
  }

  lemma FindDistinct(ms: seq<Member>, i: nat)
    requires Distinct(ms) && i < |ms|
    ensures Find(ms, ms[i].name) == i
  {
  }

  lemma FindInPrefix(ms: seq<Member>, i: nat)
    requires Distinct(ms) && i < |ms|
    ensures Find(ms[..i], ms[i].name) == i
  {
  }

  // What the containers of the library keep: distinct names, and no more entries than they can hold.
  predicate WellFormed(v: Json) {
    (v.Object? ==> Distinct(v.members) && |v.members| <= OBJECT_MAX_CAPACITY)
    && (v.Array? ==> |v.items| <= ARRAY_MAX_CAPACITY)
    && (IsContainer(v) ==> forall i :: 0 <= i < Count(v) ==> WellFormed(Child(v, i)))
  }

  ghost predicate AllNumbers(v: Json, p: real -> bool) {
    (v.Number? ==> p(v.value))
    && (IsContainer(v) ==> forall i :: 0 <= i < Count(v) ==> AllNumbers(Child(v, i), p))
  }

  lemma NumbersBelow(a: Json, i: nat, p: real -> bool)
    requires AllNumbers(a, p)
    ensures a.Object? && i < |a.members| ==> AllNumbers(a.members[i].value, p)
    ensures a.Array? && i < |a.items| ==> AllNumbers(a.items[i], p)
  {
    if IsContainer(a) && i < Count(a) {
      assert AllNumbers(Child(a, i), p);
    }
  }
}
