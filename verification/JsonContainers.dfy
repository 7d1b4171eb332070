// parson.c: objects and arrays as they are changed in place, and dotted paths into them. Every
// container is held by at most one other.
module JsonContainers {
  import opened Wrappers
  import opened CStrings
  import opened JsonTree
  import opened JsonPaths

  const STARTING_CAPACITY := 15

  // A value. Objects and arrays are reached through their cells; Missing is the null pointer.
  datatype Value =
    | Obj(cell: JsonObject)
    | Arr(row: JsonArray)
    | Leaf(leaf: Json)
    | Missing

  function Max(a: nat, b: nat): nat {
    if a > b then a else b
  }

  // A container takes another entry if it is not full, or can grow.
  predicate HasRoom(count: nat, capacity: nat, limit: nat) {
    count < capacity || Max(capacity * 2, STARTING_CAPACITY) <= limit
  }

  function Extended(count: nat, capacity: nat): nat {
    if count < capacity then capacity else Max(capacity * 2, STARTING_CAPACITY)
  }

  // The cells that a value is made of.
  ghost function Cells(v: Value): set<object>
    reads if v.Obj? then {v.cell} else {}, if v.Arr? then {v.row} else {}
  {
    match v
    case Obj(o) => o.Repr
    case Arr(a) => a.Repr
    case _ => {}
  }

  ghost function TreeOf(v: Value): Json
    reads if v.Obj? then {v.cell} else {}, if v.Arr? then {v.row} else {}
  {
    match v
    case Obj(o) => o.Tree
    case Arr(a) => a.Tree
    case Leaf(j) => j
    case Missing => Null
  }

  // A whole tree inside the given cells.
  ghost predicate ValidIn(v: Value, cells: set<object>)
    reads cells
    decreases cells, 1
  {
    match v
    case Obj(o) => o in cells && o.Repr <= cells && o.Valid()
    case Arr(a) => a in cells && a.Repr <= cells && a.Valid()
    case Leaf(j) => !IsContainer(j)
    case Missing => false
  }

  // Whole trees inside the given cells that share nothing.
  ghost predicate Owned(vs: seq<Value>, ts: seq<Json>, cells: set<object>)
    reads cells
    decreases cells, 2
  {
    && |vs| == |ts|
    && (forall i :: 0 <= i < |vs| ==> ValidIn(vs[i], cells) && TreeOf(vs[i]) == ts[i])
    && (forall i, j :: 0 <= i < j < |vs| ==> Cells(vs[i]) !! Cells(vs[j]))
  }

  function ValuesOf(ms: seq<Member>): (vs: seq<Json>)
    ensures |vs| == |ms|
  {
    seq(|ms|, i requires 0 <= i < |ms| => ms[i].value)
  }

  predicate Named(ms: seq<Member>, names: seq<CString>) {
    |ms| == |names| && Distinct(ms) && forall i :: 0 <= i < |names| ==> ms[i].name == names[i]
  }

  lemma CellsIn(v: Value, cells: set<object>)
    requires ValidIn(v, cells)
    ensures Cells(v) <= cells && ValidIn(v, Cells(v))
    ensures v.Obj? ==> v.cell in Cells(v) && TreeOf(v).Object?
    ensures v.Arr? ==> v.row in Cells(v) && TreeOf(v).Array?
    ensures v.Leaf? ==> !IsContainer(TreeOf(v))
  {
  }

  lemma ValidInMore(v: Value, cells: set<object>, more: set<object>)
    requires ValidIn(v, cells) && cells <= more
    ensures ValidIn(v, more)
  {
  }

  lemma OwnedAppend(vs: seq<Value>, ts: seq<Json>, v: Value, cells: set<object>)
    requires Owned(vs, ts, cells) && ValidIn(v, Cells(v)) && Cells(v) !! cells
    ensures Owned(vs + [v], ts + [TreeOf(v)], cells + Cells(v))
  {
    var all := vs + [v];
    forall i | 0 <= i < |all|
      ensures ValidIn(all[i], cells + Cells(v)) && TreeOf(all[i]) == (ts + [TreeOf(v)])[i]
    {
      if i < |vs| {
        ValidInMore(vs[i], cells, cells + Cells(v));
      } else {
        ValidInMore(v, Cells(v), cells + Cells(v));
      }
    }
    forall i, j | 0 <= i < j < |all|
      ensures Cells(all[i]) !! Cells(all[j])
    {
      if j == |vs| {
        CellsIn(vs[i], cells);
      }
    }
  }

  // The same without value k.
  ghost predicate Others(vs: seq<Value>, ts: seq<Json>, k: nat, cells: set<object>)
    reads cells
  {
    && k < |vs| == |ts|
    && (forall i :: 0 <= i < |vs| && i != k ==> ValidIn(vs[i], cells) && TreeOf(vs[i]) == ts[i])
    && (forall i, j :: 0 <= i < j < |vs| && i != k && j != k ==> Cells(vs[i]) !! Cells(vs[j]))
  }

  lemma OwnedSplit(vs: seq<Value>, ts: seq<Json>, k: nat, cells: set<object>)
    requires Owned(vs, ts, cells) && k < |vs|
    ensures Others(vs, ts, k, cells - Cells(vs[k])) && ValidIn(vs[k], Cells(vs[k])) && Cells(vs[k]) <= cells
    ensures TreeOf(vs[k]) == ts[k]
  {
    var rest := cells - Cells(vs[k]);
    CellsIn(vs[k], cells);
    forall i | 0 <= i < |vs| && i != k
      ensures ValidIn(vs[i], rest)
    {
      CellsIn(vs[i], cells);
      assert Cells(vs[i]) !! Cells(vs[k]);
    }
  }

  lemma OthersReplaced(vs: seq<Value>, ts: seq<Json>, k: nat, cells: set<object>, v: Value)
    requires Others(vs, ts, k, cells)
    ensures Others(vs[k := v], ts, k, cells)
  {
  }

  lemma OwnedJoin(vs: seq<Value>, ts: seq<Json>, k: nat, rest: set<object>, mine: set<object>)
    requires Others(vs, ts, k, rest) && ValidIn(vs[k], mine) && mine !! rest
    ensures Owned(vs, ts[k := TreeOf(vs[k])], rest + mine)
  {
    forall i | 0 <= i < |vs|
      ensures ValidIn(vs[i], rest + mine) && TreeOf(vs[i]) == ts[k := TreeOf(vs[k])][i]
    {
      if i == k {
        ValidInMore(vs[k], mine, rest + mine);
      } else {
        ValidInMore(vs[i], rest, rest + mine);
      }
    }
    forall i, j | 0 <= i < j < |vs|
      ensures Cells(vs[i]) !! Cells(vs[j])
    {
      CellsIn(vs[k], mine);
      if i == k {
        CellsIn(vs[j], rest);
      } else if j == k {
        CellsIn(vs[i], rest);
      }
    }
  }

  lemma OwnedRemove(vs: seq<Value>, ts: seq<Json>, k: nat, cells: set<object>)
    requires Owned(vs, ts, cells) && k < |vs|
    ensures Owned(vs[k := vs[|vs| - 1]][..|vs| - 1], ts[k := ts[|vs| - 1]][..|vs| - 1], cells)
  {
    var n := |vs| - 1;
    var all, trees := vs[k := vs[n]][..n], ts[k := ts[n]][..n];
    assert forall i :: 0 <= i < n ==> all[i] == vs[if i == k then n else i] && trees[i] == ts[if i == k then n else i];
  }

  lemma MembersReplace(ms: seq<Member>, names: seq<CString>, k: nat, t: Json)
    requires Named(ms, names) && k < |names|
    ensures Named(ms[k := Member(names[k], t)], names)
    ensures ValuesOf(ms[k := Member(names[k], t)]) == ValuesOf(ms)[k := t]
    ensures ValuesOf(ms)[k] == ms[k].value && ms[k].name == names[k]
  {
  }

  lemma MembersRemove(ms: seq<Member>, names: seq<CString>, k: nat)
    requires Named(ms, names) && k < |names|
    ensures Named(RemoveMember(ms, k), names[k := names[|names| - 1]][..|names| - 1])
    ensures ValuesOf(RemoveMember(ms, k)) == ValuesOf(ms)[k := ValuesOf(ms)[|ms| - 1]][..|ms| - 1]
  {
    RemoveMemberLaws(ms, k, []);
  }

  lemma MembersAppend(ms: seq<Member>, names: seq<CString>, name: CString, t: Json)
    requires Named(ms, names) && Find(ms, name) == |ms|
    ensures Named(ms + [Member(name, t)], names + [name])
    ensures ValuesOf(ms + [Member(name, t)]) == ValuesOf(ms) + [t]
  {
  }

  class JsonObject {
    var names: seq<CString>
    var values: seq<Value>
    var capacity: nat

    ghost var Repr: set<object>
    // The tree that the object holds.
    ghost var Tree: Json

    ghost predicate Valid()
      reads this, Repr
      decreases Repr, 0
    {
      && this in Repr
      && Tree.Object? && Named(Tree.members, names) && |values| == |names| <= capacity <= OBJECT_MAX_CAPACITY
      && Owned(values, ValuesOf(Tree.members), Repr - {this})
    }

    constructor ()
      ensures Valid() && Tree == Object([]) && fresh(Repr) && capacity == 0
    {
      names, values, capacity := [], [], 0;
      Repr, Tree := {this}, Object([]);
    }

    // json_object_nget_value: the position of a name.
    method Position(name: CString) returns (k: nat)
      requires Valid()
      ensures k == Find(Tree.members, name)
    {
      k := 0;
      while k < |names|
        invariant k <= |names| && k <= Find(Tree.members, name)
      {
        assert Tree.members[k].name == names[k];
        if |names[k]| == |name| && names[k] == name {
          return;
        }
        k := k + 1;
      }
    }

    // json_object_add
    method Add(name: CString, v: Value) returns (ok: bool)
      requires Valid() && (v.Missing? || (ValidIn(v, Cells(v)) && Cells(v) !! Repr))
      modifies this
      ensures Valid()
      ensures ok == (!v.Missing? && HasRoom(|old(names)|, old(capacity), OBJECT_MAX_CAPACITY)
                     && Find(old(Tree).members, name) == |old(names)|)
      ensures ok ==> Tree == Object(old(Tree).members + [Member(name, old(TreeOf(v)))]) && Repr == old(Repr) + old(Cells(v))
      ensures ok ==> names == old(names) + [name] && values == old(values) + [v] && capacity == Extended(|old(names)|, old(capacity))
      ensures !ok ==> Tree == old(Tree) && Repr == old(Repr) && names == old(names) && values == old(values)
    {
      hide Owned, ValidIn;
      if v.Missing? {
        return false;
      }
      if |values| >= capacity {
        var n := Max(capacity * 2, STARTING_CAPACITY);
        if n > OBJECT_MAX_CAPACITY {
          return false;
        }
        capacity := n;
      }
      var k := Position(name);
      if k < |names| {
        return false;
      }
      Append(name, v);
      ok := true;
    }

    method Append(name: CString, v: Value)
      requires Valid() && ValidIn(v, Cells(v)) && Cells(v) !! Repr
      requires |names| < capacity && Find(Tree.members, name) == |names|
      modifies this
      ensures Valid()
      ensures Tree == Object(old(Tree).members + [Member(name, old(TreeOf(v)))]) && Repr == old(Repr) + old(Cells(v))
      ensures names == old(names) + [name] && values == old(values) + [v] && capacity == old(capacity)
    {
      hide Owned, ValidIn, Named, ValuesOf, Find;
      NamedSize(Tree.members, names);
      OwnedAppend(values, ValuesOf(Tree.members), v, Repr - {this});
      MembersAppend(Tree.members, names, name, TreeOf(v));
      assert Repr + Cells(v) - {this} == (Repr - {this}) + Cells(v);
      Repr, Tree := Repr + Cells(v), Object(Tree.members + [Member(name, TreeOf(v))]);
      names, values := names + [name], values + [v];
      NamedSize(Tree.members, names);
    }

    // json_object_set_value: the old value goes, or a member is added.
    method SetValue(name: CString, v: Value) returns (ok: bool)
      requires Valid() && (v.Missing? || (ValidIn(v, Cells(v)) && Cells(v) !! Repr))
      modifies this
      ensures Valid()
      ensures ok == (!v.Missing? && (Find(old(Tree).members, name) < |old(names)|
                                     || HasRoom(|old(names)|, old(capacity), OBJECT_MAX_CAPACITY)))
      ensures ok ==> Tree == Object(SetMember(old(Tree).members, name, old(TreeOf(v)))) && Repr <= old(Repr) + old(Cells(v))
      ensures !ok ==> Tree == old(Tree) && Repr == old(Repr)
    {
      hide Owned, ValidIn, Find;
      if v.Missing? {
        return false;
      }
      NamedSize(Tree.members, names);
      var k := Position(name);
      if k < |names| {
        Replace(k, v);
        return true;
      }
      ok := Add(name, v);
    }

    method Replace(k: nat, v: Value)
      requires Valid() && k < |names| && ValidIn(v, Cells(v)) && Cells(v) !! Repr
      modifies this
      ensures Valid() && names == old(names) && values == old(values)[k := v] && capacity == old(capacity)
      ensures Tree == Object(old(Tree).members[k := Member(old(names)[k], old(TreeOf(v)))])
      ensures Repr <= old(Repr) + old(Cells(v))
    {
      hide Owned, ValidIn, Named, ValuesOf, Others;
      NamedSize(Tree.members, names);
      ghost var ts, rest := ValuesOf(Tree.members), Repr - {this} - Cells(values[k]);
      OwnedSplit(values, ts, k, Repr - {this});
      OthersReplaced(values, ts, k, rest, v);
      OwnedJoin(values[k := v], ts, k, rest, Cells(v));
      MembersReplace(Tree.members, names, k, TreeOf(v));
      values := values[k := v];
      Tree := Object(Tree.members[k := Member(names[k], TreeOf(v))]);
      Repr := {this} + rest + Cells(v);
      assert Repr - {this} == rest + Cells(v);
      NamedSize(Tree.members, names);
    }

    // json_object_remove
    method Remove(name: CString) returns (ok: bool)
      requires Valid()
      modifies this
      ensures Valid() && Repr == old(Repr) && capacity == old(capacity)
      ensures ok == (Find(old(Tree).members, name) < |old(names)|)
      ensures ok ==> Tree == Object(RemoveMember(old(Tree).members, Find(old(Tree).members, name)))
      ensures !ok ==> Tree == old(Tree) && names == old(names) && values == old(values)
    {
      hide Owned, ValidIn, Named, ValuesOf, Find;
      NamedSize(Tree.members, names);
      var k := Position(name);
      if k == |names| {
        return false;
      }
      var last := |names| - 1;
      OwnedRemove(values, ValuesOf(Tree.members), k, Repr - {this});
      MembersRemove(Tree.members, names, k);
      if k != last {
        names := names[k := names[last]];
        values := values[k := values[last]];
      }
      names, values := names[..last], values[..last];
      Tree := Object(RemoveMember(Tree.members, k));
      NamedSize(Tree.members, names);
      ok := true;
    }

    // json_object_dotget_value
    method DotGetValue(path: CString) returns (r: Value)
      requires Valid()
      ensures match DotGet(Tree, path)
        case None => r == Missing
        case Some(x) => !r.Missing? && TreeOf(r) == x && ValidIn(r, Repr - {this})
      decreases |path|
    {
      hide Owned, ValidIn, Named, ValuesOf, Find;
      NamedSize(Tree.members, names);
      var d := StrChr(path);
      var k := Position(path[..d]);
      if k == |names| {
        assert d == |path| ==> path[..d] == path;
        return Missing;
      }
      Held(k);
      KindIs(values[k], Repr - {this});
      if d == |path| {
        assert path[..d] == path;
        return values[k];
      }
      if !values[k].Obj? {
        assert DotGet(TreeOf(values[k]), path[d + 1..]) == None;
        return Missing;
      }
      r := values[k].cell.DotGetValue(path[d + 1..]);
      if !r.Missing? {
        ValidInMore(r, values[k].cell.Repr - {values[k].cell}, Repr - {this});
      }
    }

    // json_object_clear
    method Clear()
      requires Valid()
      modifies this
      ensures Valid() && Tree == Object([]) && Repr == old(Repr) && capacity == old(capacity)
    {
      names, values := [], [];
      Tree := Object([]);
    }

    lemma Held(k: nat)
      requires Valid() && k < |Tree.members|
      ensures k < |values| == |names| && ValidIn(values[k], Repr - {this})
      ensures Tree.members[k] == Member(names[k], TreeOf(values[k]))
    {
    }

    // Whether a path can be set: the objects on the way are objects or can be added.
    ghost predicate CanDotSet(path: CString)
      requires Valid()
      reads this, Repr
      decreases |path|
    {
      var d := Dot(path);
      var k := Find(Tree.members, path[..d]);
      if d == |path| then k < |names| || HasRoom(|names|, capacity, OBJECT_MAX_CAPACITY)
      else if k == |names| then HasRoom(|names|, capacity, OBJECT_MAX_CAPACITY)
      else
        Held(k);
        values[k].Obj? && values[k].cell.CanDotSet(path[d + 1..])
    }

    lemma CanDotSetSteps(path: CString)
      requires Valid()
      ensures Dot(path) == |path| ==>
        (CanDotSet(path) <==> Find(Tree.members, path) < |names| || HasRoom(|names|, capacity, OBJECT_MAX_CAPACITY))
      ensures Dot(path) < |path| ==>
        var k := Find(Tree.members, path[..Dot(path)]);
        if k == |names| then CanDotSet(path) <==> HasRoom(|names|, capacity, OBJECT_MAX_CAPACITY)
        else k < |values| && (CanDotSet(path) <==>
          values[k].Obj? && values[k].cell in Repr && values[k].cell.Repr <= Repr && values[k].cell.Valid()
          && values[k].cell.CanDotSet(path[Dot(path) + 1..]))
    {
      hide DotPut, Find;
      var d := Dot(path);
      assert d == |path| ==> path[..d] == path;
      NamedSize(Tree.members, names);
      var k := Find(Tree.members, path[..d]);
      if k < |names| {
        Held(k);
      }
    }

    // A path that can be set meets no member that is not an object.
    lemma {:induction false} CanDotSetIsPassable(path: CString)
      requires Valid() && CanDotSet(path)
      ensures Passable(Tree, path)
      decreases |path|
    {
      CanDotSetSteps(path);
      NamedSize(Tree.members, names);
      var d := Dot(path);
      var k := Find(Tree.members, path[..d]);
      hide Owned, ValidIn, Named, ValuesOf, Find, CanDotSet;
      if d < |path| {
        if k == |names| {
          EmptyIsPassable(path[d + 1..]);
        } else {
          Held(k);
          KindIs(values[k], Repr - {this});
          values[k].cell.CanDotSetIsPassable(path[d + 1..]);
        }
      }
    }

    // json_object_dotset_value. Objects that are missing on the way are made.
    method DotSetValue(path: CString, v: Value) returns (ok: bool)
      requires Valid() && (v.Missing? || (ValidIn(v, Cells(v)) && Cells(v) !! Repr))
      modifies Repr
      ensures Valid()
      ensures ok == (!v.Missing? && old(CanDotSet(path)))
      ensures ok ==> Tree == DotPut(old(Tree), path, old(TreeOf(v)))
      ensures !ok ==> Tree == old(Tree)
      ensures fresh(Repr - old(Repr) - old(Cells(v)))
      decreases |path|, 0
    {
      hide Owned, ValidIn, Named, ValuesOf, Find, CanDotSet, DotPut;
      if v.Missing? {
        return false;
      }
      CanDotSetSteps(path);
      DotPutSteps(Tree, path, TreeOf(v));
      var d := StrChr(path);
      if d == |path| {
        assert path[..d] == path;
        ok := SetValue(path, v);
        return;
      }
      var name, rest := path[..d], path[d + 1..];
      var k := Position(name);
      NamedSize(Tree.members, names);
      if k < |names| {
        Held(k);
        KindIs(values[k], Repr - {this});
      }
      if k < |names| && values[k].Obj? {
        ok := Descend(k, rest, v);
      } else {
        ok := DescendNew(name, rest, v);
      }
    }

    // The path goes on in an object that is made for it, unless the name is taken.
    method DescendNew(name: CString, rest: CString, v: Value) returns (ok: bool)
      requires Valid() && ValidIn(v, Cells(v)) && Cells(v) !! Repr && !v.Missing?
      modifies Repr
      ensures Valid()
      ensures ok == (Find(old(Tree).members, name) == |old(names)| && HasRoom(|old(names)|, old(capacity), OBJECT_MAX_CAPACITY))
      ensures ok ==> Tree == Object(old(Tree).members + [Member(name, DotPut(Object([]), rest, old(TreeOf(v))))])
      ensures !ok ==> Tree == old(Tree)
      ensures fresh(Repr - old(Repr) - old(Cells(v)))
      decreases |rest|, 2
    {
      hide Owned, ValidIn, Named, ValuesOf, Find, DotPut;
      NamedSize(Tree.members, names);
      var made := new JsonObject();
      MadeIsValid(made);
      var k := |names|;
      ok := Add(name, Obj(made));
      if ok {
        NamedSize(Tree.members, names);
        made.EmptyCanDotSet(rest);
        ok := Descend(k, rest, v);
        assert Tree.members == old(Tree).members + [Member(name, DotPut(Object([]), rest, old(TreeOf(v))))];
      }
    }

    lemma EmptyCanDotSet(path: CString)
      requires Valid() && |names| == 0 && capacity == 0
      ensures CanDotSet(path)
    {
    }

    // The path goes on in the object that member k holds.
    method Descend(k: nat, rest: CString, v: Value) returns (ok: bool)
      requires Valid() && k < |names| == |values| && values[k].Obj?
      requires ValidIn(v, Cells(v)) && Cells(v) !! Repr && !v.Missing?
      requires values[k].cell in Repr && values[k].cell.Repr <= Repr && values[k].cell.Valid()
      modifies Repr
      ensures Valid()
      ensures ok == old(values[k].cell.CanDotSet(rest))
      ensures ok ==> Tree == Object(old(Tree).members[k := Member(old(names)[k], DotPut(old(values[k].cell.Tree), rest, old(TreeOf(v))))])
      ensures !ok ==> Tree == old(Tree)
      ensures fresh(Repr - old(Repr) - old(Cells(v)))
      decreases |rest|, 1
    {
      hide Owned, ValidIn, Named, ValuesOf, Others, Find;
      NamedSize(Tree.members, names);
      Held(k);
      ghost var ts, theirs, mine := ValuesOf(Tree.members), Repr - {this} - Cells(values[k]), Cells(values[k]);
      OwnedSplit(values, ts, k, Repr - {this});
      CellsIn(values[k], Repr - {this});
      var child := values[k].cell;
      ok := child.DotSetValue(rest, v);
      OwnedJoin(values, ts, k, theirs, child.Repr);
      MembersReplace(Tree.members, names, k, child.Tree);
      Tree := Object(Tree.members[k := Member(names[k], child.Tree)]);
      NamedSize(Tree.members, names);
      Repr := {this} + theirs + child.Repr;
      assert Repr - {this} == theirs + child.Repr;
      if !ok {
        assert Tree.members == old(Tree).members;
      }
    }
  }

  lemma KindIs(v: Value, cells: set<object>)
    requires ValidIn(v, cells)
    ensures TreeOf(v).Object? <==> v.Obj?
    ensures v.Obj? ==> v.cell in cells && v.cell.Repr <= cells && v.cell.Valid()
    ensures !v.Missing?
  {
  }

  lemma MadeIsValid(o: JsonObject)
    requires o.Valid()
    ensures ValidIn(Obj(o), o.Repr)
  {
  }

  // strchr, for a period.
  method StrChr(path: CString) returns (k: nat)
    ensures k == Dot(path)
  {
    k := 0;
    while k < |path| && path[k] != PERIOD
      invariant k <= |path| && forall i :: 0 <= i < k ==> path[i] != PERIOD
    {
      k := k + 1;
    }
    DotIs(path, k);
  }

  lemma DotIs(path: CString, k: nat)
    requires k <= |path| && (k < |path| ==> path[k] == PERIOD) && forall i :: 0 <= i < k ==> path[i] != PERIOD
    ensures Dot(path) == k
  {
  }

  lemma NamedDistinct(ms: seq<Member>, names: seq<CString>)
    requires Named(ms, names)
    ensures Distinct(ms)
  {
  }

  lemma NamedSize(ms: seq<Member>, names: seq<CString>)
    requires Named(ms, names)
    ensures |ms| == |names|
  {
  }

  class JsonArray {
    var items: seq<Value>
    var capacity: nat

    ghost var Repr: set<object>
    ghost var Tree: Json

    ghost predicate Valid()
      reads this, Repr
      decreases Repr, 0
    {
      && this in Repr
      && Tree.Array? && |Tree.items| == |items| <= capacity <= ARRAY_MAX_CAPACITY
      && Owned(items, Tree.items, Repr - {this})
    }

    constructor ()
      ensures Valid() && Tree == Array([]) && fresh(Repr) && capacity == 0
    {
      items, capacity := [], 0;
      Repr, Tree := {this}, Array([]);
    }

    lemma Held(k: nat)
      requires Valid() && k < |items|
      ensures |Tree.items| == |items| && ValidIn(items[k], Repr - {this}) && Tree.items[k] == TreeOf(items[k])
    {
    }

    // json_array_append_value
    method Append(v: Value) returns (ok: bool)
      requires Valid() && (v.Missing? || (ValidIn(v, Cells(v)) && Cells(v) !! Repr))
      modifies this
      ensures Valid()
      ensures ok == (!v.Missing? && HasRoom(|old(items)|, old(capacity), ARRAY_MAX_CAPACITY))
      ensures ok ==> Tree == Array(old(Tree).items + [old(TreeOf(v))]) && Repr == old(Repr) + old(Cells(v))
      ensures ok ==> items == old(items) + [v] && capacity == Extended(|old(items)|, old(capacity))
      ensures !ok ==> Tree == old(Tree) && Repr == old(Repr) && items == old(items) && capacity == old(capacity)
    {
      if v.Missing? {
        return false;
      }
      hide Owned, ValidIn;
      if |items| >= capacity {
        var n := Max(capacity * 2, STARTING_CAPACITY);
        if n > ARRAY_MAX_CAPACITY {
          return false;
        }
        capacity := n;
      }
      OwnedAppend(items, Tree.items, v, Repr - {this});
      assert Repr + Cells(v) - {this} == (Repr - {this}) + Cells(v);
      Repr, Tree := Repr + Cells(v), Array(Tree.items + [TreeOf(v)]);
      items := items + [v];
      ok := true;
    }

    // json_array_replace_value
    method ReplaceValue(ix: nat, v: Value) returns (ok: bool)
      requires Valid() && (v.Missing? || (ValidIn(v, Cells(v)) && Cells(v) !! Repr))
      modifies this
      ensures Valid() && ok == (!v.Missing? && ix < |old(items)|)
      ensures ok ==> Tree == Array(old(Tree).items[ix := old(TreeOf(v))])
      ensures !ok ==> Tree == old(Tree) && items == old(items)
    {
      if v.Missing? || ix >= |items| {
        return false;
      }
      hide Owned, ValidIn, Others;
      ghost var ts, rest := Tree.items, Repr - {this} - Cells(items[ix]);
      OwnedSplit(items, ts, ix, Repr - {this});
      OthersReplaced(items, ts, ix, rest, v);
      OwnedJoin(items[ix := v], ts, ix, rest, Cells(v));
      items := items[ix := v];
      Tree := Array(Tree.items[ix := TreeOf(v)]);
      Repr := {this} + rest + Cells(v);
      assert Repr - {this} == rest + Cells(v);
      ok := true;
    }

    // json_array_get_value
    function GetValue(ix: nat): Value
      reads this
    {
      if ix < |items| then items[ix] else Missing
    }

    // json_array_remove. The last value is looked up when it is already out of reach, so that
    // any other value is replaced by a null pointer: the array stays whole exactly when it was
    // the last value that went.
    method RemoveValue(ix: nat) returns (ok: bool)
      requires Valid()
      modifies this
      ensures ok == (ix < |old(items)|)
      ensures !ok ==> Valid() && Tree == old(Tree) && items == old(items)
      ensures ok ==> items == (if ix == |old(items)| - 1 then old(items) else old(items)[ix := Missing])[..|old(items)| - 1]
      ensures ok ==> (Valid() <==> ix == |old(items)| - 1)
      ensures ok && ix == |old(items)| - 1 ==> Tree == Array(old(Tree).items[..ix])
    {
      if ix >= |items| {
        return false;
      }
      var last := |items| - 1;
      OwnedRemove(items, Tree.items, last, Repr - {this});
      assert items[last := items[last]] == items && Tree.items[last := Tree.items[last]] == Tree.items;
      Tree := Array(Tree.items[..last]);
      items := items[..last];
      if ix != last {
        items := items[ix := GetValue(last)];
        assert !ValidIn(items[ix], Repr - {this});
      }
      ok := true;
    }
  }

  // ---------------------------------------------------------------------------------------
  // Copies

  // The capacities that growing from nothing goes through.
  predicate Doubled(c: nat) {
    c == 0 || c == STARTING_CAPACITY || (c % 2 == 0 && c > STARTING_CAPACITY && Doubled(c / 2))
  }

  function Steps(n: nat): nat {
    if n == 0 then STARTING_CAPACITY else 2 * Steps(n - 1)
  }

  lemma {:induction false} DoubledGaps(c: nat, n: nat)
    requires Doubled(c) && c < Steps(n)
    ensures n == 0 ==> c == 0
    ensures n > 0 ==> c <= Steps(n - 1)
  {
    if n > 1 && c > STARTING_CAPACITY {
      DoubledGaps(c / 2, n - 1);
    } else if n > 0 {
      StepsGrow(n - 1);
    }
  }

  lemma {:induction false} StepsGrow(n: nat)
    ensures Steps(n) >= STARTING_CAPACITY
  {
    if n > 0 {
      StepsGrow(n - 1);
    }
  }

  // A container that has grown from nothing takes entries up to its limit.
  lemma RoomBelowLimit(count: nat, capacity: nat)
    requires Doubled(capacity) && count <= capacity
    ensures count < OBJECT_MAX_CAPACITY ==> HasRoom(count, capacity, OBJECT_MAX_CAPACITY)
    ensures count < ARRAY_MAX_CAPACITY ==> HasRoom(count, capacity, ARRAY_MAX_CAPACITY)
    ensures Doubled(Extended(count, capacity))
  {
    assert Steps(6) == OBJECT_MAX_CAPACITY && Steps(5) == 480;
    StepsAre();
    if capacity < OBJECT_MAX_CAPACITY {
      DoubledGaps(capacity, 6);
    }
    if capacity < ARRAY_MAX_CAPACITY {
      DoubledGaps(capacity, 13);
    }
    DoubledNext(capacity);
  }

  lemma DoubledNext(c: nat)
    requires Doubled(c)
    ensures Doubled(Max(c * 2, STARTING_CAPACITY))
  {
    if c > 0 {
      assert c >= STARTING_CAPACITY;
      assert (c * 2) / 2 == c && (c * 2) % 2 == 0;
    }
  }

  lemma NothingDoubled()
    ensures Doubled(0)
  {
  }

  lemma StepsAre()
    ensures Steps(5) == 480 && Steps(6) == 960 && Steps(12) == 61440 && Steps(13) == 122880
  {
    assert Steps(3) == 120;
    assert Steps(6) == 960;
    assert Steps(9) == 7680;
    assert Steps(12) == 61440;
  }

  // json_value_deep_copy: the copy has the same tree and shares nothing with what was there.
  method DeepCopy(v: Value) returns (r: Value)
    requires ValidIn(v, Cells(v))
    ensures ValidIn(r, Cells(r)) && TreeOf(r) == TreeOf(v) && fresh(Cells(r))
    decreases Cells(v), 1
  {
    match v
    case Obj(o) =>
      var copy := CopyObject(o);
      r := Obj(copy);
    case Arr(a) =>
      var copy := CopyArray(a);
      r := Arr(copy);
    case Leaf(j) =>
      r := Leaf(j);
  }

  method CopyObject(o: JsonObject) returns (copy: JsonObject)
    requires o.Valid()
    ensures copy.Valid() && copy.Tree == o.Tree && fresh(copy.Repr)
    decreases o.Repr, 0
  {
    hide Owned, ValidIn, Find, Named, Doubled, Extended, HasRoom;
    copy := new JsonObject();
    NothingDoubled();
    NamedDistinct(o.Tree.members, o.names);
    NamedSize(o.Tree.members, o.names);
    for i := 0 to |o.names|
      invariant copy.Valid() && fresh(copy.Repr) && Doubled(copy.capacity)
      invariant |copy.names| == i && copy.Tree == Object(o.Tree.members[..i])
    {
      o.Held(i);
      FindInPrefix(o.Tree.members, i);
      FindDistinct(o.Tree.members, i);
      CellsIn(o.values[i], o.Repr - {o});
      var k := o.Position(o.names[i]);
      var value := DeepCopy(o.values[k]);
      RoomBelowLimit(i, copy.capacity);
      var ok := copy.Add(o.names[i], value);
    }
    assert o.Tree.members[..|o.names|] == o.Tree.members;
  }

  method CopyArray(a: JsonArray) returns (copy: JsonArray)
    requires a.Valid()
    ensures copy.Valid() && copy.Tree == a.Tree && fresh(copy.Repr)
    decreases a.Repr, 0
  {
    hide Owned, ValidIn;
    copy := new JsonArray();
    for i := 0 to |a.items|
      invariant copy.Valid() && fresh(copy.Repr) && Doubled(copy.capacity)
      invariant |copy.items| == i && copy.Tree == Array(a.Tree.items[..i])
    {
      a.Held(i);
      CellsIn(a.items[i], a.Repr - {a});
      var value := DeepCopy(a.items[i]);
      RoomBelowLimit(i, copy.capacity);
      var ok := copy.Append(value);
    }
    assert a.Tree.items[..|a.items|] == a.Tree.items;
  }

  // ---------------------------------------------------------------------------------------
  // Whatever is held is well formed

  lemma {:induction false} HeldIsWellFormed(v: Value, cells: set<object>)
    requires ValidIn(v, cells)
    ensures WellFormed(TreeOf(v))
    decreases cells, if v.Obj? || v.Arr? then 1 else 0
  {
    match v
    case Obj(o) =>
      NamedDistinct(o.Tree.members, o.names);
      forall i | 0 <= i < Count(o.Tree)
        ensures WellFormed(Child(o.Tree, i))
      {
        o.Held(i);
        HeldIsWellFormed(o.values[i], o.Repr - {o});
      }
    case Arr(a) =>
      forall i | 0 <= i < Count(a.Tree)
        ensures WellFormed(Child(a.Tree, i))
      {
        a.Held(i);
        HeldIsWellFormed(a.items[i], a.Repr - {a});
      }
    case Leaf(j) =>
  }

  // ---------------------------------------------------------------------------------------
  // Setting and getting

  lemma HeldHasDistinctNames(o: JsonObject)
    requires o.Valid()
    ensures DistinctNames(o.Tree)
  {
    MadeIsValid(o);
    HeldIsWellFormed(Obj(o), o.Repr);
    WellFormedDistinct(o.Tree);
  }

  // What a caller sees: a path that was set successfully leads to what was set there, and one that
  // parts from it leads where it led before. After a failure every path does.
  method SetThenGet(o: JsonObject, path: CString, v: Value, other: CString) returns (ok: bool, here: Value, there: Value)
    requires o.Valid() && (v.Missing? || (ValidIn(v, Cells(v)) && Cells(v) !! o.Repr))
    modifies o.Repr
    ensures o.Valid()
    ensures ok == (!v.Missing? && old(o.CanDotSet(path)))
    ensures ok ==> !here.Missing? && TreeOf(here) == old(TreeOf(v))
    ensures !ok ==> Found(here) == DotGet(old(o.Tree), path)
    ensures !ok || Apart(path, other) ==> Found(there) == DotGet(old(o.Tree), other)
  {
    hide Owned, ValidIn, Named, ValuesOf, DotPut, DotGet, Passable, Apart, JsonObject.CanDotSet;
    HeldHasDistinctNames(o);
    if !v.Missing? && o.CanDotSet(path) {
      o.CanDotSetIsPassable(path);
    }
    GetAfterPut(o.Tree, path, TreeOf(v));
    if Apart(path, other) {
      PutKeepsOthers(o.Tree, path, TreeOf(v), other);
    }
    ok := o.DotSetValue(path, v);
    here := o.DotGetValue(path);
    there := o.DotGetValue(other);
  }

  // The tree behind a pointer that may be null.
  ghost function Found(v: Value): Option<Json>
    reads if v.Obj? then {v.cell} else {}, if v.Arr? then {v.row} else {}
  {
    if v.Missing? then None else Some(TreeOf(v))
  }
}
