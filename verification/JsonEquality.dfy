// parson.c: equality of values. Objects are compared by their counts and by looking up the names
// of one in the other.
module JsonEquality {
  import opened CStrings
  import opened JsonTree
  import opened JsonPaths
  import opened JsonNumbers
  import opened Doubles

  // Which numbers pass for the same.
  type Near = (real, real) -> bool

  // The comparison of json_value_equals, for any comparison of numbers.
  predicate Within(a: Json, b: Json, near: Near)
    decreases a
  {
    match a
    case Array(items) =>
      b.Array? && |items| == |b.items| && forall i :: 0 <= i < |items| ==> Within(items[i], b.items[i], near)
    case Object(ms) =>
      b.Object? && |ms| == |b.members| && forall i :: 0 <= i < |ms| ==> SameMember(a, b, i, near)
    case String(s) => b.String? && s == b.text
    case Boolean(t) => b.Boolean? && t == b.truth
    case Number(x) => b.Number? && near(x, b.value)
    case Null => b.Null?
  }

  // Both values are looked up by the name; one that is not there equals nothing.
  predicate SameMember(a: Json, b: Json, i: nat, near: Near)
    requires a.Object? && b.Object? && i < |a.members|
    decreases a, 0
  {
    var name := a.members[i].name;
    var k, l := Find(a.members, name), Find(b.members, name);
    k < |a.members| && l < |b.members| && Within(a.members[k].value, b.members[l].value, near)
  }

  // json_value_equals
  predicate Equal(a: Json, b: Json) {
    Within(a, b, Close)
  }

  // A tree as the library holds it.
  ghost predicate Held(v: Json) {
    DistinctNames(v) && AllNumbers(v, IsDouble)
  }

  // ---------------------------------------------------------------------------------------
  // Names

  function Names(ms: seq<Member>): set<CString> {
    set i | 0 <= i < |ms| :: ms[i].name
  }

  lemma {:induction false} AsManyNames(ms: seq<Member>)
    requires Distinct(ms)
    ensures |Names(ms)| == |ms|
  {
    if ms != [] {
      var n := |ms| - 1;
      var rest := ms[..n];
      AsManyNames(rest);
      assert Names(ms) == Names(rest) + {ms[n].name} by {
        assert forall i :: 0 <= i < n ==> rest[i] == ms[i];
      }
      assert ms[n].name !in Names(rest);
    }
  }

  lemma SubsetOfSameSize<T>(a: set<T>, b: set<T>)
    requires a <= b && |a| == |b|
    ensures a == b
  {
    assert b == a + (b - a);
    assert |b - a| == 0;
  }

  // As many names, and each of them in the other object: the names are the same.
  lemma SameNames(ms: seq<Member>, ns: seq<Member>)
    requires Distinct(ms) && Distinct(ns) && |ms| == |ns|
    requires forall i :: 0 <= i < |ms| ==> Find(ns, ms[i].name) < |ns|
    ensures forall j :: 0 <= j < |ns| ==> Find(ms, ns[j].name) < |ms|
  {
    hide Find;
    AsManyNames(ms);
    AsManyNames(ns);
    forall i | 0 <= i < |ms|
      ensures ms[i].name in Names(ns)
    {
      FindIsIn(ns, ms[i].name);
    }
    SubsetOfSameSize(Names(ms), Names(ns));
    forall j | 0 <= j < |ns|
      ensures Find(ms, ns[j].name) < |ms|
    {
      assert ns[j].name in Names(ns);
      FindIsIn(ms, ns[j].name);
    }
  }

  lemma FindIsIn(ms: seq<Member>, name: CString)
    ensures name in Names(ms) <==> Find(ms, name) < |ms|
  {
    if Find(ms, name) < |ms| {
      assert ms[Find(ms, name)].name == name;
    }
  }

  // ---------------------------------------------------------------------------------------
  // Laws

  lemma MembersWithin(a: Json, b: Json, near: Near)
    requires a.Object? && b.Object? && |a.members| == |b.members|
    requires forall i :: 0 <= i < |a.members| ==> SameMember(a, b, i, near)
    ensures Within(a, b, near)
  {
  }

  lemma MembersLookup(a: Json, b: Json, i: nat, near: Near)
    requires a.Object? && b.Object? && i < |a.members| && Find(a.members, a.members[i].name) == i
    ensures SameMember(a, b, i, near) <==>
      var l := Find(b.members, a.members[i].name); l < |b.members| && Within(a.members[i].value, b.members[l].value, near)
  {
  }

  lemma DistinctMember(a: Json, i: nat)
    requires a.Object? && DistinctNames(a) && i < |a.members|
    ensures DistinctNames(a.members[i].value) && Find(a.members, a.members[i].name) == i
  {
    FindDistinct(a.members, i);
    assert Child(a, i) == a.members[i].value;
  }

  lemma {:induction false} EqualReflexive(a: Json)
    requires DistinctNames(a)
    ensures Equal(a, a)
  {
    ToleranceIsSmall();
    if IsContainer(a) {
      forall i | 0 <= i < Count(a)
        ensures Equal(Child(a, i), Child(a, i)) && (a.Object? ==> Find(a.members, a.members[i].name) == i)
      {
        EqualReflexive(Child(a, i));
        if a.Object? {
          FindDistinct(a.members, i);
        }
      }
      if a.Object? {
        assert forall i :: 0 <= i < |a.members| ==> Child(a, i) == a.members[i].value;
      } else {
        assert forall i :: 0 <= i < |a.items| ==> Child(a, i) == a.items[i];
      }
    }
  }

  // The comparison goes one way only, but distinct names make it symmetric.
  lemma {:induction false} EqualSymmetric(a: Json, b: Json)
    requires DistinctNames(a) && DistinctNames(b) && Equal(a, b)
    ensures Equal(b, a)
    decreases a
  {
    if a.Array? {
      forall i | 0 <= i < |a.items|
        ensures Equal(b.items[i], a.items[i])
      {
        assert Child(a, i) == a.items[i] && Child(b, i) == b.items[i];
        EqualSymmetric(a.items[i], b.items[i]);
      }
    } else if a.Object? {
      forall i | 0 <= i < |a.members|
        ensures Find(b.members, a.members[i].name) < |b.members|
      {
        assert SameMember(a, b, i, Close);
      }
      SameNames(a.members, b.members);
      forall j | 0 <= j < |b.members|
        ensures SameMember(b, a, j, Close)
      {
        DistinctMember(b, j);
        MembersLookup(b, a, j, Close);
        var i := Find(a.members, b.members[j].name);
        assert SameMember(a, b, i, Close);
        DistinctMember(a, i);
        MembersLookup(a, b, i, Close);
        EqualSymmetric(a.members[i].value, b.members[j].value);
      }
    }
  }

  // The order of the members does not matter.
  lemma ReorderedIsEqual(ms: seq<Member>, ns: seq<Member>)
    requires DistinctNames(Object(ms)) && DistinctNames(Object(ns)) && |ms| == |ns|
    requires forall i :: 0 <= i < |ms| ==> ms[i] in ns
    ensures Equal(Object(ms), Object(ns))
  {
    var a, b := Object(ms), Object(ns);
    forall i | 0 <= i < |ms|
      ensures SameMember(a, b, i, Close)
    {
      DistinctMember(a, i);
      MembersLookup(a, b, i, Close);
      var j :| 0 <= j < |ns| && ns[j] == ms[i];
      FindDistinct(ns, j);
      EqualReflexive(ms[i].value);
    }
  }

  // ---------------------------------------------------------------------------------------
  // Transitivity

  // Two comparisons in a row, on trees with numbers from the sets p and q.
  ghost predicate Composes(d: Near, e: Near, f: Near, p: real -> bool, q: real -> bool) {
    forall x, y, z | p(x) && p(y) && q(z) && d(x, y) && e(y, z) :: f(x, z)
  }

  lemma {:induction false} WithinTriangle(
      a: Json, b: Json, c: Json, d: Near, e: Near, f: Near, p: real -> bool, q: real -> bool)
    requires DistinctNames(a) && Within(a, b, d) && Within(b, c, e) && Composes(d, e, f, p, q)
    requires AllNumbers(a, p) && AllNumbers(b, p) && AllNumbers(c, q)
    ensures Within(a, c, f)
    decreases a
  {
    match a
    case Array(items) =>
      forall i | 0 <= i < |items|
        ensures Within(items[i], c.items[i], f)
      {
        assert Child(a, i) == items[i];
        NumbersBelow(a, i, p);
        NumbersBelow(b, i, p);
        NumbersBelow(c, i, q);
        WithinTriangle(items[i], b.items[i], c.items[i], d, e, f, p, q);
      }
    case Object(ms) =>
      forall i | 0 <= i < |ms|
        ensures SameMember(a, c, i, f)
      {
        assert SameMember(a, b, i, d);
        DistinctMember(a, i);
        MembersLookup(a, b, i, d);
        MembersLookup(a, c, i, f);
        var j := Find(b.members, ms[i].name);
        assert SameMember(b, c, j, e);
        MembersLookup(b, c, j, e);
        var k := Find(c.members, ms[i].name);
        NumbersBelow(a, i, p);
        NumbersBelow(b, j, p);
        NumbersBelow(c, k, q);
        WithinTriangle(ms[i].value, b.members[j].value, c.members[k].value, d, e, f, p, q);
      }
    case _ =>
  }

  // A tree between two of the same shape.
  function Between(a: Json, c: Json): Json
    decreases a
  {
    match a
    case Array(items) =>
      Array(seq(|items|, i requires 0 <= i < |items| =>
        if c.Array? && i < |c.items| then Between(items[i], c.items[i]) else items[i]))
    case Object(ms) => Object(seq(|ms|, i requires 0 <= i < |ms| => Member(ms[i].name, BetweenMember(a, c, i))))
    case Number(x) => if c.Number? then Number(Middle(x, c.value)) else a
    case _ => a
  }

  function BetweenMember(a: Json, c: Json, i: nat): Json
    requires a.Object? && i < |a.members|
    decreases a, 0
  {
    var m := a.members[i];
    if c.Object? && Find(c.members, m.name) < |c.members| then
      Between(m.value, c.members[Find(c.members, m.name)].value)
    else m.value
  }

  lemma {:induction false} BetweenIsClose(a: Json, c: Json)
    requires Held(a) && Held(c) && Within(a, c, TwoSteps)
    ensures Held(Between(a, c)) && Equal(a, Between(a, c)) && Equal(Between(a, c), c)
    decreases a
  {
    hide Close, TwoSteps, Middle, IsDouble;
    var b := Between(a, c);
    match a
    case Number(x) =>
      MiddleIsThird(x, c.value);
    case Array(items) =>
      forall i | 0 <= i < |items|
        ensures Held(b.items[i]) && Equal(items[i], b.items[i]) && Equal(b.items[i], c.items[i])
        ensures Child(b, i) == b.items[i]
      {
        assert Child(a, i) == items[i] && Child(c, i) == c.items[i];
        BetweenIsClose(items[i], c.items[i]);
      }
    case Object(ms) =>
      forall i | 0 <= i < |ms|
        ensures SameMember(a, b, i, Close) && SameMember(b, c, i, Close)
        ensures Held(Child(b, i))
      {
        BetweenMemberIsClose(a, c, i);
      }
      MembersWithin(a, b, Close);
      MembersWithin(b, c, Close);
    case _ =>
  }

  lemma {:induction false} BetweenMemberIsClose(a: Json, c: Json, i: nat)
    requires a.Object? && Held(a) && Held(c) && Within(a, c, TwoSteps) && i < |a.members|
    ensures SameMember(a, Between(a, c), i, Close) && SameMember(Between(a, c), c, i, Close)
    ensures Held(Between(a, c).members[i].value)
    decreases a, 0
  {
    hide Close, TwoSteps, Middle, IsDouble;
    var b, m := Between(a, c), a.members[i];
    assert SameMember(a, c, i, TwoSteps);
    DistinctMember(a, i);
    MembersLookup(a, c, i, TwoSteps);
    var k := Find(c.members, m.name);
    DistinctMember(c, k);
    NumbersBelow(a, i, IsDouble);
    NumbersBelow(c, k, IsDouble);
    BetweenIsClose(m.value, c.members[k].value);
    assert b.members[i] == Member(m.name, BetweenMember(a, c, i));
    assert Distinct(b.members);
    FindDistinct(b.members, i);
    MembersLookup(a, b, i, Close);
    MembersLookup(b, c, i, Close);
  }

  // Two trees are equal to some third one exactly when they have the same shape and a double lies
  // close to both numbers wherever they have numbers.
  lemma EqualToAThird(a: Json, c: Json)
    requires Held(a) && Held(c)
    ensures (exists b | Held(b) :: Equal(a, b) && Equal(b, c)) <==> Within(a, c, TwoSteps)
  {
    hide Close, TwoSteps, Middle, IsDouble, Within, AllNumbers;
    if Within(a, c, TwoSteps) {
      BetweenIsClose(a, c);
      var b := Between(a, c);
      assert Held(b) && Equal(a, b) && Equal(b, c);
    }
    if exists b | Held(b) :: Equal(a, b) && Equal(b, c) {
      var b :| Held(b) && Equal(a, b) && Equal(b, c);
      assert Composes(Close, Close, TwoSteps, IsDouble, IsDouble) by {
        forall x, y, z | IsDouble(y) && Close(x, y) && Close(y, z)
          ensures TwoSteps(x, z)
        {
          ThirdIsBelowMiddle(x, y, z);
        }
      }
      WithinTriangle(a, b, c, Close, Close, TwoSteps, IsDouble, IsDouble);
    }
  }

  // Two numbers in the same place that are not close.
  predicate Gap(a: Json, c: Json)
    decreases a
  {
    match a
    case Array(items) => c.Array? && exists i :: 0 <= i < |items| && i < |c.items| && Gap(items[i], c.items[i])
    case Object(ms) => c.Object? && exists i :: 0 <= i < |ms| && GapAt(a, c, i)
    case Number(x) => c.Number? && !Close(x, c.value)
    case _ => false
  }

  predicate GapAt(a: Json, c: Json, i: nat)
    requires a.Object? && c.Object? && i < |a.members|
    decreases a, 0
  {
    var m := a.members[i];
    Find(c.members, m.name) < |c.members| && Gap(m.value, c.members[Find(c.members, m.name)].value)
  }

  lemma {:induction false} GapIs(a: Json, c: Json, near: Near)
    requires DistinctNames(a) && Within(a, c, near)
    ensures Gap(a, c) <==> !Equal(a, c)
    decreases a
  {
    match a
    case Array(items) =>
      forall i | 0 <= i < |items|
        ensures Gap(items[i], c.items[i]) <==> !Equal(items[i], c.items[i])
      {
        assert Child(a, i) == items[i];
        GapIs(items[i], c.items[i], near);
      }
    case Object(ms) =>
      forall i | 0 <= i < |ms|
        ensures GapAt(a, c, i) <==> !SameMember(a, c, i, Close)
      {
        assert SameMember(a, c, i, near);
        DistinctMember(a, i);
        MembersLookup(a, c, i, near);
        MembersLookup(a, c, i, Close);
        GapIs(ms[i].value, c.members[Find(c.members, ms[i].name)].value, near);
      }
      if forall i :: 0 <= i < |ms| ==> SameMember(a, c, i, Close) {
        MembersWithin(a, c, Close);
      }
    case _ =>
  }

  // Transitivity fails between two trees exactly when they are that close and two numbers in the
  // same place are not close.
  lemma TransitivityFails(a: Json, c: Json)
    requires Held(a) && Held(c)
    ensures (exists b | Held(b) :: Equal(a, b) && Equal(b, c)) && !Equal(a, c) <==> Within(a, c, TwoSteps) && Gap(a, c)
  {
    EqualToAThird(a, c);
    if Within(a, c, TwoSteps) {
      GapIs(a, c, TwoSteps);
    }
    hide Gap, Within, Equal, AllNumbers;
  }

  // Equality is transitive as soon as the first two trees have numbers from a set in which close
  // ones are the same.
  lemma EqualTransitive(a: Json, b: Json, c: Json, p: real -> bool)
    requires Held(a) && Held(b) && Held(c) && Equal(a, b) && Equal(b, c)
    requires AllNumbers(a, p) && AllNumbers(b, p)
    requires forall x, y | p(x) && p(y) && Close(x, y) :: x == y
    ensures Equal(a, c)
  {
    hide Close, IsDouble, Within, AllNumbers;
    WithinTriangle(a, b, c, Close, Close, Close, p, IsDouble);
  }

  // Read from at most five decimals, and at most 2^35.
  ghost predicate FiveDecimals(x: real, strtod: real -> real) {
    exists k: int :: IsFiveDecimals(x, k, strtod)
  }

  ghost predicate IsFiveDecimals(x: real, k: int, strtod: real -> real) {
    Abs(k as real / 100000.0) <= 34359738368.0 && x == strtod(k as real / 100000.0)
  }

  // Such numbers make a set of that kind.
  lemma FiveDecimalsApart(x: real, y: real, strtod: real -> real)
    requires RoundsAll(strtod) && FiveDecimals(x, strtod) && FiveDecimals(y, strtod) && Close(x, y)
    ensures x == y
  {
    hide RoundsTo, Max, Pow2;
    ToleranceIsSmall();
    MaxIsLarge();
    var k :| IsFiveDecimals(x, k, strtod);
    var l :| IsFiveDecimals(y, l, strtod);
    SmallPowers();
    RoundsNear(k as real / 100000.0, x, 18, 0x4_0000);
    RoundsNear(l as real / 100000.0, y, 18, 0x4_0000);
    assert k as real / 100000.0 - l as real / 100000.0 == (k - l) as real / 100000.0;
    assert k == l;
  }

  lemma FiveDecimalsTransitive(a: Json, b: Json, c: Json, strtod: real -> real, p: real -> bool)
    requires Held(a) && Held(b) && Held(c) && Equal(a, b) && Equal(b, c) && RoundsAll(strtod)
    requires AllNumbers(a, p) && AllNumbers(b, p) && forall x | p(x) :: FiveDecimals(x, strtod)
    ensures Equal(a, c)
  {
    hide Close, IsDouble, Within, AllNumbers, FiveDecimals, RoundsAll;
    forall x, y | p(x) && p(y) && Close(x, y)
      ensures x == y
    {
      FiveDecimalsApart(x, y, strtod);
    }
    EqualTransitive(a, b, c, p);
  }

  // For six decimals it is not: 0.000005, 0.000006 and 0.000007, as they are read.
  lemma EqualNotTransitive()
    ensures var p := 0x40_0000_0000_0000_0000 as real;
      var x, y, z := 5902958103587057.0 / p, 7083549724304468.0 / p, 8264141345021879.0 / p;
      RoundsTo(0.000005, x) && RoundsTo(0.000006, y) && RoundsTo(0.000007, z)
      && Equal(Number(x), Number(y)) && Equal(Number(y), Number(z)) && !Equal(Number(x), Number(z))
  {
    Powers();
    hide Pow2, RoundsTo;
    var p := 0x40_0000_0000_0000_0000;
    RoundsToPattern(0.000005, 5902958103587057, 70, p);
    RoundsToPattern(0.000006, 7083549724304468, 70, p);
    RoundsToPattern(0.000007, 8264141345021879, 70, p);
  }

  // ---------------------------------------------------------------------------------------
  // What equality means

  // A tree without the order of members.
  datatype Canonical =
    | CanonObject(byName: map<CString, Canonical>)
    | CanonArray(items: seq<Canonical>)
    | CanonString(text: CString)
    | CanonNumber(value: real)
    | CanonBoolean(truth: bool)
    | CanonNull

  function Canon(v: Json): Canonical {
    match v
    case Object(ms) =>
      CanonObject(map name | name in Names(ms) && Find(ms, name) < |ms| :: Canon(ms[Find(ms, name)].value))
    case Array(items) => CanonArray(seq(|items|, i requires 0 <= i < |items| => Canon(items[i])))
    case String(t) => CanonString(t)
    case Number(x) => CanonNumber(x)
    case Boolean(b) => CanonBoolean(b)
    case Null => CanonNull
  }

  // The same but for numbers, and those in corresponding places close.
  predicate Corresponds(a: Canonical, b: Canonical)
    decreases a
  {
    match a
    case CanonObject(m) =>
      b.CanonObject? && m.Keys == b.byName.Keys && forall name <- m.Keys :: Corresponds(m[name], b.byName[name])
    case CanonArray(items) =>
      b.CanonArray? && |items| == |b.items| && forall i :: 0 <= i < |items| ==> Corresponds(items[i], b.items[i])
    case CanonString(t) => b == CanonString(t)
    case CanonNumber(x) => b.CanonNumber? && Close(x, b.value)
    case CanonBoolean(t) => b == CanonBoolean(t)
    case CanonNull => b == CanonNull
  }

  lemma CanonMembers(v: Json)
    requires v.Object?
    ensures Canon(v).CanonObject? && Canon(v).byName.Keys == Names(v.members)
    ensures forall name <- Names(v.members) ::
      Find(v.members, name) < |v.members| && Canon(v).byName[name] == Canon(v.members[Find(v.members, name)].value)
  {
    forall name | name in Names(v.members)
      ensures Find(v.members, name) < |v.members|
    {
      FindIsIn(v.members, name);
    }
  }

  lemma CanonItems(v: Json)
    requires v.Array?
    ensures Canon(v).CanonArray? && |Canon(v).items| == |v.items|
    ensures forall i :: 0 <= i < |v.items| ==> Canon(v).items[i] == Canon(v.items[i])
  {
  }

  lemma ItemsWithin(a: Json, b: Json, near: Near)
    requires a.Array? && b.Array? && |a.items| == |b.items|
    ensures Within(a, b, near) <==> forall i :: 0 <= i < |a.items| ==> Within(a.items[i], b.items[i], near)
  {
  }

  lemma CorrespondingItems(a: Canonical, b: Canonical)
    requires a.CanonArray? && b.CanonArray? && |a.items| == |b.items|
    ensures Corresponds(a, b) <==> forall i :: 0 <= i < |a.items| ==> Corresponds(a.items[i], b.items[i])
  {
  }

  lemma CorrespondingMembers(a: Canonical, b: Canonical)
    requires a.CanonObject? && b.CanonObject? && a.byName.Keys == b.byName.Keys
    ensures Corresponds(a, b) <==> forall name <- a.byName.Keys :: Corresponds(a.byName[name], b.byName[name])
  {
  }

  // Two trees are equal exactly when they are the same up to the order of members, and numbers in
  // corresponding places are close.
  lemma {:induction false} EqualIsCorrespondence(a: Json, b: Json)
    requires DistinctNames(a) && DistinctNames(b)
    ensures Equal(a, b) <==> Corresponds(Canon(a), Canon(b))
    decreases a
  {
    hide Close;
    if a.Array? && b.Array? && |a.items| == |b.items| {
      forall i | 0 <= i < |a.items|
        ensures Equal(a.items[i], b.items[i]) <==> Corresponds(Canon(a.items[i]), Canon(b.items[i]))
      {
        assert Child(a, i) == a.items[i] && Child(b, i) == b.items[i];
        EqualIsCorrespondence(a.items[i], b.items[i]);
      }
      CanonItems(a);
      CanonItems(b);
      ItemsWithin(a, b, Close);
      CorrespondingItems(Canon(a), Canon(b));
    } else if a.Object? && b.Object? {
      ObjectsCorrespond(a, b);
    }
  }

  lemma {:induction false} ObjectsCorrespond(a: Json, b: Json)
    requires a.Object? && b.Object? && DistinctNames(a) && DistinctNames(b)
    ensures Equal(a, b) <==> Corresponds(Canon(a), Canon(b))
    decreases a, 0
  {
    hide Close, Canon;
    CanonMembers(a);
    CanonMembers(b);
    var ms, ns := a.members, b.members;
    AsManyNames(ms);
    AsManyNames(ns);
    forall i | 0 <= i < |ms| && ms[i].name in Names(ns)
      ensures SameMember(a, b, i, Close)
        <==> Corresponds(Canon(a).byName[ms[i].name], Canon(b).byName[ms[i].name])
    {
      MembersCorrespond(a, b, i);
    }
    if Equal(a, b) {
      EqualNames(a, b);
    }
    if Corresponds(Canon(a), Canon(b)) {
      MembersWithin(a, b, Close);
    }
  }

  lemma EqualNames(a: Json, b: Json)
    requires a.Object? && b.Object? && DistinctNames(a) && DistinctNames(b) && Equal(a, b)
    ensures Names(a.members) == Names(b.members)
  {
    AsManyNames(a.members);
    AsManyNames(b.members);
    forall i | 0 <= i < |a.members|
      ensures a.members[i].name in Names(b.members)
    {
      assert SameMember(a, b, i, Close);
      FindIsIn(b.members, a.members[i].name);
    }
    SubsetOfSameSize(Names(a.members), Names(b.members));
  }

  lemma {:induction false} MembersCorrespond(a: Json, b: Json, i: nat)
    requires a.Object? && b.Object? && DistinctNames(a) && DistinctNames(b)
    requires i < |a.members| && a.members[i].name in Names(b.members)
    ensures var name := a.members[i].name;
      name in Canon(a).byName && name in Canon(b).byName
      && (SameMember(a, b, i, Close) <==> Corresponds(Canon(a).byName[name], Canon(b).byName[name]))
    decreases a, 0, 0
  {
    hide Close, Canon;
    var name := a.members[i].name;
    CanonMembers(a);
    CanonMembers(b);
    var j := Find(b.members, name);
    DistinctMember(a, i);
    DistinctMember(b, j);
    MembersLookup(a, b, i, Close);
    EqualIsCorrespondence(a.members[i].value, b.members[j].value);
  }

  // With numbers from a set in which close ones are the same, equality is being the same up to the
  // order of members.
  lemma {:induction false} EqualIsSame(a: Json, b: Json, p: real -> bool)
    requires DistinctNames(a) && DistinctNames(b) && AllNumbers(a, p) && AllNumbers(b, p)
    requires forall x, y | p(x) && p(y) && Close(x, y) :: x == y
    ensures Equal(a, b) <==> Canon(a) == Canon(b)
    decreases a
  {
    hide Close, Within;
    EqualIsCorrespondence(a, b);
    CorrespondingIsSame(a, b, p);
  }

  lemma {:induction false} CorrespondingIsSame(a: Json, b: Json, p: real -> bool)
    requires DistinctNames(a) && DistinctNames(b) && AllNumbers(a, p) && AllNumbers(b, p)
    requires forall x, y | p(x) && p(y) && Close(x, y) :: x == y
    ensures Corresponds(Canon(a), Canon(b)) <==> Canon(a) == Canon(b)
    decreases a
  {
    hide Canon, Corresponds, Close;
    if a.Array? && b.Array? && |a.items| == |b.items| {
      CanonItems(a);
      CanonItems(b);
      forall i | 0 <= i < |a.items|
        ensures Corresponds(Canon(a).items[i], Canon(b).items[i]) <==> Canon(a).items[i] == Canon(b).items[i]
      {
        assert Child(a, i) == a.items[i] && Child(b, i) == b.items[i];
        NumbersBelow(a, i, p);
        NumbersBelow(b, i, p);
        CorrespondingIsSame(a.items[i], b.items[i], p);
      }
      CorrespondingItems(Canon(a), Canon(b));
      assert Canon(a) == Canon(b) <==> Canon(a).items == Canon(b).items;
    } else if a.Object? && b.Object? {
      CanonMembers(a);
      CanonMembers(b);
      forall name | name in Names(a.members) && name in Names(b.members)
        ensures Corresponds(Canon(a).byName[name], Canon(b).byName[name]) <==> Canon(a).byName[name] == Canon(b).byName[name]
      {
        var i, j := Find(a.members, name), Find(b.members, name);
        DistinctMember(a, i);
        DistinctMember(b, j);
        NumbersBelow(a, i, p);
        NumbersBelow(b, j, p);
        CorrespondingIsSame(a.members[i].value, b.members[j].value, p);
      }
      ObjectsAreSame(Canon(a), Canon(b));
    } else {
      OthersAreSame(a, b, p);
    }
  }

  lemma ObjectsAreSame(a: Canonical, b: Canonical)
    requires a.CanonObject? && b.CanonObject?
    requires forall name | name in a.byName.Keys && name in b.byName.Keys ::
      Corresponds(a.byName[name], b.byName[name]) <==> a.byName[name] == b.byName[name]
    ensures Corresponds(a, b) <==> a == b
  {
    if a.byName.Keys == b.byName.Keys {
      CorrespondingMembers(a, b);
      assert a == b <==> forall name <- a.byName.Keys :: a.byName[name] == b.byName[name] by {
        if forall name <- a.byName.Keys :: a.byName[name] == b.byName[name] {
          assert a.byName == b.byName;
        }
      }
    }
  }

  lemma OthersAreSame(a: Json, b: Json, p: real -> bool)
    requires AllNumbers(a, p) && AllNumbers(b, p) && forall x, y | p(x) && p(y) && Close(x, y) :: x == y
    requires !(a.Array? && b.Array? && |a.items| == |b.items|) && !(a.Object? && b.Object?)
    ensures Corresponds(Canon(a), Canon(b)) <==> Canon(a) == Canon(b)
  {
    ToleranceIsSmall();
  }
}
