// parson.c: numbers as doubles. What is read of a decimal is the double that strtod makes of it.
module JsonDoubles {
  import opened JsonTree
  import opened JsonNumbers
  import opened JsonText
  import opened Doubles

  function WithNumbers(v: Json, f: real -> real): Json {
    match v
    case Object(ms) =>
      Object(seq(|ms|, i requires 0 <= i < |ms| => Member(ms[i].name, WithNumbers(ms[i].value, f))))
    case Array(items) => Array(seq(|items|, i requires 0 <= i < |items| => WithNumbers(items[i], f)))
    case Number(x) => Number(f(x))
    case _ => v
  }

  // What is read back of a tree of doubles.
  function ReadBack(v: Json, strtod: real -> real): Json {
    WithNumbers(AsRead(v), strtod)
  }

  // A number that strtod makes of one with at most six decimals.
  ghost predicate FromSixDecimals(x: real, strtod: real -> real) {
    exists n: int :: IsFromSix(x, n, strtod)
  }

  ghost predicate IsFromSix(x: real, n: int, strtod: real -> real) {
    Abs(SixDecimals(n)) <= Max() + 1.0 && x == strtod(SixDecimals(n))
  }

  ghost function Readings(strtod: real -> real): real -> bool {
    x => FromSixDecimals(x, strtod)
  }

  function SixDecimals(n: int): real {
    n as real / 1000000.0
  }

  // ---------------------------------------------------------------------------------------
  // One number

  lemma AsReadIsNear(x: real)
    ensures Abs(NumberAsRead(x) - x) <= 0.0000005
  {
    hide Nearest;
    NearestIsNear(x);
  }

  lemma WholeIsKept(x: real)
    requires x == x.Floor as real
    ensures NumberAsRead(x) == x
  {
    var n := if x < 0.0 then -x.Floor else x.Floor;
    assert Abs(x) * 1000000.0 == (n * 1000000) as real;
    WholeIsRounded(n * 1000000);
    hide Rounded, Abs;
  }

  lemma WholeIsRounded(n: nat)
    ensures Rounded(n as real) == n
  {
  }

  lemma DoubleIsKept(x: real, strtod: real -> real)
    requires IsDouble(x) && RoundsAll(strtod)
    ensures strtod(x) == x
  {
    DoubleIsFinite(x);
    hide IsDouble, Max;
    NoFarther(x, strtod(x), x);
  }

  lemma StrtodRounds(t: real, x: real, strtod: real -> real)
    requires IsDouble(x) && Abs(t - x) <= 1.0 && RoundsAll(strtod)
    ensures RoundsTo(t, strtod(t))
  {
    DoubleIsFinite(x);
    hide IsDouble, Max, RoundsTo;
  }

  // Written to six decimals and read, such a number is the same again.
  lemma SixDecimalsAreKept(x: real, n: int, strtod: real -> real)
    requires RoundsAll(strtod) && IsFromSix(x, n, strtod)
    ensures strtod(NumberAsRead(x)) == x
  {
    hide IsDouble, Max, NumberAsRead, Pow2, Even;
    var t := SixDecimals(n);
    assert RoundsTo(t, strtod(t));
    hide RoundsTo;
    DoubleIsKept(x, strtod);
    if Abs(x) > 8589934592.0 {
      LargeIsKept(x, strtod);
    } else if x == x.Floor as real {
      WholeIsKept(x);
    } else {
      SmallIsNear(t, x);
      NearSixDecimals(x, n);
    }
  }

  lemma LargeIsKept(x: real, strtod: real -> real)
    requires IsDouble(x) && RoundsAll(strtod) && Abs(x) > 8589934592.0
    ensures strtod(NumberAsRead(x)) == x
  {
    hide IsDouble, Max, NumberAsRead, RoundsTo;
    AsReadIsNear(x);
    StrtodRounds(NumberAsRead(x), x, strtod);
    LargeRounds(x, NumberAsRead(x), strtod(NumberAsRead(x)));
  }

  // Below 2^33 rounding moves a number by less than half a millionth.
  lemma SmallIsNear(t: real, x: real)
    requires RoundsTo(t, x) && Abs(x) < 8589934592.0
    ensures Abs(t - x) < 0.0000005
  {
    hide Pow2, IsDouble, RoundsTo;
    SmallPowers();
    FractionIsDouble(0x2_0000_0000, 0);
    FractionIsDouble(-0x2_0000_0000, 0);
    NoFarther(t, x, 8589934592.0);
    NoFarther(t, x, -8589934592.0);
    RoundsNear(t, x, 20, 0x10_0000);
  }

  lemma NearSixDecimals(x: real, n: int)
    requires Abs(SixDecimals(n) - x) < 0.0000005 && x != x.Floor as real
    ensures NumberAsRead(x) == SixDecimals(n)
  {
    var m := if x < 0.0 then -n else n;
    assert -0.5 < Abs(x) * 1000000.0 - m as real < 0.5;
    assert Rounded(Abs(x) * 1000000.0) == m;
  }

  // What is written of a number has six decimals.
  lemma WrittenHasSixDecimals(x: real) returns (n: int)
    ensures NumberAsRead(x) == SixDecimals(n)
  {
    n := Rounded(Abs(x) * 1000000.0);
    if IsInt32(x) {
      n := x.Floor * 1000000;
    } else if x < 0.0 {
      n := -n;
    }
  }

  lemma ReadIsFromSixDecimals(x: real, strtod: real -> real)
    requires IsDouble(x) && RoundsAll(strtod)
    ensures FromSixDecimals(strtod(NumberAsRead(x)), strtod)
  {
    hide IsDouble, RoundsAll, Max, NumberAsRead, SixDecimals;
    DoubleIsFinite(x);
    AsReadIsNear(x);
    var n := WrittenHasSixDecimals(x);
    assert IsFromSix(strtod(NumberAsRead(x)), n, strtod);
  }

  // A double comes back exactly when it is what strtod makes of at most six decimals.
  lemma NumberComesBack(x: real, strtod: real -> real)
    requires IsDouble(x) && RoundsAll(strtod)
    ensures strtod(NumberAsRead(x)) == x <==> FromSixDecimals(x, strtod)
  {
    hide IsDouble, RoundsAll, NumberAsRead, IsFromSix;
    ReadIsFromSixDecimals(x, strtod);
    if FromSixDecimals(x, strtod) {
      var n: int :| IsFromSix(x, n, strtod);
      SixDecimalsAreKept(x, n, strtod);
    }
  }

  // ---------------------------------------------------------------------------------------
  // Trees

  lemma ReadBackAlike(v: Json, strtod: real -> real)
    requires IsContainer(v)
    ensures Alike(v, ReadBack(v, strtod))
    ensures forall i :: 0 <= i < Count(v) ==> Child(ReadBack(v, strtod), i) == ReadBack(Child(v, i), strtod)
  {
    AsReadAlike(v);
    hide AsRead;
  }

  // A tree of doubles comes back as it was exactly when each of its numbers is what strtod makes
  // of at most six decimals.
  lemma {:induction false} ComesBack(v: Json, strtod: real -> real)
    requires AllNumbers(v, IsDouble) && RoundsAll(strtod)
    ensures ReadBack(v, strtod) == v <==> AllNumbers(v, Readings(strtod))
    decreases v
  {
    hide IsDouble, RoundsAll, FromSixDecimals, NumberAsRead, ReadBack;
    if IsContainer(v) {
      forall i | 0 <= i < Count(v)
        ensures ReadBack(Child(v, i), strtod) == Child(v, i) <==> AllNumbers(Child(v, i), Readings(strtod))
      {
        ComesBack(Child(v, i), strtod);
      }
      ReadBackAlike(v, strtod);
      SameChildren(v, ReadBack(v, strtod));
    } else {
      LeafComesBack(v, strtod);
    }
  }

  lemma LeafComesBack(v: Json, strtod: real -> real)
    requires !IsContainer(v) && AllNumbers(v, IsDouble) && RoundsAll(strtod)
    ensures ReadBack(v, strtod) == v <==> (v.Number? ==> FromSixDecimals(v.value, strtod))
  {
    hide IsDouble, RoundsAll, FromSixDecimals, NumberAsRead;
    if v.Number? {
      NumberComesBack(v.value, strtod);
    }
  }

  // Whatever the numbers were, writing and reading the tree once more changes nothing.
  lemma {:induction false} SecondTripIsExact(v: Json, strtod: real -> real)
    requires AllNumbers(v, IsDouble) && RoundsAll(strtod)
    ensures ReadBack(ReadBack(v, strtod), strtod) == ReadBack(v, strtod)
    decreases v
  {
    hide IsDouble, RoundsAll, NumberAsRead, ReadBack;
    var w := ReadBack(v, strtod);
    if IsContainer(v) {
      ReadBackAlike(v, strtod);
      ReadBackAlike(w, strtod);
      forall i | 0 <= i < Count(v)
        ensures Child(w, i) == ReadBack(Child(w, i), strtod)
      {
        SecondTripIsExact(Child(v, i), strtod);
      }
      SameChildren(w, ReadBack(w, strtod));
    } else {
      LeafTwice(v, strtod);
    }
  }

  lemma LeafTwice(v: Json, strtod: real -> real)
    requires !IsContainer(v) && AllNumbers(v, IsDouble) && RoundsAll(strtod)
    ensures ReadBack(ReadBack(v, strtod), strtod) == ReadBack(v, strtod)
  {
    hide IsDouble, RoundsAll, NumberAsRead, FromSixDecimals;
    if v.Number? {
      var y := strtod(NumberAsRead(v.value));
      ReadIsFromSixDecimals(v.value, strtod);
      ReadIsDouble(v.value, strtod);
      NumberComesBack(y, strtod);
    }
  }

  lemma ReadIsDouble(x: real, strtod: real -> real)
    requires IsDouble(x) && RoundsAll(strtod)
    ensures IsDouble(strtod(NumberAsRead(x)))
  {
    AsReadIsNear(x);
    hide NumberAsRead, RoundsAll;
    StrtodRounds(NumberAsRead(x), x, strtod);
    hide *;
  }

  // The tree that comes back has only numbers that come back again.
  lemma {:induction false} ReadBackHasSixDecimals(v: Json, strtod: real -> real)
    requires AllNumbers(v, IsDouble) && RoundsAll(strtod)
    ensures AllNumbers(ReadBack(v, strtod), IsDouble) && AllNumbers(ReadBack(v, strtod), Readings(strtod))
    decreases v
  {
    hide IsDouble, RoundsAll, FromSixDecimals, NumberAsRead;
    if IsContainer(v) {
      ReadBackAlike(v, strtod);
      hide ReadBack;
      forall i | 0 <= i < Count(v)
        ensures AllNumbers(Child(ReadBack(v, strtod), i), IsDouble)
        ensures AllNumbers(Child(ReadBack(v, strtod), i), Readings(strtod))
      {
        ReadBackHasSixDecimals(Child(v, i), strtod);
      }
    } else if v.Number? {
      ReadIsFromSixDecimals(v.value, strtod);
      ReadIsDouble(v.value, strtod);
    }
  }

  lemma {:induction false} ReadBackKeepsShape(v: Json, strtod: real -> real)
    ensures WellFormed(v) ==> WellFormed(ReadBack(v, strtod))
    ensures Depth(ReadBack(v, strtod)) == Depth(v) && (CleanStrings(ReadBack(v, strtod)) <==> CleanStrings(v))
    decreases v
  {
    hide NumberAsRead;
    if IsContainer(v) {
      var w := ReadBack(v, strtod);
      ReadBackAlike(v, strtod);
      hide ReadBack, DepthFrom;
      forall i | 0 <= i < Count(v)
        ensures WellFormed(Child(v, i)) ==> WellFormed(Child(w, i))
        ensures Depth(Child(w, i)) == Depth(Child(v, i)) && (CleanStrings(Child(w, i)) <==> CleanStrings(Child(v, i)))
        ensures CleanLabel(w, i) <==> CleanLabel(v, i)
      {
        ReadBackKeepsShape(Child(v, i), strtod);
      }
      SameDepth(v, w, 0);
    }
  }

  lemma {:induction false} SameDepth(v: Json, w: Json, i: nat)
    requires Alike(v, w) && i <= Count(v) && forall j :: 0 <= j < Count(v) ==> Depth(Child(w, j)) == Depth(Child(v, j))
    ensures DepthFrom(w, i) == DepthFrom(v, i)
    decreases Count(v) - i
  {
    if i < Count(v) {
      SameDepth(v, w, i + 1);
    }
  }
}
