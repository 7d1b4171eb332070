// The finite numbers of the C type double as reals: which there are, rounding down to one, and
// what the difference of two, rounded to the nearest one, says about the two.
module Doubles {
  import opened JsonNumbers

  function Pow2(n: nat): (p: int)
    ensures p > 0
  {
    if n == 0 then 1 else 2 * Pow2(n - 1)
  }

  const BITS := 0x20_0000_0000_0000  // 2^53
  const UNITS: nat := 1074           // the least positive double is 2^-1074
  const TOP: nat := 2045             // the largest one is 2^53 - 1 times 2^(2045 - 1074)

  predicate Pattern(n: int, m: int, k: nat) {
    k <= TOP && -BITS < m < BITS && n == m * Pow2(k)
  }

  // A whole number of units that is a double: 53 bits and an exponent.
  ghost predicate Fits(n: int) {
    exists m: int, k: nat :: Pattern(n, m, k)
  }

  function Units(x: real): real {
    x * Pow2(UNITS) as real
  }

  ghost predicate IsDouble(x: real) {
    Units(x) == Units(x).Floor as real && Fits(Units(x).Floor)
  }

  function Largest(): int {
    (BITS - 1) * Pow2(TOP)
  }

  // ---------------------------------------------------------------------------------------
  // Powers of two

  lemma {:induction false} PowAdd(a: nat, b: nat)
    ensures Pow2(a + b) == Pow2(a) * Pow2(b)
  {
    if a > 0 {
      PowAdd(a - 1, b);
      assert Pow2(a + b) == 2 * Pow2(a - 1 + b);
      assert Pow2(a) * Pow2(b) == 2 * (Pow2(a - 1) * Pow2(b)) by {
        assert Pow2(a) == 2 * Pow2(a - 1);
        Regroup(2, Pow2(a - 1), Pow2(b));
      }
    }
  }

  lemma SmallPowers()
    ensures Pow2(0) == 1 && Pow2(2) == 4 && Pow2(18) == 0x4_0000 && Pow2(19) == 0x8_0000 && Pow2(20) == 0x10_0000
  {
    assert Pow2(9) == 512;
    PowAdd(9, 9);
    assert Pow2(20) == 2 * Pow2(19) == 4 * Pow2(18);
  }

  lemma Powers()
    ensures Pow2(70) == 0x40_0000_0000_0000_0000
    ensures Pow2(72) == 0x100_0000_0000_0000_0000
  {
    hide Pow2;
    SmallPowers();
    PowAdd(18, 18);
    assert Pow2(36) == 0x10_0000_0000;
    PowAdd(36, 36);
    assert Pow2(72) == Pow2(36) * Pow2(36) == 0x10_0000_0000 * 0x10_0000_0000;
    PowAdd(2, 70);
    assert Pow2(72) == 4 * Pow2(70);
  }

  lemma Regroup(a: int, b: int, c: int)
    ensures a * b * c == a * (b * c)
  {
  }

  lemma Quotient(n: int, p: int, q: int)
    requires p > 0
    ensures n / p * p <= n < (n / p + 1) * p
    ensures q * p <= n <==> q <= n / p
  {
    assert n == n / p * p + n % p;
    if q <= n / p {
      Times(q, n / p, p);
    } else {
      Times(n / p + 1, q, p);
    }
  }

  lemma Times(a: int, b: int, p: int)
    requires a <= b && p > 0
    ensures a * p <= b * p
  {
  }

  // ---------------------------------------------------------------------------------------
  // Rounding down

  // The exponent of a number of units, counted from k on.
  function Exponent(n: nat, k: nat): (e: nat)
    requires k <= TOP
    ensures k <= e <= TOP
    ensures e < TOP ==> n < BITS * Pow2(e)
    ensures e == k || n >= BITS * Pow2(e - 1)
    decreases TOP - k
  {
    if k == TOP || n < BITS * Pow2(k) then k else Exponent(n, k + 1)
  }

  function Size(n: int): nat {
    if n < 0 then -n else n
  }

  // The largest double that is at most so many units.
  function UnitsBelow(n: int): int {
    var p := Pow2(Exponent(Size(n), 0));
    n / p * p
  }

  lemma UnitsBelowFits(n: int)
    requires -Largest() <= n < BITS * Pow2(TOP)
    ensures Fits(UnitsBelow(n))
  {
    hide Pow2;
    var k := Exponent(Size(n), 0);
    Negated(BITS, Pow2(k));
    Negated(BITS - 1, Pow2(TOP));
    QuotientInside(n, Pow2(k), BITS);
    hide Exponent, Largest, Size;
    QuotientFits(n / Pow2(k), k);
  }

  lemma QuotientFits(m: int, k: nat)
    requires k <= TOP && -BITS <= m < BITS && (k == TOP ==> -BITS < m)
    ensures Fits(m * Pow2(k))
  {
    if m == -BITS {
      Half(k + 1);
      hide Pow2;
      Regroup(-(BITS / 2), 2, Pow2(k));
      assert Pattern(m * Pow2(k), -(BITS / 2), k + 1);
    } else {
      assert Pattern(m * Pow2(k), m, k);
    }
  }

  lemma QuotientInside(n: int, p: int, b: int)
    requires p > 0 && -b * p <= n < b * p
    ensures -b <= n / p < b && n / p * p <= n
    ensures -(b - 1) * p <= n ==> -b < n / p
  {
    Quotient(n, p, -b);
    Quotient(n, p, b);
    Quotient(n, p, 1 - b);
  }

  lemma Negated(a: int, b: int)
    ensures (-a) * b == -(a * b)
  {
  }

  lemma UnitsBelowIsLargest(n: int, y: int)
    requires Fits(y) && y <= n
    ensures y <= UnitsBelow(n)
  {
    var m, j :| Pattern(y, m, j);
    var k := Exponent(Size(n), 0);
    if j >= k {
      FactorBelow(n, y, m, j, k);
    } else {
      SmallPattern(y, m, j, k);
      Negated(BITS, Pow2(k - 1));
      if n >= 0 {
        Half(k);
        Regroup(BITS / 2, 2, Pow2(k - 1));
        hide *;
        Quotient(n, Pow2(k), BITS / 2);
        Times(BITS / 2, n / Pow2(k), Pow2(k));
      }
    }
  }

  lemma FactorBelow(n: int, y: int, m: int, j: nat, k: nat)
    requires Pattern(y, m, j) && j >= k && y <= n
    ensures y <= n / Pow2(k) * Pow2(k)
  {
    var p, f := Pow2(k), Pow2(j - k);
    PowAdd(j - k, k);
    Regroup(m, f, p);
    hide Pow2;
    Quotient(n, p, m * f);
    Times(m * f, n / p, p);
  }

  lemma Half(k: nat)
    requires k > 0
    ensures Pow2(k) == 2 * Pow2(k - 1)
  {
  }

  lemma SmallPattern(y: int, m: int, j: nat, k: nat)
    requires Pattern(y, m, j) && j < k
    ensures -BITS * Pow2(k - 1) < y < BITS * Pow2(k - 1)
  {
    PowAdd(k - 1 - j, j);
    hide Pow2;
    Inside(m, BITS, Pow2(j), Pow2(k - 1 - j));
  }

  lemma Inside(m: int, b: int, p: int, f: int)
    requires p > 0 && f > 0 && -b < m < b
    ensures -b * (f * p) < m * p < b * (f * p)
  {
    Times(m + 1, b, p);
    Times(1 - b, m, p);
    Times(1, f, p);
    Times(p, f * p, b);
    Negated(b, f * p);
    Negated(b - 1, p);
    assert (m + 1) * p == m * p + p && (b - 1) * p == b * p - p;
  }

  // The largest double that is at most t.
  function Below(t: real): real {
    FromUnits(UnitsBelow(Units(t).Floor))
  }

  // No double is farther from zero.
  function Max(): real {
    FromUnits(Largest())
  }

  function FromUnits(n: int): real {
    n as real / Pow2(UNITS) as real
  }

  lemma UnitsOf(n: int)
    ensures Units(FromUnits(n)) == n as real
  {
    hide Pow2;
  }

  lemma UnitsAscend(x: real, y: real)
    ensures x <= y <==> Units(x) <= Units(y)
  {
    var u := Pow2(UNITS) as real;
    hide Pow2;
    if x <= y {
      assert x * u <= y * u;
    } else {
      assert x * u > y * u;
    }
  }

  lemma OneUnit()
    ensures Units(1.0) < Pow2(TOP) as real
  {
    hide Pow2;
    PowAdd(UNITS, TOP - UNITS);
    Half(TOP - UNITS);
    Times(2, Pow2(TOP - UNITS), Pow2(UNITS));
    assert Units(1.0) == Pow2(UNITS) as real;
  }

  lemma UnitsAdd(x: real, y: real)
    ensures Units(x + y) == Units(x) + Units(y)
  {
    hide Pow2;
  }

  lemma UnitsNegated(x: real)
    ensures Units(-x) == -Units(x)
  {
    hide Pow2;
  }

  lemma FloorInRange(t: real)
    requires -Max() <= t <= Max() + 1.0
    ensures -Largest() <= Units(t).Floor < BITS * Pow2(TOP)
  {
    OneUnit();
    UnitsOf(Largest());
    UnitsNegated(Max());
    UnitsAscend(-Max(), t);
    UnitsAscend(t, Max() + 1.0);
    UnitsAdd(Max(), 1.0);
    hide Pow2, Units;
  }

  lemma BelowIsAtMost(t: real)
    ensures Below(t) <= t
  {
    var n := Units(t).Floor;
    Quotient(n, Pow2(Exponent(Size(n), 0)), 0);
    UnitsOf(UnitsBelow(n));
    assert UnitsBelow(n) <= n;
    hide Pow2, UnitsBelow, Units;
    UnitsAscend(Below(t), t);
  }

  lemma BelowIsDouble(t: real)
    requires -Max() <= t <= Max() + 1.0
    ensures IsDouble(Below(t))
  {
    FloorInRange(t);
    UnitsBelowFits(Units(t).Floor);
    UnitsOf(UnitsBelow(Units(t).Floor));
    hide Pow2, UnitsBelow, Fits, Units;
  }

  lemma BelowIsLargest(t: real, y: real)
    requires IsDouble(y) && y <= t
    ensures y <= Below(t)
  {
    hide Pow2, UnitsBelow, Fits;
    UnitsAscend(y, t);
    UnitsBelowIsLargest(Units(t).Floor, Units(y).Floor);
    UnitsOf(UnitsBelow(Units(t).Floor));
    UnitsAscend(y, Below(t));
  }

  lemma DoubleIsFinite(x: real)
    requires IsDouble(x)
    ensures -Max() <= x <= Max()
  {
    var n := Units(x).Floor;
    var m, k :| Pattern(n, m, k);
    PowAdd(TOP - k, k);
    var p, f := Pow2(k), Pow2(TOP - k);
    UnitsOf(Largest());
    UnitsNegated(Max());
    UnitsAscend(-Max(), x);
    UnitsAscend(x, Max());
    hide *;
    WithinLargest(m, p, f);
  }

  lemma WithinLargest(m: int, p: int, f: int)
    requires p > 0 && f > 0 && -BITS < m < BITS
    ensures -(BITS - 1) * (f * p) <= m * p <= (BITS - 1) * (f * p)
  {
    Times(1, f, p);
    Times(m, BITS - 1, p);
    Times(1 - BITS, m, p);
    Times(p, f * p, BITS - 1);
    Negated(BITS - 1, p);
    Negated(BITS - 1, f * p);
  }

  lemma FractionIsDouble(m: int, k: nat)
    requires -BITS < m < BITS && k <= UNITS
    ensures Units(m as real / Pow2(k) as real) == (m * Pow2(UNITS - k)) as real
    ensures IsDouble(m as real / Pow2(k) as real)
  {
    PowAdd(UNITS - k, k);
    Cancel(m, Pow2(k), Pow2(UNITS - k));
    assert Pattern(m * Pow2(UNITS - k), m, UNITS - k);
    hide Pow2, Pattern;
  }

  lemma Cancel(m: int, p: int, f: int)
    requires p > 0
    ensures m as real / p as real * (f * p) as real == (m * f) as real
  {
    var x, y, z := m as real, p as real, f as real;
    assert (f * p) as real == z * y;
    assert x / y * (z * y) == x / y * y * z;
    assert (m * f) as real == x * z;
  }

  // The finite numbers of the format binary64 of IEEE 754: 53 bits times a power of two between
  // 2^-1074 and 2^971.
  ghost predicate IsBinary64(x: real, m: int, e: int) {
    -9007199254740992 < m < 9007199254740992 && -1074 <= e <= 971 && x == Scaled(m, e)
  }

  function Scaled(m: int, e: int): real {
    if e >= 0 then (m * Pow2(e)) as real else m as real / Pow2(-e) as real
  }

  lemma UnitsScaled(m: int, e: int)
    requires -BITS < m < BITS && 0 <= e + UNITS
    ensures Units(Scaled(m, e)) == (m * Pow2(e + UNITS)) as real
  {
    if e >= 0 {
      PowAdd(e, UNITS);
      Regroup(m, Pow2(e), Pow2(UNITS));
      hide Pow2;
      var f, u := m * Pow2(e), Pow2(UNITS);
      assert f as real * u as real == (f * u) as real;
    } else {
      hide Pow2;
      FractionIsDouble(m, -e);
    }
  }

  lemma DoubleIsBinary64(x: real)
    ensures IsDouble(x) <==> exists m, e :: IsBinary64(x, m, e)
  {
    hide Pow2, Scaled, Units;
    if IsDouble(x) {
      var m, k: nat :| Pattern(Units(x).Floor, m, k);
      UnitsScaled(m, k - 1074);
      UnitsAscend(x, Scaled(m, k - 1074));
      UnitsAscend(Scaled(m, k - 1074), x);
      assert IsBinary64(x, m, k - 1074);
    }
    if m, e :| IsBinary64(x, m, e) {
      UnitsScaled(m, e);
      assert Pattern(m * Pow2(e + 1074), m, e + 1074);
    }
  }

  // ---------------------------------------------------------------------------------------
  // The difference of two numbers, rounded, against 0.000001

  const DIGITS := 4722366482869645
  const SHIFT: nat := 72

  // The constant 0.000001 is the nearest double, an odd multiple of 2^-72.
  const EPSILON := 4722366482869645.0 / 4722366482869645213696.0

  // Halfway between it and the double below.
  const TOLERANCE := 4722366482869644.5 / 4722366482869645213696.0

  // Among the patterns of a number the one with the most bits ends in 0.
  ghost predicate Even(x: real) {
    exists m: int, k: nat :: Pattern(Units(x).Floor, m, k) && m % 2 == 0
  }

  // To the nearest double, to an even one from halfway.
  ghost predicate RoundsTo(d: real, r: real) {
    IsDouble(r)
    && forall y | IsDouble(y) :: Abs(d - r) <= Abs(d - y) && (Abs(d - r) == Abs(d - y) && y != r ==> Even(r))
  }

  const PREDECESSOR := 4722366482869644.0 / 4722366482869645213696.0

  // With all 53 bits in use there is no double between a pattern and the next.
  lemma NoPatternBetween(n: int, q: int, j: nat, m: int, k: nat)
    requires Pattern(n, q, j) && BITS / 2 < m
    ensures n <= (m - 1) * Pow2(k) || n >= m * Pow2(k)
  {
    var p := Pow2(k);
    if j >= k {
      PowAdd(j - k, k);
      var f := q * Pow2(j - k);
      Regroup(q, Pow2(j - k), p);
      hide Pow2;
      if f < m {
        Times(f, m - 1, p);
      } else {
        Times(m, f, p);
      }
    } else {
      SmallPattern(n, q, j, k);
      Half(k);
      var h := Pow2(k - 1);
      hide Pow2;
      Regroup(m - 1, 2, h);
      Times(BITS, (m - 1) * 2, h);
    }
  }

  lemma NoneBetween(y: real, q: int, m: int, k: nat, p: int)
    requires IsDouble(y) && m == q + 1 && BITS / 2 < m < BITS && k <= UNITS && p == Pow2(k)
    ensures p > 0 && (y <= q as real / p as real || m as real / p as real <= y)
  {
    var n := Units(y).Floor;
    var f, j :| Pattern(n, f, j);
    NoPatternBetween(n, f, j, m, UNITS - k);
    FractionIsDouble(m, k);
    FractionIsDouble(q, k);
    UnitsAscend(y, q as real / p as real);
    UnitsAscend(m as real / p as real, y);
    hide Pow2, Units, Fits, Pattern;
  }

  lemma OddPattern(m: int, j: nat, k: nat)
    requires Pattern(DIGITS * Pow2(k), m, j)
    ensures m % 2 == 1
  {
    var p, q := Pow2(k), Pow2(j);
    if j >= k {
      var f := Pow2(j - k);
      PowAdd(j - k, k);
      Regroup(m, f, p);
      SameFactor(DIGITS, m * f, p);
      if m % 2 == 0 {
        Regroup(2, m / 2, f);
      }
    } else {
      var h := Pow2(k - 1);
      Half(k);
      Regroup(DIGITS, 2, h);
      Times(BITS, DIGITS * 2, h);
      SmallPattern(DIGITS * p, m, j, k);
      assert false;
    }
  }

  lemma SameFactor(a: int, b: int, p: int)
    requires p > 0 && a * p == b * p
    ensures a == b
  {
    if a < b {
      Times(a + 1, b, p);
    } else if a > b {
      Times(b + 1, a, p);
    }
  }

  lemma EpsilonIsOdd()
    ensures !Even(EPSILON)
  {
    Powers();
    FractionIsDouble(DIGITS, SHIFT);
    var n := Units(EPSILON).Floor;
    hide Units;
    forall m: int, j: nat | Pattern(n, m, j)
      ensures m % 2 != 0
    {
      OddPattern(m, j, UNITS - SHIFT);
    }
  }

  // A rounded difference is below the constant exactly when the difference is at most halfway
  // below it.
  lemma RoundedBelow(d: real, r: real)
    requires RoundsTo(d, r) && d >= 0.0
    ensures 0.0 <= r && (r < EPSILON <==> d <= TOLERANCE)
  {
    hide IsDouble, Even, Abs;
    Neighbours(r);
    EpsilonIsOdd();
    NoFarther(d, r, 0.0);
    NoFarther(d, r, EPSILON);
    NoFarther(d, r, PREDECESSOR);
    BelowHalfway(d, r, Even(r));
  }

  lemma Neighbours(r: real)
    requires IsDouble(r)
    ensures IsDouble(0.0) && IsDouble(PREDECESSOR) && IsDouble(EPSILON) && (r <= PREDECESSOR || EPSILON <= r)
  {
    hide Pow2, IsDouble;
    Powers();
    SmallPowers();
    FractionIsDouble(0, 0);
    FractionIsDouble(DIGITS, SHIFT);
    FractionIsDouble(DIGITS - 1, SHIFT);
    NoneBetween(r, DIGITS - 1, DIGITS, SHIFT, Pow2(SHIFT));
  }

  lemma BelowHalfway(d: real, r: real, even: bool)
    requires d >= 0.0 && (r == EPSILON ==> !even) && (r <= PREDECESSOR || EPSILON <= r)
    requires Abs(d - r) <= Abs(d - 0.0) && Abs(d - r) <= Abs(d - EPSILON) && Abs(d - r) <= Abs(d - PREDECESSOR)
    requires Abs(d - r) == Abs(d - PREDECESSOR) && r != PREDECESSOR ==> even
    ensures 0.0 <= r && (r < EPSILON <==> d <= TOLERANCE)
  {
  }

  lemma DoubleNegated(x: real)
    requires IsDouble(x)
    ensures IsDouble(-x) && (Even(x) ==> Even(-x))
  {
    var n := Units(x).Floor;
    UnitsNegated(x);
    assert Units(-x).Floor == -n;
    hide Pow2, Units;
    var m, k :| Pattern(n, m, k);
    PatternNegated(n, m, k);
    if Even(x) {
      var e, j :| Pattern(n, e, j) && e % 2 == 0;
      PatternNegated(n, e, j);
    }
  }

  lemma PatternNegated(n: int, m: int, k: nat)
    requires Pattern(n, m, k)
    ensures Pattern(-n, -m, k)
  {
    Negated(m, Pow2(k));
  }

  lemma RoundsToNegated(d: real, r: real)
    requires RoundsTo(d, r)
    ensures RoundsTo(-d, -r)
  {
    DoubleNegated(r);
    forall y | IsDouble(y)
      ensures Abs(-d - -r) <= Abs(-d - y) && (Abs(-d - -r) == Abs(-d - y) && y != -r ==> Even(-r))
    {
      DoubleNegated(y);
      hide IsDouble, Even;
      assert Abs(d - r) <= Abs(d - -y);
    }
    hide IsDouble, Even, Abs;
  }

  // The test fabs(a - b) < 0.000001 of two doubles, on their exact difference: its rounding moves
  // the bound halfway to the next double.
  predicate Close(x: real, y: real) {
    Abs(x - y) <= TOLERANCE
  }

  lemma CloseIsRounded(x: real, y: real, r: real)
    requires RoundsTo(x - y, r)
    ensures Abs(r) < EPSILON <==> Close(x, y)
  {
    hide RoundsTo;
    if x >= y {
      RoundedBelow(x - y, r);
    } else {
      RoundsToNegated(x - y, r);
      assert -(x - y) == y - x;
      RoundedBelow(y - x, -r);
    }
  }

  // A number less than half a step away from a pattern of 53 bits is rounded to it.
  lemma RoundsToPattern(t: real, m: int, k: nat, p: int)
    requires BITS / 2 < m < BITS - 1 && k <= UNITS && p == Pow2(k)
    requires m as real - 0.5 < t * p as real < m as real + 0.5
    ensures RoundsTo(t, m as real / p as real)
  {
    FractionIsDouble(m, k);
    hide *;
    forall y | IsDouble(y)
      ensures y == m as real / p as real || Abs(t - m as real / p as real) < Abs(t - y)
    {
      OthersFarther(t, y, m, k, p);
    }
    NearestRounds(t, m as real / p as real);
  }

  lemma OthersFarther(t: real, y: real, m: int, k: nat, p: int)
    requires BITS / 2 < m < BITS - 1 && k <= UNITS && p == Pow2(k)
    requires m as real - 0.5 < t * p as real < m as real + 0.5 && IsDouble(y)
    ensures y == m as real / p as real || Abs(t - m as real / p as real) < Abs(t - y)
  {
    hide *;
    NoneBetween(y, m - 1, m, k, p);
    NoneBetween(y, m, m + 1, k, p);
    Farther(t, y, m, p as real);
  }

  lemma NearestRounds(t: real, x: real)
    requires IsDouble(x)
    requires forall y | IsDouble(y) :: y == x || Abs(t - x) < Abs(t - y)
    ensures RoundsTo(t, x)
  {
    hide IsDouble, Abs, Even;
  }

  lemma Farther(t: real, y: real, m: int, p: real)
    requires p > 0.0 && m as real - 0.5 < t * p < m as real + 0.5
    requires y <= (m - 1) as real / p || m as real / p <= y
    requires y <= m as real / p || (m + 1) as real / p <= y
    ensures y == m as real / p || Abs(t - m as real / p) < Abs(t - y)
  {
    var x, s := m as real / p, 0.5 / p;
    assert (m - 1) as real / p == x - 2.0 * s && (m + 1) as real / p == x + 2.0 * s;
    assert x - s < t < x + s by {
      assert t == t * p / p;
      Divide(m as real - 0.5, t * p, p);
      Divide(t * p, m as real + 0.5, p);
    }
  }

  lemma Divide(a: real, b: real, p: real)
    requires a < b && p > 0.0
    ensures a / p < b / p
  {
    assert (b - a) / p > 0.0;
  }

  lemma EpsilonIsNearest()
    ensures RoundsTo(0.000001, EPSILON)
  {
    Powers();
    hide Pow2, RoundsTo;
    var p := 0x100_0000_0000_0000_0000;
    RoundsToPattern(0.000001, DIGITS, SHIFT, p);
  }

  lemma MaxIsLarge()
    ensures 34359738368.0 <= Max()
  {
    FractionIsDouble(0x8_0000_0000, 0);
    assert Pow2(0) == 1;
    hide IsDouble, Max;
    DoubleIsFinite(34359738368.0);
  }

  // As long as a number times 2^k has no more than 53 bits, the nearest double is at most half of
  // 2^-k away.
  lemma RoundsNear(t: real, r: real, k: nat, p: int)
    requires RoundsTo(t, r) && 0 < k <= UNITS && p == Pow2(k) && -BITS as real <= t * p as real <= BITS as real
    ensures Abs(t - r) <= 0.5 / p as real
  {
    hide Pow2, IsDouble, Even, Abs;
    var m := (t * p as real + 0.5).Floor;
    PatternIsDouble(m, k);
    HalfAway(t, m, p as real);
    NoFarther(t, r, m as real / p as real);
  }

  lemma NoFarther(t: real, r: real, y: real)
    requires RoundsTo(t, r) && IsDouble(y)
    ensures Abs(t - r) <= Abs(t - y)
  {
    hide IsDouble, Even;
  }

  lemma HalfAway(t: real, m: int, p: real)
    requires p > 0.0 && -0.5 <= t * p - m as real <= 0.5
    ensures Abs(t - m as real / p) <= 0.5 / p
  {
    var d := t * p - m as real;
    assert t - m as real / p == d / p by {
      assert t * p / p == t;
    }
    Divide(d, 1.0, p);
    assert (0.5 - d) / p >= 0.0 && (0.5 + d) / p >= 0.0;
  }

  lemma PatternIsDouble(m: int, k: nat)
    requires -BITS <= m <= BITS && 0 < k <= UNITS
    ensures IsDouble(m as real / Pow2(k) as real)
  {
    hide IsDouble, Pow2;
    if -BITS < m < BITS {
      FractionIsDouble(m, k);
    } else {
      FractionIsDouble(m / 2, k - 1);
      Half(k);
      Halves(m / 2, Pow2(k - 1));
    }
  }

  lemma Halves(m: int, p: int)
    requires p > 0
    ensures (2 * m) as real / (2 * p) as real == m as real / p as real
  {
    var x, y := m as real, p as real;
    assert 2.0 * x / (2.0 * y) == x / y;
  }

  // What strtod makes of a number that is not too large for a double.
  ghost predicate RoundsAll(strtod: real -> real) {
    forall t | Abs(t) <= Max() + 1.0 :: RoundsTo(t, strtod(t))
  }

  // From 2^33 on the doubles are whole multiples of 2^-19.
  lemma Coarse(y: real)
    requires IsDouble(y) && Abs(y) >= 8589934592.0
    ensures y * 524288.0 == (y * 524288.0).Floor as real
  {
    hide Pow2;
    var n := Units(y).Floor;
    var m, k :| Pattern(n, m, k);
    CoarseUnits(n, m, k, y);
    CoarsePattern(n, m, k, y);
    hide Units, Pattern, Fits;
  }

  lemma CoarsePattern(n: int, m: int, k: nat, y: real)
    requires Pattern(n, m, k) && Units(y) == n as real && k >= 1055
    ensures y * 524288.0 == (m * Pow2(k - 1055)) as real
  {
    hide Pow2;
    var f, p := Pow2(k - 1055), Pow2(1055);
    PowAdd(k - 1055, 1055);
    PowAdd(19, 1055);
    SmallPowers();
    Regroup(m, f, p);
    Unfold(y, p);
    SameProduct(y * 524288.0, m * f, p);
  }

  lemma Unfold(y: real, p: int)
    ensures y * (524288 * p) as real == y * 524288.0 * p as real
  {
    assert (524288 * p) as real == 524288.0 * p as real;
  }

  lemma SameProduct(x: real, n: int, p: int)
    requires p > 0 && x * p as real == (n * p) as real
    ensures x == n as real
  {
    assert (n * p) as real == n as real * p as real;
    assert (x - n as real) * p as real == 0.0;
  }

  lemma CoarseUnits(n: int, m: int, k: nat, y: real)
    requires Pattern(n, m, k) && Units(y) == n as real && Abs(y) >= 8589934592.0
    ensures k >= 1055
  {
    hide Pow2;
    FractionIsDouble(0x2_0000_0000, 0);
    PowAdd(20, 1054);
    SmallPowers();
    UnitsAscend(8589934592.0, y);
    UnitsAscend(y, -8589934592.0);
    UnitsNegated(8589934592.0);
    Regroup(0x2_0000_0000, Pow2(20), Pow2(1054));
    if k < 1055 {
      SmallPattern(n, m, k, 1055);
    }
  }

  // Above it, a number that close to a double is rounded to that double.
  lemma LargeRounds(x: real, t: real, r: real)
    requires IsDouble(x) && Abs(x) > 8589934592.0 && Abs(t - x) <= 0.0000005 && RoundsTo(t, r)
    ensures r == x
  {
    hide IsDouble, Even;
    Coarse(x);
    if Abs(r) >= 8589934592.0 {
      Coarse(r);
    }
    assert Abs(t - r) <= Abs(t - x);
    hide *;
    Spaced(x, t, r);
  }

  lemma Spaced(x: real, t: real, r: real)
    requires Abs(x) > 8589934592.0 && x * 524288.0 == (x * 524288.0).Floor as real
    requires Abs(r) >= 8589934592.0 ==> r * 524288.0 == (r * 524288.0).Floor as real
    requires Abs(t - r) <= Abs(t - x) <= 0.0000005
    ensures r == x
  {
    var i, j := (x * 524288.0).Floor, (r * 524288.0).Floor;
    assert Abs(x) >= 8589934592.0 + 1.0 / 524288.0;
    assert Abs(r - x) <= 0.000001;
    if Abs(r) >= 8589934592.0 {
      assert r - x == (j - i) as real / 524288.0;
      assert i == j;
    }
  }

  // ---------------------------------------------------------------------------------------
  // Every number has a nearest double

  // The double below and the one above it have no other in between.
  lemma NextPattern(n: nat, y: int)
    requires Fits(y)
    ensures y <= UnitsBelow(n) || UnitsBelow(n) + Pow2(Exponent(n, 0)) <= y
  {
    if y <= n {
      UnitsBelowIsLargest(n, y);
    } else {
      var m, j :| Pattern(y, m, j);
      FactorAbove(n, y, m, j);
    }
  }

  lemma FactorAbove(n: nat, y: int, m: int, j: nat)
    requires Pattern(y, m, j) && n < y
    ensures UnitsBelow(n) + Pow2(Exponent(n, 0)) <= y
  {
    hide Pow2;
    var k := Exponent(n, 0);
    var p := Pow2(k);
    if j < k {
      SmallPattern(y, m, j, k);
      assert false;
    } else {
      PowAdd(j - k, k);
      Regroup(m, Pow2(j - k), p);
      MultipleAbove(n, m * Pow2(j - k), p);
    }
  }

  lemma MultipleAbove(n: nat, f: int, p: int)
    requires p > 0 && n < f * p
    ensures n / p * p + p <= f * p
  {
    Quotient(n, p, f);
    Times(n / p + 1, f, p);
    assert (n / p + 1) * p == n / p * p + p;
  }

  // One of the two has an even pattern.
  lemma Neighbour(n: nat)
    requires n < BITS * Pow2(TOP)
    ensures var b, p := UnitsBelow(n), Pow2(Exponent(n, 0));
      n < b + p && (b == Largest() || (Fits(b + p) && (EvenUnits(b) || EvenUnits(b + p))))
  {
    hide Pow2, Largest;
    var k := Exponent(n, 0);
    var p := Pow2(k);
    var m := n / p;
    Quotient(n, p, BITS);
    Quotient(n, p, 0);
    TimesNext(m, p);
    assert m < BITS && UnitsBelow(n) == m * p;
    hide Exponent, UnitsBelow;
    NextFits(m, k);
  }

  lemma TimesNext(m: int, p: int)
    ensures (m + 1) * p == m * p + p
  {
  }

  lemma NextFits(m: nat, k: nat)
    requires m < BITS && k <= TOP
    ensures var b, a := m * Pow2(k), (m + 1) * Pow2(k);
      b == Largest() || (Fits(a) && (EvenUnits(b) || EvenUnits(a)))
  {
    hide Pow2;
    var p := Pow2(k);
    if m % 2 == 0 {
      assert Pattern(m * p, m, k);
    }
    if m + 1 < BITS {
      assert Pattern((m + 1) * p, m + 1, k);
    } else if k < TOP {
      Half(k + 1);
      Regroup(BITS / 2, 2, p);
      assert Pattern((m + 1) * p, BITS / 2, k + 1);
    }
  }

  ghost predicate EvenUnits(n: int) {
    exists m: int, k: nat :: Pattern(n, m, k) && m % 2 == 0
  }

  // No double lies between the two.
  ghost predicate Around(t: real, x: real, z: real) {
    x <= t < z && IsDouble(x) && forall y | IsDouble(y) :: y <= x || z <= y
  }

  lemma UnitsOfZero()
    ensures Units(0.0) == 0.0
  {
    hide Pow2;
  }

  lemma PositiveAround(t: real) returns (x: real, z: real)
    requires 0.0 <= t <= Max() + 1.0
    ensures Around(t, x, z) && (x == Max() || (IsDouble(z) && (Even(x) || Even(z))))
  {
    hide Pow2, UnitsBelow, Exponent, Fits, Largest, EvenUnits, Even, FromUnits, Units;
    var n := Units(t).Floor;
    MaxIsLarge();
    FloorInRange(t);
    UnitsAscend(0.0, t);
    UnitsOfZero();
    UnitsBelowFits(n);
    Neighbour(n);
    var b, p := UnitsBelow(n), Pow2(Exponent(n, 0));
    x, z := FromUnits(b), FromUnits(b + p);
    UnitsOf(b);
    UnitsOf(b + p);
    BelowIsAtMost(t);
    UnitsAscend(z, t);
    forall y | IsDouble(y)
      ensures y <= x || z <= y
    {
      NextPattern(n, Units(y).Floor);
      UnitsAscend(y, x);
      UnitsAscend(z, y);
    }
    EvenIs(x, b);
    EvenIs(z, b + p);
  }

  lemma EvenIs(x: real, n: int)
    requires Units(x) == n as real
    ensures Even(x) <==> EvenUnits(n)
  {
    assert Units(x).Floor == n;
    hide Units, Pow2;
  }

  lemma PositiveRounds(t: real) returns (r: real)
    requires 0.0 <= t <= Max() + 1.0
    ensures RoundsTo(t, r)
  {
    hide Max, IsDouble, Even;
    var x, z := PositiveAround(t);
    if x == Max() || t - x < z - t || (t - x == z - t && Even(x)) {
      r := x;
      forall y | IsDouble(y)
        ensures y <= Max()
      {
        DoubleIsFinite(y);
      }
    } else {
      r := z;
    }
  }

  lemma NearestExists(t: real) returns (r: real)
    requires Abs(t) <= Max() + 1.0
    ensures RoundsTo(t, r)
  {
    hide RoundsTo, Max;
    if t >= 0.0 {
      r := PositiveRounds(t);
    } else {
      r := PositiveRounds(-t);
      RoundsToNegated(-t, r);
      r := -r;
    }
  }

  // A strtod that rounds like that.
  ghost function Strtod(t: real): real {
    if exists r :: RoundsTo(t, r) then var r :| RoundsTo(t, r); r else t
  }

  lemma StrtodRoundsAll()
    ensures RoundsAll(Strtod)
  {
    hide RoundsTo, Max;
    forall t | Abs(t) <= Max() + 1.0
      ensures RoundsTo(t, Strtod(t))
    {
      var r := NearestExists(t);
    }
  }

  // ---------------------------------------------------------------------------------------
  // A third double close to two

  // The largest double close to the smaller of the two.
  function Middle(x: real, z: real): real {
    Below((if x <= z then x else z) + TOLERANCE)
  }

  predicate TwoSteps(x: real, z: real) {
    Close(Middle(x, z), if x <= z then z else x)
  }

  lemma ToleranceIsSmall()
    ensures 0.0 < TOLERANCE < 0.000001
  {
  }

  lemma ThirdIsBelowMiddle(x: real, y: real, z: real)
    requires IsDouble(y) && Close(x, y) && Close(y, z)
    ensures TwoSteps(x, z)
  {
    var t := (if x <= z then x else z) + TOLERANCE;
    ToleranceIsSmall();
    hide Pow2, IsDouble, Below;
    BelowIsLargest(t, y);
    BelowIsAtMost(t);
  }

  lemma MiddleIsThird(x: real, z: real)
    requires IsDouble(x) && IsDouble(z) && TwoSteps(x, z)
    ensures IsDouble(Middle(x, z)) && Close(x, Middle(x, z)) && Close(Middle(x, z), z)
  {
    hide IsDouble, Below, Max;
    var lo := if x <= z then x else z;
    DoubleIsFinite(lo);
    ToleranceIsSmall();
    BelowIsDouble(lo + TOLERANCE);
    BelowIsAtMost(lo + TOLERANCE);
    BelowIsLargest(lo + TOLERANCE, lo);
  }

  // Among the doubles there is one close to both exactly if the middle one is.
  lemma ThirdDouble(x: real, z: real)
    requires IsDouble(x) && IsDouble(z)
    ensures (exists y | IsDouble(y) :: Close(x, y) && Close(y, z)) <==> TwoSteps(x, z)
  {
    hide IsDouble, Middle, Close, TwoSteps;
    if TwoSteps(x, z) {
      MiddleIsThird(x, z);
    }
    if exists y | IsDouble(y) :: Close(x, y) && Close(y, z) {
      var y :| IsDouble(y) && Close(x, y) && Close(y, z);
      ThirdIsBelowMiddle(x, y, z);
    }
  }
}
