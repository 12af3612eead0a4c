/** The part of bignumber.js that the service computes with. Values are exact rationals
    (held as reals), the two infinities and NaN; only division rounds. The library's
    default configuration, which the service never changes, is 20 decimal places, half up. */
module BigNumbers {
  import opened FloorArithmetic

  datatype BigNumber = NaN | Infinity(negative: bool) | Finite(value: real)

  /** How a quotient is rounded: not at all, or half away from zero to some decimals. */
  datatype Precision = Exact | Places(digits: nat)

  const DECIMAL_PLACES := Places(20)

  function Num(n: int): BigNumber {
    Finite(n as real)
  }

  /** The integer nearest to x, ties away from zero. */
  function NearestInteger(x: real): int {
    if x >= 0.0 then (x + 0.5).Floor else -((-x + 0.5).Floor)
  }

  function Quotient(a: int, b: int): real
    requires b > 0
  {
    a as real / b as real
  }

  function Scaled(x: real, s: int): real {
    x * s as real
  }

  /** The nearest multiple of 1/s. */
  function NearestMultiple(x: real, s: int): real
    requires s > 0
  {
    Quotient(NearestInteger(Scaled(x, s)), s)
  }

  function Rounded(x: real, p: Precision): real {
    match p
    case Exact => x
    case Places(d) => NearestMultiple(x, Pow10(d))
  }

  function Div(x: BigNumber, y: BigNumber, p: Precision): BigNumber {
    match (x, y)
    case (Finite(a), Finite(b)) =>
      if b != 0.0 then Finite(Rounded(a / b, p))
      else if a == 0.0 then NaN
      else Infinity(a < 0.0)
    case (Finite(_), Infinity(_)) => Finite(0.0)
    case (Infinity(s), Finite(b)) => Infinity(s != (b < 0.0))
    case _ => NaN
  }

  function Times(x: BigNumber, y: BigNumber): BigNumber {
    match (x, y)
    case (Finite(a), Finite(b)) => Finite(a * b)
    case (Finite(a), Infinity(s)) => if a == 0.0 then NaN else Infinity(s != (a < 0.0))
    case (Infinity(s), Finite(b)) => if b == 0.0 then NaN else Infinity(s != (b < 0.0))
    case (Infinity(s), Infinity(t)) => Infinity(s != t)
    case _ => NaN
  }

  function Minus(x: BigNumber, y: BigNumber): BigNumber {
    match (x, y)
    case (Finite(a), Finite(b)) => Finite(a - b)
    case (Finite(_), Infinity(s)) => Infinity(!s)
    case (Infinity(s), Finite(_)) => Infinity(s)
    case (Infinity(s), Infinity(t)) => if s == t then NaN else Infinity(s)
    case _ => NaN
  }

  /** Comparisons with NaN are false. */
  predicate Lte(x: BigNumber, y: BigNumber) {
    match (x, y)
    case (Finite(a), Finite(b)) => a <= b
    case (Finite(_), Infinity(s)) => !s
    case (Infinity(s), Finite(_)) => s
    case (Infinity(s), Infinity(t)) => s || !t
    case _ => false
  }

  predicate Gte(x: BigNumber, y: BigNumber) {
    Lte(y, x)
  }

  predicate Gt(x: BigNumber, y: BigNumber) {
    Lte(y, x) && !Lte(x, y)
  }

  /** integerValue(ROUND_FLOOR) */
  function BnFloor(x: BigNumber): BigNumber {
    match x
    case Finite(v) => Num(v.Floor)
    case _ => x
  }

  lemma QuotientIs(z: real, c: real, y: real)
    requires c != 0.0 && y * c == z
    ensures z / c == y
  {
  }

  lemma HalfMore(m: int, b: int)
    requires b > 0
    ensures m as real / b as real + 0.5 == (2 * m + b) as real / (2 * b) as real
  {
    var x := m as real / b as real;
    assert x * b as real == m as real;
    assert (x + 0.5) * (2 * b) as real == 2.0 * (x * b as real) + b as real;
    QuotientIs((2 * m + b) as real, (2 * b) as real, x + 0.5);
  }

  /** A rounded quotient in integer arithmetic: the nearest integer to m/b. */
  function NearestQuotient(m: int, b: int): int
    requires b > 0
  {
    if m >= 0 then (2 * m + b) / (2 * b) else -((-2 * m + b) / (2 * b))
  }

  lemma NearestIntegerOfQuotient(m: int, b: int)
    requires b > 0
    ensures NearestInteger(Quotient(m, b)) == NearestQuotient(m, b)
  {
    var x := Quotient(m, b);
    assert x >= 0.0 <==> m >= 0 by {
      assert x * b as real == m as real;
    }
    if m >= 0 {
      HalfMore(m, b);
      FloorOfQuotient(2 * m + b, 2 * b);
    } else {
      HalfMore(-m, b);
      assert -x == (-m) as real / b as real;
      FloorOfQuotient(-2 * m + b, 2 * b);
    }
  }

  lemma ScaledQuotient(a: int, b: int, s: int)
    requires b > 0
    ensures Scaled(Quotient(a, b), s) == Quotient(a * s, b)
  {
  }

  lemma FloorQuotient(a: int, b: int)
    requires b > 0
    ensures Quotient(a, b).Floor == a / b
  {
    FloorOfQuotient(a, b);
  }

  lemma NearestMultipleOfQuotient(a: int, b: int, s: int)
    requires b > 0 && s > 0
    ensures NearestMultiple(Quotient(a, b), s).Floor == NearestQuotient(a * s, b) / s
  {
    ScaledQuotient(a, b, s);
    NearestIntegerOfQuotient(a * s, b);
    FloorQuotient(NearestQuotient(a * s, b), s);
  }

  lemma DivInIntegers(a: int, b: int, d: nat)
    requires b > 0
    ensures BnFloor(Div(Num(a), Num(b), Places(d))) == Num(NearestQuotient(a * Pow10(d), b) / Pow10(d))
  {
    NearestMultipleOfQuotient(a, b, Pow10(d));
    assert Div(Num(a), Num(b), Places(d)) == Finite(Rounded(Quotient(a, b), Places(d)));
  }

  lemma Gap(q: int, r: int, b: int, s: int)
    ensures (q * b + r) * s == (q * s) * b + r * s
    ensures 2 * s * (b - r) == 2 * (s * b - r * s)
    ensures (q + 1) * s == q * s + s
  {
  }

  /** DivLess for the dividers used below, with the product spelt out. */
  lemma DivLessTwice(n: int, b: int, t: int, tb: int)
    requires b > 0 && tb == t * b
    ensures n / (2 * b) < t <==> n < 2 * tb
  {
    DivLess(n, 2 * b, t);
    assert t * (2 * b) == 2 * (t * b);
  }

  /** With m == (q*b + r)*s, the nearest integer to m/b is at least q*s, and it stays below
      (q+1)*s exactly when the gap (b-r)*s survives the rounding. */
  lemma NearestBetween(q: int, r: int, b: int, s: int, m: int)
    requires 0 <= r < b && s > 0 && m == (q * b + r) * s
    ensures NearestQuotient(m, b) >= q * s
    ensures NearestQuotient(m, b) < (q + 1) * s
       <==> if m >= 0 then 2 * s * (b - r) > b else 2 * s * (b - r) >= b
  {
    Gap(q, r, b, s);
    NearestAround(q * s, q * s * b, s, s * b, r * s, b, m) by {
      MulMonotone(0, r, s);
    }
  }

  /** When a rounded quotient stays below t, with the product tb == t * b spelt out. */
  lemma NearestLess(m: int, b: int, t: int, tb: int)
    requires b > 0 && tb == t * b
    ensures NearestQuotient(m, b) < t <==> if m >= 0 then 2 * (tb - m) > b else 2 * (tb - m) >= b
  {
    if m >= 0 {
      DivLessTwice(2 * m + b, b, t, tb);
    } else {
      assert (-t + 1) * b == -tb + b;
      DivLessTwice(-2 * m + b, b, -t + 1, -tb + b);
    }
  }

  /** Rounding moves a quotient by at most half a unit. */
  lemma NearestWithinHalf(m: int, b: int)
    requires b > 0
    ensures -b <= 2 * (NearestQuotient(m, b) * b - m) <= b
  {
  }

  lemma NearestAround(t: int, tb: int, s: int, sb: int, w: int, b: int, m: int)
    requires b > 0 && tb == t * b && sb == s * b && w >= 0 && m == tb + w
    ensures NearestQuotient(m, b) >= t
    ensures NearestQuotient(m, b) < t + s <==> if m >= 0 then 2 * (sb - w) > b else 2 * (sb - w) >= b
  {
    assert (t + s) * b == tb + sb;
    NearestLess(m, b, t, tb);
    NearestLess(m, b, t + s, tb + sb);
  }

  predicate FloorSurvives(a: int, b: int, d: nat)
    requires b > 0
  {
    BnFloor(Div(Num(a), Num(b), Places(d))) == Num(a / b)
  }

  /** The exact condition under which flooring a rounded quotient is integer division: the
      distance up to the next integer must survive the rounding (a tie goes up only for a
      non-negative dividend). */
  lemma FloorOfRoundedQuotient(a: int, b: int, d: nat)
    requires b > 0
    ensures FloorSurvives(a, b, d)
       <==> if a >= 0 then 2 * Pow10(d) * (b - a % b) > b else 2 * Pow10(d) * (b - a % b) >= b
  {
    var s, q, r := Pow10(d), a / b, a % b;
    DivBounds(a, b);
    var n := NearestQuotient(a * s, b);
    DivInIntegers(a, b, d);
    assert a * s >= 0 <==> a >= 0 by {
      if a >= 0 { MulMonotone(0, a, s); } else { MulMonotone(a, -1, s); }
    }
    NearestBetween(q, r, b, s, a * s);
    DivLess(n, s, q);
    DivLess(n, s, q + 1);
  }

  lemma GapSurvives(r: int, b: int, s: int)
    requires r < b < 2 * s
    ensures s > 0 ==> 2 * s * (b - r) > b
  {
    if s > 0 {
      MulMonotone(1, b - r, 2 * s);
    }
  }

  lemma FloorSurvivesBelow(a: int, b: int, d: nat)
    requires 0 < b < 2 * Pow10(d)
    ensures FloorSurvives(a, b, d)
  {
    FloorOfRoundedQuotient(a, b, d);
    GapSurvives(a % b, b, Pow10(d));
  }

  lemma FloorLostFrom(b: int, d: nat)
    requires b >= 2 * Pow10(d)
    ensures !FloorSurvives(b - 1, b, d)
  {
    FloorOfRoundedQuotient(b - 1, b, d);
    DivUnique(b - 1, b, 0);
    DivBounds(b - 1, b);
  }

  /** Over all dividends: rounding is harmless to the floor exactly below 2 * 10^d. */
  lemma RoundingHarmless(b: int, d: nat)
    requires b > 0
    ensures (forall a: int :: FloorSurvives(a, b, d)) <==> b < 2 * Pow10(d)
  {
    if b < 2 * Pow10(d) {
      forall a: int
        ensures FloorSurvives(a, b, d)
      {
        FloorSurvivesBelow(a, b, d);
      }
    } else {
      FloorLostFrom(b, d);
    }
  }

  /** Rounding can only lift the floor. */
  lemma RoundedFloorNotBelow(a: int, b: int, d: nat) returns (v: int)
    requires b > 0
    ensures BnFloor(Div(Num(a), Num(b), Places(d))) == Num(v)
    ensures v >= a / b
  {
    var s := Pow10(d);
    v := NearestQuotient(a * s, b) / s;
    DivInIntegers(a, b, d);
    DivBounds(a, b);
    NearestBetween(a / b, a % b, b, s, a * s);
    DivLess(NearestQuotient(a * s, b), s, a / b);
  }

  lemma NearestQuotientMonotone(m: int, n: int, b: int)
    requires b > 0 && m <= n
    ensures NearestQuotient(m, b) <= NearestQuotient(n, b)
  {
    if m >= 0 {
      DivMonotone(2 * m + b, 2 * n + b, 2 * b);
    } else if n < 0 {
      DivMonotone(-2 * n + b, -2 * m + b, 2 * b);
    } else {
      DivMonotone(0, 2 * n + b, 2 * b);
      DivMonotone(0, -2 * m + b, 2 * b);
    }
  }

  lemma RoundedFloorMonotone(x: int, y: int, b: int, d: nat) returns (v: int, w: int)
    requires b > 0 && x <= y
    ensures BnFloor(Div(Num(x), Num(b), Places(d))) == Num(v)
    ensures BnFloor(Div(Num(y), Num(b), Places(d))) == Num(w)
    ensures v <= w
  {
    var s := Pow10(d);
    v, w := NearestQuotient(x * s, b) / s, NearestQuotient(y * s, b) / s;
    DivInIntegers(x, b, d);
    DivInIntegers(y, b, d);
    MulMonotone(x, y, s);
    NearestQuotientMonotone(x * s, y * s, b);
    DivMonotone(NearestQuotient(x * s, b), NearestQuotient(y * s, b), s);
  }

  /** What a division rounded to d decimals gives: a multiple of 10^-d, at most half of 10^-d
      away from the exact quotient, and of two as near the one farther from zero. */
  lemma DivIsNearest(a: int, b: int, d: nat) returns (units: int)
    requires b > 0
    ensures Div(Num(a), Num(b), Places(d)) == Finite(units as real / Pow10(d) as real)
    ensures -b <= 2 * (units * b - a * Pow10(d)) <= b
    ensures 2 * (units * b - a * Pow10(d)) == -b ==> a < 0
    ensures 2 * (units * b - a * Pow10(d)) == b ==> a >= 0
  {
    var s := Pow10(d);
    var m := a * s;
    units := NearestQuotient(m, b);
    ScaledQuotient(a, b, s);
    NearestIntegerOfQuotient(m, b);
    assert Div(Num(a), Num(b), Places(d)) == Finite(Rounded(Quotient(a, b), Places(d)));
    NearestWithinHalf(m, b);
    TiesAwayFromZero(m, b);
    if a >= 0 { MulMonotone(0, a, s); } else { MulMonotone(a, -1, s); }
  }

  lemma TiesAwayFromZero(m: int, b: int)
    requires b > 0
    ensures var error := 2 * (NearestQuotient(m, b) * b - m);
            (error == -b ==> m < 0) && (error == b ==> m >= 0)
  {
    var u := NearestQuotient(m, b);
    NearestLess(m, b, u, u * b);
    NearestLess(m, b, u + 1, u * b + b) by {
      assert (u + 1) * b == u * b + b;
    }
  }

  /** Ten to the twentieth, in figures. */
  lemma TenToTheTwentieth()
    ensures Pow10(20) == 100000000000000000000
  {
    assert Pow10(10) == 10000000000;
    assert Pow10(15) == 100000 * Pow10(10);
  }
}
