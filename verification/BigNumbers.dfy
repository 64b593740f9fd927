/**
 The part of the bignumber.js arithmetic that the exchange relies on.

 `dividedBy` keeps 20 decimals and `integerValue` none, so a quotient turned into a whole
 amount is rounded twice.  Both roundings are exact integer operations here: a value with 20
 decimals is a count of 10^-20 units.

 Which way they round is a setting of the library, shared by everything that loads it.  The
 service itself sets only EXPONENTIAL_AT, which leaves the library's default, half up; the
 amounts its unit tests expect are rounded down, as they are once a loaded package has
 changed the setting.  The setting is therefore left open: all results hold either way, and
 say so where the two ways differ.
 */
module BigNumbers {
  import opened Arithmetic

  datatype Rounding = HalfUp | Down

  /** The library's rounding mode: fixed while the service runs, otherwise unknown. */
  const ROUNDING: Rounding

  /** 10^20, the number of units `dividedBy` distinguishes within one whole token unit. */
  const SCALE: nat := 100_000_000_000_000_000_000

  /** What an amount string of the router can denote: digits, 'Infinity' or 'NaN'. */
  datatype Amount = Fin(value: nat) | Infinity | NaN

  /** BigNumber's `isLessThan`: false as soon as one side is NaN. */
  predicate LessThan(a: Amount, b: Amount) {
    match (a, b)
    case (Fin(x), Fin(y)) => x < y
    case (Fin(_), Infinity) => true
    case _ => false
  }

  /** Both are finite, and a is not above b. */
  predicate FinAtMost(a: Amount, b: Amount) {
    a.Fin? && b.Fin? && a.value <= b.value
  }

  /** A quotient as `dividedBy` leaves it: 20 decimals, or the outcome of dividing by zero. */
  datatype Quotient = Units(units: nat) | OverZero | ZeroOverZero

  /** The whole number nearest to n / d, ties upwards. */
  function RoundHalfUp(n: nat, d: nat): (r: nat)
    requires d > 0
    ensures 2 * (d * r) <= 2 * n + d < 2 * (d * r) + 2 * d
  {
    DivisionBounds(2 * n + d, 2 * d);
    (2 * n + d) / (2 * d)
  }

  /** The whole number the library rounds n / d to. */
  function Rounded(n: nat, d: nat): (r: nat)
    requires d > 0
    ensures ROUNDING == HalfUp ==> 2 * (d * r) <= 2 * n + d < 2 * (d * r) + 2 * d
    ensures ROUNDING == Down ==> d * r <= n < d * r + d
  {
    DivisionBounds(n, d);
    if ROUNDING == HalfUp then RoundHalfUp(n, d) else n / d
  }

  function DividedBy(n: nat, d: nat): Quotient {
    if d > 0 then Units(Rounded(n * SCALE, d))
    else if n > 0 then OverZero
    else ZeroOverZero
  }

  function IntegerValue(q: Quotient): Amount {
    match q
    case Units(u) => Fin(Rounded(u, SCALE))
    case OverZero => Infinity
    case ZeroOverZero => NaN
  }

  /** `plus(1)` on a quotient. */
  function PlusOne(q: Quotient): Quotient {
    match q
    case Units(u) => Units(u + SCALE)
    case _ => q
  }

  /** A quotient rounded to 20 decimals and then to a whole number. */
  function RoundTwice(n: nat, d: nat): nat
    requires d > 0
  {
    Rounded(Rounded(n * SCALE, d), SCALE)
  }

  /** Multiplies both sides of a half-up bound by c. */
  lemma ScaleBound(c: nat, p: int, n: int, d: int)
    ensures 2 * p <= 2 * n + d ==> 2 * (c * p) <= 2 * (c * n) + c * d
    ensures 2 * n + d < 2 * p && c > 0 ==> 2 * (c * n) + c * d < 2 * (c * p)
  {
    var gap := 2 * n + d - 2 * p;
    assert c * gap == 2 * (c * n) + c * d - 2 * (c * p);
  }

  /** Rounding is monotone in the rational number it rounds. */
  lemma RoundedMonotone(n: nat, d: nat, n': nat, d': nat)
    requires d > 0 && d' > 0
    requires n * d' <= n' * d
    ensures Rounded(n, d) <= Rounded(n', d')
  {
    if ROUNDING == HalfUp {
      BracketsOrdered(n, d, Rounded(n, d), n', d', Rounded(n', d'));
    } else {
      FloorsOrdered(n, d, Rounded(n, d), n', d', Rounded(n', d'));
    }
  }

  lemma FloorsOrdered(n: nat, d: nat, r: nat, n': nat, d': nat, r': nat)
    requires d > 0 && d' > 0
    requires n * d' <= n' * d
    requires d * r <= n
    requires n' < d' * r' + d'
    ensures r <= r'
  {
    Distribute(d', r', 1);
    MulMonotone(d * r, n, d');
    MulMonotone(n' + 1, d' * (r' + 1), d);
    Distribute(d, n', 1);
    Reassociate(d', d, r);
    Reassociate(d, d', r' + 1);
    CancelFactor(d * d', r, r' + 1);
  }

  lemma BracketsOrdered(n: nat, d: nat, r: nat, n': nat, d': nat, r': nat)
    requires d > 0 && d' > 0
    requires n * d' <= n' * d
    requires 2 * (d * r) <= 2 * n + d
    requires 2 * n' + d' < 2 * (d' * r') + 2 * d'
    ensures r <= r'
  {
    ScaleBound(d', d * r, n, d);
    Distribute(d', r', 1);
    ScaleBound(d, d' * (r' + 1), n', d');
    Reassociate(d', d, r);
    Reassociate(d, d', r' + 1);
    CancelFactor(d * d', r, r' + 1);
  }

  lemma RoundedOfWhole(k: nat, d: nat)
    requires d > 0
    ensures Rounded(k * d, d) == k
  {
    RoundedShift(k, d, 0);
  }

  /** Rounding commutes with adding whole numbers. */
  lemma RoundedShift(k: nat, d: nat, n: nat)
    requires d > 0
    ensures Rounded(d * k + n, d) == k + Rounded(n, d)
  {
    var (r, s) := (Rounded(d * k + n, d), Rounded(n, d));
    Distribute(d, k, s);
    Distribute(d, k + s, 1);
    Distribute(d, r, 1);
    CancelFactor(d, r, k + s + 1);
    CancelFactor(d, k + s, r + 1);
  }

  lemma PlusOneRounds(u: nat)
    ensures Rounded(u + SCALE, SCALE) == Rounded(u, SCALE) + 1
  {
    RoundedShift(1, SCALE, u);
  }

  lemma RoundTwiceMonotone(n: nat, d: nat, n': nat, d': nat)
    requires d > 0 && d' > 0
    requires n * d' <= n' * d
    ensures RoundTwice(n, d) <= RoundTwice(n', d')
  {
    MulMonotone(n * d', n' * d, SCALE);
    assert (n * SCALE) * d' == (n * d') * SCALE;
    assert (n' * SCALE) * d == (n' * d) * SCALE;
    RoundedMonotone(n * SCALE, d, n' * SCALE, d');
    var u, u' := Rounded(n * SCALE, d), Rounded(n' * SCALE, d');
    MulMonotone(u, u', SCALE);
    RoundedMonotone(u, SCALE, u', SCALE);
  }

  lemma RoundTwiceOfWhole(k: nat)
    ensures RoundTwice(k, 1) == k
  {
    RoundedOfWhole(k * SCALE, 1);
    RoundedOfWhole(k, SCALE);
  }

  /** Neither rounding crosses a whole number, whatever the quotient. */
  lemma RoundTwiceRespectsWholes(n: nat, d: nat, k: nat)
    requires d > 0
    ensures k * d <= n ==> k <= RoundTwice(n, d)
    ensures n <= k * d ==> RoundTwice(n, d) <= k
  {
    RoundTwiceOfWhole(k);
    if k * d <= n {
      RoundTwiceMonotone(k, 1, n, d);
    }
    if n <= k * d {
      RoundTwiceMonotone(n, d, k, 1);
    }
  }

  /** One more than the doubly rounded quotient lies above the quotient, by at most two units. */
  lemma RoundTwicePlusOne(n: nat, d: nat)
    requires d > 0
    ensures n < d * (RoundTwice(n, d) + 1)
    ensures forall k: nat :: n <= k * d ==> RoundTwice(n, d) <= k
  {
    var whole := n / d;
    DivisionBounds(n, d);
    RoundTwiceRespectsWholes(n, d, whole);
    Distribute(d, whole, 1);
    MulMonotone(whole + 1, RoundTwice(n, d) + 1, d);
    forall k: nat | n <= k * d
      ensures RoundTwice(n, d) <= k
    {
      RoundTwiceRespectsWholes(n, d, k);
    }
  }

  /**
   Rounding half up, the two roundings together move a quotient by at most
   1/2 + 1/(2 * 10^20); rounding down, they drop exactly its fraction.
   */
  lemma RoundTwiceError(n: nat, d: nat)
    requires d > 0
    ensures ROUNDING == HalfUp ==>
              2 * SCALE * n - d * (SCALE + 1) <= 2 * SCALE * (d * RoundTwice(n, d)) <= 2 * SCALE * n + d * (SCALE + 1)
    ensures ROUNDING == Down ==> RoundTwice(n, d) == n / d
  {
    if ROUNDING == HalfUp {
      var u := Rounded(n * SCALE, d);
      ScaledBounds(SCALE, n, d, u, Rounded(u, SCALE));
    } else {
      RoundTwiceToFloor(n, d);
    }
  }

  /** r is n / d rounded to a whole number as the library does it: by its absolute value. */
  ghost predicate IsRounding(r: int, n: int, d: nat) {
    if n >= 0 then IsRoundingOfMagnitude(r, n, d) else IsRoundingOfMagnitude(-r, -n, d)
  }

  ghost predicate IsRoundingOfMagnitude(r: int, n: nat, d: nat) {
    && r >= 0
    && (ROUNDING == HalfUp ==> 2 * (d * r) <= 2 * n + d < 2 * (d * r) + 2 * d)
    && (ROUNDING == Down ==> d * r <= n < d * r + d)
  }

  lemma FloorOrNext(n: nat, d: nat)
    requires d > 0
    ensures d * (n / d) <= n
    ensures n / d <= RoundTwice(n, d) <= n / d + 1
  {
    var q := n / d;
    DivisionBounds(n, d);
    Distribute(d, q, 1);
    assert q * d <= n <= (q + 1) * d;
    RoundTwiceRespectsWholes(n, d, q);
    RoundTwiceRespectsWholes(n, d, q + 1);
  }

  /** The condition under which both roundings together round down, from the remainder alone. */
  predicate RoundsToFloor(n: nat, d: nat)
    requires d > 0
  {
    ROUNDING == Down || 2 * RoundHalfUp((n % d) * SCALE, d) < SCALE
  }

  lemma RoundTwiceToFloor(n: nat, d: nat)
    requires d > 0
    ensures RoundTwice(n, d) == n / d <==> RoundsToFloor(n, d)
  {
    var (q, r) := (n / d, n % d);
    assert n * SCALE == d * (q * SCALE) + r * SCALE by {
      Reassociate(d, q, SCALE);
      Distribute(SCALE, d * q, r);
    }
    RoundedShift(q * SCALE, d, r * SCALE);
    var h := Rounded(r * SCALE, d);
    RoundedShift(q, SCALE, h);
    MulMonotone(r + 1, d, SCALE);
    FractionRoundsToZero(r, d, h);
  }

  lemma FractionRoundsToZero(r: nat, d: nat, h: nat)
    requires r < d && h == Rounded(r * SCALE, d)
    ensures Rounded(h, SCALE) == 0 <==> RoundsToFloor(d + r, d)
    ensures RoundsToFloor(d + r, d) <==> ROUNDING == Down || 2 * RoundHalfUp(r * SCALE, d) < SCALE
  {
    DivisionUnique(d + r, d, 1, r);
    if ROUNDING == Down {
      assert d * h < d * SCALE by { MulMonotone(r + 1, d, SCALE); Distribute(SCALE, r, 1); }
      CancelFactor(d, h, SCALE);
    }
  }

  lemma ScaledBounds(s: nat, n: nat, d: nat, u: nat, r: nat)
    requires d > 0
    requires 2 * (d * u) <= 2 * (n * s) + d < 2 * (d * u) + 2 * d
    requires 2 * (s * r) <= 2 * u + s < 2 * (s * r) + 2 * s
    ensures 2 * s * n - d * (s + 1) <= 2 * s * (d * r) <= 2 * s * n + d * (s + 1)
  {
    ScaleBound(d, s * r, u, s);
    ScaleBound(d, s * r + s, u, s);
    Distribute(d, s * r, s);
    Distribute(d, s, 1);
    Reassociate(d, s, r);
    Reassociate(s, d, r);
  }
}
