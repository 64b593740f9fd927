/**
 The constant-product formulas of `pair.utils.ts`, on every input: reserves may be zero,
 the fee may be the whole amount, and a division by zero yields what BigNumber yields.
 */
module PairUtils {
  import opened Arithmetic
  import opened BigNumbers

  /** SWAP_FEE_PERCENT_BASE_POINTS. */
  const BASE_POINTS: nat := 100_000

  /** A fee in base points; `fee * SWAP_FEE_PERCENT_BASE_POINTS` in the source. */
  type Fee = f: nat | f <= BASE_POINTS

  /** What is left of an input after the fee, times BASE_POINTS. */
  function AfterFee(a: nat, fee: Fee): nat {
    a * (BASE_POINTS - fee)
  }

  function OutNumerator(a: nat, reserveOut: nat, fee: Fee): nat {
    AfterFee(a, fee) * reserveOut
  }

  function OutDenominator(a: nat, reserveIn: nat, fee: Fee): nat {
    reserveIn * BASE_POINTS + AfterFee(a, fee)
  }

  function GetAmountOut(amountIn: Amount, reserveIn: nat, reserveOut: nat, fee: Fee): Amount {
    match amountIn
    case Fin(a) => IntegerValue(DividedBy(OutNumerator(a, reserveOut, fee), OutDenominator(a, reserveIn, fee)))
    case _ => NaN
  }

  function InNumerator(b: nat, reserveIn: nat): nat {
    reserveIn * b * BASE_POINTS
  }

  function InDenominator(b: nat, reserveOut: nat, fee: Fee): nat
    requires b <= reserveOut
  {
    (reserveOut - b) * (BASE_POINTS - fee)
  }

  function GetAmountIn(amountOut: Amount, reserveIn: nat, reserveOut: nat, fee: Fee): Amount {
    match amountOut
    case Fin(b) =>
      if reserveOut < b then Fin(0)
      else IntegerValue(PlusOne(DividedBy(InNumerator(b, reserveIn), InDenominator(b, reserveOut, fee))))
    case Infinity => Fin(0)
    case NaN => NaN
  }

  // ----- one direction -----------------------------------------------------------------

  /** The input a has an exact constant-product output, and that output is at least b. */
  ghost predicate ExactlyReaches(a: nat, b: nat, reserveIn: nat, reserveOut: nat, fee: Fee) {
    && OutDenominator(a, reserveIn, fee) > 0
    && b * OutDenominator(a, reserveIn, fee) <= OutNumerator(a, reserveOut, fee)
  }

  /** More input never gives less output. */
  lemma AmountOutMonotone(a: nat, a': nat, reserveIn: nat, reserveOut: nat, fee: Fee)
    requires a <= a'
    requires GetAmountOut(Fin(a), reserveIn, reserveOut, fee).Fin?
    ensures GetAmountOut(Fin(a'), reserveIn, reserveOut, fee).Fin?
    ensures GetAmountOut(Fin(a), reserveIn, reserveOut, fee).value
         <= GetAmountOut(Fin(a'), reserveIn, reserveOut, fee).value
  {
    var x, x', r := AfterFee(a, fee), AfterFee(a', fee), reserveIn * BASE_POINTS;
    MulMonotone(a, a', BASE_POINTS - fee);
    FractionGrows(x, x', reserveOut, r);
    RoundTwiceMonotone(x * reserveOut, r + x, x' * reserveOut, r + x');
  }

  /** x * c / (r + x) grows with x. */
  lemma FractionGrows(x: nat, x': nat, c: nat, r: nat)
    requires x <= x'
    ensures (x * c) * (r + x') <= (x' * c) * (r + x)
  {
    Distribute(x * c, r, x');
    Distribute(x' * c, r, x);
    MulMonotone(x, x', c);
    MulMonotone(x * c, x' * c, r);
    assert (x * c) * x' == (x' * c) * x;
  }

  /** r is n / d rounded: half up with an error of at most 1/2 + 1/(2 * 10^20), or down. */
  ghost predicate NearlyQuotient(r: nat, n: nat, d: nat) {
    && (ROUNDING == HalfUp ==>
          2 * SCALE * n - d * (SCALE + 1) <= 2 * SCALE * (d * r) <= 2 * SCALE * n + d * (SCALE + 1))
    && (ROUNDING == Down ==> d * r <= n < d * r + d)
  }

  lemma RoundTwiceNearly(n: nat, d: nat)
    requires d > 0
    ensures NearlyQuotient(RoundTwice(n, d), n, d)
  {
    RoundTwiceError(n, d);
    DivisionBounds(n, d);
  }

  /**
   The constant-product output, on all inputs.  The whole reserve is never exceeded.  Rounding
   half up, the result is off by at most 1/2 + 1/(2 * 10^20); rounding down, it is the exact
   output without its fraction.  Nothing into an empty pair, or all of it as fee, is NaN.
   */
  lemma AmountOutBounds(a: nat, reserveIn: nat, reserveOut: nat, fee: Fee)
    ensures GetAmountOut(Infinity, reserveIn, reserveOut, fee) == GetAmountOut(NaN, reserveIn, reserveOut, fee) == NaN
    ensures var n, d := a * (100_000 - fee) * reserveOut, reserveIn * 100_000 + a * (100_000 - fee);
            var out := GetAmountOut(Fin(a), reserveIn, reserveOut, fee);
            if d == 0 then out == NaN
            else out.Fin? && out.value <= reserveOut && NearlyQuotient(out.value, n, d)
  {
    var n, d := OutNumerator(a, reserveOut, fee), OutDenominator(a, reserveIn, fee);
    if d > 0 {
      MulMonotone(AfterFee(a, fee), d, reserveOut);
      RoundTwiceRespectsWholes(n, d, reserveOut);
      RoundTwiceNearly(n, d);
    } else {
      MulMonotone(0, a, BASE_POINTS - fee);
      assert AfterFee(a, fee) == 0;
    }
  }

  /**
   How many decimals the first rounding keeps shows half up: 0.49 with twenty decimals is
   rounded down, with twenty-one it becomes 0.5 first and then 1.
   */
  lemma TwentyDecimals()
    ensures GetAmountOut(Fin(1), 99_999_999_999_999_999_999, 49_999_999_999_999_999_999, 0) == Fin(0)
    ensures GetAmountOut(Fin(1), 999_999_999_999_999_999_999, 499_999_999_999_999_999_999, 0)
         == Fin(if ROUNDING == HalfUp then 1 else 0)
  {
  }

  /**
   A swap keeps the product of the reserves up to the rounding of the output:
   the loss is at most (reserveIn + a) * (1/2 + 1/(2 * 10^20)).
   */
  lemma ConstantProductKept(a: nat, reserveIn: nat, reserveOut: nat, fee: Fee)
    requires OutDenominator(a, reserveIn, fee) > 0
    ensures var out := GetAmountOut(Fin(a), reserveIn, reserveOut, fee);
            && out.Fin? && out.value <= reserveOut
            && 2 * SCALE * ((reserveIn + a) * (reserveOut - out.value))
               >= 2 * SCALE * (reserveIn * reserveOut) - (reserveIn + a) * (SCALE + 1)
  {
    AmountOutBounds(a, reserveIn, reserveOut, fee);
    var x, d := AfterFee(a, fee), OutDenominator(a, reserveIn, fee);
    var out := GetAmountOut(Fin(a), reserveIn, reserveOut, fee).value;
    FeeLowersRatio(a, reserveIn, fee);
    if ROUNDING == Down {
      MulMonotone(d * out, x * reserveOut, 2 * SCALE);
    }
    ScaledProduct(SCALE, x, d, a, reserveIn, reserveOut, out);
  }

  /** The fee only lowers the share of the reserve that is paid out. */
  lemma FeeLowersRatio(a: nat, reserveIn: nat, fee: Fee)
    ensures AfterFee(a, fee) * (reserveIn + a) <= a * OutDenominator(a, reserveIn, fee)
  {
    var x := AfterFee(a, fee);
    MulMonotone(BASE_POINTS - fee, BASE_POINTS, a * reserveIn);
    assert x * (reserveIn + a) == (BASE_POINTS - fee) * (a * reserveIn) + x * a;
    assert a * OutDenominator(a, reserveIn, fee) == BASE_POINTS * (a * reserveIn) + x * a;
  }

  lemma ScaledProduct(s: nat, x: nat, d: nat, a: nat, reserveIn: nat, reserveOut: nat, out: nat)
    requires d > 0 && out <= reserveOut
    requires x * (reserveIn + a) <= a * d
    requires 2 * s * (d * out) <= 2 * s * (x * reserveOut) + d * (s + 1)
    ensures 2 * s * ((reserveIn + a) * (reserveOut - out))
         >= 2 * s * (reserveIn * reserveOut) - (reserveIn + a) * (s + 1)
  {
    var k := reserveIn + a;
    ReplaceRatio(2 * s, s + 1, x, d, a, k, reserveOut, out);
    AfterSwap(reserveIn, a, reserveOut, out);
    Shift(2 * s, k * (reserveOut - out), k * out, reserveIn * reserveOut, a * reserveOut, k * (s + 1));
  }

  lemma AfterSwap(reserveIn: nat, a: nat, reserveOut: nat, out: nat)
    ensures (reserveIn + a) * (reserveOut - out) + (reserveIn + a) * out == reserveIn * reserveOut + a * reserveOut
  {
  }

  lemma Shift(p: nat, u: int, z: int, v: int, w: int, bound: int)
    requires u + z == v + w
    requires p * z <= p * w + bound
    ensures p * u >= p * v - bound
  {
    assert p * (u + z) == p * u + p * z;
    assert p * (v + w) == p * v + p * w;
  }

  /** From out <= (x / d) * r + e / p and x / d <= a / k to out <= (a / k) * r + e / p. */
  lemma ReplaceRatio(p: nat, e: nat, x: nat, d: nat, a: nat, k: nat, r: nat, out: nat)
    requires d > 0
    requires x * k <= a * d
    requires p * (d * out) <= p * (x * r) + d * e
    ensures p * (k * out) <= p * (a * r) + k * e
  {
    var bound := p * (a * r) + k * e;
    calc {
      d * (p * (k * out));
    == { Exchange(k, p, d, out); }
      k * (p * (d * out));
    <= { MulMonotone(p * (d * out), p * (x * r) + d * e, k); }
      k * (p * (x * r) + d * e);
    == { Distribute(k, p * (x * r), d * e); }
      k * (p * (x * r)) + k * (d * e);
    == { Exchange(k, p, x, r); }
      (x * k) * (p * r) + k * (d * e);
    <= { MulMonotone(x * k, a * d, p * r); }
      (a * d) * (p * r) + k * (d * e);
    == { Exchange(a, p, d, r); Exchange(d, p, a, r); assert k * (d * e) == d * (k * e); }
      d * (p * (a * r)) + d * (k * e);
    == { Distribute(d, p * (a * r), k * e); }
      d * bound;
    < { Distribute(d, bound, 1); }
      d * (bound + 1);
    }
    CancelFactor(d, p * (k * out), bound + 1);
  }

  /** Two ways to bracket the same product. */
  lemma Exchange(k: int, p: int, x: int, y: int)
    ensures k * (p * (x * y)) == (x * k) * (p * y) == x * (p * (k * y))
  {
    assert k * (p * (x * y)) == ((k * p) * x) * y == ((x * k) * p) * y;
  }

  /** The quote is the exact output rounded down, or one unit more. */
  lemma QuoteIsFloorOrNext(a: nat, reserveIn: nat, reserveOut: nat, fee: Fee)
    requires OutDenominator(a, reserveIn, fee) > 0
    ensures var floor := OutNumerator(a, reserveOut, fee) / OutDenominator(a, reserveIn, fee);
            var out := GetAmountOut(Fin(a), reserveIn, reserveOut, fee);
            out.Fin? && floor <= out.value <= floor + 1
  {
    FloorOrNext(OutNumerator(a, reserveOut, fee), OutDenominator(a, reserveIn, fee));
  }

  /**
   Exactly when a quote keeps the product of the reserves, for every fee: when its fraction
   rounds down, or when the fee leaves room for the next whole number.  Rounding down, that is
   always.
   */
  lemma ProductKeptIff(a: nat, reserveIn: nat, reserveOut: nat, fee: Fee)
    requires OutDenominator(a, reserveIn, fee) > 0
    ensures var n, d := OutNumerator(a, reserveOut, fee), OutDenominator(a, reserveIn, fee);
            var out := GetAmountOut(Fin(a), reserveIn, reserveOut, fee);
            && out.Fin?
            && ((reserveIn + a) * (reserveOut - out.value) >= reserveIn * reserveOut
                <==> RoundsToFloor(n, d) || (n / d + 1) * (reserveIn + a) <= a * reserveOut)
  {
    KeptByRounding(a, reserveIn, reserveOut, fee, OutNumerator(a, reserveOut, fee), OutDenominator(a, reserveIn, fee));
  }

  lemma KeptByRounding(a: nat, reserveIn: nat, reserveOut: nat, fee: Fee, n: nat, d: nat)
    requires n == OutNumerator(a, reserveOut, fee) && d == OutDenominator(a, reserveIn, fee) && d > 0
    ensures (reserveIn + a) * (reserveOut - RoundTwice(n, d)) >= reserveIn * reserveOut
       <==> RoundsToFloor(n, d) || (n / d + 1) * (reserveIn + a) <= a * reserveOut
  {
    RoundTwiceToFloor(n, d);
    FloorOrNext(n, d);
    KeptByFloorOrNext(a, reserveIn, reserveOut, fee, n / d, RoundTwice(n, d));
  }

  lemma KeptByFloorOrNext(a: nat, reserveIn: nat, reserveOut: nat, fee: Fee, floor: nat, out: nat)
    requires OutDenominator(a, reserveIn, fee) > 0
    requires OutDenominator(a, reserveIn, fee) * floor <= OutNumerator(a, reserveOut, fee)
    requires floor <= out <= floor + 1
    ensures (reserveIn + a) * (reserveOut - out) >= reserveIn * reserveOut
       <==> out == floor || (floor + 1) * (reserveIn + a) <= a * reserveOut
  {
    FeeLowersRatio(a, reserveIn, fee);
    FlooredKeeps(AfterFee(a, fee), OutDenominator(a, reserveIn, fee), a, reserveIn, reserveOut, floor);
    AfterSwap(reserveIn, a, reserveOut, floor + 1);
  }

  lemma FlooredKeeps(x: nat, d: nat, a: nat, reserveIn: nat, reserveOut: nat, out: nat)
    requires d > 0 && d * out <= x * reserveOut
    requires x * (reserveIn + a) <= a * d
    ensures (reserveIn + a) * (reserveOut - out) >= reserveIn * reserveOut
  {
    ReplaceRatio(1, 0, x, d, a, reserveIn + a, reserveOut, out);
    AfterSwap(reserveIn, a, reserveOut, out);
  }

  /** The loss is real: half-up rounding can pay out more than the product rule allows. */
  lemma ProductCanDrop()
    ensures ROUNDING == HalfUp ==> GetAmountOut(Fin(1), 10, 10, 0) == Fin(1)
    ensures (10 + 1) * (10 - 1) < 10 * 10
  {
  }

  /**
   The unit tests of the router expect 199360247566635212 for this swap, whose exact output
   has the fraction 0.938: they were written against a library that rounds down.
   */
  lemma ExpectedAmountTellsRounding()
    ensures GetAmountOut(Fin(2_000_000), 10_000_000_000, 1_000_000_000_000_000_000_000, 300)
         == Fin(if ROUNDING == Down then 199360247566635212 else 199360247566635213)
  {
    var (a, fee) := (2_000_000, 300);
    var (reserveIn, reserveOut) := (10_000_000_000, 1_000_000_000_000_000_000_000);
    QuoteIsFloorOrNext(a, reserveIn, reserveOut, fee);
    RoundTwiceToFloor(OutNumerator(a, reserveOut, fee), OutDenominator(a, reserveIn, fee));
  }

  // ----- the other direction -----------------------------------------------------------

  /** An input can be named exactly when the output leaves something in the reserve and the fee in the input. */
  lemma AmountInFinite(b: nat, reserveIn: nat, reserveOut: nat, fee: Fee)
    ensures var x := GetAmountIn(Fin(b), reserveIn, reserveOut, fee);
            x.Fin? && x.value > 0 <==> b < reserveOut && fee < BASE_POINTS
  {
    if b < reserveOut && fee < BASE_POINTS {
      assert InDenominator(b, reserveOut, fee) > 0 by { MulMonotone(1, reserveOut - b, BASE_POINTS - fee); }
      PlusOneRounds(Rounded(InNumerator(b, reserveIn) * SCALE, InDenominator(b, reserveOut, fee)));
    } else if b <= reserveOut {
      assert InDenominator(b, reserveOut, fee) == 0;
    }
  }

  /**
   The input that is named, on all inputs: one more than the rounded constant-product quotient,
   0 for more than the reserve, and the outcome of dividing by zero for exactly the reserve or
   when the fee is everything.
   */
  lemma AmountInBounds(b: nat, reserveIn: nat, reserveOut: nat, fee: Fee)
    ensures GetAmountIn(Infinity, reserveIn, reserveOut, fee) == Fin(0)
    ensures GetAmountIn(NaN, reserveIn, reserveOut, fee) == NaN
    ensures var x := GetAmountIn(Fin(b), reserveIn, reserveOut, fee);
            if b > reserveOut then x == Fin(0)
            else if b == reserveOut || fee == 100_000 then
              x == if reserveIn == 0 || b == 0 then NaN else Infinity
            else
              && x.Fin? && x.value > 0
              && NearlyQuotient(x.value - 1, reserveIn * b * 100_000, (reserveOut - b) * (100_000 - fee))
  {
    if b < reserveOut && fee < BASE_POINTS {
      AmountInAboveQuotient(b, reserveIn, reserveOut, fee);
      RoundTwiceNearly(InNumerator(b, reserveIn), InDenominator(b, reserveOut, fee));
    } else if b <= reserveOut {
      assert InDenominator(b, reserveOut, fee) == 0;
      assert InNumerator(b, reserveIn) > 0 <==> reserveIn > 0 && b > 0 by {
        if reserveIn > 0 && b > 0 { MulMonotone(1, reserveIn, b); }
      }
    }
  }

  /** `getAmountIn` is one more than the doubly rounded quotient, hence strictly above the exact one. */
  lemma AmountInAboveQuotient(b: nat, reserveIn: nat, reserveOut: nat, fee: Fee)
    requires b < reserveOut && fee < BASE_POINTS
    ensures var n, d := InNumerator(b, reserveIn), InDenominator(b, reserveOut, fee);
            var x := GetAmountIn(Fin(b), reserveIn, reserveOut, fee);
            && d > 0 && x == Fin(RoundTwice(n, d) + 1)
            && n < d * x.value
            && (forall k: nat :: n <= k * d ==> x.value <= k + 1)
  {
    AmountInFinite(b, reserveIn, reserveOut, fee);
    var n, d := InNumerator(b, reserveIn), InDenominator(b, reserveOut, fee);
    assert d > 0 by { MulMonotone(1, reserveOut - b, BASE_POINTS - fee); }
    PlusOneRounds(Rounded(n * SCALE, d));
    RoundTwicePlusOne(n, d);
  }

  /** Reaching b exactly is the same as paying at least the exact quotient of `getAmountIn`. */
  lemma ReachesIffPays(a: nat, b: nat, reserveIn: nat, reserveOut: nat, fee: Fee)
    requires b < reserveOut && fee < BASE_POINTS
    requires OutDenominator(a, reserveIn, fee) > 0
    ensures ExactlyReaches(a, b, reserveIn, reserveOut, fee)
       <==> InNumerator(b, reserveIn) <= a * InDenominator(b, reserveOut, fee)
  {
    var x := AfterFee(a, fee);
    assert b * OutDenominator(a, reserveIn, fee) == InNumerator(b, reserveIn) + b * x;
    calc {
      a * InDenominator(b, reserveOut, fee);
    ==
      (reserveOut - b) * (a * (BASE_POINTS - fee));
    ==
      (reserveOut - b) * x;
    ==
      OutNumerator(a, reserveOut, fee) - b * x;
    }
  }

  lemma TooLittle(a: nat, b: nat, reserveIn: nat, reserveOut: nat, fee: Fee)
    requires b < reserveOut && fee < BASE_POINTS
    requires GetAmountIn(Fin(b), reserveIn, reserveOut, fee).Fin?
    requires a + 1 < GetAmountIn(Fin(b), reserveIn, reserveOut, fee).value
    ensures !ExactlyReaches(a, b, reserveIn, reserveOut, fee)
  {
    AmountInAboveQuotient(b, reserveIn, reserveOut, fee);
    if OutDenominator(a, reserveIn, fee) > 0 {
      ReachesIffPays(a, b, reserveIn, reserveOut, fee);
    }
  }

  /**
   `getAmountIn` reaches the wanted output exactly, and no input more than one unit
   smaller does: it is the least such input or the one after it.
   */
  lemma AmountInNearlyLeast(b: nat, reserveIn: nat, reserveOut: nat, fee: Fee)
    requires b < reserveOut && fee < BASE_POINTS
    ensures var x := GetAmountIn(Fin(b), reserveIn, reserveOut, fee);
            && x.Fin? && x.value > 0
            && ExactlyReaches(x.value, b, reserveIn, reserveOut, fee)
            && forall a: nat :: a + 1 < x.value ==> !ExactlyReaches(a, b, reserveIn, reserveOut, fee)
  {
    AmountInReaches(b, reserveIn, reserveOut, fee);
    SmallerFallShort(b, reserveIn, reserveOut, fee, GetAmountIn(Fin(b), reserveIn, reserveOut, fee).value);
  }

  lemma AmountInReaches(b: nat, reserveIn: nat, reserveOut: nat, fee: Fee)
    requires b < reserveOut && fee < BASE_POINTS
    ensures var x := GetAmountIn(Fin(b), reserveIn, reserveOut, fee);
            x.Fin? && x.value > 0 && ExactlyReaches(x.value, b, reserveIn, reserveOut, fee)
  {
    AmountInAboveQuotient(b, reserveIn, reserveOut, fee);
    var x := GetAmountIn(Fin(b), reserveIn, reserveOut, fee).value;
    MulMonotone(1, x, BASE_POINTS - fee);
    MulMonotone(0, reserveIn, BASE_POINTS);
    ReachesIffPays(x, b, reserveIn, reserveOut, fee);
  }

  lemma SmallerFallShort(b: nat, reserveIn: nat, reserveOut: nat, fee: Fee, x: nat)
    requires b < reserveOut && fee < BASE_POINTS
    requires GetAmountIn(Fin(b), reserveIn, reserveOut, fee) == Fin(x)
    ensures forall a: nat :: a + 1 < x ==> !ExactlyReaches(a, b, reserveIn, reserveOut, fee)
  {
    forall a: nat | a + 1 < x
      ensures !ExactlyReaches(a, b, reserveIn, reserveOut, fee)
    {
      TooLittle(a, b, reserveIn, reserveOut, fee);
    }
  }

  /** Paying what `getAmountIn` asks yields at least the wanted output, all rounding included. */
  lemma InverseLaw(b: nat, reserveIn: nat, reserveOut: nat, fee: Fee)
    requires b < reserveOut && fee < BASE_POINTS
    ensures var back := GetAmountOut(GetAmountIn(Fin(b), reserveIn, reserveOut, fee), reserveIn, reserveOut, fee);
            back.Fin? && b <= back.value
  {
    AmountInNearlyLeast(b, reserveIn, reserveOut, fee);
    var x := GetAmountIn(Fin(b), reserveIn, reserveOut, fee).value;
    RoundTwiceRespectsWholes(OutNumerator(x, reserveOut, fee), OutDenominator(x, reserveIn, fee), b);
  }

  /** Wanting more never needs less input. */
  lemma AmountInMonotone(b: nat, b': nat, reserveIn: nat, reserveOut: nat, fee: Fee)
    requires b <= b' < reserveOut && fee < BASE_POINTS
    ensures var x := GetAmountIn(Fin(b), reserveIn, reserveOut, fee);
            var x' := GetAmountIn(Fin(b'), reserveIn, reserveOut, fee);
            x.Fin? && x'.Fin? && 0 < x.value <= x'.value
  {
    AmountInAboveQuotient(b, reserveIn, reserveOut, fee);
    AmountInAboveQuotient(b', reserveIn, reserveOut, fee);
    QuotientGrows(b, b', reserveIn, reserveOut, fee);
    RoundTwiceMonotone(
      InNumerator(b, reserveIn), InDenominator(b, reserveOut, fee),
      InNumerator(b', reserveIn), InDenominator(b', reserveOut, fee));
  }

  lemma QuotientGrows(b: nat, b': nat, reserveIn: nat, reserveOut: nat, fee: Fee)
    requires b <= b' <= reserveOut
    ensures InNumerator(b, reserveIn) * InDenominator(b', reserveOut, fee)
         <= InNumerator(b', reserveIn) * InDenominator(b, reserveOut, fee)
  {
    var c := reserveIn * BASE_POINTS * (BASE_POINTS - fee);
    MulMonotone(b, b', reserveOut);
    assert b * (reserveOut - b') <= b' * (reserveOut - b);
    MulMonotone(b * (reserveOut - b'), b' * (reserveOut - b), c);
    Regroup(reserveIn, b, BASE_POINTS, reserveOut - b', BASE_POINTS - fee);
    Regroup(reserveIn, b', BASE_POINTS, reserveOut - b, BASE_POINTS - fee);
  }

  lemma Regroup(r: int, b: int, m: int, rest: int, f: int)
    ensures (r * b * m) * (rest * f) == (r * m * f) * (b * rest)
  {
    assert (r * b * m) * (rest * f) == ((r * m) * b) * (rest * f) == (r * m) * (b * (rest * f));
    assert b * (rest * f) == f * (b * rest);
  }
}
