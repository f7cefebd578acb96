/** The constant-product rule of a two-sided pool (engine/quote.go:734-781).

    Fees are parts per million of the input.  Amounts are `big.Int`, hence unbounded integers;
    the quotients only ever see non-negative operands, where Go's truncation and Dafny's `/` agree. */
module ConstantProduct {
  import opened Wrappers

  const MILLION := 1_000_000

  predicate LivePool(rIn: int, rOut: int, fee: int) {
    rIn > 0 && rOut > 0 && 0 <= fee < MILLION
  }

  /** The payout for an input, if there is one. */
  function AmountOut(amtIn: Option<int>, rIn: int, rOut: int, fee: int): Option<int> {
    if amtIn.None? || amtIn.value <= 0 || rIn <= 0 || rOut <= 0 then None
    else if fee < 0 || fee >= MILLION then None
    else
      var afterFee := amtIn.value * (MILLION - fee);
      var num := afterFee * rOut;
      var den := rIn * MILLION + afterFee;
      if den <= 0 then None else
      Some(num / den)
  }

  /** The input for a payout, if the reserve covers it. */
  function AmountIn(amtOut: Option<int>, rIn: int, rOut: int, fee: int): Option<int> {
    if amtOut.None? || amtOut.value <= 0 || rIn <= 0 || rOut <= 0 then None
    else if fee < 0 || fee >= MILLION || amtOut.value >= rOut then None
    else
      var num := rIn * amtOut.value * MILLION;
      var den := (rOut - amtOut.value) * (MILLION - fee);
      assert den > 0 by { MulPositive(rOut - amtOut.value, MILLION - fee); }
      Some(num / den + 1)
  }

  /** The pool's own invariant, stated without any division: after taking `x` in (less the fee)
      and paying `o` out, the fee-adjusted reserve product has not fallen. */
  predicate Keeps(x: int, o: int, rIn: int, rOut: int, fee: int) {
    (rIn * MILLION + x * (MILLION - fee)) * (rOut - o) >= rIn * MILLION * rOut
  }

  lemma MulPositive(a: int, b: int)
    requires a > 0 && b > 0
    ensures a * b > 0
  {}

  /** q <= n / d exactly when q * d <= n. */
  lemma {:induction false} DivGreatest(n: int, d: int, q: int)
    requires d > 0
    ensures q <= n / d <==> q * d <= n
  {
    var t := n / d;
    DivRemainder(n, d);
    if q <= t {
      MulMonotone(q, t, d);
    } else {
      MulMonotone(t + 1, q, d);
      assert (t + 1) * d == t * d + d;
    }
  }

  lemma DivRemainder(n: int, d: int)
    requires d > 0
    ensures (n / d) * d <= n < (n / d) * d + d
  {
    assert n == (n / d) * d + n % d;
  }

  /** `Keeps` is one linear inequality in the payout. */
  lemma KeepsUnfolds(x: int, o: int, rIn: int, rOut: int, fee: int)
    ensures Keeps(x, o, rIn, rOut, fee)
       <==> o * (rIn * MILLION + x * (MILLION - fee)) <= x * (MILLION - fee) * rOut
  {
    var a, r := x * (MILLION - fee), rIn * MILLION;
    assert (r + a) * (rOut - o) == r * rOut + a * rOut - o * (r + a);
  }

  /** amountOut is the largest payout the pool's invariant allows: it is allowed, and an amount is
      allowed exactly when it is no larger. */
  lemma AmountOutIsGreatest(x: int, o: int, rIn: int, rOut: int, fee: int)
    requires x > 0 && LivePool(rIn, rOut, fee)
    ensures AmountOut(Some(x), rIn, rOut, fee).Some?
    ensures Keeps(x, o, rIn, rOut, fee) <==> o <= AmountOut(Some(x), rIn, rOut, fee).value
  {
    MulPositive(x, MILLION - fee);
    KeepsUnfolds(x, o, rIn, rOut, fee);
    DivGreatest(x * (MILLION - fee) * rOut, rIn * MILLION + x * (MILLION - fee), o);
  }

  /** It answers exactly the trades that can happen. */
  lemma AmountOutAnswers(amtIn: Option<int>, rIn: int, rOut: int, fee: int)
    ensures AmountOut(amtIn, rIn, rOut, fee).Some?
       <==> amtIn.Some? && amtIn.value > 0 && LivePool(rIn, rOut, fee)
  {
    if amtIn.Some? && amtIn.value > 0 && LivePool(rIn, rOut, fee) {
      MulPositive(amtIn.value, MILLION - fee);
    }
  }

  /** A payout is never negative and never the whole reserve, and the real product of the two
      reserves (fee included) does not fall. */
  lemma AmountOutWithinReserve(x: int, rIn: int, rOut: int, fee: int)
    requires x > 0 && LivePool(rIn, rOut, fee)
    ensures AmountOut(Some(x), rIn, rOut, fee).Some?
    ensures 0 <= AmountOut(Some(x), rIn, rOut, fee).value < rOut
    ensures (rIn + x) * (rOut - AmountOut(Some(x), rIn, rOut, fee).value) >= rIn * rOut
  {
    var f := MILLION - fee;
    MulPositive(x, f);
    AmountOutIsGreatest(x, 0, rIn, rOut, fee);
    KeepsUnfolds(x, 0, rIn, rOut, fee);
    assert x * f * rOut >= 0 by { MulPositive(x * f, rOut); }
    var o := AmountOut(Some(x), rIn, rOut, fee).value;
    AmountOutIsGreatest(x, rOut, rIn, rOut, fee);
    assert !Keeps(x, rOut, rIn, rOut, fee) by {
      MulPositive(rIn * MILLION, rOut);
    }
    AmountOutIsGreatest(x, o, rIn, rOut, fee);
    KeepsProduct(x, o, rIn, rOut, fee);
  }

  lemma MulMonotone(a: int, b: int, c: int)
    requires a <= b && c >= 0
    ensures a * c <= b * c
  {
    assert (b - a) * c >= 0;
  }

  /** Where the invariant is kept, the real product of the reserves does not fall. */
  lemma KeepsProduct(x: int, o: int, rIn: int, rOut: int, fee: int)
    requires x > 0 && o <= rOut && LivePool(rIn, rOut, fee) && Keeps(x, o, rIn, rOut, fee)
    ensures (rIn + x) * (rOut - o) >= rIn * rOut
  {
    var f := MILLION - fee;
    assert x * f <= x * MILLION;
    MulMonotone(rIn * MILLION + x * f, rIn * MILLION + x * MILLION, rOut - o);
    assert (rIn * MILLION + x * MILLION) * (rOut - o) == MILLION * ((rIn + x) * (rOut - o));
    assert rIn * MILLION * rOut == MILLION * (rIn * rOut);
  }

  /** A larger input never pays less. */
  lemma AmountOutMonotone(x: int, y: int, rIn: int, rOut: int, fee: int)
    requires 0 < x <= y && LivePool(rIn, rOut, fee)
    ensures AmountOut(Some(x), rIn, rOut, fee).Some? && AmountOut(Some(y), rIn, rOut, fee).Some?
    ensures AmountOut(Some(x), rIn, rOut, fee).value <= AmountOut(Some(y), rIn, rOut, fee).value
  {
    AmountOutWithinReserve(x, rIn, rOut, fee);
    var o := AmountOut(Some(x), rIn, rOut, fee).value;
    AmountOutIsGreatest(x, o, rIn, rOut, fee);
    var f := MILLION - fee;
    MulMonotone(x, y, f);
    MulMonotone(rIn * MILLION + x * f, rIn * MILLION + y * f, rOut - o);
    AmountOutIsGreatest(y, o, rIn, rOut, fee);
  }

  /** At 3000 parts per million the rule is Uniswap's 997/1000, to the last unit. */
  lemma AmountOutIs997(x: int, rIn: int, rOut: int)
    requires x > 0 && rIn > 0 && rOut > 0
    ensures rIn * 1000 + x * 997 > 0
    ensures AmountOut(Some(x), rIn, rOut, 3000) == Some((x * 997 * rOut) / (rIn * 1000 + x * 997))
  {
    var n, d := x * 997 * rOut, rIn * 1000 + x * 997;
    var q := AmountOut(Some(x), rIn, rOut, 3000).value;
    assert x * 997_000 * rOut == 1000 * n;
    assert rIn * MILLION + x * 997_000 == 1000 * d;
    DivGreatest(1000 * n, 1000 * d, q);
    DivGreatest(n, d, q);
    DivGreatest(1000 * n, 1000 * d, q + 1);
    DivGreatest(n, d, q + 1);
    assert q * (1000 * d) == 1000 * (q * d);
    assert (q + 1) * (1000 * d) == 1000 * ((q + 1) * d);
  }

  /** amountIn answers exactly the payouts the pool can make. */
  lemma AmountInAnswers(amtOut: Option<int>, rIn: int, rOut: int, fee: int)
    ensures AmountIn(amtOut, rIn, rOut, fee).Some?
       <==> amtOut.Some? && 0 < amtOut.value < rOut && LivePool(rIn, rOut, fee)
  {}

  /** An input pays for `o` when it reaches amountIn(o), and only if it reaches amountIn(o) - 1. */
  lemma AmountInBounds(x: int, o: int, rIn: int, rOut: int, fee: int)
    requires LivePool(rIn, rOut, fee) && 0 < o < rOut
    ensures AmountIn(Some(o), rIn, rOut, fee).Some?
    ensures x >= AmountIn(Some(o), rIn, rOut, fee).value ==> Keeps(x, o, rIn, rOut, fee)
    ensures Keeps(x, o, rIn, rOut, fee) ==> x >= AmountIn(Some(o), rIn, rOut, fee).value - 1
  {
    var num, den := rIn * o * MILLION, (rOut - o) * (MILLION - fee);
    MulPositive(rOut - o, MILLION - fee);
    KeepsIsInputBound(x, o, rIn, rOut, fee);
    var q := num / den;
    assert num == q * den + num % den;
    if x >= q + 1 {
      MulMonotone(q + 1, x, den);
      assert (q + 1) * den == q * den + den;
    } else if x <= q - 1 {
      MulMonotone(x, q - 1, den);
      assert (q - 1) * den == q * den - den;
    }
  }

  lemma KeepsIsInputBound(x: int, o: int, rIn: int, rOut: int, fee: int)
    ensures Keeps(x, o, rIn, rOut, fee) <==> x * ((rOut - o) * (MILLION - fee)) >= rIn * o * MILLION
  {
    KeepsUnfolds(x, o, rIn, rOut, fee);
    var f := MILLION - fee;
    calc {
      x * f * rOut - o * (rIn * MILLION + x * f);
      x * f * rOut - o * (rIn * MILLION) - o * (x * f);
      x * f * rOut - x * f * o - rIn * o * MILLION;
      { assert x * f * (rOut - o) == x * f * rOut - x * f * o; }
      x * f * (rOut - o) - rIn * o * MILLION;
      { assert x * f * (rOut - o) == x * ((rOut - o) * f); }
      x * ((rOut - o) * f) - rIn * o * MILLION;
    }
  }

  /** The extra unit is spent for nothing exactly when the division came out even: then, and only
      then, one unit less would have paid for `o` as well. */
  lemma AmountInExactness(o: int, rIn: int, rOut: int, fee: int)
    requires LivePool(rIn, rOut, fee) && 0 < o < rOut
    ensures AmountIn(Some(o), rIn, rOut, fee).Some?
    ensures (rOut - o) * (MILLION - fee) > 0
    ensures Keeps(AmountIn(Some(o), rIn, rOut, fee).value - 1, o, rIn, rOut, fee)
       <==> (rIn * o * MILLION) % ((rOut - o) * (MILLION - fee)) == 0
  {
    MulPositive(rOut - o, MILLION - fee);
    var num, den := rIn * o * MILLION, (rOut - o) * (MILLION - fee);
    KeepsIsInputBound(num / den, o, rIn, rOut, fee);
    assert num == (num / den) * den + num % den;
  }

  /** The two directions as the quoter uses them: paying amountIn(o) buys at least `o`, and any
      input that buys `o` is at most one unit cheaper. */
  lemma GaloisPair(o: int, x: int, rIn: int, rOut: int, fee: int)
    requires LivePool(rIn, rOut, fee) && 0 < o < rOut && x > 0
    ensures var need := AmountIn(Some(o), rIn, rOut, fee);
            && need.Some? && need.value > 0
            && AmountOut(need, rIn, rOut, fee).Some?
            && AmountOut(need, rIn, rOut, fee).value >= o
            && AmountOut(Some(x), rIn, rOut, fee).Some?
            && (AmountOut(Some(x), rIn, rOut, fee).value >= o ==> x >= need.value - 1)
  {
    MulPositive(rOut - o, MILLION - fee);
    assert rIn * o * MILLION >= 0 by { MulPositive(rIn, o); }
    var need := AmountIn(Some(o), rIn, rOut, fee).value;
    assert need >= 1 by { DivGreatest(rIn * o * MILLION, (rOut - o) * (MILLION - fee), 0); }
    AmountInBounds(need, o, rIn, rOut, fee);
    AmountOutIsGreatest(need, o, rIn, rOut, fee);
    AmountOutIsGreatest(x, o, rIn, rOut, fee);
    AmountInBounds(x, o, rIn, rOut, fee);
  }
}
