/** Swap quotes and initial liquidity (src/dex.rs:105-202), in checked 128-bit arithmetic. */
module DexMath {
  import opened Wrappers

  const U128_MAX: int := 0xFFFF_FFFF_FFFF_FFFF_FFFF_FFFF_FFFF_FFFF

  newtype u128 = n: int | 0 <= n <= 0xFFFF_FFFF_FFFF_FFFF_FFFF_FFFF_FFFF_FFFF

  const MAX_FEE_BPS := 300
  const FEE_DEN := 10_000

  datatype QuoteError =
    | NoLiquidity
    | ZeroAmount
    | FeeTooHigh
    | Overflow
    | TooSmall

  datatype Quote = Quote(amountOut: nat, feePaid: nat)

  /** What is left of an input after the fee, rounded down. */
  function AfterFee(amount: nat, fee: nat): nat
    requires fee <= FEE_DEN
  {
    amount * (FEE_DEN - fee) / FEE_DEN
  }

  function Output(x: nat, y: nat, net: nat): nat
    requires x > 0
  {
    y * net / (x + net)
  }

  /** `quote_amount_out` without the floating-point price impact. */
  function QuoteAmountOut(x: nat, y: nat, amount: nat, fee: nat): Result<Quote, QuoteError> {
    if x == 0 || y == 0 then Failure(NoLiquidity)
    else if amount == 0 then Failure(ZeroAmount)
    else if fee > MAX_FEE_BPS then Failure(FeeTooHigh)
    else if amount * (FEE_DEN - fee) > U128_MAX then Failure(Overflow)
    else
      var net := AfterFee(amount, fee);
      if net == 0 then Failure(TooSmall)
      else if y * net > U128_MAX || x + net > U128_MAX then Failure(Overflow)
      else
        var out := Output(x, y, net);
        if out == 0 then Failure(TooSmall) else Success(Quote(out, amount - net))
  }

  lemma DivBounds(n: nat, d: nat)
    requires d > 0
    ensures d * (n / d) <= n < d * (n / d) + d
  {
  }

  lemma DivAtMost(n: nat, d: nat, q: nat)
    requires d > 0 && n < d * (q + 1)
    ensures n / d <= q
  {
    DivBounds(n, d);
    if n / d >= q + 1 {
      MulMono(d, q + 1, n / d);
    }
  }

  lemma DivAtLeast(n: nat, d: nat, q: nat)
    requires d > 0 && d * q <= n
    ensures q <= n / d
  {
    DivBounds(n, d);
    if n / d + 1 <= q {
      MulMono(d, n / d + 1, q);
    }
  }

  lemma MulMono(a: nat, b: nat, c: nat)
    requires b <= c
    ensures a * b <= a * c
  {
  }

  lemma MulStrict(a: nat, b: nat, c: nat)
    requires a > 0 && b < c
    ensures a * b < a * c
  {
  }

  lemma MulCancel(a: nat, b: nat, c: nat)
    requires a > 0 && a * b <= a * c
    ensures b <= c
  {
    if c < b {
      MulStrict(a, c, b);
    }
  }

  lemma AfterFeeBounds(amount: nat, fee: nat)
    requires fee <= FEE_DEN
    ensures AfterFee(amount, fee) <= amount
  {
    assert amount * (FEE_DEN - fee) <= amount * FEE_DEN;
    DivAtMost(amount * (FEE_DEN - fee), FEE_DEN, amount);
  }

  lemma AfterFeeSuperadditive(a: nat, b: nat, fee: nat)
    requires fee <= FEE_DEN
    ensures AfterFee(a, fee) + AfterFee(b, fee) <= AfterFee(a + b, fee)
  {
    var k := FEE_DEN - fee;
    DivBounds(a * k, FEE_DEN);
    DivBounds(b * k, FEE_DEN);
    assert (a + b) * k == a * k + b * k;
    DivAtLeast((a + b) * k, FEE_DEN, AfterFee(a, fee) + AfterFee(b, fee));
  }

  /** What stays in the output reserve, scaled by the new denominator. */
  lemma ReserveLeft(x: nat, y: nat, net: nat)
    requires x > 0
    ensures Output(x, y, net) <= y
    ensures (y - Output(x, y, net)) * (x + net) >= y * x
    ensures y > 0 ==> Output(x, y, net) < y
  {
    var out, d := Output(x, y, net), x + net;
    DivBounds(y * net, d);
    assert y * d == y * x + y * net;
    if y > 0 {
      assert y * x > 0;
      if out >= y {
        MulMono(d, y, out);
      }
      assert (y - out) * d == y * d - out * d;
    }
  }

  /** Main result: a quoted output is strictly below the output reserve, and paying it out
      against the whole input never lowers the product of the reserves. */
  lemma SwapKeepsProduct(x: nat, y: nat, amount: nat, fee: nat)
    requires QuoteAmountOut(x, y, amount, fee).Success?
    ensures var out := QuoteAmountOut(x, y, amount, fee).value.amountOut;
      0 < out < y && (x + amount) * (y - out) >= x * y
  {
    var net := AfterFee(amount, fee);
    AfterFeeBounds(amount, fee);
    ReserveLeft(x, y, net);
    var left := y - Output(x, y, net);
    MulMono(left, x + net, x + amount);
    assert left * (x + amount) >= y * x;
  }

  /** Two partial swaps keep at least as much in the output reserve as one swap must leave. */
  lemma SplitLeavesMore(x: nat, y: nat, a: nat, netA: nat, netB: nat, net: nat)
    requires x > 0 && netA <= a && netA + netB <= net
    ensures
      var y1 := y - Output(x, y, netA);
      0 <= y1 && 0 <= y1 - Output(x + a, y1, netB) && (y1 - Output(x + a, y1, netB)) * (x + net) >= y * x
  {
    ReserveLeft(x, y, netA);
    var y1 := y - Output(x, y, netA);
    var x1 := x + a;
    ReserveLeft(x1, y1, netB);
    var r := y1 - Output(x1, y1, netB);
    var p, q := x + netA, x1 + netB;
    calc {
      x1 * (y * x);
    <= { MulMono(x1, y * x, y1 * p); }
      x1 * (y1 * p);
    == { MulShuffle(x1, y1, p); }
      p * (y1 * x1);
    <= { MulMono(p, y1 * x1, r * q); }
      p * (r * q);
    == { MulShuffle(p, r, q); }
      r * (p * q);
    <= { SplitDenominators(x, a, netA, netB, net); MulMono(r, p * q, x1 * (x + net)); }
      r * (x1 * (x + net));
    == { MulShuffle(r, x1, x + net); }
      x1 * (r * (x + net));
    }
    MulCancel(x1, y * x, r * (x + net));
  }

  lemma MulShuffle(a: nat, b: nat, c: nat)
    ensures a * (b * c) == b * (a * c) == c * (b * a)
  {
  }

  lemma SplitDenominators(x: nat, a: nat, netA: nat, netB: nat, net: nat)
    requires netA <= a && netA + netB <= net
    ensures (x + netA) * (x + a + netB) <= (x + a) * (x + net)
  {
    MulMono(netB, x + netA, x + a);
    assert (x + netA) * (x + a + netB) == (x + a) * (x + netA) + netB * (x + netA);
    MulMono(x + a, x + netA + netB, x + net);
    assert (x + a) * (x + netA + netB) == (x + a) * (x + netA) + netB * (x + a);
  }

  lemma SplitOutput(x: nat, y: nat, a: nat, netA: nat, netB: nat, net: nat)
    requires x > 0 && netA <= a && netA + netB <= net
    ensures Output(x, y, netA) <= y
    ensures Output(x, y, netA) + Output(x + a, y - Output(x, y, netA), netB) <= Output(x, y, net)
  {
    SplitLeavesMore(x, y, a, netA, netB, net);
    ReserveLeft(x, y, netA);
    var both := Output(x, y, netA) + Output(x + a, y - Output(x, y, netA), netB);
    var d := x + net;
    assert (y - both) * d == y * d - both * d;
    assert y * d == y * x + y * net;
    DivAtLeast(y * net, d, both);
  }

  /** Main result: splitting a swap never pays more, with every floor taken as in the code
      and the whole first input added to the reserve in between. */
  lemma SplittingNeverHelps(x: nat, y: nat, a: nat, b: nat, fee: nat)
    requires QuoteAmountOut(x, y, a, fee).Success?
    requires var y1 := y - QuoteAmountOut(x, y, a, fee).value.amountOut;
      y1 >= 0 && QuoteAmountOut(x + a, y1, b, fee).Success?
    ensures
      var first := QuoteAmountOut(x, y, a, fee).value.amountOut;
      var second := QuoteAmountOut(x + a, y - first, b, fee).value.amountOut;
      var whole := QuoteAmountOut(x, y, a + b, fee);
      || whole == Failure(Overflow)
      || (whole.Success? && first + second <= whole.value.amountOut)
  {
    AfterFeeBounds(a, fee);
    AfterFeeSuperadditive(a, b, fee);
    SplitOutput(x, y, a, AfterFee(a, fee), AfterFee(b, fee), AfterFee(a + b, fee));
  }

  /** The floor of the square root. */
  ghost predicate IsFloorSqrt(v: nat, r: nat) {
    r * r <= v < (r + 1) * (r + 1)
  }

  lemma SquareMono(a: nat, b: nat)
    requires a < b
    ensures (a + 1) * (a + 1) <= b * b
  {
    MulMono(a + 1, a + 1, b);
    MulMono(b, a + 1, b);
  }

  lemma FloorSqrtUnique(v: nat, r: nat, s: nat)
    requires IsFloorSqrt(v, r) && IsFloorSqrt(v, s)
    ensures r == s
  {
    if r < s {
      SquareMono(r, s);
    } else if s < r {
      SquareMono(s, r);
    }
  }

  lemma DifferenceOfSquares(x: int, d: int)
    ensures x * (x + 2 * d) + d * d == (x + d) * (x + d)
    ensures x * (x + 2 * d) <= (x + d) * (x + d)
  {
    assert d * d >= 0;
  }

  /** A Newton step from any positive point lands at or above every lower root. */
  lemma NewtonAbove(v: nat, x: nat, s: nat)
    requires x > 0 && s * s <= v
    ensures s <= (x + v / x) / 2
  {
    if 2 * s > x {
      DifferenceOfSquares(x, s - x);
      assert x + 2 * (s - x) == 2 * s - x && x + (s - x) == s;
      DivAtLeast(v, x, 2 * s - x);
    }
  }

  /** The sum inside a Newton step never exceeds the value by more than one. */
  lemma NewtonFits(v: nat, x: nat)
    requires 1 <= x <= v
    ensures x + v / x <= v + 1
  {
    var p, q := x - 1, v - x;
    assert p * q >= 0;
    assert x * (q + 2) == (p + 1) * (q + 2) == p * q + 2 * p + q + 2;
    DivAtMost(v, x, q + 1);
  }

  lemma NewtonStops(v: nat, x: nat, root: nat)
    requires IsFloorSqrt(v, root) && 1 <= root <= x <= (x + v / x) / 2
    ensures x == root
  {
    DivBounds(v, x);
    MulMono(x, x, v / x);
    if root < x {
      SquareMono(root, x);
    }
  }

  /** `integer_sqrt`. The type checks that no intermediate sum overflows; the one excluded
      value is the one where the first sum would. */
  method IntegerSqrt(value: u128) returns (r: u128)
    requires value as int < U128_MAX
    ensures IsFloorSqrt(value as nat, r as nat)
  {
    if value <= 1 {
      return value;
    }
    ghost var v := value as nat;
    ghost var root := Root(v);
    RootWithin(v, root);
    var x0 := value;
    NewtonFits(v, v);
    NewtonAbove(v, v, root);
    var x1 := (x0 + value / x0) / 2;
    while x1 < x0
      invariant 1 <= x0 <= value
      invariant x1 as nat == (x0 as nat + v / x0 as nat) / 2
      invariant 1 <= root <= x1 as nat && root <= x0 as nat
      decreases x0
    {
      x0 := x1;
      NewtonFits(v, x0 as nat);
      NewtonAbove(v, x0 as nat, root);
      x1 := (x0 + value / x0) / 2;
    }
    NewtonStops(v, x0 as nat, root);
    return x0;
  }

  lemma RootWithin(v: nat, root: nat)
    requires v > 0 && IsFloorSqrt(v, root)
    ensures 1 <= root <= v
  {
    if root > v {
      assert (v + 1) * (v + 1) == v * v + 2 * v + 1;
      SquareMono(v, root);
    }
  }

  ghost function Root(v: nat): (r: nat)
    ensures IsFloorSqrt(v, r)
    ensures v >= 1 ==> r >= 1
  {
    if v == 0 then 0
    else
      var r := Root(v - 1);
      if (r + 1) * (r + 1) <= v then (NextRoot(r, v); r + 1) else r
  }

  lemma NextRoot(r: nat, v: nat)
    requires v > 0 && IsFloorSqrt(v - 1, r) && (r + 1) * (r + 1) <= v
    ensures IsFloorSqrt(v, r + 1)
  {
    assert (r + 2) * (r + 2) == (r + 1) * (r + 1) + 2 * r + 3;
  }

  /** `initial_lp_units`. */
  ghost function InitialLp(anet: nat, token: nat): Result<nat, QuoteError> {
    if anet == 0 || token == 0 then Failure(ZeroAmount)
    else if anet * token > U128_MAX then Failure(Overflow)
    else Success(Root(anet * token))
  }

  const U64: nat := 0xFFFF_FFFF_FFFF_FFFF

  lemma ProductFits(a: nat, b: nat)
    requires a <= U64 && b <= U64
    ensures a * b <= U64 * U64 < U128_MAX
  {
    MulMono(a, b, U64);
    MulMono(U64, a, U64);
  }

  lemma RootBetween(lo: nat, hi: nat, root: nat)
    requires lo <= hi && IsFloorSqrt(lo * hi, root)
    ensures lo <= root <= hi
  {
    MulMono(lo, lo, hi);
    MulMono(hi, lo, hi);
    if root < lo {
      SquareMono(root, lo);
    } else if hi < root {
      assert (hi + 1) * (hi + 1) == hi * hi + 2 * hi + 1;
      SquareMono(hi, root);
    }
  }

  /** Main result: for 64-bit deposits the product is inside the range `integer_sqrt`
      covers, the first provider's units lie between the two deposits, and their square
      never exceeds the product. */
  lemma InitialLpBounds(anet: nat, token: nat)
    requires 0 < anet <= U64 && 0 < token <= U64
    ensures anet * token < U128_MAX
    ensures InitialLp(anet, token).Success?
    ensures
      var lp := InitialLp(anet, token).value;
      && lp * lp <= anet * token
      && (if anet < token then anet else token) <= lp <= (if anet < token then token else anet)
  {
    ProductFits(anet, token);
    var root := Root(anet * token);
    if anet < token {
      RootBetween(anet, token, root);
    } else {
      assert anet * token == token * anet;
      RootBetween(token, anet, root);
    }
  }
}
