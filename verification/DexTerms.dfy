/** The terms of every DEX operation in plain numbers (src/dex.rs:86-202, src/state.rs:1396-1832): when it
    succeeds, what it pays and charges, and everything it changes. */
module DexTerms {
  import opened Wrappers
  import opened Ledger
  import opened Dex
  import opened DexMath

  // --- quotes --------------------------------------------------------------------

  /** `q` is `n` divided by `d`, rounded down. */
  predicate Floor(q: int, n: int, d: int) {
    q * d <= n < (q + 1) * d
  }

  lemma FloorIs(q: nat, n: nat, d: nat)
    requires d > 0 && Floor(q, n, d)
    ensures n / d == q
  {
    DivAtLeast(n, d, q);
    DivAtMost(n, d, q);
  }

  /** Main result: with `net` the input less its fee and `out` the constant-product share of it, both
      rounded down, a quote is given if and only if the reserves are not empty, the input is not
      zero, neither result is, the fee is at most 300 basis points and the three intermediate
      values fit 128 bits; it pays `out` and charges the rest of the input. */
  lemma QuoteSucceedsIff(x: nat, y: nat, amount: nat, fee: nat, net: nat, out: nat)
    requires x > 0 && fee <= 10_000
    requires Floor(net, amount * (10_000 - fee), 10_000) && Floor(out, y * net, x + net)
    ensures
      var q, max := QuoteAmountOut(x, y, amount, fee), 0xFFFF_FFFF_FFFF_FFFF_FFFF_FFFF_FFFF_FFFF;
      && (q.Success? <==>
            && y > 0 && amount > 0 && fee <= 300 && net > 0 && out > 0
            && amount * (10_000 - fee) <= max && y * net <= max && x + net <= max)
      && (q.Success? ==> q.value == Quote(out, amount - net))
  {
    FloorIs(net, amount * (10_000 - fee), 10_000);
    FloorIs(out, y * net, x + net);
  }

  /** Why a quote is refused: an empty reserve, no input, a fee above 300, then rounding or size. */
  lemma QuoteErrors(x: nat, y: nat, amount: nat, fee: nat)
    ensures
      var q, max := QuoteAmountOut(x, y, amount, fee), 0xFFFF_FFFF_FFFF_FFFF_FFFF_FFFF_FFFF_FFFF;
      && (q == Failure(NoLiquidity) <==> x == 0 || y == 0)
      && (q == Failure(ZeroAmount) <==> x > 0 && y > 0 && amount == 0)
      && (q == Failure(FeeTooHigh) <==> x > 0 && y > 0 && amount > 0 && fee > 300)
      && (q == Failure(TooSmall) ==> fee <= 300 && amount * (10_000 - fee) <= max)
      && (q == Failure(Overflow) ==> fee <= 300 && (amount * (10_000 - fee) > max || (y + 1) * (amount + 1) + x > max))
  {
    if fee <= 300 {
      AfterFeeBounds(amount, fee);
      MulMono(y, AfterFee(amount, fee), amount);
      assert (y + 1) * (amount + 1) == y * amount + y + amount + 1;
    }
  }

  /** Main result: every quote charges `fee` basis points of the input, rounded up, and pays the
      constant-product share of what is left, rounded down. */
  lemma QuoteTerms(x: nat, y: nat, amount: nat, fee: nat)
    requires QuoteAmountOut(x, y, amount, fee).Success?
    ensures
      var q := QuoteAmountOut(x, y, amount, fee).value;
      var net := amount - q.feePaid;
      && 0 <= q.feePaid < amount && fee <= 300
      && amount * fee <= q.feePaid * 10_000 < amount * fee + 10_000
      && Floor(q.amountOut, y * net, x + net)
  {
    var net := AfterFee(amount, fee);
    DivBounds(amount * (10_000 - fee), 10_000);
    AfterFeeBounds(amount, fee);
    FeeIsRest(amount, fee, net);
    DivBounds(y * net, x + net);
  }

  lemma FeeIsRest(amount: nat, fee: nat, net: nat)
    requires fee <= 10_000 && net <= amount && Floor(net, amount * (10_000 - fee), 10_000)
    ensures amount * fee <= (amount - net) * 10_000 < amount * fee + 10_000
  {
    assert amount * (10_000 - fee) == amount * 10_000 - amount * fee;
  }

  /** A million on either side and the usual 30 basis points: 10000 buy 9871 and pay a fee of 30. */
  lemma UsualQuote()
    ensures QuoteAmountOut(1_000_000, 1_000_000, 10_000, 30) == Success(Quote(9_871, 30))
  {
    QuoteSucceedsIff(1_000_000, 1_000_000, 10_000, 30, 9_970, 9_871);
  }

  // --- who may act, and with what ----------------------------------------------------

  /** A symbol has 1 to 16 capital letters, digits, underscores or hyphens, and is not ANET. */
  lemma SymbolIs(s: string)
    ensures ValidSymbol(s) <==>
            && 1 <= |s| <= 16 && s != "ANET"
            && forall i :: 0 <= i < |s| ==>
                             var n := s[i] as int; 65 <= n <= 90 || 48 <= n <= 57 || n == 95 || n == 45
  {
  }

  predicate MayTrade(d: Dex, a: Address) {
    a in d.accounts && (a in d.funded || d.accounts[a].sessions >= 1_000)
  }

  /** `acct` after paying `ants` and gaining `units` of a token; paid ants come off the activated remainder. */
  function Settled(acct: Account, paid: int, symbol: string, units: int): Account
    requires 0 <= acct.ants - paid <= 0xFFFF_FFFF_FFFF_FFFF
    requires 0 <= Asset(acct, symbol) + units <= 0xFFFF_FFFF_FFFF_FFFF
  {
    acct.(
    ants := acct.ants - paid,
    activated := if paid <= 0 then acct.activated else if acct.activated < paid then 0 else acct.activated - paid,
    assets := acct.assets[symbol := Asset(acct, symbol) + units])
  }

  // --- wrapping ----------------------------------------------------------------------

  lemma WrapTerms(d: Dex, a: Address, x: u64)
    ensures Wrap(d, a, x).Success? <==>
            && x > 0 && MayTrade(d, a) && d.accounts[a].ants >= x
            && Asset(d.accounts[a], "WANET") + x <= 0xFFFF_FFFF_FFFF_FFFF
    ensures Wrap(d, a, x).Success? ==>
              Wrap(d, a, x).value == d.(accounts := d.accounts[a := Settled(d.accounts[a], x, "WANET", x)])
  {
  }

  lemma UnwrapTerms(d: Dex, a: Address, x: u64)
    ensures Unwrap(d, a, x).Success? <==>
            && x > 0 && MayTrade(d, a) && Asset(d.accounts[a], "WANET") >= x
            && d.accounts[a].ants + x <= 0xFFFF_FFFF_FFFF_FFFF
    ensures Unwrap(d, a, x).Success? ==>
              Unwrap(d, a, x).value == d.(accounts := d.accounts[a := Settled(d.accounts[a], 0 - x, "WANET", 0 - x)])
  {
  }

  // --- pools -----------------------------------------------------------------------

  predicate CanDeposit(d: Dex, a: Address, symbol: string, anet: u64, token: u64) {
    MayTrade(d, a) && d.accounts[a].ants >= anet && Asset(d.accounts[a], symbol) >= token
  }

  lemma DepositTerms(d: Dex, a: Address, symbol: string, anet: u64, token: u64)
    ensures Deposit(d, a, symbol, anet, token).Success? <==> CanDeposit(d, a, symbol, anet, token)
    ensures CanDeposit(d, a, symbol, anet, token) ==>
              Deposit(d, a, symbol, anet, token).value == Settled(d.accounts[a], anet, symbol, 0 - token)
  {
  }

  /** Main result: a pool is created if and only if the symbol is proper and new, both deposits are
      positive, the provider may trade and owns them and the fee is at most 300 basis points; the
      fee is 30 when none is named. The provider pays both deposits and gets the rounded-down
      root of their product in units. */
  lemma CreateTerms(d: Dex, a: Address, symbol: string, anet: u64, token: u64, fee: Option<nat>, lp: nat)
    requires lp * lp <= anet * token < (lp + 1) * (lp + 1)
    ensures
      var r, bps := CreatePool(d, a, symbol, anet, token, fee), if fee.Some? then fee.value else 30;
      && (r.Success? <==>
            && ValidSymbol(symbol) && symbol !in d.pools && anet > 0 && token > 0
            && CanDeposit(d, a, symbol, anet, token) && bps <= 300)
      && (r.Success? ==>
            r.value == d.(
            accounts := d.accounts[a := Settled(d.accounts[a], anet, symbol, 0 - token)],
            pools := d.pools[symbol := Pool(anet, token, lp, bps, map[a := lp])]))
  {
    DepositTerms(d, a, symbol, anet, token);
    if anet > 0 && token > 0 {
      InitialLpBounds(anet, token);
      FloorSqrtUnique(anet * token, lp, Root(anet * token));
    }
  }

  /** The amount of token that matches `anet`, and the units it mints. */
  predicate Matches(p: Pool, anet: nat, required: nat, minted: nat) {
    Floor(required, anet * p.token, p.anet) && Floor(minted, anet * p.totalLp, p.anet)
  }

  lemma MintTerms(p: Pool, anet: nat, token: nat, required: nat, minted: nat)
    requires p.anet > 0 && Matches(p, anet, required, minted)
    ensures
      var r, max := MintedLp(p, anet, token), 0xFFFF_FFFF_FFFF_FFFF_FFFF_FFFF_FFFF_FFFF;
      && (r.Success? <==>
            && anet * p.token <= max && anet * p.totalLp <= max && minted > 0
            && required <= token + 1 && token <= required + 1)
      && (r.Success? ==> r.value == minted)
  {
    FloorIs(required, anet * p.token, p.anet);
    FloorIs(minted, anet * p.totalLp, p.anet);
  }

  /** Main result: a deposit is accepted if and only if the symbol and amounts are proper, the pool
      exists, the token amount is within one unit of what matches the ANET amount, at least one
      unit is minted, the provider may trade and owns both amounts, and nothing leaves 128 bits.
      It mints the provider's share of the units, rounded down, and adds both amounts. */
  lemma AddTerms(d: Dex, a: Address, symbol: string, anet: u64, token: u64, required: nat, minted: nat)
    requires symbol in d.pools && d.pools[symbol].anet > 0 && Matches(d.pools[symbol], anet, required, minted)
    ensures
      var r, p, max := AddLiquidity(d, a, symbol, anet, token), d.pools[symbol],
          0xFFFF_FFFF_FFFF_FFFF_FFFF_FFFF_FFFF_FFFF;
      && (r.Success? <==>
            && ValidSymbol(symbol) && anet > 0 && token > 0
            && required <= token + 1 && token <= required + 1 && minted > 0
            && CanDeposit(d, a, symbol, anet, token)
            && anet * p.token <= max && anet * p.totalLp <= max
            && p.anet + anet <= max && p.token + token <= max && p.totalLp + minted <= max)
      && (r.Success? ==>
            var held := if a in p.positions then p.positions[a] else 0;
            r.value == d.(
            accounts := d.accounts[a := Settled(d.accounts[a], anet, symbol, 0 - token)],
            pools := d.pools[symbol := Pool(p.anet + anet, p.token + token, p.totalLp + minted, p.fee,
              p.positions[a := held + minted])]))
  {
    DepositTerms(d, a, symbol, anet, token);
    MintTerms(d.pools[symbol], anet, token, required, minted);
  }

  lemma NoPoolNoDeposit(d: Dex, a: Address, symbol: string, anet: u64, token: u64)
    ensures symbol !in d.pools || d.pools[symbol].anet == 0 ==> AddLiquidity(d, a, symbol, anet, token).Failure?
  {
  }

  // --- swaps -----------------------------------------------------------------------

  /** What a trade needs besides its quote. */
  predicate CanSwap(d: Dex, a: Address, symbol: string, amount: u64, out: nat, anetToToken: bool, height: u64,
                    deadline: Option<u64>) {
    && (deadline.None? || height <= deadline.value)
    && ValidSymbol(symbol) && amount > 0 && symbol in d.pools && MayTrade(d, a)
    && if anetToToken then
         d.accounts[a].ants >= amount && Asset(d.accounts[a], symbol) + out <= 0xFFFF_FFFF_FFFF_FFFF
       else
         Asset(d.accounts[a], symbol) >= amount && d.accounts[a].ants + out <= 0xFFFF_FFFF_FFFF_FFFF
  }

  lemma ExchangeTerms(acct: Account, symbol: string, amount: u64, out: nat, anetToToken: bool)
    ensures Exchange(acct, symbol, amount, out, anetToToken).Success? <==>
            if anetToToken then acct.ants >= amount && Asset(acct, symbol) + out <= 0xFFFF_FFFF_FFFF_FFFF
            else Asset(acct, symbol) >= amount && acct.ants + out <= 0xFFFF_FFFF_FFFF_FFFF
    ensures Exchange(acct, symbol, amount, out, anetToToken).Success? ==>
              Exchange(acct, symbol, amount, out, anetToToken).value ==
              if anetToToken then Settled(acct, amount, symbol, out) else Settled(acct, 0 - out, symbol, 0 - amount)
  {
  }

  /** The pool after a trade, in both directions. */
  function Traded(p: Pool, amount: nat, out: nat, anetToToken: bool): Pool
    requires out <= if anetToToken then p.token else p.anet
  {
    if anetToToken then Pool(p.anet + amount, p.token - out, p.totalLp, p.fee, p.positions)
    else Pool(p.anet - out, p.token + amount, p.totalLp, p.fee, p.positions)
  }

  lemma PoolTerms(p: Pool, amount: u64, anetToToken: bool, minOut: u64)
    requires PoolOk(p) && SwapQuote(p, amount, anetToToken).Success?
    ensures
      var out := SwapQuote(p, amount, anetToToken).value.amountOut;
      var max := 0xFFFF_FFFF_FFFF_FFFF_FFFF_FFFF_FFFF_FFFF;
      && out < (if anetToToken then p.token else p.anet)
      && var q := Traded(p, amount, out, anetToToken);
        && (PoolProblem(p, amount, out, anetToToken, minOut).None? <==>
              out >= minOut && p.anet * p.token <= max && q.anet <= max && q.token <= max && q.anet * q.token <= max)
        && Swapped(p, amount, out, anetToToken) == q
  {
    SwappedPool(p, amount, anetToToken);
  }

  /** What a pool quotes for a trade in one direction. */
  function QuoteFor(p: Pool, amount: nat, anetToToken: bool): Result<Quote, QuoteError> {
    if anetToToken then QuoteAmountOut(p.anet, p.token, amount, p.fee)
    else QuoteAmountOut(p.token, p.anet, amount, p.fee)
  }

  predicate PoolHolds(p: Pool, q: Pool) {
    var max := 0xFFFF_FFFF_FFFF_FFFF_FFFF_FFFF_FFFF_FFFF;
    p.anet * p.token <= max && q.anet <= max && q.token <= max && q.anet * q.token <= max
  }

  /** Main result: in sound pools a trade succeeds if and only if it is in time, symbol and amount are proper, the
      pool exists and quotes at least the least output, the trader may trade and can pay and hold
      the output, and the reserves and their products fit 128 bits. */
  lemma SwapSucceedsIff(d: Dex, a: Address, symbol: string, amount: u64, anetToToken: bool, minOut: u64, height: u64,
                        deadline: Option<u64>)
    requires DexOk(d) && symbol in d.pools
    ensures
      var r, p := Swap(d, a, symbol, amount, anetToToken, minOut, height, deadline), d.pools[symbol];
      var quote := QuoteFor(p, amount, anetToToken);
      if quote.Failure? then r.Failure?
      else
        var out := quote.value.amountOut;
        && out < (if anetToToken then p.token else p.anet)
        && (r.Success? <==>
              && CanSwap(d, a, symbol, amount, out, anetToToken, height, deadline)
              && out >= minOut && PoolHolds(p, Traded(p, amount, out, anetToToken)))
  {
    var p := d.pools[symbol];
    if QuoteFor(p, amount, anetToToken).Success? {
      PoolTerms(p, amount, anetToToken, minOut);
      if a in d.accounts {
        ExchangeTerms(d.accounts[a], symbol, amount, QuoteFor(p, amount, anetToToken).value.amountOut, anetToToken);
      }
    }
  }

  /** Main result: it then pays what is quoted for its direction, moves the whole input, fee included, into the
      pool, and changes nothing else. */
  lemma SwapTerms(d: Dex, a: Address, symbol: string, amount: u64, anetToToken: bool, minOut: u64, height: u64,
                  deadline: Option<u64>)
    requires DexOk(d) && symbol in d.pools && QuoteFor(d.pools[symbol], amount, anetToToken).Success?
    requires Swap(d, a, symbol, amount, anetToToken, minOut, height, deadline).Success?
    ensures
      var p, out := d.pools[symbol], QuoteFor(d.pools[symbol], amount, anetToToken).value.amountOut;
      && out < (if anetToToken then p.token else p.anet)
      && CanSwap(d, a, symbol, amount, out, anetToToken, height, deadline)
      && Swap(d, a, symbol, amount, anetToToken, minOut, height, deadline).value == d.(
         accounts := d.accounts[a := if anetToToken then Settled(d.accounts[a], amount, symbol, out)
                                     else Settled(d.accounts[a], 0 - out, symbol, 0 - amount)],
         pools := d.pools[symbol := Traded(p, amount, out, anetToToken)])
  {
    var p, out := d.pools[symbol], QuoteFor(d.pools[symbol], amount, anetToToken).value.amountOut;
    SwapSucceedsIff(d, a, symbol, amount, anetToToken, minOut, height, deadline);
    PoolTerms(p, amount, anetToToken, minOut);
    ExchangeTerms(d.accounts[a], symbol, amount, out, anetToToken);
  }
}
