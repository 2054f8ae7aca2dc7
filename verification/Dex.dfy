/** Pools, wrapping and liquidity positions (src/state.rs:1396-1832, 2108-2128, 2667-2703).

    Each operation is a function to the next state when it returns Ok. The code does not
    roll an account back when a later check fails; `DexErrors` says what an Err leaves behind. */
module Dex {
  import opened Wrappers
  import opened Ledger
  import opened DexMath
  import opened Sums
  import Solvency

  const DEFAULT_FEE_BPS := 30
  const WANET := "WANET"

  /** One pool, stored under its token's symbol; the other side is always ANET. */
  datatype Pool = Pool(anet: nat, token: nat, totalLp: nat, fee: nat, positions: map<Address, nat>)

  datatype Dex = Dex(accounts: Accounts, pools: map<string, Pool>, funded: set<Address>)

  datatype DexError =
    | BadSymbol
    | PoolExists
    | PoolNotFound
    | ZeroLiquidity
    | AccountNotFound
    | NotEligible
    | InsufficientAnet
    | InsufficientAsset
    | BalanceOverflow
    | ReserveOverflow
    | RatioMismatch
    | ContributionTooSmall
    | EmptyReserve
    | DeadlineExpired
    | SlippageExceeded
    | InvariantViolation
    | QuoteFailed(cause: QuoteError)

  predicate SymbolChar(c: char) {
    'A' <= c <= 'Z' || '0' <= c <= '9' || c == '_' || c == '-'
  }

  /** Results of `normalize_token_symbol`. */
  predicate ValidSymbol(s: string) {
    s != [] && s != "ANET" && |s| <= 16 && forall i :: 0 <= i < |s| ==> SymbolChar(s[i])
  }

  function Asset(acct: Account, symbol: string): u64 {
    if symbol in acct.assets then acct.assets[symbol] else 0
  }

  function DebitAnet(acct: Account, x: u64): Result<Account, DexError> {
    if acct.ants < x then Failure(InsufficientAnet) else Success(Spend(acct, x))
  }

  function CreditAnet(acct: Account, x: nat): Result<Account, DexError> {
    if acct.ants + x > U64_MAX then Failure(BalanceOverflow) else Success(Receive(acct, x))
  }

  function DebitAsset(acct: Account, symbol: string, x: u64): Result<Account, DexError> {
    if Asset(acct, symbol) < x then Failure(InsufficientAsset)
    else Success(acct.(assets := acct.assets[symbol := Asset(acct, symbol) - x]))
  }

  function CreditAsset(acct: Account, symbol: string, x: nat): Result<Account, DexError> {
    if Asset(acct, symbol) + x > U64_MAX then Failure(BalanceOverflow)
    else Success(acct.(assets := acct.assets[symbol := Asset(acct, symbol) + x]))
  }

  function EligibleAccount(d: Dex, a: Address): Result<Account, DexError> {
    if a !in d.accounts then Failure(AccountNotFound)
    else if a !in d.funded && d.accounts[a].sessions < MIN_SESSIONS_FOR_ANET then Failure(NotEligible)
    else Success(d.accounts[a])
  }

  /** Both debits of a liquidity deposit. */
  function Deposit(d: Dex, a: Address, symbol: string, anet: u64, token: u64): Result<Account, DexError> {
    var acct :- EligibleAccount(d, a);
    var paid :- DebitAnet(acct, anet);
    DebitAsset(paid, symbol, token)
  }

  ghost function CreatePool(d: Dex, provider: Address, symbol: string, anet: u64, token: u64,
                            fee: Option<nat>): Result<Dex, DexError> {
    if !ValidSymbol(symbol) then Failure(BadSymbol)
    else if symbol in d.pools then Failure(PoolExists)
    else if anet == 0 || token == 0 then Failure(ZeroLiquidity)
    else
      var acct :- Deposit(d, provider, symbol, anet, token);
      var bps := fee.GetOr(DEFAULT_FEE_BPS);
      var lp := InitialLp(anet, token);
      if bps > MAX_FEE_BPS then Failure(QuoteFailed(FeeTooHigh))
      else if lp.Failure? then Failure(QuoteFailed(lp.error))
      else
        Success(d.(
                accounts := d.accounts[provider := acct],
                pools := d.pools[symbol := Pool(anet, token, lp.value, bps, map[provider := lp.value])]))
  }

  function Wrap(d: Dex, wallet: Address, x: u64): Result<Dex, DexError> {
    if x == 0 then Failure(ZeroLiquidity)
    else
      var acct :- EligibleAccount(d, wallet);
      var paid :- DebitAnet(acct, x);
      var wrapped :- CreditAsset(paid, WANET, x);
      Success(d.(accounts := d.accounts[wallet := wrapped]))
  }

  function Unwrap(d: Dex, wallet: Address, x: u64): Result<Dex, DexError> {
    if x == 0 then Failure(ZeroLiquidity)
    else
      var acct :- EligibleAccount(d, wallet);
      var paid :- DebitAsset(acct, WANET, x);
      var unwrapped :- CreditAnet(paid, x);
      Success(d.(accounts := d.accounts[wallet := unwrapped]))
  }

  function AbsDiff(x: nat, y: nat): nat {
    if x < y then y - x else x - y
  }

  function Position(p: Pool, a: Address): nat {
    if a in p.positions then p.positions[a] else 0
  }

  /** The pool after an accepted deposit that mints `lp` units. */
  function Deepen(p: Pool, a: Address, anet: nat, token: nat, lp: nat): Pool {
    p.(anet := p.anet + anet, token := p.token + token, totalLp := p.totalLp + lp,
    positions := p.positions[a := Position(p, a) + lp])
  }

  /** The part of `total` that corresponds to `x` out of `reserve`, rounded down. */
  function Proportion(x: nat, reserve: nat, total: nat): nat
    requires reserve > 0
  {
    x * total / reserve
  }

  /** LP units minted for a deposit, or why the pool refuses it. */
  function MintedLp(p: Pool, anet: nat, token: nat): Result<nat, DexError> {
    if p.anet == 0 then Failure(EmptyReserve)
    else if anet * p.token > U128_MAX then Failure(ReserveOverflow)
    else if AbsDiff(Proportion(anet, p.anet, p.token), token) > 1 then Failure(RatioMismatch)
    else if anet * p.totalLp > U128_MAX then Failure(ReserveOverflow)
    else if Proportion(anet, p.anet, p.totalLp) == 0 then Failure(ContributionTooSmall)
    else Success(Proportion(anet, p.anet, p.totalLp))
  }

  function AddLiquidity(d: Dex, provider: Address, symbol: string, anet: u64, token: u64): Result<Dex, DexError> {
    if !ValidSymbol(symbol) then Failure(BadSymbol)
    else if anet == 0 || token == 0 then Failure(ZeroLiquidity)
    else if symbol !in d.pools then Failure(PoolNotFound)
    else
      var p := d.pools[symbol];
      var minted :- MintedLp(p, anet, token);
      var acct :- Deposit(d, provider, symbol, anet, token);
      if p.anet + anet > U128_MAX || p.token + token > U128_MAX || p.totalLp + minted > U128_MAX then
        Failure(ReserveOverflow)
      else
        Success(d.(
                accounts := d.accounts[provider := acct],
                pools := d.pools[symbol := Deepen(p, provider, anet, token, minted)]))
  }

  /** The trader's side of a swap. */
  function Exchange(acct: Account, symbol: string, amount: u64, out: nat,
                    anetToToken: bool): Result<Account, DexError> {
    if anetToToken then
      var paid :- DebitAnet(acct, amount);
      CreditAsset(paid, symbol, out)
    else
      var paid :- DebitAsset(acct, symbol, amount);
      CreditAnet(paid, out)
  }

  function Swapped(p: Pool, amount: nat, out: nat, anetToToken: bool): Pool
    requires out <= if anetToToken then p.token else p.anet
  {
    if anetToToken then p.(anet := p.anet + amount, token := p.token - out)
    else p.(token := p.token + amount, anet := p.anet - out)
  }

  function SwapQuote(p: Pool, amount: nat, anetToToken: bool): Result<Quote, QuoteError> {
    if anetToToken then QuoteAmountOut(p.anet, p.token, amount, p.fee)
    else QuoteAmountOut(p.token, p.anet, amount, p.fee)
  }

  /** Why a swap can still fail once the trader's account has changed. */
  function PoolProblem(p: Pool, amount: u64, out: nat, anetToToken: bool, minOut: u64): Option<DexError> {
    if out < minOut then Some(SlippageExceeded)
    else if p.anet * p.token > U128_MAX then Some(ReserveOverflow)
    else if out > (if anetToToken then p.token else p.anet) then Some(ReserveOverflow)
    else
      var next := Swapped(p, amount, out, anetToToken);
      if next.anet > U128_MAX || next.token > U128_MAX || next.anet * next.token > U128_MAX
      then Some(ReserveOverflow)
      else if next.anet * next.token < p.anet * p.token then Some(InvariantViolation)
      else None
  }

  function Swap(d: Dex, trader: Address, symbol: string, amount: u64, anetToToken: bool, minOut: u64, height: u64,
                deadline: Option<u64>): Result<Dex, DexError> {
    if deadline.Some? && height > deadline.value then Failure(DeadlineExpired)
    else if !ValidSymbol(symbol) then Failure(BadSymbol)
    else if amount == 0 then Failure(ZeroLiquidity)
    else if symbol !in d.pools then Failure(PoolNotFound)
    else
      var p := d.pools[symbol];
      var quote := SwapQuote(p, amount, anetToToken);
      if quote.Failure? then Failure(QuoteFailed(quote.error))
      else
        var out := quote.value.amountOut;
        var acct :- EligibleAccount(d, trader);
        var traded :- Exchange(acct, symbol, amount, out, anetToToken);
        var problem := PoolProblem(p, amount, out, anetToToken, minOut);
        if problem.Some? then Failure(problem.value)
        else
          Success(d.(
                  accounts := d.accounts[trader := traded],
                  pools := d.pools[symbol := Swapped(p, amount, out, anetToToken)]))
  }

  datatype Op =
    | Create(provider: Address, symbol: string, anet: u64, token: u64, fee: Option<nat>)
    | Add(provider: Address, symbol: string, anet: u64, token: u64)
    | SwapIn(trader: Address, symbol: string, amount: u64, anetToToken: bool, minOut: u64, height: u64,
      deadline: Option<u64>)
    | WrapAnet(wallet: Address, amount: u64)
    | UnwrapWanet(wallet: Address, amount: u64)

  ghost function Do(d: Dex, op: Op): Result<Dex, DexError> {
    match op
    case Create(a, s, x, t, fee) => CreatePool(d, a, s, x, t, fee)
    case Add(a, s, x, t) => AddLiquidity(d, a, s, x, t)
    case SwapIn(a, s, x, dir, minOut, h, deadline) => Swap(d, a, s, x, dir, minOut, h, deadline)
    case WrapAnet(a, x) => Wrap(d, a, x)
    case UnwrapWanet(a, x) => Unwrap(d, a, x)
  }

  ghost function DoAll(d: Dex, ops: seq<Op>): Result<Dex, DexError>
    decreases ops
  {
    if ops == [] then Success(d)
    else
      var next :- Do(d, ops[0]);
      DoAll(next, ops[1..])
  }

  // --- conserved quantities -------------------------------------------------

  ghost function Held(accounts: Accounts, symbol: string): map<Address, int> {
    map a | a in accounts :: Asset(accounts[a], symbol)
  }

  ghost function Reserves(pools: map<string, Pool>): map<string, int> {
    map s | s in pools :: pools[s].anet
  }

  function TokenReserve(d: Dex, symbol: string): nat {
    if symbol in d.pools then d.pools[symbol].token else 0
  }

  /** All units of a token: held by accounts or sitting in its pool. */
  ghost function TokenTotal(d: Dex, symbol: string): int {
    Sum(Held(d.accounts, symbol)) + TokenReserve(d, symbol)
  }

  /** All ANET: in accounts, in pools, or wrapped. */
  ghost function AnetTotal(d: Dex): int {
    Solvency.Supply(d.accounts) + Sum(Reserves(d.pools)) + TokenTotal(d, WANET)
  }

  ghost predicate SameTotals(d: Dex, e: Dex) {
    && AnetTotal(d) == AnetTotal(e)
    && forall s :: s != WANET ==> TokenTotal(d, s) == TokenTotal(e, s)
  }

  /** Pool operations keep the wrapped form by itself as well. */
  ghost predicate SameUnits(d: Dex, e: Dex) {
    AnetTotal(d) == AnetTotal(e) && forall s :: TokenTotal(d, s) == TokenTotal(e, s)
  }

  lemma AccountChange(d: Dex, a: Address, acct: Account)
    ensures Solvency.Supply(d.accounts[a := acct]) == Solvency.Supply(d.accounts) - Balance(d.accounts, a) + acct.ants
    ensures
      var after := d.accounts[a := acct];
      forall s :: Sum(Held(after, s)) == Sum(Held(d.accounts, s)) - Asset(Get(d.accounts, a), s) + Asset(acct, s)
  {
    Solvency.SupplyUpdate(d.accounts, a, acct);
    var after := d.accounts[a := acct];
    forall s ensures Sum(Held(after, s)) == Sum(Held(d.accounts, s)) - Asset(Get(d.accounts, a), s) + Asset(acct, s) {
      SumUpdate(Held(d.accounts, s), a, Asset(acct, s));
      assert Held(d.accounts[a := acct], s) == Held(d.accounts, s)[a := Asset(acct, s) as int];
    }
  }

  lemma PoolChange(pools: map<string, Pool>, symbol: string, p: Pool)
    ensures Sum(Reserves(pools[symbol := p])) ==
            Sum(Reserves(pools)) - (if symbol in pools then pools[symbol].anet else 0) + p.anet
  {
    SumUpdate(Reserves(pools), symbol, p.anet);
    assert Reserves(pools[symbol := p]) == Reserves(pools)[symbol := p.anet as int];
  }

  /** A step that moves value between one account and one pool, unit for unit. */
  lemma MoveKeepsTotals(d: Dex, a: Address, acct: Account, symbol: string, p: Pool)
    requires Balance(d.accounts, a) + (if symbol in d.pools then d.pools[symbol].anet else 0) == acct.ants + p.anet
    requires Asset(Get(d.accounts, a), symbol) + TokenReserve(d, symbol) == Asset(acct, symbol) + p.token
    requires forall s :: s != symbol ==> Asset(acct, s) == Asset(Get(d.accounts, a), s)
    ensures SameUnits(d, d.(accounts := d.accounts[a := acct], pools := d.pools[symbol := p]))
  {
    AccountChange(d, a, acct);
    PoolChange(d.pools, symbol, p);
    var e := d.(accounts := d.accounts[a := acct], pools := d.pools[symbol := p]);
    forall s ensures TokenTotal(d, s) == TokenTotal(e, s) {
      assert TokenReserve(e, s) == if s == symbol then p.token else TokenReserve(d, s);
    }
  }

  /** Wrapping moves value between the two forms of one account. */
  lemma WrappingKeepsTotals(d: Dex, a: Address, acct: Account)
    requires Balance(d.accounts, a) + Asset(Get(d.accounts, a), WANET) == acct.ants + Asset(acct, WANET)
    requires forall s :: s != WANET ==> Asset(acct, s) == Asset(Get(d.accounts, a), s)
    ensures SameTotals(d, d.(accounts := d.accounts[a := acct]))
  {
    AccountChange(d, a, acct);
  }

  // --- pool invariants ------------------------------------------------------

  ghost predicate PoolOk(p: Pool) {
    && 1 <= p.anet && 1 <= p.token && 1 <= p.totalLp <= U128_MAX
    && p.fee <= MAX_FEE_BPS
    && Sum(Shares(p)) == p.totalLp
  }

  ghost function Shares(p: Pool): map<Address, int> {
    map a | a in p.positions :: p.positions[a]
  }

  ghost predicate DexOk(d: Dex) {
    forall s :: s in d.pools ==> PoolOk(d.pools[s])
  }

  /** A pool only ever gains product; each kind of step says more in its own lemma. */
  ghost predicate ProductsKept(d: Dex, e: Dex) {
    forall s :: s in d.pools ==>
                  s in e.pools && d.pools[s].anet * d.pools[s].token <= e.pools[s].anet * e.pools[s].token
  }

  lemma DeepenKeepsShares(p: Pool, a: Address, anet: nat, token: nat, lp: nat)
    requires Sum(Shares(p)) == p.totalLp
    ensures Sum(Shares(Deepen(p, a, anet, token, lp))) == p.totalLp + lp
  {
    SumUpdate(Shares(p), a, Position(p, a) + lp);
    assert Shares(Deepen(p, a, anet, token, lp)) == Shares(p)[a := (Position(p, a) + lp) as int];
  }

  /** The unchecked `+=` on a position cannot overflow: no position exceeds the total. */
  lemma PositionWithinTotal(p: Pool, a: Address)
    requires PoolOk(p)
    ensures Position(p, a) <= p.totalLp <= U128_MAX
  {
    SumAtLeast(Shares(p), a);
  }

  lemma MintKeepsValuePerUnit(p: Pool, anet: nat, token: nat)
    requires p.anet > 0 && p.totalLp > 0 && MintedLp(p, anet, token).Success?
    ensures var m := MintedLp(p, anet, token).value;
      && (p.anet + anet) * p.totalLp >= p.anet * (p.totalLp + m)
      && (p.token + token) * p.totalLp + 2 * p.totalLp > p.token * (p.totalLp + m)
  {
    var A, T, L := p.anet, p.token, p.totalLp;
    var m, req := Proportion(anet, A, L), Proportion(anet, A, T);
    DivBounds(anet * L, A);
    DivBounds(anet * T, A);
    AnetPerUnit(A, L, anet, m);
    TokenShortfall(A, T, L, anet, token, m, req);
  }

  lemma AnetPerUnit(A: nat, L: nat, a: nat, m: nat)
    requires A * m <= a * L
    ensures (A + a) * L >= A * (L + m)
  {
    assert (A + a) * L == A * L + a * L && A * (L + m) == A * L + A * m;
  }

  /** Main result on additions: ANET per unit never falls, and the token reserve per unit
      falls short of keeping its ratio by less than two units of token in all. */
  lemma AdditionKeepsValuePerUnit(d: Dex, provider: Address, symbol: string, anet: u64, token: u64)
    requires DexOk(d) && AddLiquidity(d, provider, symbol, anet, token).Success?
    ensures
      var p, q := d.pools[symbol], AddLiquidity(d, provider, symbol, anet, token).value.pools[symbol];
      && q.anet * p.totalLp >= p.anet * q.totalLp
      && q.token * p.totalLp + 2 * p.totalLp > p.token * q.totalLp
  {
    var p := d.pools[symbol];
    assert PoolOk(p);
    MintKeepsValuePerUnit(p, anet, token);
    AddedPool(d, provider, symbol, anet, token);
  }

  lemma AddedPool(d: Dex, provider: Address, symbol: string, anet: u64, token: u64)
    requires AddLiquidity(d, provider, symbol, anet, token).Success?
    ensures symbol in d.pools && MintedLp(d.pools[symbol], anet, token).Success?
    ensures Deposit(d, provider, symbol, anet, token).Success?
    ensures
      var m := MintedLp(d.pools[symbol], anet, token).value;
      && d.pools[symbol].totalLp + m <= U128_MAX
      && AddLiquidity(d, provider, symbol, anet, token).value ==
         d.(accounts := d.accounts[provider := Deposit(d, provider, symbol, anet, token).value],
         pools := d.pools[symbol := Deepen(d.pools[symbol], provider, anet, token, m)])
  {
  }

  /** A * T * m <= a * T * L < A * (req + 1) * L <= A * (t + 2) * L. */
  lemma MintedAgainstToken(A: nat, T: nat, L: nat, a: nat, t: nat, m: nat, req: nat)
    requires A > 0 && L > 0 && A * m <= a * L && a * T < A * (req + 1) && req <= t + 1
    ensures T * m < L * (t + 2)
  {
    MulMono(T, A * m, a * L);
    MulStrict(L, a * T, A * (req + 1));
    MulMono(A * L, req + 1, t + 2);
    assert T * (a * L) == L * (a * T);
    assert L * (A * (req + 1)) == (A * L) * (req + 1);
    MulShuffle(T, A, m);
    assert (A * L) * (t + 2) == A * (L * (t + 2));
    if T * m >= L * (t + 2) {
      MulMono(A, L * (t + 2), T * m);
    }
  }

  lemma TokenShortfall(A: nat, T: nat, L: nat, a: nat, t: nat, m: nat, req: nat)
    requires A > 0 && L > 0 && A * m <= a * L && a * T < A * req + A && req <= t + 1
    ensures (T + t) * L + 2 * L > T * (L + m)
  {
    assert A * (req + 1) == A * req + A;
    MintedAgainstToken(A, T, L, a, t, m, req);
    assert (T + t) * L + 2 * L == T * L + L * (t + 2);
    assert T * (L + m) == T * L + T * m;
  }

  lemma PoolStepKeeps(d: Dex, a: Address, acct: Account, symbol: string, q: Pool)
    requires DexOk(d) && PoolOk(q)
    requires symbol in d.pools ==> d.pools[symbol].anet * d.pools[symbol].token <= q.anet * q.token
    requires Balance(d.accounts, a) + (if symbol in d.pools then d.pools[symbol].anet else 0) == acct.ants + q.anet
    requires Asset(Get(d.accounts, a), symbol) + TokenReserve(d, symbol) == Asset(acct, symbol) + q.token
    requires forall s :: s != symbol ==> Asset(acct, s) == Asset(Get(d.accounts, a), s)
    ensures var e := d.(accounts := d.accounts[a := acct], pools := d.pools[symbol := q]);
      DexOk(e) && ProductsKept(d, e) && SameUnits(d, e)
  {
    MoveKeepsTotals(d, a, acct, symbol, q);
  }

  lemma DepositTakes(d: Dex, a: Address, symbol: string, anet: u64, token: u64)
    requires Deposit(d, a, symbol, anet, token).Success?
    ensures var acct := Deposit(d, a, symbol, anet, token).value;
      && a in d.accounts
      && acct.ants == d.accounts[a].ants - anet
      && Asset(acct, symbol) == Asset(d.accounts[a], symbol) - token
      && forall s :: s != symbol ==> Asset(acct, s) == Asset(d.accounts[a], s)
  {
  }

  lemma CreateKeeps(d: Dex, provider: Address, symbol: string, anet: u64, token: u64, fee: Option<nat>)
    requires DexOk(d) && CreatePool(d, provider, symbol, anet, token, fee).Success?
    ensures var e := CreatePool(d, provider, symbol, anet, token, fee).value;
      DexOk(e) && ProductsKept(d, e) && SameUnits(d, e)
  {
    var e := CreatePool(d, provider, symbol, anet, token, fee).value;
    var p := e.pools[symbol];
    InitialLpBounds(anet, token);
    assert p.totalLp <= U64;
    SumUpdate(map[], provider, p.totalLp);
    assert Shares(p) == map[][provider := p.totalLp as int];
    DepositTakes(d, provider, symbol, anet, token);
    PoolStepKeeps(d, provider, e.accounts[provider], symbol, p);
  }

  lemma DeepenedPool(p: Pool, a: Address, anet: nat, token: nat, lp: nat)
    requires PoolOk(p) && p.totalLp + lp <= U128_MAX
    ensures PoolOk(Deepen(p, a, anet, token, lp))
    ensures p.anet * p.token <= (p.anet + anet) * (p.token + token)
  {
    DeepenKeepsShares(p, a, anet, token, lp);
    ProductMono(p.anet, p.anet + anet, p.token, p.token + token);
  }

  lemma AddKeeps(d: Dex, provider: Address, symbol: string, anet: u64, token: u64)
    requires DexOk(d) && AddLiquidity(d, provider, symbol, anet, token).Success?
    ensures var e := AddLiquidity(d, provider, symbol, anet, token).value;
      DexOk(e) && ProductsKept(d, e) && SameUnits(d, e)
  {
    AddedPool(d, provider, symbol, anet, token);
    var p, m := d.pools[symbol], MintedLp(d.pools[symbol], anet, token).value;
    assert PoolOk(p);
    DeepenedPool(p, provider, anet, token, m);
    DepositTakes(d, provider, symbol, anet, token);
    PoolStepKeeps(d, provider, Deposit(d, provider, symbol, anet, token).value, symbol,
      Deepen(p, provider, anet, token, m));
  }

  lemma ProductMono(a: nat, b: nat, x: nat, y: nat)
    requires a <= b && x <= y
    ensures a * x <= b * y
  {
    MulMono(a, x, y);
    MulMono(y, a, b);
  }

  lemma Commute(p: Pool, amount: nat, out: nat)
    requires out <= p.anet && (p.token + amount) * (p.anet - out) >= p.token * p.anet
    ensures p.anet * p.token <= (p.anet - out) * (p.token + amount)
  {
  }

  /** What an accepted quote does to the pool. */
  lemma SwappedPool(p: Pool, amount: nat, anetToToken: bool)
    requires PoolOk(p) && SwapQuote(p, amount, anetToToken).Success?
    ensures
      var out := SwapQuote(p, amount, anetToToken).value.amountOut;
      && out < (if anetToToken then p.token else p.anet)
      && PoolOk(Swapped(p, amount, out, anetToToken))
      && p.anet * p.token <= Swapped(p, amount, out, anetToToken).anet * Swapped(p, amount, out, anetToToken).token
  {
    if anetToToken {
      SwapKeepsProduct(p.anet, p.token, amount, p.fee);
    } else {
      SwapKeepsProduct(p.token, p.anet, amount, p.fee);
      Commute(p, amount, SwapQuote(p, amount, anetToToken).value.amountOut);
    }
    var out := SwapQuote(p, amount, anetToToken).value.amountOut;
    assert Shares(Swapped(p, amount, out, anetToToken)) == Shares(p);
  }

  /** Main result: with every pool in order, the code's own invariant check never fires. */
  lemma SwapNeverViolatesInvariant(d: Dex, trader: Address, symbol: string, amount: u64, anetToToken: bool,
                                   minOut: u64, height: u64, deadline: Option<u64>)
    requires DexOk(d)
    ensures Swap(d, trader, symbol, amount, anetToToken, minOut, height, deadline) != Failure(InvariantViolation)
  {
    if symbol in d.pools && SwapQuote(d.pools[symbol], amount, anetToToken).Success? {
      SwappedPool(d.pools[symbol], amount, anetToToken);
    }
  }

  lemma SwapKeeps(d: Dex, trader: Address, symbol: string, amount: u64, anetToToken: bool, minOut: u64, height: u64,
                  deadline: Option<u64>)
    requires DexOk(d) && Swap(d, trader, symbol, amount, anetToToken, minOut, height, deadline).Success?
    ensures var e := Swap(d, trader, symbol, amount, anetToToken, minOut, height, deadline).value;
      DexOk(e) && ProductsKept(d, e) && SameUnits(d, e)
  {
    var e := Swap(d, trader, symbol, amount, anetToToken, minOut, height, deadline).value;
    SwappedPool(d.pools[symbol], amount, anetToToken);
    PoolStepKeeps(d, trader, e.accounts[trader], symbol, e.pools[symbol]);
  }

  lemma OpKeeps(d: Dex, op: Op)
    requires DexOk(d) && Do(d, op).Success?
    ensures DexOk(Do(d, op).value) && ProductsKept(d, Do(d, op).value) && SameTotals(d, Do(d, op).value)
  {
    match op
    case Create(a, s, x, t, fee) => CreateKeeps(d, a, s, x, t, fee);
    case Add(a, s, x, t) => AddKeeps(d, a, s, x, t);
    case SwapIn(a, s, x, dir, minOut, h, deadline) => SwapKeeps(d, a, s, x, dir, minOut, h, deadline);
    case WrapAnet(a, x) => WrappingKeepsTotals(d, a, Wrap(d, a, x).value.accounts[a]);
    case UnwrapWanet(a, x) => WrappingKeepsTotals(d, a, Unwrap(d, a, x).value.accounts[a]);
  }

  /** Main result: over any run of Ok operations every pool keeps reserves of at least one
      unit and positions that add up to its total, no pool's product falls, and both the
      ANET total and every token's total are conserved. */
  lemma {:induction false} DexRunKeeps(d: Dex, ops: seq<Op>)
    requires DexOk(d) && DoAll(d, ops).Success?
    ensures DexOk(DoAll(d, ops).value) && ProductsKept(d, DoAll(d, ops).value) && SameTotals(d, DoAll(d, ops).value)
    decreases ops
  {
    if ops != [] {
      var next := Do(d, ops[0]).value;
      OpKeeps(d, ops[0]);
      DexRunKeeps(next, ops[1..]);
      var end := DoAll(d, ops).value;
      forall s | s in d.pools
        ensures s in end.pools && d.pools[s].anet * d.pools[s].token <= end.pools[s].anet * end.pools[s].token
      {
        assert s in next.pools;
      }
    }
  }

  /** Main result: a run that brings one reserve of a pool back to where it was or below
      leaves the other no lower. */
  lemma NoFreeLunch(d: Dex, ops: seq<Op>, symbol: string)
    requires DexOk(d) && DoAll(d, ops).Success? && symbol in d.pools
    ensures
      var end := DoAll(d, ops).value;
      && symbol in end.pools
      && (end.pools[symbol].anet <= d.pools[symbol].anet ==> end.pools[symbol].token >= d.pools[symbol].token)
      && (end.pools[symbol].token <= d.pools[symbol].token ==> end.pools[symbol].anet >= d.pools[symbol].anet)
  {
    DexRunKeeps(d, ops);
    var p, q := d.pools[symbol], DoAll(d, ops).value.pools[symbol];
    assert PoolOk(p) && PoolOk(q);
    if q.anet <= p.anet && q.token < p.token {
      MulMono(q.token, q.anet, p.anet);
      MulStrict(p.anet, q.token, p.token);
    }
    if q.token <= p.token && q.anet < p.anet {
      MulMono(q.anet, q.token, p.token);
      MulStrict(p.token, q.anet, p.anet);
    }
  }
}
