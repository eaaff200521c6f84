/**
 * The quote arithmetic of the swap service (src/services/swap-service.ts):
 * prices rounded towards the worse side, the affiliate gross-up of a buy
 * amount, the chain of gas figures, the response fields, the wrap and unwrap
 * quote and the decision logic of the gas-estimation simulation. The quoter,
 * the calldata encoder and every RPC call are parameters.
 */
module SwapService {
  import opened Wrappers
  import opened Numeric
  import opened Strings
  import opened Constants
  import opened Errors
  import opened NumberUtils
  import opened QuoteTypes
  import opened ObjectEntries
  import opened ServiceUtils
  import opened Config

  // ---------------------------------------------------------------------------
  // _getSwapQuotePrice
  // ---------------------------------------------------------------------------

  /** `Web3Wrapper.toUnitAmount(amount, decimals)`: base units to whole tokens. */
  function UnitAmount(amount: nat, decimals: nat): (u: real)
    ensures u >= 0.0
    ensures u * Pow10(decimals) == amount as real
  {
    amount as real / Pow10(decimals)
  }

  /** A BigNumber division; `None` is the Infinity or NaN a zero divisor gives. */
  function Quotient(a: real, b: real): (q: Option<real>)
    ensures q.Some? <==> b != 0.0
    ensures q.Some? ==> q.value * b == a
  {
    if b == 0.0 then None else Some(a / b)
  }

  /**
   * The unrounded price: bought tokens per sold token when selling, sold
   * tokens per bought token when buying, with the fee taken off the bought side.
   */
  function ExactPrice(selling: bool, makerUnits: real, takerUnits: real, feeUnits: real): Option<real>
  {
    if selling then Quotient(makerUnits - feeUnits, takerUnits) else Quotient(takerUnits, makerUnits - feeUnits)
  }

  /**
   * `rounded` is `exact` taken to `places` decimals towards the side that is worse
   * for the taker: down when selling, up when buying. The multiple of 10^-places
   * in that half-open interval is unique, so this determines `rounded`.
   */
  predicate RoundedTowardsWorse(rounded: Option<real>, exact: Option<real>, selling: bool, places: nat)
  {
    && (rounded.Some? <==> exact.Some?)
    && (exact.Some? ==>
          && HasPlaces(rounded.value, places)
          && (selling ==> rounded.value <= exact.value < rounded.value + 1.0 / Pow10(places))
          && (!selling ==> exact.value <= rounded.value < exact.value + 1.0 / Pow10(places)))
  }

  /** `decimalPlaces(places, ROUND_FLOOR)` when selling, `ROUND_CEIL` when buying. */
  function RoundPrice(exact: Option<real>, selling: bool, places: nat): (r: Option<real>)
    ensures RoundedTowardsWorse(r, exact, selling, places)
  {
    match exact
    case None => None
    case Some(x) =>
      FloorToBounds(x, places);
      CeilToBounds(x, places);
      Some(if selling then FloorTo(x, places) else CeilTo(x, places))
  }

  datatype QuotePrices = QuotePrices(price: Option<real>, guaranteedPrice: Option<real>)

  /** The fee in bought tokens: the rate applied to the worst-case bought amount. */
  function FeeUnits(quote: SwapQuote, buyTokenDecimals: nat, fee: AffiliateFee): real
  {
    UnitAmount(quote.worstCaseQuoteInfo.makerAmount, buyTokenDecimals) * fee.buyTokenPercentageFee
  }

  /**
   * `_getSwapQuotePrice`: the best-case and worst-case amounts in whole tokens,
   * less the fee, divided and rounded towards the worse price.
   */
  function GetSwapQuotePrice(buyAmount: Option<nat>, buyTokenDecimals: nat, sellTokenDecimals: nat,
                             quote: SwapQuote, fee: AffiliateFee): (r: QuotePrices)
    ensures var selling := buyAmount.None?;
      var places := if selling then buyTokenDecimals else sellTokenDecimals;
      var feeUnits := FeeUnits(quote, buyTokenDecimals, fee);
      && RoundedTowardsWorse(r.price, ExactPrice(selling, UnitAmount(quote.bestCaseQuoteInfo.makerAmount, buyTokenDecimals),
                                                  UnitAmount(quote.bestCaseQuoteInfo.totalTakerAmount, sellTokenDecimals), feeUnits),
                             selling, places)
      && RoundedTowardsWorse(r.guaranteedPrice, ExactPrice(selling, UnitAmount(quote.worstCaseQuoteInfo.makerAmount, buyTokenDecimals),
                                                            UnitAmount(quote.worstCaseQuoteInfo.totalTakerAmount, sellTokenDecimals), feeUnits),
                             selling, places)
  {
    var selling := buyAmount.None?;
    var places := if selling then buyTokenDecimals else sellTokenDecimals;
    var feeUnits := FeeUnits(quote, buyTokenDecimals, fee);
    QuotePrices(
      RoundPrice(ExactPrice(selling, UnitAmount(quote.bestCaseQuoteInfo.makerAmount, buyTokenDecimals),
                            UnitAmount(quote.bestCaseQuoteInfo.totalTakerAmount, sellTokenDecimals), feeUnits),
                 selling, places),
      RoundPrice(ExactPrice(selling, UnitAmount(quote.worstCaseQuoteInfo.makerAmount, buyTokenDecimals),
                            UnitAmount(quote.worstCaseQuoteInfo.totalTakerAmount, sellTokenDecimals), feeUnits),
                 selling, places))
  }

  /** Dividing less by more gives less. */
  lemma QuotientMonotone(a': real, a: real, b: real, b': real)
    requires 0.0 <= a' <= a && 0.0 < b <= b'
    ensures a' / b' <= a / b
  {
    DivMonotone(a', a, b');
    var x := a / b';
    var y := a / b;
    assert x * b' == a && y * b == a;
    if x > 0.0 {
      MulMonotone(b, b', x);
      DivMonotone(x * b, y * b, b);
      MulDivCancel(x, b);
      MulDivCancel(y, b);
    }
  }

  lemma UnitAmountMonotone(x: nat, y: nat, decimals: nat)
    requires x <= y
    ensures UnitAmount(x, decimals) <= UnitAmount(y, decimals)
  {
    DivMonotone(x as real, y as real, Pow10(decimals));
  }

  /**
   * When the worst case buys no more and sells no less than the best case, the
   * guaranteed price is never better for the taker than the quoted price: not
   * above it when selling, not below it when buying (where what remains of the
   * worst-case bought amount after the fee must be positive).
   */
  lemma GuaranteedPriceNoBetter(buyAmount: Option<nat>, buyTokenDecimals: nat, sellTokenDecimals: nat,
                                quote: SwapQuote, fee: AffiliateFee)
    requires quote.worstCaseQuoteInfo.makerAmount <= quote.bestCaseQuoteInfo.makerAmount
    requires quote.bestCaseQuoteInfo.totalTakerAmount <= quote.worstCaseQuoteInfo.totalTakerAmount
    requires quote.bestCaseQuoteInfo.totalTakerAmount > 0
    requires buyAmount.None? ==> FeeUnits(quote, buyTokenDecimals, fee) <= UnitAmount(quote.worstCaseQuoteInfo.makerAmount, buyTokenDecimals)
    requires buyAmount.Some? ==> FeeUnits(quote, buyTokenDecimals, fee) < UnitAmount(quote.worstCaseQuoteInfo.makerAmount, buyTokenDecimals)
    ensures var r := GetSwapQuotePrice(buyAmount, buyTokenDecimals, sellTokenDecimals, quote, fee);
      && r.price.Some? && r.guaranteedPrice.Some?
      && (buyAmount.None? ==> r.guaranteedPrice.value <= r.price.value)
      && (buyAmount.Some? ==> r.price.value <= r.guaranteedPrice.value)
  {
    var f := FeeUnits(quote, buyTokenDecimals, fee);
    var m := UnitAmount(quote.bestCaseQuoteInfo.makerAmount, buyTokenDecimals);
    var t := UnitAmount(quote.bestCaseQuoteInfo.totalTakerAmount, sellTokenDecimals);
    var gm := UnitAmount(quote.worstCaseQuoteInfo.makerAmount, buyTokenDecimals);
    var gt := UnitAmount(quote.worstCaseQuoteInfo.totalTakerAmount, sellTokenDecimals);
    UnitAmountMonotone(quote.worstCaseQuoteInfo.makerAmount, quote.bestCaseQuoteInfo.makerAmount, buyTokenDecimals);
    UnitAmountMonotone(quote.bestCaseQuoteInfo.totalTakerAmount, quote.worstCaseQuoteInfo.totalTakerAmount, sellTokenDecimals);
    assert t > 0.0 by {
      assert t * Pow10(sellTokenDecimals) == quote.bestCaseQuoteInfo.totalTakerAmount as real;
    }
    if buyAmount.None? {
      QuotientMonotone(gm - f, m - f, t, gt);
      FloorToMonotone((gm - f) / gt, (m - f) / t, buyTokenDecimals);
    } else {
      QuotientMonotone(t, gt, gm - f, m - f);
      CeilToMonotone(t / (m - f), gt / (gm - f), sellTokenDecimals);
    }
  }

  // ---------------------------------------------------------------------------
  // The amount asked of the quoter, and the quoter options
  // ---------------------------------------------------------------------------

  datatype MarketOperation = Sell | Buy

  /**
   * The side and amount of the quoter request: a sell amount is passed as it is;
   * a buy amount is grossed up by the fee rate and rounded down, so that what is
   * left after the fee is the amount asked for.
   */
  function QuoterAmount(sellAmount: Option<nat>, buyAmount: Option<nat>, pct: real): (r: (MarketOperation, nat))
    requires sellAmount.Some? || buyAmount.Some?
    requires pct >= 0.0
    ensures sellAmount.Some? ==> r == (Sell, sellAmount.value)
    ensures sellAmount.None? ==> r.0 == Buy && buyAmount.value as real * (pct + 1.0) - 1.0 < r.1 as real <= buyAmount.value as real * (pct + 1.0)
  {
    if sellAmount.Some? then (Sell, sellAmount.value)
    else
      var b := buyAmount.value as real;
      assert b * (pct + 1.0) >= 0.0;
      (Buy, (b * (pct + 1.0)).Floor)
  }

  /**
   * The fee taken from the grossed-up amount is exactly the gross-up: when the
   * quoter buys the amount it was asked for, the taker receives the amount the
   * request named.
   */
  lemma GrossUpNetsRequestedAmount(buyAmount: nat, pct: real)
    requires pct >= 0.0
    ensures var a := QuoterAmount(None, Some(buyAmount), pct).1;
      a >= buyAmount && a - FeeShare(a, pct) == buyAmount
  {
    var a := QuoterAmount(None, Some(buyAmount), pct).1;
    ShareOfGrossUp(a, buyAmount, pct);
  }

  /** The share of an amount within one unit below `b * (pct + 1)` is the amount less `b`. */
  lemma ShareOfGrossUp(a: nat, b: nat, pct: real)
    requires pct >= 0.0
    requires b as real * (pct + 1.0) - 1.0 < a as real <= b as real * (pct + 1.0)
    ensures a >= b && FeeShare(a, pct) == a - b
  {
    var p1 := pct + 1.0;
    var q := (a as real * pct) / p1;
    var w := a as real / p1;
    FeeShareExact(a, pct);
    RateSplit(a as real, pct);
    GrossUpBounds(a as real, b as real, p1);
    assert q == a as real - w;
    FloorBetween(q, a - b);
  }

  lemma FloorBetween(x: real, k: int)
    requires k as real <= x < k as real + 1.0
    ensures x.Floor == k
  {
  }

  /** Taking the rate's share out of `x` leaves `x / (pct + 1)`. */
  lemma RateSplit(x: real, pct: real)
    requires pct >= 0.0
    ensures x * pct / (pct + 1.0) == x - x / (pct + 1.0)
  {
    var p1 := pct + 1.0;
    var q := x * pct / p1;
    var w := x / p1;
    MulDivCancel(x * pct, p1);
    assert q * p1 == x * pct;
    assert w * p1 == x;
    assert (x - w) * p1 == x * p1 - w * p1;
    assert x * p1 == x * pct + x;
    DivideBack(q, x - w, p1);
  }

  /** An amount within one unit below `b * p1` is within one unit below `b` once divided by `p1 >= 1`. */
  lemma GrossUpBounds(a: real, b: real, p1: real)
    requires p1 >= 1.0 && b * p1 - 1.0 < a <= b * p1
    ensures b - 1.0 < a / p1 <= b
  {
    DivMonotone(a, b * p1, p1);
    MulDivCancel(b, p1);
    DivStrict(b * p1 - 1.0, a, p1);
    DivAdd(b * p1, -1.0, p1);
    DivMonotone(1.0, p1, p1);
  }

  /** Two values that give the same product with a positive factor are equal. */
  lemma DivideBack(x: real, y: real, p: real)
    requires p > 0.0 && x * p == y * p
    ensures x == y
  {
    if x < y {
      MulStrict(x, y, p);
    } else if y < x {
      MulStrict(y, x, p);
    }
  }

  /** The options the quoter is given: the chosen defaults, then the request's settings. */
  datatype QuoteRequestOpts = QuoteRequestOpts(
    vip: bool,                          // the fully featured exchange-proxy overhead, as opposed to the no-VIP one
    excludedSources: seq<string>,
    excludedFeeSources: seq<string>,
    bridgeSlippage: real,
    gasPrice: Option<nat>,
    includedSources: seq<string>,
    shouldIncludePriceComparisonsReport: bool)

  datatype SwapQuoteParams = SwapQuoteParams(
    takerAddress: Option<string>,
    sellAmount: Option<nat>,
    buyAmount: Option<nat>,
    buyToken: string,
    sellToken: string,
    slippagePercentage: real,
    gasPrice: Option<nat>,
    isMetaTransaction: bool,
    isETHSell: bool,
    isETHBuy: bool,
    excludedSources: seq<string>,
    includedSources: seq<string>,
    affiliateAddress: Option<string>,
    affiliateFee: AffiliateFee,
    includePriceComparisons: bool,
    skipValidation: bool,
    shouldSellEntireBalance: bool,
    isWrap: bool,
    isUnwrap: bool)

  /**
   * The VIP routes are given up for meta-transactions, for selling an entire
   * balance and for a percentage affiliate fee; a positive-slippage fee keeps them.
   */
  function UsesNoVipOptions(params: SwapQuoteParams): bool
  {
    params.isMetaTransaction || params.shouldSellEntireBalance || params.affiliateFee.feeType == PercentageFee
  }

  /**
   * `assetSwapperOpts`: the chain's default options (`ASSET_SWAPPER_MARKET_ORDERS_OPTS`
   * or its `_NO_VIP` variant) with the request's slippage, gas price and sources;
   * the request's excluded sources come after the chain's.
   */
  function AssetSwapperOpts(params: SwapQuoteParams, chainId: int, allSources: seq<string>): (opts: QuoteRequestOpts)
    ensures opts.vip <==> !UsesNoVipOptions(params)
    ensures opts.excludedSources == ExcludedSources(chainId, allSources) + params.excludedSources
    ensures forall s :: s in params.excludedSources ==> s in opts.excludedSources
  {
    QuoteRequestOpts(
      !UsesNoVipOptions(params),
      ExcludedSources(chainId, allSources) + params.excludedSources,
      ExcludedFeeSources(chainId),
      params.slippagePercentage,
      params.gasPrice,
      params.includedSources,
      params.includePriceComparisons)
  }

  /** The exchange-proxy overhead the quoter charges a route under these options. */
  function ExchangeProxyOverhead(opts: QuoteRequestOpts, b: SourceFlagBits, chainId: int, sourceFlags: SourceFlags): nat
  {
    if opts.vip then OverheadFullyFeatured(b, chainId, sourceFlags) else OverheadNoVip(sourceFlags)
  }

  /**
   * A request that gives up the VIP routes is charged the full transformer
   * overhead on every route, and no request is ever charged more than that.
   */
  lemma NoVipChargesFullOverhead(params: SwapQuoteParams, chainId: int, allSources: seq<string>,
                                 b: SourceFlagBits, sourceFlags: SourceFlags)
    ensures var opts := AssetSwapperOpts(params, chainId, allSources);
      && (UsesNoVipOptions(params) ==> ExchangeProxyOverhead(opts, b, chainId, sourceFlags) == FILL_QUOTE_TRANSFORMER_GAS_OVERHEAD)
      && (!UsesNoVipOptions(params) ==> ExchangeProxyOverhead(opts, b, chainId, sourceFlags) == OverheadFullyFeatured(b, chainId, sourceFlags))
      && ExchangeProxyOverhead(opts, b, chainId, sourceFlags) <= FILL_QUOTE_TRANSFORMER_GAS_OVERHEAD
  {
  }

  // ---------------------------------------------------------------------------
  // _estimateGasOrThrowRevertErrorAsync
  // ---------------------------------------------------------------------------

  /** An error an RPC call throws: its message and, for node-reported reverts, the revert data. */
  datatype RpcError = RpcError(message: string, data: Option<string>)

  /** What the simulation reports: whether the call succeeded, what it returned, the gas it used. */
  datatype CallResult = CallResult(success: bool, resultData: string, gasUsed: nat)

  datatype TxData = TxData(to: string, data: string, from: string, value: Option<nat>, gasPrice: nat)

  /**
   * The answers of the node and of the decoders for one transaction. Each RPC call
   * either answers or throws; the calls that are given arguments computed by the
   * service take them as parameters.
   */
  datatype SimulationEnv = SimulationEnv(
    chainId: int,
    estimateGas: Result<nat, RpcError>,                          // eth_estimateGas of the transaction
    ganacheCall: nat -> Result<string, RpcError>,                // eth_call with the given gas limit, on Ganache
    gasPrice: Result<nat, RpcError>,                             // eth_gasPrice
    fakeTakerCall: (nat, nat, nat) -> Result<CallResult, RpcError>, // the fake-taker call, given gas, gas price and balance
    decodeRevert: string -> Result<RevertError, string>,         // `RevertError.decode`; a failure holds the message it throws
    decodeThrown: RpcError -> Option<RevertError>,               // `decodeThrownErrorAsRevertError`; `None` when it throws
    callDataGas: nat)                                            // `calculateCallDataGas(txData.data)`

  /** The gas limit of the simulation off Ganache: the estimate with half again on top, or 350000. */
  function SimulationGas(estimate: Result<nat, RpcError>): (gas: nat)
    ensures estimate.Success? ==> 3 * estimate.value <= 2 * gas <= 3 * estimate.value + 1
    ensures estimate.Failure? ==> gas == 350000
  {
    match estimate
    case Success(e) =>
      var x := e as real * 1.5;
      var g := MathRound(x);
      assert x + 0.5 >= 0.0;
      assert g == (x + 0.5).Floor;
      assert g as real <= x + 0.5 < g as real + 1.0;
      g
    case Failure(_) => 350000
  }

  /**
   * The balance the fake taker is given: the transaction's value and its gas at
   * the given price, with a tenth on top, rounded down.
   */
  function FakeTakerBalance(value: nat, gasPrice: nat, gas: nat): (balance: nat)
    ensures var need := value + gasPrice * gas;
      10 * balance <= 11 * need < 10 * balance + 10
  {
    var need := value + gasPrice * gas;
    assert need >= 0;
    ((need as real) * 1.1).Floor
  }

  /** How the guarded part of the simulation ends: by a thrown error, or with a call result. */
  datatype SimulationRun =
    | Thrown(error: RpcError, partial: CallResult)
    | Completed(callResult: CallResult, ganacheRaw: Option<string>)

  /**
   * The guarded part. On Ganache the call result starts out successful, a failed
   * estimate marks it failed and the call runs with the default gas limit; a plain
   * `eth_call` gives the raw result and the gas limit stands for the gas used.
   * Elsewhere the fake taker is called with the simulation gas and a made-up balance.
   */
  function Simulate(tx: TxData, env: SimulationEnv): SimulationRun
  {
    var initial := CallResult(false, NULL_BYTES, 0);
    if env.chainId == GANACHE then
      var started := initial.(success := env.estimateGas.Success?);
      var gas := if env.estimateGas.Success? then env.estimateGas.value else DEFAULT_VALIDATION_GAS_LIMIT;
      match env.ganacheCall(gas)
      case Failure(e) => Thrown(e, started)
      case Success(raw) => Completed(started.(resultData := raw, gasUsed := gas), Some(raw))
    else
      var gas := SimulationGas(env.estimateGas);
      match env.gasPrice
      case Failure(e) => Thrown(e, initial)
      case Success(gasPrice) =>
        var value := if tx.value.Some? then tx.value.value else 0;
        match env.fakeTakerCall(gas, gasPrice, FakeTakerBalance(value, gasPrice, gas))
        case Failure(e) => Thrown(e, initial)
        case Success(callResult) => Completed(callResult, None)
  }

  /** A non-empty string, as JavaScript's truthiness sees it. */
  predicate Truthy(s: Option<string>)
  {
    s.Some? && s.value != ""
  }

  /** What the catch block makes of a thrown error: an error to throw, or nothing. */
  function ClassifyThrown(e: RpcError, env: SimulationEnv): Option<Error>
  {
    if Contains(e.message, "insufficient funds") then Some(InsufficientFundsError)
    else if Contains(e.message, "execution reverted") && Truthy(e.data) then
      match env.decodeRevert(e.data.value)
      case Success(revert) => Some(Revert(revert))
      case Failure(message) => Some(PlainError(message))
    else
      match env.decodeThrown(e)
      case Some(revert) => Some(Revert(revert))
      case None => None
  }

  /** The call result the rest of the function sees once the guarded part is over. */
  function FinalCallResult(run: SimulationRun): CallResult
  {
    match run
    case Thrown(_, partial) => partial
    case Completed(callResult, _) => callResult
  }

  /** A revert decoded from the Ganache raw result, or from the data of a failed call. */
  function DecodedRevert(run: SimulationRun, env: SimulationEnv): Option<RevertError>
  {
    var raw := if run.Completed? then run.ganacheRaw else None;
    var callResult := FinalCallResult(run);
    var decoded :=
      if Truthy(raw) then env.decodeRevert(raw.value)
      else if !callResult.success then env.decodeRevert(callResult.resultData)
      else Failure("");
    if decoded.Success? then Some(decoded.value) else None
  }

  /** `_estimateGasOrThrowRevertErrorAsync` as a decision table over the simulation's outcome. */
  function EstimateGasOutcome(tx: TxData, env: SimulationEnv): Result<nat, Error>
  {
    var run := Simulate(tx, env);
    if run.Thrown? && ClassifyThrown(run.error, env).Some? then Failure(ClassifyThrown(run.error, env).value)
    else if DecodedRevert(run, env).Some? then Failure(Revert(DecodedRevert(run, env).value))
    else if !FinalCallResult(run).success then Failure(GasEstimationError)
    else Success(FinalCallResult(run).gasUsed + env.callDataGas)
  }

  /**
   * `_estimateGasOrThrowRevertErrorAsync(txData)`: simulate the transaction, turn
   * what goes wrong into the most specific error available, and otherwise return
   * the gas the call used plus the gas of its calldata.
   */
  method EstimateGasOrThrowRevertError(tx: TxData, env: SimulationEnv) returns (r: Result<nat, Error>)
    ensures r == EstimateGasOutcome(tx, env)
  {
    var revertError: Option<RevertError> := None;
    var gasEstimate: nat := 0;
    var callResult := CallResult(false, NULL_BYTES, 0);
    var callResultGanacheRaw: Option<string> := None;
    var caught: Option<RpcError> := None;
    // try
    if env.chainId == GANACHE {
      callResult := callResult.(success := true);
      var gas: nat;
      if env.estimateGas.Success? {
        gas := env.estimateGas.value;
      } else {
        callResult := callResult.(success := false);
        gas := DEFAULT_VALIDATION_GAS_LIMIT;
      }
      var raw := env.ganacheCall(gas);
      if raw.Failure? {
        caught := Some(raw.error);
      } else {
        callResultGanacheRaw := Some(raw.value);
        callResult := callResult.(resultData := raw.value);
        callResult := callResult.(gasUsed := gas);
        gasEstimate := gas;
      }
    } else {
      var gas := SimulationGas(env.estimateGas);
      if env.gasPrice.Failure? {
        caught := Some(env.gasPrice.error);
      } else {
        var gasPrice := env.gasPrice.value;
        var value := if tx.value.Some? then tx.value.value else 0;
        var balance := FakeTakerBalance(value, gasPrice, gas);
        var call := env.fakeTakerCall(gas, gasPrice, balance);
        if call.Failure? {
          caught := Some(call.error);
        } else {
          callResult := call.value;
        }
      }
    }
    // catch (e)
    if caught.Some? {
      var e := caught.value;
      if Contains(e.message, "insufficient funds") {
        return Failure(InsufficientFundsError);
      }
      if Contains(e.message, "execution reverted") && Truthy(e.data) {
        var decoded := env.decodeRevert(e.data.value);
        if decoded.Failure? {
          return Failure(PlainError(decoded.error));
        }
        revertError := Some(decoded.value);
      } else {
        revertError := env.decodeThrown(e);
      }
      if revertError.Some? {
        return Failure(Revert(revertError.value));
      }
    }
    // try to decode a revert; a decoding failure leaves none
    if Truthy(callResultGanacheRaw) {
      var decoded := env.decodeRevert(callResultGanacheRaw.value);
      if decoded.Success? {
        revertError := Some(decoded.value);
      }
    } else if !callResult.success {
      var decoded := env.decodeRevert(callResult.resultData);
      if decoded.Success? {
        revertError := Some(decoded.value);
      }
    }
    if revertError.Some? {
      return Failure(Revert(revertError.value));
    }
    gasEstimate := callResult.gasUsed + env.callDataGas;
    if !callResult.success {
      return Failure(GasEstimationError);
    }
    return Success(gasEstimate);
  }

  /**
   * An error message that mentions insufficient funds is answered with
   * `InsufficientFundsError` before any decoding is tried.
   */
  lemma InsufficientFundsFirst(tx: TxData, env: SimulationEnv)
    requires Simulate(tx, env).Thrown? && Contains(Simulate(tx, env).error.message, "insufficient funds")
    ensures EstimateGasOutcome(tx, env) == Failure(InsufficientFundsError)
  {
  }

  /**
   * A call that ran and failed is reported by its decoded revert when its data
   * decodes, and only otherwise as `GasEstimationError`.
   */
  lemma FailedCallClassification(tx: TxData, env: SimulationEnv)
    requires env.chainId != GANACHE
    requires Simulate(tx, env).Completed? && !Simulate(tx, env).callResult.success
    ensures var data := Simulate(tx, env).callResult.resultData;
      && (env.decodeRevert(data).Success? ==> EstimateGasOutcome(tx, env) == Failure(Revert(env.decodeRevert(data).value)))
      && (env.decodeRevert(data).Failure? ==> EstimateGasOutcome(tx, env) == Failure(GasEstimationError))
  {
  }

  /**
   * Off Ganache the fake taker is simulated with the estimate and half again (or
   * 350000) as its gas limit, and with a balance of the value and the gas cost
   * plus a tenth; a successful outcome is the gas the call used plus the calldata
   * gas, and it needs a successful call.
   */
  lemma SimulationInputs(tx: TxData, env: SimulationEnv)
    requires env.chainId != GANACHE && env.gasPrice.Success?
    ensures var gas := SimulationGas(env.estimateGas);
      var value := if tx.value.Some? then tx.value.value else 0;
      var call := env.fakeTakerCall(gas, env.gasPrice.value, FakeTakerBalance(value, env.gasPrice.value, gas));
      && (call.Success? ==> Simulate(tx, env) == Completed(call.value, None))
      && (call.Success? && EstimateGasOutcome(tx, env).Success? ==>
            call.value.success && EstimateGasOutcome(tx, env).value == call.value.gasUsed + env.callDataGas)
  {
  }

  /**
   * Whatever the simulation does, success means a successful call, and the
   * result is the gas that call used plus the calldata gas.
   */
  lemma EstimateSuccess(tx: TxData, env: SimulationEnv)
    ensures EstimateGasOutcome(tx, env).Success? ==>
              FinalCallResult(Simulate(tx, env)).success
              && EstimateGasOutcome(tx, env).value == FinalCallResult(Simulate(tx, env)).gasUsed + env.callDataGas
              && DecodedRevert(Simulate(tx, env), env).None?
  {
  }

  /**
   * On Ganache a call that throws after a successful estimate, with an error that
   * carries no revert, still yields a success: the gas used of the untouched
   * call result (zero) plus the calldata gas.
   */
  lemma GanacheThrownAfterEstimate(tx: TxData, env: SimulationEnv)
    requires env.chainId == GANACHE && env.estimateGas.Success?
    requires env.ganacheCall(env.estimateGas.value).Failure?
    requires ClassifyThrown(env.ganacheCall(env.estimateGas.value).error, env).None?
    ensures EstimateGasOutcome(tx, env) == Success(env.callDataGas)
  {
  }

  // ---------------------------------------------------------------------------
  // calculateSwapQuoteAsync
  // ---------------------------------------------------------------------------

  datatype QuoteRequest = QuoteRequest(buyToken: string, sellToken: string, amount: nat, side: MarketOperation, opts: QuoteRequestOpts)

  /** `AffiliateFeeAmount`: the fee options with the amounts worked out. */
  datatype AffiliateFeeAmount = AffiliateFeeAmount(recipient: string, feeType: AffiliateFeeType, buyTokenFeeAmount: nat, sellTokenFeeAmount: nat)

  datatype ExtensionOpts = ExtensionOpts(
    isFromETH: bool, isToETH: bool, isMetaTransaction: bool, shouldSellEntireBalance: bool, affiliateFee: AffiliateFeeAmount)

  /** What the quote consumer encodes: calldata, the ether to send, the target and a gas overhead. */
  datatype CalldataInfo = CalldataInfo(calldataHexString: string, ethAmount: nat, toAddress: string, gasOverhead: nat)

  datatype PartialTransaction = PartialTransaction(to: string, value: nat, data: string, gasOverhead: nat)

  /**
   * The service's surroundings: the chain and its tables, the quoter, the quote
   * consumer, the gas-price oracle, the wrapped-native contract's encoder, and
   * the clock, random draws and encoder `attributeCallData` reads.
   */
  datatype ServiceEnv = ServiceEnv(
    chainId: int,
    allSources: seq<string>,                                   // `Object.values(ERC20BridgeSource)`
    exchangeProxy: string,
    ethTokenAddress: string,
    wethDecimals: nat,
    nativeWrappedToken: string,                                // `NATIVE_FEE_TOKEN_BY_CHAIN_ID[CHAIN_ID]`
    feeRecipient: string,                                      // `FEE_RECIPIENT_ADDRESS`
    toPrecision: real -> real,                                 // `x.toPrecision(4)` read back as a number
    getSwapQuote: QuoteRequest -> Result<SwapQuote, Error>,
    getCalldata: (SwapQuote, ExtensionOpts) -> Result<CalldataInfo, Error>,
    gasPriceEstimate: Result<nat, Error>,
    depositData: string,                                       // `deposit()` encoded
    withdrawData: nat -> string,                               // `withdraw(amount)` encoded
    nowMs: nat,
    randoms: seq<real>,
    encodeAffiliate: AffiliateEncoder)
  {
    /**
     * The native-token placeholder is an address, the random draws are enough
     * for a unique id, and the quoter's breakdowns have their declared type.
     */
    ghost predicate Valid()
    {
      && TokenWord(ethTokenAddress).Success?
      && |randoms| >= 10 && (forall i :: 0 <= i < |randoms| ==> IsRandom(randoms[i]))
      && (forall req :: getSwapQuote(req).Success? ==> RecordsUnderMultiHop(getSwapQuote(req).value.sourceBreakdown))
    }
  }

  /** A request the service can quote: an amount on one side and a non-negative fee rate. */
  predicate QuotableParams(params: SwapQuoteParams)
  {
    (params.sellAmount.Some? || params.buyAmount.Some?) && params.affiliateFee.buyTokenPercentageFee >= 0.0
  }

  /** The quoter request `calculateSwapQuoteAsync` makes. */
  function QuoteRequestFor(params: SwapQuoteParams, env: ServiceEnv): QuoteRequest
    requires QuotableParams(params)
  {
    var (side, amount) := QuoterAmount(params.sellAmount, params.buyAmount, params.affiliateFee.buyTokenPercentageFee);
    QuoteRequest(params.buyToken, params.sellToken, amount, side, AssetSwapperOpts(params, env.chainId, env.allSources))
  }

  /**
   * `_getSwapQuotePartialTransactionAsync`: the consumer's encoding, with the
   * calldata repaired by `fixCallData`.
   */
  function PartialTransactionFor(quote: SwapQuote, params: SwapQuoteParams, fees: AffiliateFeeAmounts, env: ServiceEnv)
    : (r: Result<PartialTransaction, Error>)
    requires env.Valid()
    ensures var opts := ExtensionOpts(params.isETHSell, params.isETHBuy, params.isMetaTransaction, params.shouldSellEntireBalance,
                                      AffiliateFeeAmount(params.affiliateFee.recipient, params.affiliateFee.feeType,
                                                         fees.buyTokenFeeAmount, fees.sellTokenFeeAmount));
      var info := env.getCalldata(quote, opts);
      && (r.Success? <==> info.Success? && FixCallDataCaseFolded(info.value.calldataHexString, quote.takerToken, quote.makerToken, env.ethTokenAddress).Success?)
      && (r.Success? ==> r.value == PartialTransaction(info.value.toAddress, info.value.ethAmount,
                                                       FixCallDataCaseFolded(info.value.calldataHexString, quote.takerToken, quote.makerToken, env.ethTokenAddress).value,
                                                       info.value.gasOverhead))
  {
    var opts := ExtensionOpts(params.isETHSell, params.isETHBuy, params.isMetaTransaction, params.shouldSellEntireBalance,
                              AffiliateFeeAmount(params.affiliateFee.recipient, params.affiliateFee.feeType,
                                                 fees.buyTokenFeeAmount, fees.sellTokenFeeAmount));
    var info :- env.getCalldata(quote, opts);
    var fixedCallData :- FixCallDataCaseFolded(info.calldataHexString, quote.takerToken, quote.makerToken, env.ethTokenAddress);
    Success(PartialTransaction(info.toAddress, info.ethAmount, fixedCallData, info.gasOverhead))
  }

  /** The gas of the quote before simulation: the worst case, the fee transformer and any wrap or unwrap. */
  function ConservativeGas(worstCaseGas: nat, affiliateFeeGasCost: nat, isETHSell: bool, isETHBuy: bool, chainId: int): (g: nat)
    ensures g >= worstCaseGas + affiliateFeeGasCost
    ensures g == worstCaseGas + affiliateFeeGasCost + (if isETHSell then WrapEthGas(chainId) else 0)
                                                    + (if isETHBuy then UnwrapWethGas(chainId) else 0)
  {
    worstCaseGas + affiliateFeeGasCost + (if isETHSell then WrapEthGas(chainId) else 0) + (if isETHBuy then UnwrapWethGas(chainId) else 0)
  }

  /** `x.times(GAS_LIMIT_BUFFER_MULTIPLIER).integerValue()`: a fifth more, rounded half up. */
  function Buffered(x: nat): (r: nat)
    ensures x <= r && 12 * x <= 10 * r + 5 && 10 * r <= 12 * x + 5
  {
    RoundHalfUpBounds(x as real * GAS_LIMIT_BUFFER_MULTIPLIER);
    RoundHalfUp(x as real * GAS_LIMIT_BUFFER_MULTIPLIER)
  }

  /**
   * The estimated gas: the conservative figure, or the buffered simulation
   * result (overhead included) when that is larger.
   */
  function EstimatedGas(conservative: nat, simulated: Option<nat>): (g: nat)
  {
    match simulated
    case None => conservative
    case Some(s) => if Buffered(s) >= conservative then Buffered(s) else conservative
  }

  /** Some fill draws on native orders or on MultiBridge, whose gas cost varies. */
  predicate HasUndeterministicFills(orders: seq<Order>)
  {
    exists i, j :: 0 <= i < |orders| && 0 <= j < |orders[i].fills| && orders[i].fills[j].source in [NATIVE, MULTI_BRIDGE]
  }

  /** `gas`: the estimate times 1.2 for undeterministic fills and times 1 otherwise, rounded half up. */
  function WorstCaseGasEstimate(estimatedGas: nat, undeterministic: bool): nat
  {
    var x := estimatedGas as real * (if undeterministic then GAS_LIMIT_BUFFER_MULTIPLIER else 1.0);
    assert x >= 0.0;
    RoundHalfUp(x)
  }

  /**
   * The gas chain never goes down: the estimate is at least the conservative
   * figure and the buffered simulation, and the reported gas is at least the
   * estimate, equal to it without undeterministic fills and at most a fifth more.
   */
  lemma GasChain(conservative: nat, simulated: Option<nat>, undeterministic: bool)
    ensures var e := EstimatedGas(conservative, simulated);
      var g := WorstCaseGasEstimate(e, undeterministic);
      && e >= conservative
      && (simulated.None? ==> e == conservative)
      && (simulated.Some? ==> e >= Buffered(simulated.value) >= simulated.value)
      && (simulated.Some? ==> e == Buffered(simulated.value) || e == conservative)
      && e <= g && 10 * g <= 12 * e + 5
      && (!undeterministic ==> g == e)
      && (undeterministic ==> g == Buffered(e))
  {
    var e := EstimatedGas(conservative, simulated);
    if undeterministic {
      assert WorstCaseGasEstimate(e, undeterministic) == Buffered(e);
    } else {
      assert e as real * 1.0 == e as real;
    }
  }

  /** The ether the taker sends: the protocol fee, plus the sold amount when selling ether. */
  function ResponseValue(isETHSell: bool, quote: SwapQuote): (v: nat)
    ensures v >= quote.worstCaseQuoteInfo.protocolFeeInWeiAmount
    ensures v <= quote.worstCaseQuoteInfo.protocolFeeInWeiAmount + quote.worstCaseQuoteInfo.takerAmount
    ensures v == quote.worstCaseQuoteInfo.protocolFeeInWeiAmount + (if isETHSell then quote.worstCaseQuoteInfo.takerAmount else 0)
  {
    if isETHSell then quote.worstCaseQuoteInfo.protocolFeeInWeiAmount + quote.worstCaseQuoteInfo.takerAmount
    else quote.worstCaseQuoteInfo.protocolFeeInWeiAmount
  }

  /** A rate per ether in whole tokens: scaled by the decimals' difference from WETH, to `decimals` places half up. */
  function RatePerEth(rate: real, wethDecimals: nat, decimals: nat): real
  {
    HalfUpTo(rate * Pow10(wethDecimals - decimals), decimals)
  }

  datatype SwapQuoteResponse = SwapQuoteResponse(
    chainId: int,
    price: Option<real>,
    guaranteedPrice: Option<real>,
    to: string,
    data: string,
    value: nat,
    gas: nat,
    estimatedGas: nat,
    from: Option<string>,
    gasPrice: nat,
    protocolFee: nat,
    minimumProtocolFee: nat,
    buyTokenAddress: string,
    sellTokenAddress: string,
    buyAmount: int,
    sellAmount: nat,
    sources: seq<LiquiditySource>,
    orders: seq<Order>,
    allowanceTarget: string,
    sellTokenToEthRate: real,
    buyTokenToEthRate: real)

  /** The taker is simulated only when given and validation is not skipped. */
  predicate Validates(params: SwapQuoteParams)
  {
    Truthy(params.takerAddress) && !params.skipValidation
  }

  /**
   * The simulated gas with the consumer's overhead added: none when the taker
   * is not simulated, the revert or RPC error when the simulation fails.
   */
  function SimulatedGas(params: SwapQuoteParams, sim: SimulationEnv, quote: SwapQuote, ptx: PartialTransaction): Result<Option<nat>, Error>
  {
    if Validates(params) then
      var used :- EstimateGasOutcome(TxData(ptx.to, ptx.data, params.takerAddress.value, Some(ptx.value), quote.gasPrice), sim);
      Success(Some(used + ptx.gasOverhead))
    else Success(None)
  }

  /** The response `calculateSwapQuoteAsync` assembles once the gas is estimated. */
  function Response(params: SwapQuoteParams, env: ServiceEnv, quote: SwapQuote, fees: AffiliateFeeAmounts, ptx: PartialTransaction, estimatedGas: nat)
    : SwapQuoteResponse
    requires RecordsUnderMultiHop(quote.sourceBreakdown)
  {
    var prices := GetSwapQuotePrice(params.buyAmount, quote.makerTokenDecimals, quote.takerTokenDecimals, quote, params.affiliateFee);
    SwapQuoteResponse(
      env.chainId,
      prices.price,
      prices.guaranteedPrice,
      ptx.to,
      ptx.data,
      ResponseValue(params.isETHSell, quote),
      WorstCaseGasEstimate(estimatedGas, HasUndeterministicFills(quote.orders)),
      estimatedGas,
      params.takerAddress,
      quote.gasPrice,
      quote.worstCaseQuoteInfo.protocolFeeInWeiAmount,
      Min(quote.worstCaseQuoteInfo.protocolFeeInWeiAmount, quote.bestCaseQuoteInfo.protocolFeeInWeiAmount),
      if params.isETHBuy then env.ethTokenAddress else params.buyToken,
      if params.isETHSell then env.ethTokenAddress else params.sellToken,
      quote.bestCaseQuoteInfo.makerAmount - fees.buyTokenFeeAmount,
      quote.bestCaseQuoteInfo.totalTakerAmount,
      ConvertSourceBreakdownToArray(quote.sourceBreakdown, env.allSources, env.toPrecision),
      quote.orders,
      if params.isETHSell then NULL_ADDRESS else env.exchangeProxy,
      RatePerEth(quote.takerAmountPerEth, env.wethDecimals, quote.takerTokenDecimals),
      RatePerEth(quote.makerAmountPerEth, env.wethDecimals, quote.makerTokenDecimals))
  }

  /** `calculateSwapQuoteAsync(params)` as a function of its inputs. */
  function SwapQuoteOutcome(params: SwapQuoteParams, env: ServiceEnv, sim: SimulationEnv): Result<SwapQuoteResponse, Error>
    requires QuotableParams(params) && env.Valid()
  {
    var quote :- env.getSwapQuote(QuoteRequestFor(params, env));
    var fees := GetAffiliateFeeAmounts(quote, params.affiliateFee);
    var ptx :- PartialTransactionFor(quote, params, fees, env);
    var simulated :- SimulatedGas(params, sim, quote, ptx);
    var conservative := ConservativeGas(quote.worstCaseQuoteInfo.gas, fees.gasCost, params.isETHSell, params.isETHBuy, env.chainId);
    Success(Response(params, env, quote, fees, ptx, EstimatedGas(conservative, simulated)))
  }

  function Min(a: nat, b: nat): (m: nat)
    ensures m <= a && m <= b && (m == a || m == b)
  {
    if a <= b then a else b
  }

  /**
   * `calculateSwapQuoteAsync(params)`: quote, encode, estimate the gas (simulating
   * the transaction when there is a taker to simulate), and assemble the response.
   */
  method CalculateSwapQuote(params: SwapQuoteParams, env: ServiceEnv, sim: SimulationEnv) returns (r: Result<SwapQuoteResponse, Error>)
    requires QuotableParams(params) && env.Valid()
    ensures r == SwapQuoteOutcome(params, env, sim)
  {
    var opts := AssetSwapperOpts(params, env.chainId, env.allSources);
    var (marketSide, amount) := QuoterAmount(params.sellAmount, params.buyAmount, params.affiliateFee.buyTokenPercentageFee);
    var swapQuote := env.getSwapQuote(QuoteRequest(params.buyToken, params.sellToken, amount, marketSide, opts));
    if swapQuote.Failure? {
      return Failure(swapQuote.error);
    }
    var quote := swapQuote.value;
    var fees := GetAffiliateFeeAmounts(quote, params.affiliateFee);
    var partial := PartialTransactionFor(quote, params, fees, env);
    if partial.Failure? {
      return Failure(partial.error);
    }
    var ptx := partial.value;

    var conservativeBestCaseGasEstimate: nat := quote.worstCaseQuoteInfo.gas;
    conservativeBestCaseGasEstimate := conservativeBestCaseGasEstimate + fees.gasCost;
    conservativeBestCaseGasEstimate := conservativeBestCaseGasEstimate + (if params.isETHSell then WrapEthGas(env.chainId) else 0);
    conservativeBestCaseGasEstimate := conservativeBestCaseGasEstimate + (if params.isETHBuy then UnwrapWethGas(env.chainId) else 0);
    ghost var conservative := conservativeBestCaseGasEstimate;
    assert conservative == ConservativeGas(quote.worstCaseQuoteInfo.gas, fees.gasCost, params.isETHSell, params.isETHBuy, env.chainId);
    if Validates(params) {
      var estimate := EstimateGasOrThrowRevertError(TxData(ptx.to, ptx.data, params.takerAddress.value, Some(ptx.value), quote.gasPrice), sim);
      if estimate.Failure? {
        return Failure(estimate.error);
      }
      var estimateGasCallResult := estimate.value;
      estimateGasCallResult := estimateGasCallResult + ptx.gasOverhead;
      if Buffered(estimateGasCallResult) >= conservativeBestCaseGasEstimate {
        conservativeBestCaseGasEstimate := Buffered(estimateGasCallResult);
      }
      assert SimulatedGas(params, sim, quote, ptx) == Success(Some(estimateGasCallResult));
    }
    assert conservativeBestCaseGasEstimate == EstimatedGas(conservative, SimulatedGas(params, sim, quote, ptx).value);
    r := Success(Response(params, env, quote, fees, ptx, conservativeBestCaseGasEstimate));
  }

  /**
   * What a quote response promises: the gas figures never undercut the
   * conservative estimate, the value is the protocol fee plus, for an ether sell,
   * the most ether the quote may take, no allowance is needed for ether, and the
   * buy amount is the best case net of the buy-token fee.
   */
  lemma {:induction false} SwapQuoteResponseFacts(params: SwapQuoteParams, env: ServiceEnv, sim: SimulationEnv)
    requires QuotableParams(params) && env.Valid()
    requires env.getSwapQuote(QuoteRequestFor(params, env)).Success?
    ensures var quote := env.getSwapQuote(QuoteRequestFor(params, env)).value;
      var fees := GetAffiliateFeeAmounts(quote, params.affiliateFee);
      var r := SwapQuoteOutcome(params, env, sim);
      r.Success? ==>
        && r.value.estimatedGas >= quote.worstCaseQuoteInfo.gas + fees.gasCost
                                   + (if params.isETHSell then WrapEthGas(env.chainId) else 0)
                                   + (if params.isETHBuy then UnwrapWethGas(env.chainId) else 0)
        && r.value.gas >= r.value.estimatedGas
        && (!HasUndeterministicFills(quote.orders) ==> r.value.gas == r.value.estimatedGas)
        && (params.isETHSell ==> r.value.value == quote.worstCaseQuoteInfo.protocolFeeInWeiAmount + quote.worstCaseQuoteInfo.takerAmount)
        && (!params.isETHSell ==> r.value.value == quote.worstCaseQuoteInfo.protocolFeeInWeiAmount)
        && (params.isETHSell ==> r.value.allowanceTarget == NULL_ADDRESS)
        && (!params.isETHSell ==> r.value.allowanceTarget == env.exchangeProxy)
        && r.value.minimumProtocolFee <= r.value.protocolFee
        && r.value.minimumProtocolFee <= quote.bestCaseQuoteInfo.protocolFeeInWeiAmount
        && r.value.buyAmount == quote.bestCaseQuoteInfo.makerAmount - fees.buyTokenFeeAmount
        && (quote.worstCaseQuoteInfo.makerAmount <= quote.bestCaseQuoteInfo.makerAmount ==> r.value.buyAmount >= 0)
  {
    var quote := env.getSwapQuote(QuoteRequestFor(params, env)).value;
    var fees := GetAffiliateFeeAmounts(quote, params.affiliateFee);
    var r := SwapQuoteOutcome(params, env, sim);
    if r.Success? {
      var ptx := PartialTransactionFor(quote, params, fees, env).value;
      var simulated := SimulatedGas(params, sim, quote, ptx).value;
      var conservative := ConservativeGas(quote.worstCaseQuoteInfo.gas, fees.gasCost, params.isETHSell, params.isETHBuy, env.chainId);
      GasChain(conservative, simulated, HasUndeterministicFills(quote.orders));
      assert r.value == Response(params, env, quote, fees, ptx, EstimatedGas(conservative, simulated));
    }
  }

  /**
   * The transaction is simulated only for a given taker with validation on: a
   * quote and its encoding that succeed give a response otherwise, and with
   * simulation a failure is the simulation's error and a success covers the
   * buffered simulated gas.
   */
  lemma {:induction false} SimulationDecides(params: SwapQuoteParams, env: ServiceEnv, sim: SimulationEnv)
    requires QuotableParams(params) && env.Valid()
    requires env.getSwapQuote(QuoteRequestFor(params, env)).Success?
    requires var quote := env.getSwapQuote(QuoteRequestFor(params, env)).value;
      PartialTransactionFor(quote, params, GetAffiliateFeeAmounts(quote, params.affiliateFee), env).Success?
    ensures var quote := env.getSwapQuote(QuoteRequestFor(params, env)).value;
      var ptx := PartialTransactionFor(quote, params, GetAffiliateFeeAmounts(quote, params.affiliateFee), env).value;
      var r := SwapQuoteOutcome(params, env, sim);
      && (!Validates(params) ==> r.Success?)
      && (Validates(params) ==>
            var tx := TxData(ptx.to, ptx.data, params.takerAddress.value, Some(ptx.value), quote.gasPrice);
            && (r.Failure? <==> EstimateGasOutcome(tx, sim).Failure?)
            && (r.Failure? ==> r.error == EstimateGasOutcome(tx, sim).error)
            && (r.Success? ==> r.value.estimatedGas >= EstimateGasOutcome(tx, sim).value + ptx.gasOverhead))
  {
    var quote := env.getSwapQuote(QuoteRequestFor(params, env)).value;
    var fees := GetAffiliateFeeAmounts(quote, params.affiliateFee);
    var ptx := PartialTransactionFor(quote, params, fees, env).value;
    var simulated := SimulatedGas(params, sim, quote, ptx);
    if simulated.Success? {
      var conservative := ConservativeGas(quote.worstCaseQuoteInfo.gas, fees.gasCost, params.isETHSell, params.isETHBuy, env.chainId);
      GasChain(conservative, simulated.value, HasUndeterministicFills(quote.orders));
    }
  }

  /**
   * A buy request with a fee: when the quoter buys exactly the grossed-up amount
   * it was asked for, the response's buy amount is the amount the taker asked for.
   */
  lemma {:induction false} BuyAmountIsRequested(params: SwapQuoteParams, env: ServiceEnv, sim: SimulationEnv)
    requires QuotableParams(params) && env.Valid()
    requires params.sellAmount.None?
    requires env.getSwapQuote(QuoteRequestFor(params, env)).Success?
    requires var quote := env.getSwapQuote(QuoteRequestFor(params, env)).value;
      && quote.bestCaseQuoteInfo.makerAmount == QuoteRequestFor(params, env).amount
      && quote.worstCaseQuoteInfo.makerAmount == QuoteRequestFor(params, env).amount
    requires !TakesNoFee(params.affiliateFee)
    ensures var r := SwapQuoteOutcome(params, env, sim);
      r.Success? ==> r.value.buyAmount == params.buyAmount.value
  {
    var quote := env.getSwapQuote(QuoteRequestFor(params, env)).value;
    var fees := GetAffiliateFeeAmounts(quote, params.affiliateFee);
    GrossUpNetsRequestedAmount(params.buyAmount.value, params.affiliateFee.buyTokenPercentageFee);
    SwapQuoteResponseFacts(params, env, sim);
  }

  // ---------------------------------------------------------------------------
  // Wrapping and unwrapping the native token
  // ---------------------------------------------------------------------------

  /**
   * `_getSwapQuoteForNativeWrappedAsync(params, isUnwrap)`: a deposit or a
   * withdrawal on the wrapped native token at a price of one, with fixed gas.
   * A BigNumber is always truthy, so the buy amount wins whenever it is given.
   */
  function NativeWrappedQuote(params: SwapQuoteParams, isUnwrap: bool, env: ServiceEnv): (r: Result<SwapQuoteResponse, Error>)
    requires env.Valid()
    ensures (params.buyAmount.None? && params.sellAmount.None?) ==> r == Failure(PlainError("sellAmount or buyAmount required"))
    ensures r.Failure? && (params.buyAmount.Some? || params.sellAmount.Some?) ==>
              params.gasPrice.None? && env.gasPriceEstimate.Failure? && r == Failure(env.gasPriceEstimate.error)
    ensures r.Success? ==>
      var amount := if params.buyAmount.Some? then params.buyAmount.value else params.sellAmount.value;
      && r.value.price == Some(1.0) && r.value.guaranteedPrice == Some(1.0)
      && r.value.buyAmount == amount && r.value.sellAmount == amount
      && r.value.value == (if isUnwrap then 0 else amount)
      && r.value.gas == r.value.estimatedGas == (if isUnwrap then UnwrapQuoteGas(env.chainId) else WrapQuoteGas(env.chainId))
      && StartsWith(r.value.data, if isUnwrap then env.withdrawData(amount) else env.depositData)
      && (params.gasPrice.None? ==> env.gasPriceEstimate.Success?)
      && r.value.gasPrice == (if params.gasPrice.Some? then params.gasPrice.value else env.gasPriceEstimate.value)
      && r.value.protocolFee == 0 && r.value.minimumProtocolFee == 0
      && r.value.sources == [] && r.value.orders == []
      && r.value.allowanceTarget == NULL_ADDRESS
      && r.value.to == env.nativeWrappedToken
  {
    if params.buyAmount.None? && params.sellAmount.None? then Failure(PlainError("sellAmount or buyAmount required"))
    else
      var amount := if params.buyAmount.Some? then params.buyAmount.value else params.sellAmount.value;
      var data := if isUnwrap then env.withdrawData(amount) else env.depositData;
      var value := if isUnwrap then 0 else amount;
      var attributedCalldata := AttributeCallData(data, params.affiliateAddress, env.feeRecipient, env.nowMs, env.randoms, env.encodeAffiliate);
      var gasPrice :- if params.gasPrice.Some? then Success(params.gasPrice.value) else env.gasPriceEstimate;
      var gasEstimate := if isUnwrap then UnwrapQuoteGas(env.chainId) else WrapQuoteGas(env.chainId);
      Success(SwapQuoteResponse(
        env.chainId, Some(1.0), Some(1.0), env.nativeWrappedToken, attributedCalldata.affiliatedData, value,
        gasEstimate, gasEstimate, params.takerAddress, gasPrice, 0, 0, params.buyToken, params.sellToken,
        amount, amount, [], [], NULL_ADDRESS, 1.0, 1.0))
  }

  /** Wrapping sends the amount as ether; unwrapping sends none, and both trade one for one. */
  lemma WrapAndUnwrapValue(params: SwapQuoteParams, env: ServiceEnv)
    requires env.Valid()
    requires params.buyAmount.Some? || params.sellAmount.Some?
    requires params.gasPrice.Some? || env.gasPriceEstimate.Success?
    ensures var w := NativeWrappedQuote(params, false, env);
      var u := NativeWrappedQuote(params, true, env);
      && w.Success? && u.Success?
      && w.value.value == w.value.sellAmount == u.value.buyAmount && u.value.value == 0
  {
  }

  // ---------------------------------------------------------------------------
  // calculateMarketDepthAsync
  // ---------------------------------------------------------------------------

  datatype BucketedPriceDepth = BucketedPriceDepth(cumulative: real, price: real, bucket: int, bucketTotal: real)

  datatype CalculateMarketDepthParams = CalculateMarketDepthParams(
    buyToken: string, sellToken: string, sellAmount: nat, numSamples: Option<int>, sampleDistributionBase: real,
    excludedSources: Option<seq<string>>, includedSources: Option<seq<string>>)

  /** The options of the bid/ask liquidity request. */
  datatype DepthRequestOpts = DepthRequestOpts(
    numSamples: Option<int>, excludedSources: seq<string>, includedSources: Option<seq<string>>, sampleDistributionBase: real)

  /** One sampled fill of the order book: a source and its input and output amounts. */
  datatype DepthSample = DepthSample(source: string, input: nat, output: nat)

  datatype MarketDepth = MarketDepth(asks: seq<seq<DepthSample>>, bids: seq<seq<DepthSample>>, makerTokenDecimals: nat, takerTokenDecimals: nat)

  datatype TokenInfo = TokenInfo(tokenAddress: string, decimals: nat)

  datatype MarketDepthResponse = MarketDepthResponse(
    asks: seq<BucketedPriceDepth>, bids: seq<BucketedPriceDepth>, buyToken: TokenInfo, sellToken: TokenInfo)

  /** The liquidity request never samples MultiBridge or MultiHop, whatever the caller excludes. */
  function DepthRequestOptsFor(params: CalculateMarketDepthParams): (opts: DepthRequestOpts)
    ensures MULTI_BRIDGE in opts.excludedSources && MULTI_HOP in opts.excludedSources
    ensures params.excludedSources.Some? ==> forall s :: s in params.excludedSources.value ==> s in opts.excludedSources
    ensures |opts.excludedSources| == 2 + (if params.excludedSources.Some? then |params.excludedSources.value| else 0)
    ensures opts.numSamples == params.numSamples && opts.includedSources == params.includedSources
    ensures opts.sampleDistributionBase == params.sampleDistributionBase
  {
    var excluded := if params.excludedSources.Some? then params.excludedSources.value else [];
    DepthRequestOpts(params.numSamples, excluded + [MULTI_BRIDGE, MULTI_HOP], params.includedSources, params.sampleDistributionBase)
  }

  /** Prices in base units become prices in whole tokens: each is scaled by 10^(takerDecimals - makerDecimals). */
  function ScalePriceByDecimals(depth: seq<BucketedPriceDepth>, takerTokenDecimals: nat, makerTokenDecimals: nat)
    : (r: seq<BucketedPriceDepth>)
    ensures |r| == |depth|
    ensures forall i :: 0 <= i < |depth| ==>
      r[i].cumulative == depth[i].cumulative && r[i].bucket == depth[i].bucket && r[i].bucketTotal == depth[i].bucketTotal
    ensures forall i :: 0 <= i < |depth| ==> r[i].price == depth[i].price * Pow10(takerTokenDecimals as int - makerTokenDecimals)
  {
    var factor := Pow10(takerTokenDecimals as int - makerTokenDecimals);
    seq(|depth|, k requires 0 <= k < |depth| => depth[k].(price := depth[k].price * factor))
  }

  /**
   * The scaled price is the price in whole tokens: a bucket priced at
   * `makerAmount / takerAmount` in base units is priced at the same amounts
   * divided by 10^makerDecimals and 10^takerDecimals.
   */
  lemma ScalePriceToWholeTokens(depth: seq<BucketedPriceDepth>, t: nat, m: nat, i: nat, makerAmount: real, takerAmount: real)
    requires i < |depth| && takerAmount > 0.0
    requires depth[i].price == makerAmount / takerAmount
    ensures ScalePriceByDecimals(depth, t, m)[i].price == (makerAmount / Pow10(m)) / (takerAmount / Pow10(t))
  {
    Pow10Difference(t, m);
    RatioOfScaledAmounts(makerAmount, takerAmount, Pow10(m), Pow10(t), Pow10(t as int - m));
  }

  /** Scaling with the decimals swapped undoes the scaling. */
  lemma ScalePriceByDecimalsInverse(depth: seq<BucketedPriceDepth>, t: nat, m: nat)
    ensures ScalePriceByDecimals(ScalePriceByDecimals(depth, t, m), m, t) == depth
  {
    var a := Pow10(t as int - m);
    var b := Pow10(m as int - t);
    assert m as int - t == -(t as int - m);
    Pow10Inverse(t as int - m);
    var once := ScalePriceByDecimals(depth, t, m);
    var twice := ScalePriceByDecimals(once, m, t);
    forall i | 0 <= i < |depth|
      ensures twice[i] == depth[i]
    {
      var p := depth[i].price;
      assert once[i].price == p * a;
      assert p * a * b == p * (a * b);
    }
  }

  /** Scaling keeps the order of prices: a falling ask curve stays falling. */
  lemma ScalePriceByDecimalsOrder(depth: seq<BucketedPriceDepth>, t: nat, m: nat, i: nat, j: nat)
    requires i < |depth| && j < |depth| && depth[i].price <= depth[j].price
    ensures ScalePriceByDecimals(depth, t, m)[i].price <= ScalePriceByDecimals(depth, t, m)[j].price
  {
    MulMonotone(depth[i].price, depth[j].price, Pow10(t as int - m));
  }

  /** The depth curve builder: samples, side, number of buckets, distribution base, end slippage. */
  type DepthForSide = (seq<seq<DepthSample>>, MarketOperation, Option<int>, real, real) -> seq<BucketedPriceDepth>

  /** `numSamples * 2`, where a sample count that is not a number (`None`) stays one. */
  function Twice(n: Option<int>): (r: Option<int>)
    ensures r.Some? <==> n.Some?
    ensures r.Some? ==> r.value == n.value + n.value
  {
    if n.Some? then Some(n.value * 2) else None
  }

  /** End slippage of the depth chart, in percent. */
  const MAX_END_SLIPPAGE_PERCENTAGE: real := 20.0

  /**
   * `calculateMarketDepthAsync(params)`: sample both sides of the book, bucket
   * each into twice the requested number of samples, and scale the prices to
   * whole tokens. The sampler and the bucketing are parameters.
   */
  function CalculateMarketDepth(params: CalculateMarketDepthParams,
                                getBidAsk: (string, string, nat, DepthRequestOpts) -> Result<MarketDepth, Error>,
                                depthForSide: DepthForSide): (r: Result<MarketDepthResponse, Error>)
    ensures r.Success? <==> getBidAsk(params.buyToken, params.sellToken, params.sellAmount, DepthRequestOptsFor(params)).Success?
    ensures r.Success? ==>
      var md := getBidAsk(params.buyToken, params.sellToken, params.sellAmount, DepthRequestOptsFor(params)).value;
      && r.value.buyToken == TokenInfo(params.buyToken, md.makerTokenDecimals)
      && r.value.sellToken == TokenInfo(params.sellToken, md.takerTokenDecimals)
      && ScalePriceByDecimals(r.value.asks, md.makerTokenDecimals, md.takerTokenDecimals)
           == depthForSide(md.asks, Sell, Twice(params.numSamples), params.sampleDistributionBase, MAX_END_SLIPPAGE_PERCENTAGE)
      && ScalePriceByDecimals(r.value.bids, md.makerTokenDecimals, md.takerTokenDecimals)
           == depthForSide(md.bids, Buy, Twice(params.numSamples), params.sampleDistributionBase, MAX_END_SLIPPAGE_PERCENTAGE)
  {
    var md :- getBidAsk(params.buyToken, params.sellToken, params.sellAmount, DepthRequestOptsFor(params));
    var askDepth := depthForSide(md.asks, Sell, Twice(params.numSamples), params.sampleDistributionBase, MAX_END_SLIPPAGE_PERCENTAGE);
    var bidDepth := depthForSide(md.bids, Buy, Twice(params.numSamples), params.sampleDistributionBase, MAX_END_SLIPPAGE_PERCENTAGE);
    ScalePriceByDecimalsInverse(askDepth, md.takerTokenDecimals, md.makerTokenDecimals);
    ScalePriceByDecimalsInverse(bidDepth, md.takerTokenDecimals, md.makerTokenDecimals);
    Success(MarketDepthResponse(
      ScalePriceByDecimals(askDepth, md.takerTokenDecimals, md.makerTokenDecimals),
      ScalePriceByDecimals(bidDepth, md.takerTokenDecimals, md.makerTokenDecimals),
      TokenInfo(params.buyToken, md.makerTokenDecimals),
      TokenInfo(params.sellToken, md.takerTokenDecimals)))
  }
}
