/**
 * The HTTP handlers of the swap API (src/handlers/swap-handlers.ts): turning a
 * quote request's query into service parameters, the rules that reject a
 * request, the choice between wrapping, unwrapping and a real swap, the
 * translation of whatever the service throws into an API error, and the pair
 * check of the market-depth endpoint.
 */
module SwapHandlers {
  import opened Wrappers
  import opened Strings
  import opened Constants
  import opened Errors
  import opened QuoteTypes
  import opened SchemaUtils
  import opened Config
  import opened ServiceUtils
  import opened SwapService

  // ---------------------------------------------------------------------------
  // Messages
  // ---------------------------------------------------------------------------

  const SAME_TOKEN_REASON: string := "buyToken and sellToken must be different"
  const INVALID_TOKEN_COMBINATION_REASON: string := "Invalid token combination"
  const ALL_SOURCES_EXCLUDED_REASON: string := "Request excluded all sources"

  /** `ValidationErrorReasons.PercentageOutOfRange`. */
  const PERCENTAGE_OUT_OF_RANGE_REASON: string := "MUST_BE_LESS_THAN_OR_EQUAL_TO_ONE"

  /** `SwapQuoterError.InsufficientAssetLiquidity` and `SwapQuoterError.AssetUnavailable`. */
  const INSUFFICIENT_ASSET_LIQUIDITY: string := "INSUFFICIENT_ASSET_LIQUIDITY"
  const ASSET_UNAVAILABLE: string := "ASSET_UNAVAILABLE"
  const NO_OPTIMAL_PATH: string := "NO_OPTIMAL_PATH"

  // ---------------------------------------------------------------------------
  // parseSwapQuoteRequestParams
  // ---------------------------------------------------------------------------

  datatype Endpoint = Price | Quote

  /**
   * The query of `/swap/v1/quote` and `/swap/v1/price`: strings as they arrive,
   * `None` for an absent parameter. The amounts and the gas price are the
   * integers the schema admits, already read.
   */
  datatype QuoteQuery = QuoteQuery(
    takerAddress: Option<string>,
    affiliateAddress: Option<string>,
    sellToken: string,
    buyToken: string,
    sellAmount: Option<nat>,
    buyAmount: Option<nat>,
    gasPrice: Option<nat>,
    slippagePercentage: Option<string>,
    skipValidation: Option<string>,
    includePriceComparisons: Option<string>,
    shouldSellEntireBalance: Option<string>,
    excludedSources: Option<string>,
    includedSources: Option<string>,
    intentOnFilling: Option<string>)

  /** What `parseRequestForExcludedSources` decides. */
  datatype SourceSelection = SourceSelection(excludedSources: seq<string>, includedSources: seq<string>, nativeExclusivelyRFQT: bool)

  /**
   * The token metadata of the configured chain and the library parsers the
   * handlers call.
   */
  datatype TokenEnv = TokenEnv(
    isNative: string -> bool,                                 // `isNativeSymbolOrAddress(_, CHAIN_ID)`
    isNativeWrapped: string -> bool,                          // `isNativeWrappedSymbolOrAddress(_, CHAIN_ID)`
    nativeWrappedToken: string,                               // `NATIVE_FEE_TOKEN_BY_CHAIN_ID[CHAIN_ID]`
    nativeWrappedSymbol: string,                              // `NATIVE_WRAPPED_TOKEN_SYMBOL`
    findTokenAddressApi: (string, string) -> Result<string, Error>,   // `findTokenAddressOrThrowApiError(_, field, CHAIN_ID)`
    findTokenAddress: string -> Result<string, Error>,        // `findTokenAddressOrThrow(_, CHAIN_ID)`
    allSources: seq<string>,                                  // `Object.values(ERC20BridgeSource)`
    parseFloat: string -> real,                               // `parseFloat` on a numeric string
    parseSourceList: seq<string> -> seq<string>)              // `parseStringArrForERC20BridgeSources`

  /** The same reason and code reported on both token fields, `buyToken` first. */
  function BothTokenFields(code: ValidationErrorCode, reason: string): seq<ValidationErrorItem>
  {
    [ValidationErrorItem("buyToken", code, reason), ValidationErrorItem("sellToken", code, reason)]
  }

  /** Every liquidity source of the library is excluded. */
  predicate ExcludesAll(allSources: seq<string>, excluded: seq<string>)
  {
    forall s :: s in allSources ==> s in excluded
  }

  /** `x === 'true'` on an optional query string. */
  predicate IsTrue(x: Option<string>)
  {
    x == Some("true")
  }

  /** The address a token parameter resolves to: the wrapped token for the native one, then lower-cased. */
  function ResolvedToken(raw: string, field: string, tokens: TokenEnv): (r: Result<string, Error>)
    ensures r.Success? ==> IsLower(r.value)
    ensures r.Success? <==> tokens.findTokenAddressApi(if tokens.isNative(raw) then tokens.nativeWrappedToken else raw, field).Success?
  {
    var address :- tokens.findTokenAddressApi(if tokens.isNative(raw) then tokens.nativeWrappedToken else raw, field);
    Success(ToLower(address))
  }

  /** Selling the native token for its wrapped token. */
  predicate IsWrap(query: QuoteQuery, buyToken: string, tokens: TokenEnv)
  {
    tokens.isNative(query.sellToken) && tokens.isNativeWrapped(buyToken)
  }

  /** Selling the wrapped native token for the native token. */
  predicate IsUnwrap(query: QuoteQuery, sellToken: string, tokens: TokenEnv)
  {
    tokens.isNativeWrapped(sellToken) && tokens.isNative(query.buyToken)
  }

  /** The slippage asked for, 1% when absent. */
  function Slippage(query: QuoteQuery, tokens: TokenEnv): real
  {
    if query.slippagePercentage.None? then DEFAULT_QUOTE_SLIPPAGE_PERCENTAGE else tokens.parseFloat(query.slippagePercentage.value)
  }

  /**
   * `parseSwapQuoteRequestParams(req, endpoint)`: validate the query against the
   * schema, resolve the tokens, and reject a pair of one token that is neither a
   * wrap nor an unwrap, the null address on either side, a slippage above one,
   * and a request that excludes every source. The schema validator's errors, the
   * source parser and the parsed affiliate fee are parameters.
   */
  function ParseSwapQuoteRequestParams(query: QuoteQuery, endpoint: Endpoint, schemaErrors: seq<ErrorObject>, tokens: TokenEnv,
                                       parseSources: (QuoteQuery, Endpoint) -> Result<SourceSelection, Error>,
                                       affiliateFee: AffiliateFee): (r: Result<SwapQuoteParams, Error>)
    ensures schemaErrors != [] ==> r.Failure? && r.error == ValidateSchema(schemaErrors).error
    ensures r.Success? ==>
      && ResolvedToken(query.sellToken, "sellToken", tokens) == Success(r.value.sellToken)
      && ResolvedToken(query.buyToken, "buyToken", tokens) == Success(r.value.buyToken)
      && (r.value.isWrap <==> IsWrap(query, r.value.buyToken, tokens))
      && (r.value.isUnwrap <==> IsUnwrap(query, r.value.sellToken, tokens))
      && (r.value.isETHSell <==> tokens.isNative(query.sellToken))
      && (r.value.isETHBuy <==> tokens.isNative(query.buyToken))
      && (r.value.sellToken == r.value.buyToken ==> r.value.isWrap || r.value.isUnwrap)
      && r.value.sellToken != NULL_ADDRESS && r.value.buyToken != NULL_ADDRESS
      && r.value.slippagePercentage == Slippage(query, tokens) <= 1.0
      && (exists s :: s in tokens.allSources && s !in r.value.excludedSources)
      && (r.value.skipValidation <==> IsTrue(query.skipValidation))
      && (r.value.includePriceComparisons <==> IsTrue(query.includePriceComparisons))
      && (r.value.shouldSellEntireBalance <==> IsTrue(query.shouldSellEntireBalance))
      && !r.value.isMetaTransaction
      && r.value.sellAmount == query.sellAmount && r.value.buyAmount == query.buyAmount
      && r.value.affiliateFee == affiliateFee
      && parseSources(query, endpoint).Success?
      && r.value.excludedSources == parseSources(query, endpoint).value.excludedSources
      && r.value.includedSources == parseSources(query, endpoint).value.includedSources
      && r.value.takerAddress == query.takerAddress
      && r.value.gasPrice == query.gasPrice
      && r.value.affiliateAddress == query.affiliateAddress
  {
    var valid :- ValidateSchema(schemaErrors);
    var skipValidation := if query.skipValidation.None? then false else IsTrue(query.skipValidation);
    var includePriceComparisons := IsTrue(query.includePriceComparisons);
    var shouldSellEntireBalance := IsTrue(query.shouldSellEntireBalance);
    var isNativeSell := tokens.isNative(query.sellToken);
    var isNativeBuy := tokens.isNative(query.buyToken);
    var sellToken :- ResolvedToken(query.sellToken, "sellToken", tokens);
    var buyToken :- ResolvedToken(query.buyToken, "buyToken", tokens);
    var isWrap := isNativeSell && tokens.isNativeWrapped(buyToken);
    var isUnwrap := tokens.isNativeWrapped(sellToken) && isNativeBuy;
    if !isUnwrap && !isWrap && sellToken == buyToken then
      Failure(ValidationError(BothTokenFields(RequiredField, SAME_TOKEN_REASON)))
    else if sellToken == NULL_ADDRESS || buyToken == NULL_ADDRESS then
      Failure(ValidationError(BothTokenFields(FieldInvalid, INVALID_TOKEN_COMBINATION_REASON)))
    else
      var slippagePercentage := Slippage(query, tokens);
      if slippagePercentage > 1.0 then
        Failure(ValidationError([ValidationErrorItem("slippagePercentage", ValueOutOfRange, PERCENTAGE_OUT_OF_RANGE_REASON)]))
      else
        var sources :- parseSources(query, endpoint);
        if ExcludesAll(tokens.allSources, sources.excludedSources) then
          Failure(ValidationError([ValidationErrorItem("excludedSources", ValueOutOfRange, ALL_SOURCES_EXCLUDED_REASON)]))
        else
          Success(SwapQuoteParams(
            query.takerAddress, query.sellAmount, query.buyAmount, buyToken, sellToken, slippagePercentage, query.gasPrice,
            false, isNativeSell, isNativeBuy, sources.excludedSources, sources.includedSources, query.affiliateAddress,
            affiliateFee, includePriceComparisons, skipValidation, shouldSellEntireBalance, isWrap, isUnwrap))
  }

  /**
   * The token-pair rules: one token on both sides is rejected on both fields
   * unless the request wraps or unwraps, and otherwise the null address on
   * either side is rejected on both fields.
   */
  lemma {:induction false} TokenPairRules(query: QuoteQuery, endpoint: Endpoint, schemaErrors: seq<ErrorObject>, tokens: TokenEnv,
                                          parseSources: (QuoteQuery, Endpoint) -> Result<SourceSelection, Error>,
                                          affiliateFee: AffiliateFee)
    requires schemaErrors == []
    requires ResolvedToken(query.sellToken, "sellToken", tokens).Success?
    requires ResolvedToken(query.buyToken, "buyToken", tokens).Success?
    ensures var sell := ResolvedToken(query.sellToken, "sellToken", tokens).value;
      var buy := ResolvedToken(query.buyToken, "buyToken", tokens).value;
      var wraps := IsWrap(query, buy, tokens) || IsUnwrap(query, sell, tokens);
      var r := ParseSwapQuoteRequestParams(query, endpoint, schemaErrors, tokens, parseSources, affiliateFee);
      && (!wraps && sell == buy ==> r == Failure(ValidationError(BothTokenFields(RequiredField, SAME_TOKEN_REASON))))
      && ((wraps || sell != buy) && (sell == NULL_ADDRESS || buy == NULL_ADDRESS) ==>
            r == Failure(ValidationError(BothTokenFields(FieldInvalid, INVALID_TOKEN_COMBINATION_REASON))))
  {
    assert ValidateSchema(schemaErrors) == Success(());
  }

  /**
   * Once the tokens pass, a slippage above one is rejected and exactly one is
   * not; then a request that excludes every source is rejected.
   */
  lemma {:induction false} SlippageAndSourceRules(query: QuoteQuery, endpoint: Endpoint, schemaErrors: seq<ErrorObject>, tokens: TokenEnv,
                                                  parseSources: (QuoteQuery, Endpoint) -> Result<SourceSelection, Error>,
                                                  affiliateFee: AffiliateFee)
    requires schemaErrors == []
    requires ResolvedToken(query.sellToken, "sellToken", tokens).Success?
    requires ResolvedToken(query.buyToken, "buyToken", tokens).Success?
    requires var sell := ResolvedToken(query.sellToken, "sellToken", tokens).value;
      var buy := ResolvedToken(query.buyToken, "buyToken", tokens).value;
      && (IsWrap(query, buy, tokens) || IsUnwrap(query, sell, tokens) || sell != buy)
      && sell != NULL_ADDRESS && buy != NULL_ADDRESS
    ensures var r := ParseSwapQuoteRequestParams(query, endpoint, schemaErrors, tokens, parseSources, affiliateFee);
      && (Slippage(query, tokens) > 1.0 ==>
            r == Failure(ValidationError([ValidationErrorItem("slippagePercentage", ValueOutOfRange, PERCENTAGE_OUT_OF_RANGE_REASON)])))
      && (Slippage(query, tokens) <= 1.0 ==>
            && (parseSources(query, endpoint).Failure? ==> r == Failure(parseSources(query, endpoint).error))
            && (parseSources(query, endpoint).Success? ==>
                  (r.Failure? <==> ExcludesAll(tokens.allSources, parseSources(query, endpoint).value.excludedSources))))
  {
    assert ValidateSchema(schemaErrors) == Success(());
  }

  /** Without a slippage parameter the request asks for 1%, which is accepted. */
  lemma DefaultSlippageAccepted(query: QuoteQuery, tokens: TokenEnv)
    requires query.slippagePercentage.None?
    ensures Slippage(query, tokens) == 0.01 && Slippage(query, tokens) <= 1.0
  {
  }

  // ---------------------------------------------------------------------------
  // _getSwapQuoteAsync
  // ---------------------------------------------------------------------------

  /**
   * The message of a thrown library error; an argument check of the assertion
   * library starts with `Expected` and the variable's name.
   */
  function Message(e: Error): string
  {
    match e
    case PlainError(m) => m
    case AssertionError(v) => "Expected " + v
    case _ => ""
  }

  /**
   * The `catch` of `_getSwapQuoteAsync`: API errors pass, reverts are wrapped,
   * a liquidity shortage becomes a validation error on the amount that was
   * given, an unavailable asset one on `token`, and anything else an internal
   * server error.
   */
  function ReclassifyError(e: Error, sellAmountGiven: bool): (r: Error)
    ensures r.IsAPIError()
    ensures e.IsAPIError() ==> r == e
    ensures e.Revert? ==> r == RevertAPIError(e.revert)
    ensures !e.IsAPIError() && !e.Revert? ==>
      (r.ValidationError? <==>
        StartsWith(Message(e), INSUFFICIENT_ASSET_LIQUIDITY) || StartsWith(Message(e), NO_OPTIMAL_PATH) || StartsWith(Message(e), ASSET_UNAVAILABLE))
    ensures !e.IsAPIError() && !e.Revert? && (StartsWith(Message(e), INSUFFICIENT_ASSET_LIQUIDITY) || StartsWith(Message(e), NO_OPTIMAL_PATH)) ==>
      r == ValidationError([ValidationErrorItem(if sellAmountGiven then "sellAmount" else "buyAmount", ValueOutOfRange, INSUFFICIENT_ASSET_LIQUIDITY)])
    ensures !e.IsAPIError() && !e.Revert? && !StartsWith(Message(e), INSUFFICIENT_ASSET_LIQUIDITY) && !StartsWith(Message(e), NO_OPTIMAL_PATH)
              && StartsWith(Message(e), ASSET_UNAVAILABLE) ==>
      r == ValidationError([ValidationErrorItem("token", ValueOutOfRange, Message(e))])
    ensures !e.IsAPIError() && !e.Revert? && !StartsWith(Message(e), INSUFFICIENT_ASSET_LIQUIDITY) && !StartsWith(Message(e), NO_OPTIMAL_PATH)
              && !StartsWith(Message(e), ASSET_UNAVAILABLE) ==>
      r == InternalServerError(Message(e))
  {
    if e.IsAPIError() then e
    else if e.Revert? then RevertAPIError(e.revert)
    else
      var errorMessage := Message(e);
      if StartsWith(errorMessage, INSUFFICIENT_ASSET_LIQUIDITY) || StartsWith(errorMessage, NO_OPTIMAL_PATH) then
        ValidationError([ValidationErrorItem(if sellAmountGiven then "sellAmount" else "buyAmount", ValueOutOfRange, INSUFFICIENT_ASSET_LIQUIDITY)])
      else if StartsWith(errorMessage, ASSET_UNAVAILABLE) then
        ValidationError([ValidationErrorItem("token", ValueOutOfRange, errorMessage)])
      else InternalServerError(errorMessage)
  }

  /** Reclassifying twice changes nothing: what leaves the handler is already final. */
  lemma ReclassifyIdempotent(e: Error, sellAmountGiven: bool)
    ensures ReclassifyError(ReclassifyError(e, sellAmountGiven), sellAmountGiven) == ReclassifyError(e, sellAmountGiven)
  {
  }

  /** The messages the quoter throws for a liquidity shortage never reach the caller as internal errors. */
  lemma LiquidityShortageIsValidation(suffix: string, sellAmountGiven: bool)
    ensures var r := ReclassifyError(PlainError(INSUFFICIENT_ASSET_LIQUIDITY + suffix), sellAmountGiven);
      && r.ValidationError? && |r.items| == 1
      && r.items[0].field == (if sellAmountGiven then "sellAmount" else "buyAmount")
    ensures ReclassifyError(PlainError(NO_OPTIMAL_PATH + suffix), sellAmountGiven)
         == ReclassifyError(PlainError(INSUFFICIENT_ASSET_LIQUIDITY), sellAmountGiven)
  {
    assert StartsWith(INSUFFICIENT_ASSET_LIQUIDITY + suffix, INSUFFICIENT_ASSET_LIQUIDITY);
    assert StartsWith(NO_OPTIMAL_PATH + suffix, NO_OPTIMAL_PATH);
    assert StartsWith(INSUFFICIENT_ASSET_LIQUIDITY, INSUFFICIENT_ASSET_LIQUIDITY);
  }

  /** The quote before errors are reclassified: unwrap first, then wrap, then a real swap. */
  function DispatchQuote(params: SwapQuoteParams, env: ServiceEnv, sim: SimulationEnv): (r: Result<SwapQuoteResponse, Error>)
    requires env.Valid()
    requires !params.isUnwrap && !params.isWrap ==> QuotableParams(params)
    ensures params.isUnwrap ==> r == NativeWrappedQuote(params, true, env)
    ensures !params.isUnwrap && params.isWrap ==> r == NativeWrappedQuote(params, false, env)
    ensures !params.isUnwrap && !params.isWrap ==> r == SwapQuoteOutcome(params, env, sim)
  {
    if params.isUnwrap then NativeWrappedQuote(params, true, env)
    else if params.isWrap then NativeWrappedQuote(params, false, env)
    else SwapQuoteOutcome(params, env, sim)
  }

  /** `_getSwapQuoteAsync(params)`: the dispatched quote with its error reclassified. */
  function GetSwapQuote(params: SwapQuoteParams, env: ServiceEnv, sim: SimulationEnv): (r: Result<SwapQuoteResponse, Error>)
    requires env.Valid()
    requires !params.isUnwrap && !params.isWrap ==> QuotableParams(params)
    ensures r.Failure? ==> r.error.IsAPIError()
    ensures r.Success? <==> DispatchQuote(params, env, sim).Success?
    ensures r.Success? ==> r == DispatchQuote(params, env, sim)
    ensures r.Failure? ==> r.error == ReclassifyError(DispatchQuote(params, env, sim).error, params.sellAmount.Some?)
  {
    match DispatchQuote(params, env, sim)
    case Success(q) => Success(q)
    case Failure(e) => Failure(ReclassifyError(e, params.sellAmount.Some?))
  }

  /** An unwrap request without an amount is answered with an internal server error naming the missing amounts. */
  lemma UnwrapWithoutAmount(params: SwapQuoteParams, env: ServiceEnv, sim: SimulationEnv)
    requires env.Valid()
    requires params.isUnwrap && params.sellAmount.None? && params.buyAmount.None?
    ensures GetSwapQuote(params, env, sim) == Failure(InternalServerError("sellAmount or buyAmount required"))
  {
    var m := "sellAmount or buyAmount required";
    assert m[0] == 's';
    assert m[..|INSUFFICIENT_ASSET_LIQUIDITY|][0] != INSUFFICIENT_ASSET_LIQUIDITY[0];
    assert m[..|NO_OPTIMAL_PATH|][0] != NO_OPTIMAL_PATH[0];
    assert m[..|ASSET_UNAVAILABLE|][0] != ASSET_UNAVAILABLE[0];
  }

  // ---------------------------------------------------------------------------
  // getQuotePriceAsync
  // ---------------------------------------------------------------------------

  /** The fields of a quote the price endpoint answers with. */
  datatype PriceResponse = PriceResponse(
    chainId: int,
    price: Option<real>,
    value: nat,
    gasPrice: nat,
    gas: nat,
    estimatedGas: nat,
    protocolFee: nat,
    minimumProtocolFee: nat,
    buyTokenAddress: string,
    buyAmount: int,
    sellTokenAddress: string,
    sellAmount: nat,
    sources: seq<LiquiditySource>,
    allowanceTarget: string,
    sellTokenToEthRate: real,
    buyTokenToEthRate: real)

  function PriceOf(q: SwapQuoteResponse): PriceResponse
  {
    PriceResponse(q.chainId, q.price, q.value, q.gasPrice, q.gas, q.estimatedGas, q.protocolFee, q.minimumProtocolFee,
                  q.buyTokenAddress, q.buyAmount, q.sellTokenAddress, q.sellAmount, q.sources, q.allowanceTarget,
                  q.sellTokenToEthRate, q.buyTokenToEthRate)
  }

  /** `getQuotePriceAsync`: the quote with validation skipped, cut down to the price fields. */
  function GetQuotePrice(params: SwapQuoteParams, env: ServiceEnv, sim: SimulationEnv): (r: Result<PriceResponse, Error>)
    requires env.Valid()
    requires !params.isUnwrap && !params.isWrap ==> QuotableParams(params)
    ensures r.Failure? ==> r.error.IsAPIError()
  {
    var quote :- GetSwapQuote(params.(skipValidation := true), env, sim);
    Success(PriceOf(quote))
  }

  /**
   * The price endpoint never simulates the transaction: its answer does not
   * depend on the simulation, and a swap priced without failure of the quoter
   * or the encoder always gets an answer.
   */
  lemma {:induction false} PriceNeverSimulates(params: SwapQuoteParams, env: ServiceEnv, sim: SimulationEnv, other: SimulationEnv)
    requires env.Valid()
    requires !params.isUnwrap && !params.isWrap && QuotableParams(params)
    ensures GetQuotePrice(params, env, sim) == GetQuotePrice(params, env, other)
    ensures var p := params.(skipValidation := true);
      && env.getSwapQuote(QuoteRequestFor(p, env)).Success?
      && PartialTransactionFor(env.getSwapQuote(QuoteRequestFor(p, env)).value, p,
                               GetAffiliateFeeAmounts(env.getSwapQuote(QuoteRequestFor(p, env)).value, p.affiliateFee), env).Success?
      ==> GetQuotePrice(params, env, sim).Success?
  {
    var p := params.(skipValidation := true);
    assert !Validates(p);
    var req := QuoteRequestFor(p, env);
    if env.getSwapQuote(req).Success? {
      var quote := env.getSwapQuote(req).value;
      var fees := GetAffiliateFeeAmounts(quote, p.affiliateFee);
      var ptx := PartialTransactionFor(quote, p, fees, env);
      if ptx.Success? {
        assert SimulatedGas(p, sim, quote, ptx.value) == SimulatedGas(p, other, quote, ptx.value) == Success(None);
        SimulationDecides(p, env, sim);
      }
    }
  }

  // ---------------------------------------------------------------------------
  // getMarketDepthAsync
  // ---------------------------------------------------------------------------

  /** The query of `/swap/v1/depth`. */
  datatype DepthQuery = DepthQuery(
    buyToken: string,
    sellToken: string,
    sellAmount: nat,
    numSamples: Option<string>,
    sampleDistributionBase: Option<string>,
    excludedSources: Option<string>,
    includedSources: Option<string>)

  /** The native token stands for its wrapped token's symbol; anything else is kept. */
  function DepthSymbol(token: string, tokens: TokenEnv): (s: string)
    ensures tokens.isNative(token) ==> s == tokens.nativeWrappedSymbol
    ensures !tokens.isNative(token) ==> s == token
  {
    if tokens.isNative(token) then tokens.nativeWrappedSymbol else token
  }

  /** A present, non-empty query string (a JavaScript truthy string). */
  predicate Given(x: Option<string>)
  {
    x.Some? && x.value != ""
  }

  /** `split(',')` of a source list through the library's source parser, nothing when absent. */
  function SourceList(x: Option<string>, tokens: TokenEnv): seq<string>
  {
    if x.None? then [] else tokens.parseSourceList(Split(x.value, ','))
  }

  /** The market-depth request built from the query and the resolved token addresses. */
  function DepthParams(query: DepthQuery, buyToken: string, sellToken: string, tokens: TokenEnv): (p: CalculateMarketDepthParams)
    ensures !Given(query.numSamples) ==> p.numSamples == Some(MARKET_DEPTH_MAX_SAMPLES as int)
    ensures Given(query.numSamples) ==> p.numSamples == ParseIntAuto(query.numSamples.value)
    ensures !Given(query.sampleDistributionBase) ==> p.sampleDistributionBase == MARKET_DEPTH_DEFAULT_DISTRIBUTION
    ensures p.excludedSources.Some? && p.includedSources.Some?
    ensures query.excludedSources.None? ==> p.excludedSources == Some([])
    ensures query.includedSources.None? ==> p.includedSources == Some([])
    ensures query.excludedSources.Some? ==> p.excludedSources == Some(tokens.parseSourceList(Split(query.excludedSources.value, ',')))
    ensures query.includedSources.Some? ==> p.includedSources == Some(tokens.parseSourceList(Split(query.includedSources.value, ',')))
    ensures Given(query.sampleDistributionBase) ==> p.sampleDistributionBase == tokens.parseFloat(query.sampleDistributionBase.value)
    ensures p.buyToken == buyToken && p.sellToken == sellToken && p.sellAmount == query.sellAmount
  {
    CalculateMarketDepthParams(
      buyToken, sellToken, query.sellAmount,
      if Given(query.numSamples) then ParseIntAuto(query.numSamples.value) else Some(MARKET_DEPTH_MAX_SAMPLES as int),
      if Given(query.sampleDistributionBase) then tokens.parseFloat(query.sampleDistributionBase.value) else MARKET_DEPTH_DEFAULT_DISTRIBUTION,
      Some(SourceList(query.excludedSources, tokens)),
      Some(SourceList(query.includedSources, tokens)))
  }

  /** A sample count written in hex, as `0x10` or `-0x1f`, is read in base 16. */
  lemma DepthHexSamples(query: DepthQuery, buyToken: string, sellToken: string, tokens: TokenEnv, n: nat, negative: bool)
    requires query.numSamples == Some((if negative then "-" else "") + "0x" + NatToString(n, 16))
    ensures DepthParams(query, buyToken, sellToken, tokens).numSamples == Some(if negative then 0 - n as int else n)
  {
    var digits := NatToString(n, 16);
    var text := query.numSamples.value;
    assert digits + "" == digits;
    assert text == (if negative then "-" else "") + (['0', 'x'] + (digits + ""));
    ParseIntAutoHex(n, 'x', negative, "");
    assert Given(query.numSamples);
  }

  /**
   * `getMarketDepthAsync`: a pair that names one token, once the native token
   * stands for its wrapped symbol, is rejected on `buyToken`; otherwise the
   * symbols are resolved, buy token first, and the depth is computed.
   */
  function GetMarketDepth(query: DepthQuery, tokens: TokenEnv,
                          getBidAsk: (string, string, nat, DepthRequestOpts) -> Result<MarketDepth, Error>,
                          depthForSide: DepthForSide): (r: Result<MarketDepthResponse, Error>)
    ensures var buy := DepthSymbol(query.buyToken, tokens);
      var sell := DepthSymbol(query.sellToken, tokens);
      && (buy == sell ==> r == Failure(ValidationError([ValidationErrorItem("buyToken", InvalidAddress, "Invalid pair " + sell + "/" + buy)])))
      && (buy != sell && tokens.findTokenAddress(buy).Failure? ==> r == Failure(tokens.findTokenAddress(buy).error))
      && (buy != sell && tokens.findTokenAddress(buy).Success? && tokens.findTokenAddress(sell).Failure? ==>
            r == Failure(tokens.findTokenAddress(sell).error))
      && (buy != sell && tokens.findTokenAddress(buy).Success? && tokens.findTokenAddress(sell).Success? ==>
            r == CalculateMarketDepth(DepthParams(query, tokens.findTokenAddress(buy).value, tokens.findTokenAddress(sell).value, tokens),
                                      getBidAsk, depthForSide))
  {
    var buyTokenSymbolOrAddress := DepthSymbol(query.buyToken, tokens);
    var sellTokenSymbolOrAddress := DepthSymbol(query.sellToken, tokens);
    if buyTokenSymbolOrAddress == sellTokenSymbolOrAddress then
      Failure(ValidationError([ValidationErrorItem("buyToken", InvalidAddress,
                                                   "Invalid pair " + sellTokenSymbolOrAddress + "/" + buyTokenSymbolOrAddress)]))
    else
      var buyToken :- tokens.findTokenAddress(buyTokenSymbolOrAddress);
      var sellToken :- tokens.findTokenAddress(sellTokenSymbolOrAddress);
      CalculateMarketDepth(DepthParams(query, buyToken, sellToken, tokens), getBidAsk, depthForSide)
  }

  /** The native token against its wrapped symbol is one token: the pair is rejected. */
  lemma NativeAgainstWrappedRejected(query: DepthQuery, tokens: TokenEnv,
                                     getBidAsk: (string, string, nat, DepthRequestOpts) -> Result<MarketDepth, Error>,
                                     depthForSide: DepthForSide)
    requires tokens.isNative(query.buyToken) && query.sellToken == tokens.nativeWrappedSymbol
    ensures GetMarketDepth(query, tokens, getBidAsk, depthForSide).Failure?
    ensures GetMarketDepth(query, tokens, getBidAsk, depthForSide).error.ValidationError?
  {
  }
}
