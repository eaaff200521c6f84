# 0x swap API: quote assembly, calldata fixing and request validation in Dafny

This project models the decision and arithmetic core of the 0x swap API service
(`itsib/0x-swap-api`):

- **Quote arithmetic.** It turns a quote from the liquidity aggregator into the
  `/swap/v1/quote` response. That covers:
  - best and guaranteed price, rounded towards the worse side;
  - the buy amount grossed up for the affiliate fee;
  - the chain of gas figures;
  - value, allowance target and protocol fees;
  - the wrap/unwrap short cut;
  - market-depth price rescaling;
  - the decision logic of gas estimation by simulation
    (`src/services/swap-service.ts`).
- **Calldata and fee utilities.** `fixCallData` rewrites the PayTakerTransformer
  payload at the end of the calldata. The others are the affiliate trailer, the
  affiliate fee amounts, and the source breakdown merged over the chain's
  defaults (`src/utils/service-utils.ts`).
- **Configuration.** The chain-keyed gas and symbol tables and the excluded
  sources. Also the exchange-proxy gas overhead per route, and the string-level
  checks of environment variables (`src/config.ts`).
- **Request handling.** Request parsing and its rejection rules, dispatch
  between unwrap, wrap and a real quote, the reclassification of errors into
  API errors, the price endpoint, and the market-depth pair check
  (`src/handlers/swap-handlers.ts`).
- **Small helpers.** Schema-error classification, in-memory pagination, and
  random hex identifiers (`src/utils/*.ts`).

## How the model is built

- One module per source file:
  - `SwapService`, `ServiceUtils`, `Config`, `SwapHandlers`, `SchemaUtils`,
    `PaginationUtils`, `NumberUtils`;
  - shared types in `QuoteTypes`, `Errors` and `Constants`;
  - helper modules `Wrappers`, `Strings`, `Numeric` and `ObjectEntries`. The
    last models the key order of JavaScript objects under assignment and spread.
- **Thrown errors** become `Result` failures. The error taxonomy
  (`ValidationError`, `RevertAPIError`, `InternalServerError`,
  `InsufficientFundsError`, `GasEstimationError`, …) is a datatype.
- **Things the code reads from outside become parameters.** This covers:
  - the chain id, `ETH_TOKEN_ADDRESS`, `FEE_RECIPIENT_ADDRESS` and the
    `SOURCE_FLAGS` bits;
  - RPC answers, the quoter and calldata encoder, and token metadata look-ups;
  - the clock and `Math.random`.

  The service's dependencies are gathered in `SwapService.ServiceEnv`, and the
  simulation's RPC answers in `SwapService.SimulationEnv`.
- **Numbers.**
  - BigNumber amounts are `nat`. JavaScript numbers (fee percentage, slippage,
    random draws) are `real`.
  - `integerValue()`, `decimalPlaces(n, ROUND_FLOOR/ROUND_CEIL)` and
    `Math.round` are written out as floor, ceiling and half-up rounding.
- **Where the source changes local state step by step, the model is a method
  proved equal to a specification function.**
  - `calculateSwapQuoteAsync` reassigns its gas estimate and value. It is
    `SwapService.CalculateSwapQuote`, proved equal to
    `SwapService.SwapQuoteOutcome`.
  - `_estimateGasOrThrowRevertErrorAsync` updates `callResult`, `revertError` and
    `gasEstimate` across try/catch. It is
    `SwapService.EstimateGasOrThrowRevertError`, proved equal to
    `SwapService.EstimateGasOutcome`.
  - The loop of `randomHexNumberOfLength` is `NumberUtils.RandomHexNumberOfLength`,
    proved equal to `NumberUtils.HexDigits`.

## Model

| member | source | states |
|---|---|---|
| NumberUtils.RandomNumberInclusive | src/utils/number-utils.ts:6-10 | for a random draw in [0, 1), the result lies between ceil(min) and floor(max) inclusive whenever that range is non-empty |
| NumberUtils.RandomHexNumberOfLength | src/utils/number-utils.ts:17-24 | the loop appends one digit per iteration: the result has exactly ceil(numberLength) characters, is empty when numberLength <= 0, every character is a lower-case hex digit from '1' to 'f', and it equals the digits drawn from the first ceil(numberLength) random values |
| PaginationUtils.PaginateWindow | src/utils/pagination-utils.ts:11-18 | paginate's records are the input slice from (page-1)*perPage, cut at perPage items or the end of the input, and empty for a page past the end |
| PaginationUtils.PaginateEmptyPages | src/utils/pagination-utils.ts:11-18 | page 0 or perPage 0 gives no records (the slice end does not exceed its start) |
| PaginationUtils.PaginateNotANumber | src/utils/pagination-utils.ts:11-18 | a NaN page or perPage, as Number() gives for non-numeric text, makes both slice bounds NaN, so no records are returned and the NaN is echoed |
| PaginationUtils.PaginateInfinitePerPage | src/utils/pagination-utils.ts:11-18 | with perPage Infinity, page 1 starts at 0 * Infinity (NaN, read as 0) and returns every record; every later page starts at Infinity and is empty |
| PaginationUtils.JsSlice | src/utils/pagination-utils.ts:12 | Array.prototype.slice: NaN bounds read as 0, Infinity as the length and -Infinity as 0, finite ones truncated, counted from the end when negative and clamped; the result is the slice between the two, or empty when the end is not past the start |
| PaginationUtils.Times | src/utils/pagination-utils.ts:12 | IEEE multiplication of page numbers: exact for finite operands, NaN when either is NaN or when zero meets an infinity |
| PaginationUtils.Paginate | src/utils/pagination-utils.ts:11-18 | page and perPage are JavaScript numbers (NaN and the infinities included); total is the full input length, page and perPage are echoed, and at most the whole input is returned |
| PaginationUtils.PaginateSerialize | src/utils/pagination-utils.ts:20-27 | the page object carries the given records, total, page and perPage unchanged |
| PaginationUtils.ParsePaginationConfig | src/utils/pagination-utils.ts:29-42 | accepted iff perPage (default 20) is not above 1000; page defaults to 1 and perPage to 20; a rejection is one ValueOutOfRange item on 'perPage' |
| PaginationUtils.ParsePaginationDefaults | src/utils/pagination-utils.ts:30-40 | for every page value, an absent perPage is accepted at 20 records a page, with page 1 when page is absent too |
| PaginationUtils.ParsePaginationLimit | src/utils/pagination-utils.ts:32-40 | a finite perPage is accepted exactly when it is at most 1000 (so 1000 is accepted); NaN passes the comparison |
| SchemaUtils.CodeOf | src/utils/schema-utils.ts:14-59 | a keyword has an error code exactly when it is one of the structural, range, 'required' or 'not' keywords |
| SchemaUtils.KeywordGroupsDisjoint | src/utils/schema-utils.ts:14-44 | the structural keywords map to IncorrectFormat, the range keywords to ValueOutOfRange, and no keyword is in both groups |
| SchemaUtils.ToValidationErrorItem | src/utils/schema-utils.ts:13-60 | a known keyword converts to an item whose code is the keyword's code and whose reason is the message or ''; the field is missingProperty for 'required', else schemaPath with its first '.' removed; an unknown keyword fails with "Unknown schema validation error name: <keyword>" |
| SchemaUtils.MapErrorsSpec | src/utils/schema-utils.ts:67-69 | the map succeeds iff every keyword is known, and then converts item by item in order; otherwise it fails with the first unknown keyword's error |
| SchemaUtils.ValidateSchema | src/utils/schema-utils.ts:62-72 | returns normally iff the validator reports no errors |
| SchemaUtils.ValidateSchemaItems | src/utils/schema-utils.ts:62-72 | with errors whose keywords are all known, one ValidationError is thrown whose items match the errors one to one and in order |
| SchemaUtils.ValidateSchemaUnknown | src/utils/schema-utils.ts:62-72 | an unknown keyword makes validateSchema throw the conversion error of the first such keyword |
| ServiceUtils.HexZeroPad | src/utils/service-utils.ts:64-65 | a 0x-hex value of at most 32 bytes is left-padded to one 64-digit word that ends in the value's digits; anything else is an error |
| ServiceUtils.TokenWord | src/utils/service-utils.ts:64-65 | a token address becomes a lower-case 64-digit hex word, or an error when it is not hex or longer than a word |
| ServiceUtils.ExecCandidates | src/utils/service-utils.ts:66-69 | the left-to-right regex search equals the closed form with two candidate starts, the 10-word suffix with the native word tried first, then the 9-word suffix |
| ServiceUtils.FixCallData | src/utils/service-utils.ts:63-91 | fixCallData as written succeeds exactly when both token addresses pad to words |
| ServiceUtils.FixCallDataNoMatch | src/utils/service-utils.ts:69-72 | when the pay-taker pattern does not match at the end, the data is returned unchanged |
| ServiceUtils.FixCallDataMatch | src/utils/service-utils.ts:66-90 | a match ends the data (9 or 10 words long) with the maker or taker word as its token; the output is the rewrite at that start |
| ServiceUtils.FixAtLayout | src/utils/service-utils.ts:83-90 | the rewrite keeps everything before the match and then holds 11 words: 0x7, 0x40, data size 0x100, 0x20, 0x40, middle size 0xc0, count 3, three token words and a zero word |
| ServiceUtils.FixAtTokens | src/utils/service-utils.ts:76-81 | the token array is [matched token, the taker word if the matched token equals the maker word else the maker word, the native-token word] |
| ServiceUtils.FixAtTokenListLowerCase | src/utils/service-utils.ts:76-81 | when the matched token is lower-case, the two trade entries are the maker and the taker word |
| ServiceUtils.FixAtDropsTakerOnUpperCase | src/utils/service-utils.ts:79 | as written, a maker token that differs from the lower-case maker word only in case is taken for the taker: the maker word appears twice and the taker token is missing |
| ServiceUtils.FixAtTokenListCaseFolded | src/utils/service-utils.ts:79 | with the matched token lower-cased before the comparison, the two trade entries are the maker and the taker word whatever the case of the data |
| ServiceUtils.FixCallDataCaseFolded | src/utils/service-utils.ts:63-91 | the corrected fixCallData succeeds exactly when both token addresses pad to words |
| ServiceUtils.FixCallDataIdempotent | src/utils/service-utils.ts:63-91 | fixing already-fixed calldata returns it unchanged, because the 11-word rewrite cannot match the pattern again |
| ServiceUtils.TimestampInSeconds | src/utils/service-utils.ts:44 | the timestamp is Date.now()/1000 rounded half up to whole seconds |
| ServiceUtils.AttributeCallData | src/utils/service-utils.ts:28-58 | the input calldata is a prefix of the affiliated calldata |
| ServiceUtils.AttributeCallDataTrailer | src/utils/service-utils.ts:29-56 | the calldata is followed by the encoded trailer without its 0x; the trailer names the affiliate, or FEE_RECIPIENT_ADDRESS when it is absent or empty |
| ServiceUtils.DecodedUniqueIdParts | src/utils/service-utils.ts:45-57 | decodedUniqueId is the 10-digit random part, one '-', and the decimal timestamp |
| ServiceUtils.UniqueIdentifierParts | src/utils/service-utils.ts:52 | the unique identifier holds the random digits above the hex timestamp: dividing by 16^(timestamp digits) gives the random part back and the remainder is the timestamp |
| ServiceUtils.ToLiquiditySource | src/utils/service-utils.ts:103-115 | Native is renamed '0x'; the proportion is the precision-limited breakdown; a MultiHop record keeps its intermediate token and hops and no other entry has them |
| ServiceUtils.MergedBreakdownSpec | src/utils/service-utils.ts:94-100 | the merged entries have distinct keys, exactly the chain's sources and the breakdown's keys, in object key order; breakdown values override the default zeros |
| ServiceUtils.ConvertSourceBreakdownToArray | src/utils/service-utils.ts:93-118 | one liquidity source per merged entry, in order, each the conversion of that entry |
| ServiceUtils.FeeShareBounds | src/utils/service-utils.ts:129-133 | floor(m*p/(p+1)) is at most m, strictly below m when m > 0, and leaves m - fee with fee ≈ p*(m - fee) within one unit |
| ServiceUtils.GetAffiliateFeeAmounts | src/utils/service-utils.ts:120-142 | no fee (type None, or a NULL or empty recipient) gives zero amounts and zero gas; otherwise the buy-token fee is floor(worstMaker*p/(p+1)) and the gas is 15000 for PercentageFee and 30000 otherwise; the sell-token fee is always 0 |
| Config.UnwrapWethGas | src/config.ts:116-123 | 37000 on Fantom and 25000 on every other chain |
| Config.WrapEthGas | src/config.ts:124 | wrapping costs the same gas as unwrapping |
| Config.UnwrapQuoteGas | src/config.ts:125 | 21000 base gas plus the unwrap gas, so 46000 or 58000 |
| Config.WrapQuoteGas | src/config.ts:126 | the wrap quote gas equals the unwrap quote gas |
| Config.ExcludedSourcesSpec | src/config.ts:128-160 | Native is excluded exactly on BSC, Matic, Avalanche and Fantom; MultiBridge is always excluded; only real sources are excluded |
| Config.ExcludedFeeSources | src/config.ts:162-177 | UniswapV2 is fee-excluded exactly off Mainnet, Kovan, Ropsten, BSC and Matic; Uniswap exactly off Mainnet, Ropsten and Matic; nothing else is excluded |
| Config.OverheadFullyFeatured | src/config.ts:188-228 | every route costs between 21000 and 150000 |
| Config.OverheadNoVip | src/config.ts:179 | the no-VIP overhead is never below the fully featured one for the same flags |
| Config.OverheadVip | src/config.ts:189-215 | exactly UniswapV2 or exactly SushiSwap costs 21000, a Pancake-family flag 21000 on BSC, UniswapV3 26000, Curve 61000, LiquidityProvider 31000 |
| Config.OverheadPancakeOffBsc | src/config.ts:192-227 | off BSC a Pancake-only flag falls through every test to 150000 |
| Config.OverheadBatchFill | src/config.ts:180-218 | any other subset of the batch-fill flags, including the empty set, costs 36000 |
| Config.OverheadMultihop | src/config.ts:186-224 | MultiHop plus multihop-fill flags that are not a batch-fill subset costs 46000 |
| Config.OverheadRouteTests | src/config.ts:216-227 | 36000 only for batch-fill subsets, 46000 only when the multihop union test holds, 150000 only when both fail |
| Config.NativeWrappedTokenSymbol | src/config.ts:419-434 | WBNB on BSC, WMATIC on Matic, WAVAX on Avalanche, WFTM on Fantom, CELO on Celo and WETH elsewhere |
| Config.ParseIntRoundTrip | src/config.ts:290-297 | parseInt reads a decimal numeral back, whatever non-digit text follows it, white space included ("12 px" reads 12) |
| Config.ParseIntNegative | src/config.ts:290-297 | parseInt reads a minus sign followed by a decimal numeral as the negative number |
| Config.ParseIntAuto | src/handlers/swap-handlers.ts:160 | parseInt without a radix is NaN exactly when no digit follows the white space, the sign and any 0x/0X prefix: hex digits after the prefix, decimal digits otherwise |
| Config.ParseIntAutoHex | src/handlers/swap-handlers.ts:160 | after 0x or 0X and an optional minus sign, a hex numeral reads back as its value or its negation |
| Config.ParseIntAutoDecimal | src/handlers/swap-handlers.ts:160 | without a 0x/0X prefix the radix-less parseInt reads exactly what parseInt(value, 10) reads |
| Config.PortAndChainId | src/config.ts:289-305 | a port is accepted iff parseInt gives a value in 0..65535, and that value is returned; a chain id iff parseInt gives a member of ChainId |
| Config.PortOfDecimal | src/config.ts:289-295 | a decimal port string is accepted exactly when its value is at most 65535 |
| Config.IntegerAccepted | src/config.ts:306-312 | an integer variable or the keep-alive timeout is accepted iff parseInt reads a value, and that value is returned |
| Config.BooleanValue | src/config.ts:324-325 | a boolean variable is true exactly when the text is 'true' |
| Config.AddressListAccepted | src/config.ts:332-336 | an address list is accepted iff every comma-separated entry, lower-cased, is a hex address; it returns the lower-cased entries |
| Config.AddressListRejected | src/config.ts:332-336 | a rejection names the first entry that fails, as `name[i]` |
| Config.AssertEnvVarType | src/config.ts:286-416 | the Boolean, StringList and WhitelistAllTokens cases never throw; a whitelist is "*" and a string list is the comma-split text |
| Config.UrlListChecked | src/config.ts:319-323 | a URL list is accepted iff every comma-separated entry is a URI, and returns the entries; a rejection names the first bad entry as `name[i]` |
| Config.ApiKeysChecked | src/config.ts:349-358 | API keys are accepted iff every comma-separated key is a UUID, and are returned; a rejection quotes the first bad key |
| Config.NonEmptyStringChecked | src/config.ts:343-348 | a non-empty string is returned as it is; the empty string is rejected as not supplied |
| Config.LogLevelChecked | src/config.ts:406-412 | a log level is accepted iff its upper-cased text is a supported level, and its value is that level's first index; otherwise the error lists the levels |
| Config.IndexIn | src/config.ts:407-412 | the log-level index is the first position of the upper-cased value, or absent when it is not a level |
| SwapService.UnitAmount | src/services/swap-service.ts:84-87 | a base-unit amount divided by 10^decimals |
| SwapService.RoundPrice | src/services/swap-service.ts:93-111 | a price is rounded to the decimal places by floor when selling and by ceiling when buying, so never better than the exact price |
| SwapService.GetSwapQuotePrice | src/services/swap-service.ts:74-116 | price and guaranteedPrice are the best- and worst-case (maker - fee)/taker floored when selling, or taker/(maker - fee) ceiled when buying; the fee is the worst-case maker units times the fee percentage in both |
| SwapService.GuaranteedPriceNoBetter | src/services/swap-service.ts:74-116 | when the worst case gives no more maker and takes no less taker than the best case, the guaranteed price is no better than the price (not above when selling, not below when buying) |
| SwapService.QuoterAmount | src/services/swap-service.ts:188-192 | a sell request passes sellAmount unchanged; a buy request asks for floor(buyAmount*(pct+1)) |
| SwapService.GrossUpNetsRequestedAmount | src/services/swap-service.ts:188-192 | the grossed-up buy amount minus the affiliate fee on it is exactly the requested buy amount |
| SwapService.AssetSwapperOpts | src/services/swap-service.ts:166-186 | the VIP options are used unless the request is a meta-transaction, sells the entire balance, or carries a PercentageFee; the request's excluded sources are appended to the chain's |
| SwapService.NoVipChargesFullOverhead | src/services/swap-service.ts:168-177 | the no-VIP options charge the full 150000 overhead, the VIP options the per-route overhead, which is never more |
| SwapService.SimulationGas | src/services/swap-service.ts:482-488 | the simulation gas is Math.round(1.5 * estimate), a tie rounding up (3e <= 2g <= 3e + 1), or 350000 when estimation fails |
| SwapService.FakeTakerBalance | src/services/swap-service.ts:492-493 | the fake taker's balance is floor((value + gasPrice*gas) * 1.1) |
| SwapService.EstimateGasOrThrowRevertError | src/services/swap-service.ts:455-557 | the step-by-step estimation returns exactly the outcome of the decision table `EstimateGasOutcome` |
| SwapService.InsufficientFundsFirst | src/services/swap-service.ts:512-515 | a thrown "insufficient funds" message gives InsufficientFundsError before any decoding |
| SwapService.FailedCallClassification | src/services/swap-service.ts:537-555 | a failed simulated call with a decodable revert throws that revert, otherwise GasEstimationError |
| SwapService.SimulationInputs | src/services/swap-service.ts:481-550 | off Ganache the simulation runs with the fallback-aware gas and the 1.1x balance, and a success is that call's gasUsed plus calldata gas |
| SwapService.EstimateSuccess | src/services/swap-service.ts:537-556 | a successful estimate comes from a successful call with no revert, and is gasUsed plus calldata gas |
| SwapService.GanacheThrownAfterEstimate | src/services/swap-service.ts:466-550 | on Ganache, a call that throws an undecodable error after a successful estimate leaves the call marked successful with gasUsed 0, so the result is the calldata gas alone |
| SwapService.PartialTransactionFor | src/services/swap-service.ts:559-586 | the partial transaction is the encoder's target, value and gas overhead with the calldata passed through fixCallData, and fails exactly when encoding or fixing fails |
| SwapService.ConservativeGas | src/services/swap-service.ts:232-235 | the starting estimate is exactly worst-case gas plus fee gas, plus the wrap gas for an ether sell and the unwrap gas for an ether buy; so it is at least worst-case gas plus fee gas |
| SwapService.Buffered | src/services/swap-service.ts:253 | 1.2 times a gas figure rounded half up: 1.2x - 0.5 <= r <= 1.2x + 0.5, and never below x |
| SwapService.GasChain | src/services/swap-service.ts:249-263 | without a simulation estimatedGas is the starting estimate; with one it is buffered(sim + overhead) or the start, whichever is not smaller; gas is Buffered(estimatedGas) when fills are non-deterministic and estimatedGas otherwise, so estimatedGas <= gas <= 1.2 estimatedGas + 0.5 |
| SwapService.ResponseValue | src/services/swap-service.ts:273-275 | the value is the protocol fee plus, on an ETH sell, the worst-case taker amount, so it lies between the fee and the fee plus the taker amount |
| SwapService.Min | src/services/swap-service.ts:303 | BigNumber.min: the smaller of the two |
| SwapService.CalculateSwapQuote | src/services/swap-service.ts:146-318 | the imperative quote assembly returns exactly `SwapQuoteOutcome` |
| SwapService.SwapQuoteResponseFacts | src/services/swap-service.ts:232-307 | a quote response has estimatedGas >= worst gas + fee gas + wrap/unwrap gas, gas >= estimatedGas (equal without non-deterministic fills), value = protocol fee (+ worst taker amount iff ETH sell), allowance target NULL iff ETH sell, minimumProtocolFee at most both fees, buyAmount = best maker amount - buy-token fee |
| SwapService.SimulationDecides | src/services/swap-service.ts:237-256 | without a taker or with validation skipped, nothing is simulated; otherwise the quote fails iff the estimate fails, with the same error, and estimatedGas >= estimate + overhead |
| SwapService.BuyAmountIsRequested | src/services/swap-service.ts:188-307 | when the quoter fills the grossed-up amount exactly, the response's buyAmount is the requested buy amount |
| SwapService.NativeWrappedQuote | src/services/swap-service.ts:404-453 | fails with "sellAmount or buyAmount required" when both are missing, or with the gas-price estimator's error; otherwise amount = buyAmount or sellAmount, price 1, value amount (wrap) or 0 (unwrap), gas = estimatedGas = wrap/unwrap quote gas, no sources or orders, zero protocol fees, NULL allowance target, calldata starting with the deposit or withdraw call |
| SwapService.WrapAndUnwrapValue | src/services/swap-service.ts:320-424 | a wrap sends the amount it sells and buys; an unwrap sends nothing |
| SwapService.DepthRequestOptsFor | src/services/swap-service.ts:348-357 | the depth request excludes the request's sources plus MultiBridge and MultiHop, and passes numSamples, included sources and sampleDistributionBase through |
| SwapService.ScalePriceByDecimals | src/services/swap-service.ts:361-367 | every bucket's price is multiplied by 10^(takerDecimals - makerDecimals); the other fields and the number of buckets are kept |
| SwapService.ScalePriceToWholeTokens | src/services/swap-service.ts:361-367 | a bucket priced at makerAmount / takerAmount in base units is rescaled to (makerAmount / 10^makerDecimals) / (takerAmount / 10^takerDecimals), the price in whole tokens |
| SwapService.ScalePriceByDecimalsInverse | src/services/swap-service.ts:361-367 | rescaling by taker-maker decimals and then by maker-taker decimals gives the depth back |
| SwapService.ScalePriceByDecimalsOrder | src/services/swap-service.ts:361-367 | rescaling keeps the order of prices |
| SwapService.Twice | src/services/swap-service.ts:372-381 | numSamples * 2, NaN staying NaN |
| SwapService.CalculateMarketDepth | src/services/swap-service.ts:328-402 | succeeds iff the bid/ask fetch does; the asks and bids, scaled back, are the depth of each side over twice numSamples and 20% end slippage; the tokens carry their decimals |
| SwapHandlers.ResolvedToken | src/handlers/swap-handlers.ts:245-254 | a native symbol resolves as the wrapped native token; the address is lower-cased; the look-up's failure is the failure |
| SwapHandlers.ParseSwapQuoteRequestParams | src/handlers/swap-handlers.ts:225-353 | schema errors reject first; a parsed request has resolved lower-case tokens, isWrap/isUnwrap/isETHSell/isETHBuy as detected, equal tokens only for a wrap or unwrap, no NULL token, slippage at most 1, some source left, the 'true' flags, isMetaTransaction false, the amounts, takerAddress, gasPrice and affiliateAddress as given, and the excluded and included sources exactly as the source parser returned them |
| SwapHandlers.TokenPairRules | src/handlers/swap-handlers.ts:255-280 | equal tokens without wrap or unwrap give RequiredField on both fields; otherwise a NULL token gives FieldInvalid on both fields |
| SwapHandlers.SlippageAndSourceRules | src/handlers/swap-handlers.ts:286-320 | slippage above 1 gives ValueOutOfRange on slippagePercentage; otherwise the source parser's error passes through, and the request fails exactly when every source is excluded |
| SwapHandlers.DefaultSlippageAccepted | src/handlers/swap-handlers.ts:286-289 | a missing slippage is 0.01 and accepted |
| SwapHandlers.ReclassifyError | src/handlers/swap-handlers.ts:187-221 | the result is always an API error: API errors unchanged, reverts wrapped, an InsufficientAssetLiquidity or NO_OPTIMAL_PATH prefix a ValidationError on sellAmount when it was given else buyAmount, an AssetUnavailable prefix a ValidationError, anything else an internal server error |
| SwapHandlers.ReclassifyIdempotent | src/handlers/swap-handlers.ts:187-191 | reclassifying a reclassified error changes nothing |
| SwapHandlers.LiquidityShortageIsValidation | src/handlers/swap-handlers.ts:198-209 | both liquidity-shortage prefixes give the same single ValidationError item on the amount field |
| SwapHandlers.DispatchQuote | src/handlers/swap-handlers.ts:179-185 | unwrap is checked first, then wrap, then the general quote |
| SwapHandlers.GetSwapQuote | src/handlers/swap-handlers.ts:176-222 | succeeds exactly when the dispatched quote does, with the same response; every failure is an API error, namely the dispatched error as ReclassifyError maps it |
| SwapHandlers.UnwrapWithoutAmount | src/handlers/swap-handlers.ts:179-220 | an unwrap with no amount ends as an internal server error carrying "sellAmount or buyAmount required" |
| SwapHandlers.GetQuotePrice | src/handlers/swap-handlers.ts:95-135 | every failure of the price endpoint is an API error |
| SwapHandlers.PriceNeverSimulates | src/handlers/swap-handlers.ts:97 | the price endpoint forces skipValidation, so its answer does not depend on the simulation and succeeds whenever quoting and encoding succeed |
| SwapHandlers.DepthSymbol | src/handlers/swap-handlers.ts:139-144 | a native symbol or address is replaced by the wrapped native symbol |
| SwapHandlers.DepthParams | src/handlers/swap-handlers.ts:155-172 | numSamples defaults to 50 and is otherwise the radix-less parseInt of the text; the distribution base defaults to 1.05; missing source lists are empty and given ones are split at commas and parsed as source names; a given base is parseFloat of its text; tokens and sellAmount are passed through |
| SwapHandlers.DepthHexSamples | src/handlers/swap-handlers.ts:160 | a sample count written as 0x followed by hex digits, with or without a minus sign, is read in base 16 |
| SwapHandlers.GetMarketDepth | src/handlers/swap-handlers.ts:137-174 | equal symbols give InvalidAddress on buyToken with "Invalid pair sell/buy"; a failed look-up of the buy symbol, or of the sell symbol after a successful buy look-up, fails with that look-up's error; otherwise it is the market depth of the resolved pair |
| SwapHandlers.NativeAgainstWrappedRejected | src/handlers/swap-handlers.ts:139-154 | the native token against its wrapped symbol is rejected as an invalid pair |

## Left out

- **RPC, HTTP and logging.** RPC transport, the HTTP server, routing, logging and
  response shaping are not modelled. That covers `res.send`, `req.log`, `_.pick`
  field selection beyond the modelled price fields, and the renaming of native
  sources in price comparisons. The quote report and price-comparison report
  pass through untouched.
- **Library behaviour taken as parameters.** The aggregator's quoter and
  calldata encoder, `RevertError.decode`, `decodeThrownErrorAsRevertError`,
  `calculateCallDataGas`, `AbiEncoder`, `calculateDepthForSide`,
  `parseRequestForExcludedSources`, `parseAffiliateFeeOptions`, the
  token-metadata look-ups and the JSON-schema validator are parameters whose
  results the model takes as given. The same goes for the WETH `deposit` and
  `withdraw` encodings and `toPrecision(4)`.
- **Concurrency.** The `Promise.all` of gas estimate and gas price is modelled
  as two independent inputs, without ordering.
- **Division precision.** BigNumber division is exact over the reals. The
  library's configured division precision before `decimalPlaces` is not
  modelled.
- **Prices with no value.** A price whose divisor is zero (Infinity or NaN in
  BigNumber) is `None`.
- **NaN from parseFloat.** It is not represented for `slippagePercentage` or
  `sampleDistributionBase`. `SwapHandlers.Slippage` and `SwapHandlers.DepthParams`
  take a `parseFloat` parameter that returns a real, so a NaN slippage, which
  passes the `> 1` test in the source, has no counterpart.
- **parseInt.** Modelled with leading white space and an optional sign: with
  radix 10 for decimal numerals, and without a radix (as for `numSamples`) for
  decimal numerals and `0x`/`0X` hex numerals. `Number.MAX_SAFE_INTEGER`
  rounding is not modelled.
- SwapHandlers.DepthParams: `sellAmount` is a natural number. The source passes
  `new BigNumber(req.query.sellAmount)` without a schema check, so an absent or
  non-numeric value gives a NaN BigNumber and "1.5" a fraction; neither is
  represented, and `SwapHandlers.GetMarketDepth` inherits this.
- PaginationUtils.Paginate: finite page arithmetic is exact over the reals, so
  the rounding of doubles for products beyond 2^53 is not modelled. NaN and the
  infinities are modelled.
- Config.AssertEnvVarType: the LogLevel case upper-cases with ASCII case
  mapping, while `toUpperCase` maps all of Unicode. A value such as "ınfo"
  (dotless i), which the source accepts as INFO, is rejected by the model. The
  level names are the `logLevels` parameter, not the `LogLevel` enum itself.
- **Environment variables.** Reading `process.env` at module load is not
  modelled. Of `assertEnvVarType`, the UnitAmount, JsonStringList,
  RfqMakerAssetOfferings and LiquidityProviderRegistry cases parse JSON or
  floats and are not modelled. The other cases are modelled with the
  address/URI/UUID checks and the log-level list as parameters. Library
  assertion messages are modelled as `AssertionError(<name>)`.
- **Source lists.** The list of ERC20 bridge sources and the chain's sell-source
  filter come from libraries and are parameters.
- **Key order.** Object key order is insertion order. The JavaScript rule that
  integer-like keys come first is not modelled; no source name is integer-like.
- **Other endpoints.** Root, token listing, liquidity sources and the price
  comparison helpers are not modelled.
- **The fake-taker call.** `balance` and `gas` go into the simulated call, but
  the EVM execution itself is a parameter.
- ServiceUtils.GetAffiliateFeeAmounts: requires a non-negative fee percentage.
  The source does not check this. The affiliate-fee parser, which is not part
  of this model, only produces percentages from 0 up.
- SwapService.QuoterAmount: requires a non-negative fee percentage for the same
  reason. It also requires one of sellAmount or buyAmount, which the request
  schema enforces before the service is called.
- ServiceUtils.FixCallData: requires that `ETH_TOKEN_ADDRESS` pads to a word.
  That constant is a fixed valid address, and the source computes its word when
  the module loads.
- SwapService.CalculateSwapQuote: requires an amount and a non-negative fee
  percentage, as for `QuoterAmount`. It also requires `ServiceEnv.Valid()`:
  - the native-token placeholder is an address;
  - at least ten random draws in [0, 1) are available;
  - the quoter's source breakdown keeps multi-hop records under the MultiHop
    key, as the aggregator's type guarantees.
- **Which fixCallData is used.** `SwapService.PartialTransactionFor` uses the
  corrected `ServiceUtils.FixCallDataCaseFolded`, not the as-written
  `ServiceUtils.FixCallData` (see Findings).

## Findings

| source | as written | input that shows it | evidently intended | confidence | as-written member | corrected member |
|---|---|---|---|---|---|---|
| src/utils/service-utils.ts:79 | The regex matches case-insensitively, but the captured token word is compared with `===` to the lower-cased maker word. | Calldata whose pay-taker token word is the maker token in upper-case hex, e.g. `…C02AAA39…`. The comparison fails, so the token array becomes [maker, maker, native] and the taker token is missing. | Compare the captured word after lower-casing it, so the array is always [matched token, the other trade token, native]. | not executed | ServiceUtils.FixAtDropsTakerOnUpperCase | ServiceUtils.FixAtTokenListCaseFolded |
