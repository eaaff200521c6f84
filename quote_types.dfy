/**
 * The shapes the quote logic reads: the quoter's swap quote, the affiliate
 * fee options and the liquidity-source names (src/types, and the quoting
 * library's `SwapQuote`). Amounts are integers of base units; proportions and
 * rates are exact rationals.
 */
module QuoteTypes {
  import opened Wrappers
  import opened ObjectEntries

  /** Liquidity-source names (`ERC20BridgeSource` values) the modelled code names. */
  const NATIVE: string := "Native"
  const MULTI_HOP: string := "MultiHop"
  const MULTI_BRIDGE: string := "MultiBridge"
  const UNISWAP: string := "Uniswap"
  const UNISWAP_V2: string := "Uniswap_V2"
  const UNISWAP_V3: string := "Uniswap_V3"
  const SUSHI_SWAP: string := "SushiSwap"
  const KYBER: string := "Kyber"
  const CURVE: string := "Curve"
  const MOONISWAP: string := "Mooniswap"

  /** One side (best or worst case) of a quote. */
  datatype QuoteInfo = QuoteInfo(
    makerAmount: nat,
    takerAmount: nat,
    totalTakerAmount: nat,
    protocolFeeInWeiAmount: nat,
    gas: nat)

  /** A fill only matters through the liquidity source it draws on. */
  datatype Fill = Fill(source: string)

  datatype Order = Order(fills: seq<Fill>)

  /** A value of the source breakdown: a plain proportion, or a multihop record. */
  datatype Breakdown =
    | Proportion(proportion: real)
    | MultiHopBreakdown(proportion: real, intermediateToken: string, hops: seq<string>)

  datatype SwapQuote = SwapQuote(
    makerToken: string,
    takerToken: string,
    bestCaseQuoteInfo: QuoteInfo,
    worstCaseQuoteInfo: QuoteInfo,
    gasPrice: nat,
    sourceBreakdown: Entries<Breakdown>,
    orders: seq<Order>,
    makerTokenDecimals: nat,
    takerTokenDecimals: nat,
    takerAmountPerEth: real,
    makerAmountPerEth: real)

  datatype AffiliateFeeType = NoFee | PercentageFee | PositiveSlippageFee

  datatype AffiliateFee = AffiliateFee(
    feeType: AffiliateFeeType,
    recipient: string,
    sellTokenPercentageFee: real,
    buyTokenPercentageFee: real)

  datatype AffiliateFeeAmounts = AffiliateFeeAmounts(sellTokenFeeAmount: nat, buyTokenFeeAmount: nat, gasCost: nat)

  /** An entry of the `sources` list of a quote response. */
  datatype LiquiditySource = LiquiditySource(
    name: string,
    proportion: real,
    intermediateToken: Option<string>,
    hops: Option<seq<string>>)
}
