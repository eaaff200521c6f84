/** Numeric and string constants of the service (src/constants.ts). */
module Constants {

  /** Bytes in one ABI word. */
  const ONE_WORD_LENGTH: nat := 32

  /** The zero address, in the lower-case form the service compares against. */
  const NULL_ADDRESS: string := "0x0000000000000000000000000000000000000000"

  /** The empty byte string, as hex. */
  const NULL_BYTES: string := "0x"

  const DEFAULT_PAGE: int := 1
  const DEFAULT_PER_PAGE: int := 20
  const MAX_PER_PAGE: int := 1000

  /** `10e6`, the gas limit of the validation simulation. */
  const DEFAULT_VALIDATION_GAS_LIMIT: nat := 10_000_000

  /** Twenty percent is added to an estimated gas limit. */
  const GAS_LIMIT_BUFFER_MULTIPLIER: real := 1.2

  const DEFAULT_QUOTE_SLIPPAGE_PERCENTAGE: real := 0.01

  const PERCENTAGE_SIG_DIGITS: nat := 4

  /** Gas every transaction pays before executing any code. */
  const TX_BASE_GAS: nat := 21000

  /** Gas of the transformer that takes a percentage affiliate fee. */
  const AFFILIATE_FEE_TRANSFORMER_GAS: nat := 15000

  /** Gas of the transformer that collects positive slippage. */
  const POSITIVE_SLIPPAGE_FEE_TRANSFORMER_GAS: nat := 30000

  const MARKET_DEPTH_MAX_SAMPLES: nat := 50
  const MARKET_DEPTH_DEFAULT_DISTRIBUTION: real := 1.05
}
