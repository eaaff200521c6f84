/**
 * Chain-keyed configuration tables, the per-route gas overhead of the exchange
 * proxy, and the string-level checks of environment variables (src/config.ts).
 * The chain the service runs on is a parameter of every table.
 */
module Config {
  import opened Wrappers
  import opened Strings
  import opened Constants
  import opened Errors
  import opened QuoteTypes

  // ---------------------------------------------------------------------------
  // Chains (src/types/chain-id.ts)
  // ---------------------------------------------------------------------------

  const MAINNET: int := 1
  const ROPSTEN: int := 3
  const RINKEBY: int := 4
  const OPTIMISM: int := 10
  const KOVAN: int := 42
  const MATIC: int := 137
  const BSC: int := 56
  const AVALANCHE: int := 43114
  const FANTOM: int := 250
  const CELO: int := 42220
  const GANACHE: int := 1337

  /** The numeric members of `ChainId`, in declaration order. */
  const SUPPORTED_CHAIN_IDS: seq<int> := [MAINNET, ROPSTEN, RINKEBY, OPTIMISM, KOVAN, MATIC, BSC, AVALANCHE, FANTOM, CELO, GANACHE]

  /** `supportedChainIds.join(', ')`. */
  const SUPPORTED_CHAIN_IDS_TEXT: string := "1, 3, 4, 10, 42, 137, 56, 43114, 250, 42220, 1337"

  // ---------------------------------------------------------------------------
  // Gas and symbol tables
  // ---------------------------------------------------------------------------

  /** `UNWRAP_WETH_GAS`: the wrapped-native contract on Fantom costs more to unwrap. */
  function UnwrapWethGas(chainId: int): (gas: nat)
    ensures chainId == FANTOM ==> gas == 37000
    ensures chainId != FANTOM ==> gas == 25000
  {
    if chainId == FANTOM then 37000 else 25000
  }

  /** `WRAP_ETH_GAS`, the same figure as unwrapping. */
  function WrapEthGas(chainId: int): (gas: nat)
    ensures gas == UnwrapWethGas(chainId)
  {
    UnwrapWethGas(chainId)
  }

  /** `UNWRAP_QUOTE_GAS`: a plain transaction plus the unwrap. */
  function UnwrapQuoteGas(chainId: int): (gas: nat)
    ensures gas == TX_BASE_GAS + UnwrapWethGas(chainId)
    ensures gas == 46000 || gas == 58000
  {
    TX_BASE_GAS + UnwrapWethGas(chainId)
  }

  /** `WRAP_QUOTE_GAS`, the same figure as the unwrap quote. */
  function WrapQuoteGas(chainId: int): (gas: nat)
    ensures gas == UnwrapQuoteGas(chainId)
  {
    UnwrapQuoteGas(chainId)
  }

  /** `nativeWrappedTokenSymbol(chainId)`. */
  function NativeWrappedTokenSymbol(chainId: int): (symbol: string)
    ensures chainId == BSC ==> symbol == "WBNB"
    ensures chainId == MATIC ==> symbol == "WMATIC"
    ensures chainId == AVALANCHE ==> symbol == "WAVAX"
    ensures chainId == FANTOM ==> symbol == "WFTM"
    ensures chainId == CELO ==> symbol == "CELO"
    ensures chainId !in {BSC, MATIC, AVALANCHE, FANTOM, CELO} ==> symbol == "WETH"
  {
    if chainId == BSC then "WBNB"
    else if chainId == MATIC then "WMATIC"
    else if chainId == AVALANCHE then "WAVAX"
    else if chainId == FANTOM then "WFTM"
    else if chainId == CELO then "CELO"
    else "WETH"
  }

  // ---------------------------------------------------------------------------
  // Excluded sources
  // ---------------------------------------------------------------------------

  /** `all.filter((s) => !excluded.has(s))`. */
  function Without(all: seq<string>, excluded: set<string>): (r: seq<string>)
    ensures |r| <= |all|
    ensures forall x :: x in r <==> x in all && x !in excluded
  {
    if all == [] then []
    else (if all[0] in excluded then [] else [all[0]]) + Without(all[1..], excluded)
  }

  /** The sources Ropsten supports. */
  const ROPSTEN_SOURCES: set<string> := {KYBER, NATIVE, SUSHI_SWAP, UNISWAP, UNISWAP_V2, UNISWAP_V3, CURVE, MOONISWAP}

  /** `EXCLUDED_SOURCES` for the chain; `allSources` is `Object.values(ERC20BridgeSource)`. */
  function ExcludedSources(chainId: int, allSources: seq<string>): seq<string>
  {
    if chainId == MAINNET then [MULTI_BRIDGE]
    else if chainId == KOVAN then Without(allSources, {NATIVE, UNISWAP_V2})
    else if chainId == ROPSTEN then Without(allSources, ROPSTEN_SOURCES)
    else if chainId in {BSC, MATIC, AVALANCHE, FANTOM} then [MULTI_BRIDGE, NATIVE]
    else Without(allSources, {NATIVE})
  }

  /**
   * Native orders are excluded exactly on BSC, Polygon, Avalanche and Fantom, and
   * MultiBridge is excluded on every chain.
   */
  lemma ExcludedSourcesSpec(chainId: int, allSources: seq<string>)
    requires NATIVE in allSources && MULTI_BRIDGE in allSources
    ensures NATIVE in ExcludedSources(chainId, allSources) <==> chainId in {BSC, MATIC, AVALANCHE, FANTOM}
    ensures MULTI_BRIDGE in ExcludedSources(chainId, allSources)
    ensures forall s :: s in ExcludedSources(chainId, allSources) ==> s in allSources
  {
  }

  /** `EXCLUDED_FEE_SOURCES` for the chain. */
  function ExcludedFeeSources(chainId: int): (r: seq<string>)
    ensures UNISWAP_V2 in r <==> chainId !in {MAINNET, KOVAN, ROPSTEN, BSC, MATIC}
    ensures UNISWAP in r <==> chainId !in {MAINNET, ROPSTEN, MATIC}
    ensures forall s :: s in r ==> s == UNISWAP || s == UNISWAP_V2
  {
    if chainId == MAINNET then []
    else if chainId == KOVAN then [UNISWAP]
    else if chainId == ROPSTEN then []
    else if chainId == BSC then [UNISWAP]
    else if chainId == MATIC then []
    else [UNISWAP, UNISWAP_V2]
  }

  // ---------------------------------------------------------------------------
  // Exchange proxy overhead
  // ---------------------------------------------------------------------------

  /**
   * The bit positions of `SOURCE_FLAGS` for the sources the overhead function
   * names. A flag value (a non-negative bigint) is the set of its bit positions:
   * `|` is union and `===` is equality of sets.
   */
  datatype SourceFlagBits = SourceFlagBits(
    uniswapV2: nat, sushiSwap: nat, pancakeSwap: nat, pancakeSwapV2: nat, bakerySwap: nat,
    apeSwap: nat, cafeSwap: nat, cheeseSwap: nat, julSwap: nat, uniswapV3: nat, curve: nat,
    liquidityProvider: nat, rfqOrder: nat, multiHop: nat)
  {
    /** Every source has a bit of its own, as in the quoting library. */
    predicate Distinct()
    {
      && uniswapV2 !in {sushiSwap, pancakeSwap, pancakeSwapV2, bakerySwap, apeSwap, cafeSwap, cheeseSwap, julSwap, uniswapV3, curve, liquidityProvider, rfqOrder, multiHop}
      && sushiSwap !in {pancakeSwap, pancakeSwapV2, bakerySwap, apeSwap, cafeSwap, cheeseSwap, julSwap, uniswapV3, curve, liquidityProvider, rfqOrder, multiHop}
      && pancakeSwap !in {pancakeSwapV2, bakerySwap, apeSwap, cafeSwap, cheeseSwap, julSwap, uniswapV3, curve, liquidityProvider, rfqOrder, multiHop}
      && pancakeSwapV2 !in {bakerySwap, apeSwap, cafeSwap, cheeseSwap, julSwap, uniswapV3, curve, liquidityProvider, rfqOrder, multiHop}
      && bakerySwap !in {apeSwap, cafeSwap, cheeseSwap, julSwap, uniswapV3, curve, liquidityProvider, rfqOrder, multiHop}
      && apeSwap !in {cafeSwap, cheeseSwap, julSwap, uniswapV3, curve, liquidityProvider, rfqOrder, multiHop}
      && cafeSwap !in {cheeseSwap, julSwap, uniswapV3, curve, liquidityProvider, rfqOrder, multiHop}
      && cheeseSwap !in {julSwap, uniswapV3, curve, liquidityProvider, rfqOrder, multiHop}
      && julSwap !in {uniswapV3, curve, liquidityProvider, rfqOrder, multiHop}
      && uniswapV3 !in {curve, liquidityProvider, rfqOrder, multiHop}
      && curve !in {liquidityProvider, rfqOrder, multiHop}
      && liquidityProvider !in {rfqOrder, multiHop}
      && rfqOrder != multiHop
    }

    /** The PancakeSwap-family bits other than SushiSwap's. */
    function PancakeOnly(): set<nat>
    {
      {pancakeSwap, pancakeSwapV2, bakerySwap, apeSwap, cafeSwap, cheeseSwap, julSwap}
    }
  }

  type SourceFlags = set<nat>

  const FILL_QUOTE_TRANSFORMER_GAS_OVERHEAD: nat := 150000

  /** `MULTIPLEX_BATCH_FILL_SOURCE_FLAGS`. */
  function BatchFillFlags(b: SourceFlagBits): SourceFlags
  {
    {b.uniswapV2, b.sushiSwap, b.liquidityProvider, b.rfqOrder, b.uniswapV3}
  }

  /** `MULTIPLEX_MULTIHOP_FILL_SOURCE_FLAGS`. */
  function MultihopFillFlags(b: SourceFlagBits): SourceFlags
  {
    {b.uniswapV2, b.sushiSwap, b.liquidityProvider, b.uniswapV3}
  }

  /** The single flags of the PancakeSwap family VIP, SushiSwap included. */
  function PancakeFamily(b: SourceFlagBits): seq<SourceFlags>
  {
    [{b.sushiSwap}, {b.pancakeSwap}, {b.pancakeSwapV2}, {b.bakerySwap}, {b.apeSwap}, {b.cafeSwap}, {b.cheeseSwap}, {b.julSwap}]
  }

  /** `EXCHANGE_PROXY_OVERHEAD_FULLY_FEATURED(sourceFlags)` on the given chain. */
  function OverheadFullyFeatured(b: SourceFlagBits, chainId: int, sourceFlags: SourceFlags): (gas: nat)
    ensures TX_BASE_GAS <= gas <= FILL_QUOTE_TRANSFORMER_GAS_OVERHEAD
  {
    if sourceFlags in [{b.uniswapV2}, {b.sushiSwap}] then TX_BASE_GAS
    else if sourceFlags in PancakeFamily(b) && chainId == BSC then TX_BASE_GAS
    else if {b.uniswapV3} == sourceFlags then TX_BASE_GAS + 5000
    else if {b.curve} == sourceFlags then TX_BASE_GAS + 40000
    else if {b.liquidityProvider} == sourceFlags then TX_BASE_GAS + 10000
    else if BatchFillFlags(b) + sourceFlags == BatchFillFlags(b) then TX_BASE_GAS + 15000
    else if MultihopFillFlags(b) + sourceFlags == MultihopFillFlags(b) + {b.multiHop} then TX_BASE_GAS + 25000
    else FILL_QUOTE_TRANSFORMER_GAS_OVERHEAD
  }

  /** `EXCHANGE_PROXY_OVERHEAD_NO_VIP`: never cheaper than the fully featured figure. */
  function OverheadNoVip(sourceFlags: SourceFlags): (gas: nat)
    ensures forall b: SourceFlagBits, chainId: int :: OverheadFullyFeatured(b, chainId, sourceFlags) <= gas
  {
    FILL_QUOTE_TRANSFORMER_GAS_OVERHEAD
  }

  /**
   * The VIP routes: exactly Uniswap V2 or exactly SushiSwap costs a bare
   * transaction everywhere, a single PancakeSwap-family source does so on BSC,
   * exactly Uniswap V3 costs 26000, exactly Curve 61000, exactly the liquidity
   * provider 31000.
   */
  lemma OverheadVip(b: SourceFlagBits, chainId: int)
    requires b.Distinct()
    ensures OverheadFullyFeatured(b, chainId, {b.uniswapV2}) == 21000
    ensures OverheadFullyFeatured(b, chainId, {b.sushiSwap}) == 21000
    ensures forall s :: s in PancakeFamily(b) && chainId == BSC ==> OverheadFullyFeatured(b, chainId, s) == 21000
    ensures OverheadFullyFeatured(b, chainId, {b.uniswapV3}) == 26000
    ensures OverheadFullyFeatured(b, chainId, {b.curve}) == 61000
    ensures OverheadFullyFeatured(b, chainId, {b.liquidityProvider}) == 31000
  {
  }

  /** Off BSC a single PancakeSwap-family flag other than SushiSwap gets no VIP and costs the full 150000. */
  lemma OverheadPancakeOffBsc(b: SourceFlagBits, chainId: int, f: nat)
    requires b.Distinct() && chainId != BSC && f in b.PancakeOnly()
    ensures OverheadFullyFeatured(b, chainId, {f}) == FILL_QUOTE_TRANSFORMER_GAS_OVERHEAD
  {
    assert f !in BatchFillFlags(b);
    assert f in MultihopFillFlags(b) + {f};
  }

  /**
   * Any subset of the batch-fill flags that is not one of the single-source VIP
   * routes, the empty set included, costs 36000.
   */
  lemma OverheadBatchFill(b: SourceFlagBits, chainId: int, s: SourceFlags)
    requires b.Distinct()
    requires s <= BatchFillFlags(b)
    requires s != {b.uniswapV2} && s != {b.sushiSwap} && s != {b.uniswapV3} && s != {b.liquidityProvider}
    ensures OverheadFullyFeatured(b, chainId, s) == 36000
  {
    assert s + BatchFillFlags(b) == BatchFillFlags(b);
  }

  /** A set of multihop-fill flags together with the MultiHop flag costs 46000. */
  lemma OverheadMultihop(b: SourceFlagBits, chainId: int, s: SourceFlags)
    requires b.Distinct()
    requires b.multiHop in s && s <= MultihopFillFlags(b) + {b.multiHop}
    ensures OverheadFullyFeatured(b, chainId, s) == 46000
  {
    assert b.multiHop !in BatchFillFlags(b);
    assert MultihopFillFlags(b) + s == MultihopFillFlags(b) + {b.multiHop};
  }

  /**
   * The two cheapest non-VIP figures are given only on their own tests: 36000
   * only to subsets of the batch-fill flags, 46000 only where the multihop test
   * holds, and 150000 only where neither does.
   */
  lemma OverheadRouteTests(b: SourceFlagBits, chainId: int, s: SourceFlags)
    ensures OverheadFullyFeatured(b, chainId, s) == 36000 ==> s <= BatchFillFlags(b)
    ensures OverheadFullyFeatured(b, chainId, s) == 46000 ==> MultihopFillFlags(b) + s == MultihopFillFlags(b) + {b.multiHop}
    ensures OverheadFullyFeatured(b, chainId, s) == FILL_QUOTE_TRANSFORMER_GAS_OVERHEAD ==>
              !(s <= BatchFillFlags(b)) && MultihopFillFlags(b) + s != MultihopFillFlags(b) + {b.multiHop}
  {
    if BatchFillFlags(b) + s == BatchFillFlags(b) {
      assert s <= BatchFillFlags(b);
    }
    if s <= BatchFillFlags(b) {
      assert BatchFillFlags(b) + s == BatchFillFlags(b);
    }
  }

  // ---------------------------------------------------------------------------
  // Environment variables
  // ---------------------------------------------------------------------------

  /** JavaScript's white space and line terminators, which `parseInt` skips. */
  predicate IsJsWhiteSpace(c: char)
  {
    || c in {'\t', '\n', '\U{000B}', '\U{000C}', '\r', ' ', '\U{00A0}', '\U{1680}', '\U{2028}', '\U{2029}'}
    || c in {'\U{202F}', '\U{205F}', '\U{3000}', '\U{FEFF}'}
    || '\U{2000}' <= c <= '\U{200A}'
  }

  function TrimStart(s: string): (r: string)
    ensures |r| <= |s| && r == s[|s| - |r|..]
    ensures r != [] ==> !IsJsWhiteSpace(r[0])
    ensures forall i :: 0 <= i < |s| - |r| ==> IsJsWhiteSpace(s[i])
  {
    if s != [] && IsJsWhiteSpace(s[0]) then TrimStart(s[1..]) else s
  }

  predicate IsDecimalDigit(c: char)
  {
    '0' <= c <= '9'
  }

  /** The longest prefix made of decimal digits. */
  function DigitPrefix(s: string): (r: string)
    ensures |r| <= |s| && r == s[..|r|]
    ensures forall i :: 0 <= i < |r| ==> IsDecimalDigit(r[i])
    ensures |r| < |s| ==> !IsDecimalDigit(s[|r|])
  {
    if s != [] && IsDecimalDigit(s[0]) then [s[0]] + DigitPrefix(s[1..]) else []
  }

  /** The digits at the front of `u` read in base 10; `None` when there are none. */
  function ParseDigits(u: string): (r: Option<nat>)
    ensures r.None? <==> u == [] || !IsDecimalDigit(u[0])
  {
    var digits := DigitPrefix(u);
    if digits == [] then None
    else
      assert AllHex(digits) by {
        forall i | 0 <= i < |digits| ensures IsHexChar(digits[i]) { assert IsDecimalDigit(digits[i]); }
      }
      Some(ValueOf(digits, 10))
  }

  /** What follows the optional sign of the trimmed text. */
  function Unsigned(t: string): (u: string)
    ensures |u| <= |t|
  {
    if t != [] && (t[0] == '-' || t[0] == '+') then t[1..] else t
  }

  /** The digits read, negated when the trimmed text starts with a minus sign. */
  function Signed(t: string, n: Option<nat>): Option<int>
  {
    match n
    case None => None
    case Some(k) => Some(if t != [] && t[0] == '-' then 0 - k as int else k)
  }

  /**
   * `parseInt(value, 10)`: skip leading white space, read an optional sign and
   * then as many decimal digits as there are; `None` is NaN (no digit at all).
   */
  function ParseInt(value: string): Option<int>
  {
    var t := TrimStart(value);
    if t != [] && t[0] == '-' then
      match ParseDigits(t[1..])
      case None => None
      case Some(n) => Some(0 - n as int)
    else if t != [] && t[0] == '+' then
      match ParseDigits(t[1..])
      case None => None
      case Some(n) => Some(n)
    else
      ParseDigits(t)
  }

  /** Decimal digits printed by `toString()` read back, whatever non-digit text (white space included) follows them. */
  lemma ParseDigitsRoundTrip(n: nat, suffix: string)
    requires suffix == [] || !IsDecimalDigit(suffix[0])
    ensures TrimStart(NatToString(n, 10) + suffix) == NatToString(n, 10) + suffix
    ensures ParseDigits(NatToString(n, 10) + suffix) == Some(n)
  {
    var digits := NatToString(n, 10);
    NatToStringDecimal(n);
    DigitPrefixOf(digits, suffix);
    NatToStringRoundTrip(n, 10);
  }

  /** So does `parseInt`. */
  lemma ParseIntRoundTrip(n: nat, suffix: string)
    requires suffix == [] || !IsDecimalDigit(suffix[0])
    ensures ParseInt(NatToString(n, 10) + suffix) == Some(n)
  {
    var digits := NatToString(n, 10);
    ParseDigitsRoundTrip(n, suffix);
    NatToStringDecimal(n);
    assert IsDecimalDigit((digits + suffix)[0]);
  }

  /** A minus sign in front negates what the digits after it read as. */
  lemma ParseIntMinus(u: string, n: nat)
    requires ParseDigits(u) == Some(n)
    ensures ParseInt("-" + u) == Some(0 - n as int)
  {
    var s := "-" + u;
    assert s[0] == '-' && !IsJsWhiteSpace('-');
    assert TrimStart(s) == s;
    assert s[1..] == u;
  }

  /** The digits printed by `toString()` after a minus sign read as the negated number. */
  lemma ParseIntNegative(n: nat, suffix: string)
    requires suffix == [] || !IsDecimalDigit(suffix[0])
    ensures ParseInt("-" + (NatToString(n, 10) + suffix)) == Some(0 - n as int)
  {
    ParseDigitsRoundTrip(n, suffix);
    ParseIntMinus(NatToString(n, 10) + suffix, n);
  }

  lemma {:induction false} NatToStringDecimal(n: nat)
    ensures forall i :: 0 <= i < |NatToString(n, 10)| ==> IsDecimalDigit(NatToString(n, 10)[i])
    decreases n
  {
    if n >= 10 {
      DivMod(n, 10);
      NatToStringDecimal(n / 10);
    }
  }

  /** Text that starts with a character other than white space is left as it is by `trimStart`. */
  lemma TrimStartKeeps(s: string)
    requires s != [] && !IsJsWhiteSpace(s[0])
    ensures TrimStart(s) == s
  {
  }

  lemma {:induction false} DigitPrefixOf(digits: string, suffix: string)
    requires digits != [] && forall i :: 0 <= i < |digits| ==> IsDecimalDigit(digits[i])
    requires suffix == [] || !IsDecimalDigit(suffix[0])
    ensures TrimStart(digits + suffix) == digits + suffix
    ensures DigitPrefix(digits + suffix) == digits
    decreases |digits|
  {
    var s := digits + suffix;
    assert IsDecimalDigit(s[0]);
    TrimStartKeeps(s);
    DigitPrefixOfDigits(digits, suffix);
  }

  lemma {:induction false} DigitPrefixOfDigits(digits: string, suffix: string)
    requires forall i :: 0 <= i < |digits| ==> IsDecimalDigit(digits[i])
    requires suffix == [] || !IsDecimalDigit(suffix[0])
    ensures DigitPrefix(digits + suffix) == digits
    decreases |digits|
  {
    if digits == [] {
      assert digits + suffix == suffix;
    } else {
      DigitPrefixOfDigits(digits[1..], suffix);
      assert (digits + suffix)[1..] == digits[1..] + suffix;
    }
  }

  /** The longest prefix made of hex digits, either case. */
  function HexDigitPrefix(s: string): (r: string)
    ensures |r| <= |s| && r == s[..|r|]
    ensures AllHex(r)
    ensures |r| < |s| ==> !IsHexChar(s[|r|])
  {
    if s != [] && IsHexChar(s[0]) then [s[0]] + HexDigitPrefix(s[1..]) else []
  }

  /** The hex digits at the front of `u` read in base 16; `None` when there are none. */
  function ParseHexDigits(u: string): (r: Option<nat>)
    ensures r.None? <==> u == [] || !IsHexChar(u[0])
  {
    var digits := HexDigitPrefix(u);
    if digits == [] then None else Some(ValueOf(digits, 16))
  }

  /** After the sign, `parseInt` without a radix reads `0x` or `0X` as the start of a hex numeral. */
  predicate HasHexPrefix(u: string)
  {
    |u| >= 2 && u[0] == '0' && (u[1] == 'x' || u[1] == 'X')
  }

  /**
   * `parseInt(value)` with no radix: skip leading white space, read an optional
   * sign, then hex digits after a `0x`/`0X` prefix and decimal digits otherwise;
   * `None` is NaN (no digit where one is needed).
   */
  function ParseIntAuto(value: string): (r: Option<int>)
    ensures var u := Unsigned(TrimStart(value));
      r.None? <==> (if HasHexPrefix(u) then ParseHexDigits(u[2..]).None? else ParseDigits(u).None?)
  {
    var t := TrimStart(value);
    var u := Unsigned(t);
    Signed(t, if HasHexPrefix(u) then ParseHexDigits(u[2..]) else ParseDigits(u))
  }

  /** After a hex prefix, the radix-less `parseInt` reads the hex digits and applies the sign. */
  lemma ParseIntAutoOfHex(value: string)
    requires HasHexPrefix(Unsigned(TrimStart(value)))
    ensures ParseIntAuto(value) == Signed(TrimStart(value), ParseHexDigits(Unsigned(TrimStart(value))[2..]))
  {
  }

  /** Without a hex prefix, the radix-less `parseInt` reads exactly what `parseInt(value, 10)` reads. */
  lemma ParseIntAutoDecimal(value: string)
    requires !HasHexPrefix(Unsigned(TrimStart(value)))
    ensures ParseIntAuto(value) == ParseInt(value)
  {
    ParseIntUnsigned(value);
  }

  /** `parseInt(value, 10)` applies the sign to the digits after it. */
  lemma ParseIntUnsigned(value: string)
    ensures ParseInt(value) == Signed(TrimStart(value), ParseDigits(Unsigned(TrimStart(value))))
  {
    var t := TrimStart(value);
    if t != [] && t[0] == '-' {
      assert Unsigned(t) == t[1..];
    } else if t != [] && t[0] == '+' {
      assert Unsigned(t) == t[1..];
    } else {
      assert Unsigned(t) == t;
    }
  }

  lemma {:induction false} HexDigitPrefixOf(digits: string, suffix: string)
    requires AllHex(digits)
    requires suffix == [] || !IsHexChar(suffix[0])
    ensures HexDigitPrefix(digits + suffix) == digits
    decreases |digits|
  {
    if digits != [] {
      HexDigitPrefixOf(digits[1..], suffix);
      assert (digits + suffix)[1..] == digits[1..] + suffix;
    } else {
      assert digits + suffix == suffix;
    }
  }

  lemma ParseHexDigitsOfNumeral(n: nat, suffix: string)
    requires suffix == [] || !IsHexChar(suffix[0])
    ensures ParseHexDigits(NatToString(n, 16) + suffix) == Some(n)
  {
    var digits := NatToString(n, 16);
    assert AllHex(digits) by {
      forall i | 0 <= i < |digits| ensures IsHexChar(digits[i]) { assert IsLowerHexChar(digits[i]); }
    }
    HexDigitPrefixOf(digits, suffix);
    NatToStringRoundTrip(n, 16);
  }

  /** After an optional minus sign, text that starts with `0` is what `parseInt` reads unsigned. */
  lemma UnsignedAfterSign(negative: bool, u: string)
    requires u != [] && u[0] == '0'
    ensures var s := (if negative then "-" else "") + u;
      && Unsigned(TrimStart(s)) == u
      && (TrimStart(s) != [] && TrimStart(s)[0] == '-') == negative
  {
    if negative {
      var s := "-" + u;
      assert !IsJsWhiteSpace(s[0]);
      assert TrimStart(s) == s;
      assert s[1..] == u;
    } else {
      assert !IsJsWhiteSpace(u[0]);
      assert TrimStart(u) == u;
    }
  }

  /** Hex digits after `0x` or `0X` and an optional minus sign read as their value, negated after the sign. */
  lemma ParseIntAutoSignedHex(negative: bool, u: string, k: nat)
    requires HasHexPrefix(u) && ParseHexDigits(u[2..]) == Some(k)
    ensures ParseIntAuto((if negative then "-" else "") + u) == Some(if negative then 0 - k as int else k)
  {
    var s := (if negative then "-" else "") + u;
    UnsignedAfterSign(negative, u);
    ParseIntAutoOfHex(s);
  }

  /** A hex numeral as `n.toString(16)` prints it, after `0x` or `0X` and an optional minus sign, reads back as `n` or `-n`. */
  lemma ParseIntAutoHex(n: nat, x: char, negative: bool, suffix: string)
    requires x == 'x' || x == 'X'
    requires suffix == [] || !IsHexChar(suffix[0])
    ensures ParseIntAuto((if negative then "-" else "") + (['0', x] + (NatToString(n, 16) + suffix)))
         == Some(if negative then 0 - n as int else n)
  {
    var u := ['0', x] + (NatToString(n, 16) + suffix);
    assert u[2..] == NatToString(n, 16) + suffix;
    ParseHexDigitsOfNumeral(n, suffix);
    ParseIntAutoSignedHex(negative, u, n);
  }

  /** The `EnvVarType`s whose checks this model covers. */
  datatype EnvVarType =
    | AddressList | StringList | Integer | Port | KeepAliveTimeout | ChainIdType | ETHAddressHex
    | Url | UrlList | WhitelistAllTokens | Boolean | NonEmptyString | APIKeys | LogLevel

  /** What a check returns: a number, a flag, a string or a list of strings. */
  datatype EnvValue = IntValue(i: int) | BoolValue(b: bool) | Text(s: string) | TextList(items: seq<string>)

  /**
   * The checks that come from libraries: an address in hex, a URI, a UUID, and the
   * names of the log levels.
   */
  datatype EnvValidators = EnvValidators(
    isETHAddressHex: string -> bool,
    isUri: string -> bool,
    isUUID: string -> bool,
    logLevels: seq<string>)

  /** Index of the first entry the check rejects, if any. */
  function FirstRejected(items: seq<string>, check: string -> bool): (r: Option<nat>)
    ensures r.None? <==> forall i :: 0 <= i < |items| ==> check(items[i])
    ensures r.Some? ==> r.value < |items| && !check(items[r.value]) && forall i :: 0 <= i < r.value ==> check(items[i])
  {
    if items == [] then None
    else if !check(items[0]) then Some(0)
    else match FirstRejected(items[1..], check)
      case None => None
      case Some(i) => Some(i + 1)
  }

  function LowerAll(items: seq<string>): (r: seq<string>)
    ensures |r| == |items| && forall i :: 0 <= i < |items| ==> r[i] == ToLower(items[i])
  {
    if items == [] then [] else [ToLower(items[0])] + LowerAll(items[1..])
  }

  /** `name[i]`, the variable name the list checks report. */
  function Indexed(name: string, i: nat): string
  {
    name + "[" + NatToString(i, 10) + "]"
  }

  /** `join(', ')` of the supported log levels. */
  function JoinComma(items: seq<string>): string
  {
    if items == [] then "" else if |items| == 1 then items[0] else items[0] + ", " + JoinComma(items[1..])
  }

  /** `supportedLogLevels.indexOf(value)`, `None` for -1. */
  function IndexIn(items: seq<string>, value: string): (r: Option<nat>)
    ensures r.None? <==> value !in items
    ensures r.Some? ==> r.value < |items| && items[r.value] == value && value !in items[..r.value]
  {
    if items == [] then None
    else if items[0] == value then Some(0)
    else match IndexIn(items[1..], value)
      case None => None
      case Some(i) =>
        assert items[..i + 1] == [items[0]] + items[1..][..i];
        Some(i + 1)
  }

  /** `assertEnvVarType(name, value, expectedType)` for a string `value`. */
  function AssertEnvVarType(name: string, value: string, expectedType: EnvVarType, v: EnvValidators): (r: Result<EnvValue, Error>)
    ensures expectedType == Boolean || expectedType == StringList || expectedType == WhitelistAllTokens ==> r.Success?
    ensures expectedType == WhitelistAllTokens ==> r == Success(Text("*"))
    ensures expectedType == StringList ==> r == Success(TextList(Split(value, ',')))
  {
    match expectedType
    case Port => ParsePort(name, value)
    case ChainIdType => ParseChainId(name, value)
    case KeepAliveTimeout => ParseInteger(name, value)
    case Integer => ParseInteger(name, value)
    case ETHAddressHex => if v.isETHAddressHex(value) then Success(Text(value)) else Failure(AssertionError(name))
    case Url => if v.isUri(value) then Success(Text(value)) else Failure(AssertionError(name))
    case UrlList => ParseUrlList(name, value, v.isUri)
    case Boolean => Success(BoolValue(value == "true"))
    case AddressList => ParseAddressList(name, value, v.isETHAddressHex)
    case StringList => Success(TextList(Split(value, ',')))
    case WhitelistAllTokens => Success(Text("*"))
    case NonEmptyString => if value == "" then Failure(PlainError(name + " must be supplied")) else Success(Text(value))
    case APIKeys => ParseApiKeys(value, v.isUUID)
    case LogLevel => ParseLogLevel(value, v.logLevels)
  }

  /** The `UrlList` case: comma-separated URIs, the first bad one reported by its index. */
  function ParseUrlList(name: string, value: string, isUri: string -> bool): Result<EnvValue, Error>
  {
    var urlList := Split(value, ',');
    match FirstRejected(urlList, isUri)
    case Some(i) => Failure(AssertionError(Indexed(name, i)))
    case None => Success(TextList(urlList))
  }

  /** The `AddressList` case: comma-separated addresses, lower-cased before they are checked. */
  function ParseAddressList(name: string, value: string, isETHAddressHex: string -> bool): Result<EnvValue, Error>
  {
    var addressList := LowerAll(Split(value, ','));
    match FirstRejected(addressList, isETHAddressHex)
    case Some(i) => Failure(AssertionError(Indexed(name, i)))
    case None => Success(TextList(addressList))
  }

  /** The `APIKeys` case: comma-separated UUIDs, the first bad one quoted. */
  function ParseApiKeys(value: string, isUUID: string -> bool): Result<EnvValue, Error>
  {
    var apiKeys := Split(value, ',');
    match FirstRejected(apiKeys, isUUID)
    case Some(i) => Failure(PlainError("API Key " + apiKeys[i] + " isn't UUID compliant"))
    case None => Success(TextList(apiKeys))
  }

  /** The `LogLevel` case: the index of the upper-cased value among the supported levels. */
  function ParseLogLevel(value: string, logLevels: seq<string>): Result<EnvValue, Error>
  {
    match IndexIn(logLevels, ToUpper(value))
    case None =>
      Failure(PlainError("Unsupported log level - " + value + ". Supported log levels " + JoinComma(logLevels)))
    case Some(i) => Success(IntValue(i))
  }

  /** The `Port` case: an integer `parseInt` reads, from 0 to 65535. */
  function ParsePort(name: string, value: string): Result<EnvValue, Error>
  {
    var n := ParseInt(value);
    if n.None? || !(0 <= n.value <= 65535) then Failure(PlainError(name + " must be between 0 to 65535, found " + value + "."))
    else Success(IntValue(n.value))
  }

  /** The `ChainId` case: an integer `parseInt` reads that is a supported chain id. */
  function ParseChainId(name: string, value: string): Result<EnvValue, Error>
  {
    var n := ParseInt(value);
    if n.None? then Failure(PlainError(name + " must be a valid integer, found " + value + "."))
    else if n.value !in SUPPORTED_CHAIN_IDS then
      Failure(PlainError(name + " must be a supported chain id " + SUPPORTED_CHAIN_IDS_TEXT + ", found " + value + "."))
    else Success(IntValue(n.value))
  }

  /** The `Integer` and `KeepAliveTimeout` cases: any integer `parseInt` reads. */
  function ParseInteger(name: string, value: string): Result<EnvValue, Error>
  {
    match ParseInt(value)
    case None => Failure(PlainError(name + " must be a valid integer, found " + value + "."))
    case Some(n) => Success(IntValue(n))
  }

  /**
   * A port is accepted exactly when `parseInt` reads an integer from 0 to 65535,
   * and a chain id exactly when it reads a member of `ChainId`.
   */
  lemma PortAndChainId(name: string, value: string, v: EnvValidators)
    ensures AssertEnvVarType(name, value, Port, v).Success? <==>
              ParseInt(value).Some? && 0 <= ParseInt(value).value <= 65535
    ensures AssertEnvVarType(name, value, Port, v).Success? ==> AssertEnvVarType(name, value, Port, v).value == IntValue(ParseInt(value).value)
    ensures AssertEnvVarType(name, value, ChainIdType, v).Success? <==>
              ParseInt(value).Some? && ParseInt(value).value in SUPPORTED_CHAIN_IDS
  {
    PortCase(name, value, v);
    ChainIdCase(name, value, v);
  }

  /** An integer variable, or the keep-alive timeout, is accepted exactly when `parseInt` reads a value, and that value is returned. */
  lemma IntegerAccepted(name: string, value: string, v: EnvValidators, expectedType: EnvVarType)
    requires expectedType == Integer || expectedType == KeepAliveTimeout
    ensures AssertEnvVarType(name, value, expectedType, v).Success? <==> ParseInt(value).Some?
    ensures AssertEnvVarType(name, value, expectedType, v).Success? ==>
              AssertEnvVarType(name, value, expectedType, v).value == IntValue(ParseInt(value).value)
  {
    IntegerCase(name, value, v, expectedType);
  }

  lemma IntegerCase(name: string, value: string, v: EnvValidators, expectedType: EnvVarType)
    requires expectedType == Integer || expectedType == KeepAliveTimeout
    ensures AssertEnvVarType(name, value, expectedType, v) == ParseInteger(name, value)
  {
  }

  lemma PortCase(name: string, value: string, v: EnvValidators)
    ensures AssertEnvVarType(name, value, Port, v) == ParsePort(name, value)
  {
  }

  lemma ChainIdCase(name: string, value: string, v: EnvValidators)
    ensures AssertEnvVarType(name, value, ChainIdType, v) == ParseChainId(name, value)
  {
  }

  /** A port written in decimal is accepted when it is at most 65535 and rejected above. */
  lemma PortOfDecimal(name: string, n: nat, v: EnvValidators)
    ensures AssertEnvVarType(name, NatToString(n, 10), Port, v).Success? <==> n <= 65535
  {
    var text := NatToString(n, 10);
    ParseIntRoundTrip(n, "");
    assert text + "" == text;
    PortCase(name, text, v);
  }

  /** A boolean is true exactly for the text "true", and any other text is false. */
  lemma BooleanValue(name: string, value: string, v: EnvValidators)
    ensures AssertEnvVarType(name, value, Boolean, v) == Success(BoolValue(value == "true"))
  {
  }

  /**
   * An address list is split at commas and lower-cased, and it is accepted
   * exactly when every lower-cased entry is an address.
   */
  lemma AddressListAccepted(name: string, value: string, v: EnvValidators)
    ensures AssertEnvVarType(name, value, AddressList, v).Success? ==>
              forall i :: 0 <= i < |Split(value, ',')| ==> v.isETHAddressHex(ToLower(Split(value, ',')[i]))
    ensures (forall i :: 0 <= i < |Split(value, ',')| ==> v.isETHAddressHex(ToLower(Split(value, ',')[i]))) ==>
              AssertEnvVarType(name, value, AddressList, v).Success?
    ensures AssertEnvVarType(name, value, AddressList, v).Success? ==>
              AssertEnvVarType(name, value, AddressList, v).value == TextList(LowerAll(Split(value, ',')))
  {
    var entries := Split(value, ',');
    var lowered := LowerAll(entries);
    assert AssertEnvVarType(name, value, AddressList, v) == ParseAddressList(name, value, v.isETHAddressHex);
    match FirstRejected(lowered, v.isETHAddressHex)
    case None =>
      assert forall k :: 0 <= k < |entries| ==> lowered[k] == ToLower(entries[k]);
    case Some(i) =>
      assert AssertEnvVarType(name, value, AddressList, v) == Failure(AssertionError(Indexed(name, i)));
      assert 0 <= i < |entries| && lowered[i] == ToLower(entries[i]);
  }

  /** A rejected address list names the first entry that is not an address by its index. */
  lemma AddressListRejected(name: string, value: string, v: EnvValidators)
    ensures AssertEnvVarType(name, value, AddressList, v).Failure? ==>
              exists i :: 0 <= i < |Split(value, ',')| && !v.isETHAddressHex(ToLower(Split(value, ',')[i]))
                       && (forall j :: 0 <= j < i ==> v.isETHAddressHex(ToLower(Split(value, ',')[j])))
                       && AssertEnvVarType(name, value, AddressList, v).error == AssertionError(Indexed(name, i))
  {
    var entries := Split(value, ',');
    var lowered := LowerAll(entries);
    assert AssertEnvVarType(name, value, AddressList, v) == ParseAddressList(name, value, v.isETHAddressHex);
    match FirstRejected(lowered, v.isETHAddressHex)
    case None =>
    case Some(i) =>
      assert AssertEnvVarType(name, value, AddressList, v) == Failure(AssertionError(Indexed(name, i)));
      assert forall k :: 0 <= k < |entries| ==> lowered[k] == ToLower(entries[k]);
  }

  lemma UrlListCase(name: string, value: string, v: EnvValidators)
    ensures AssertEnvVarType(name, value, UrlList, v) == ParseUrlList(name, value, v.isUri)
  {
  }

  /**
   * A URL list is split at commas; it is accepted, entries unchanged, exactly when
   * every entry is a URI, and otherwise the first entry that is not is reported as `name[i]`.
   */
  lemma UrlListChecked(name: string, value: string, v: EnvValidators)
    ensures AssertEnvVarType(name, value, UrlList, v).Success? ==> forall i :: 0 <= i < |Split(value, ',')| ==> v.isUri(Split(value, ',')[i])
    ensures (forall i :: 0 <= i < |Split(value, ',')| ==> v.isUri(Split(value, ',')[i])) ==> AssertEnvVarType(name, value, UrlList, v).Success?
    ensures AssertEnvVarType(name, value, UrlList, v).Success? ==> AssertEnvVarType(name, value, UrlList, v).value == TextList(Split(value, ','))
    ensures AssertEnvVarType(name, value, UrlList, v).Failure? ==>
              exists i :: 0 <= i < |Split(value, ',')| && !v.isUri(Split(value, ',')[i])
                       && (forall j :: 0 <= j < i ==> v.isUri(Split(value, ',')[j]))
                       && AssertEnvVarType(name, value, UrlList, v).error == AssertionError(Indexed(name, i))
  {
    UrlListCase(name, value, v);
    var urls := Split(value, ',');
    match FirstRejected(urls, v.isUri)
    case None =>
      assert ParseUrlList(name, value, v.isUri) == Success(TextList(urls));
    case Some(bad) =>
      assert ParseUrlList(name, value, v.isUri) == Failure(AssertionError(Indexed(name, bad)));
      assert bad < |urls| && !v.isUri(urls[bad]);
  }

  lemma ApiKeysCase(name: string, value: string, v: EnvValidators)
    ensures AssertEnvVarType(name, value, APIKeys, v) == ParseApiKeys(value, v.isUUID)
  {
  }

  /**
   * API keys are split at commas; they are accepted exactly when every key is a
   * UUID, and otherwise the first key that is not is quoted in the error.
   */
  lemma ApiKeysChecked(name: string, value: string, v: EnvValidators)
    ensures AssertEnvVarType(name, value, APIKeys, v).Success? ==> forall i :: 0 <= i < |Split(value, ',')| ==> v.isUUID(Split(value, ',')[i])
    ensures (forall i :: 0 <= i < |Split(value, ',')| ==> v.isUUID(Split(value, ',')[i])) ==> AssertEnvVarType(name, value, APIKeys, v).Success?
    ensures AssertEnvVarType(name, value, APIKeys, v).Success? ==> AssertEnvVarType(name, value, APIKeys, v).value == TextList(Split(value, ','))
    ensures AssertEnvVarType(name, value, APIKeys, v).Failure? ==>
              exists i :: 0 <= i < |Split(value, ',')| && !v.isUUID(Split(value, ',')[i])
                       && (forall j :: 0 <= j < i ==> v.isUUID(Split(value, ',')[j]))
                       && AssertEnvVarType(name, value, APIKeys, v).error == PlainError("API Key " + Split(value, ',')[i] + " isn't UUID compliant")
  {
    ApiKeysCase(name, value, v);
    var keys := Split(value, ',');
    match FirstRejected(keys, v.isUUID)
    case None =>
      assert ParseApiKeys(value, v.isUUID) == Success(TextList(keys));
    case Some(bad) =>
      assert ParseApiKeys(value, v.isUUID) == Failure(PlainError("API Key " + keys[bad] + " isn't UUID compliant"));
      assert bad < |keys| && !v.isUUID(keys[bad]);
  }

  lemma LogLevelCase(name: string, value: string, v: EnvValidators)
    ensures AssertEnvVarType(name, value, LogLevel, v) == ParseLogLevel(value, v.logLevels)
  {
  }

  /**
   * A log level is accepted exactly when its upper-cased text is a supported
   * level, and its value is the first index of that level; otherwise the error
   * lists the supported levels.
   */
  lemma LogLevelChecked(name: string, value: string, v: EnvValidators)
    ensures var r := AssertEnvVarType(name, value, LogLevel, v);
      && (r.Success? <==> ToUpper(value) in v.logLevels)
      && (r.Success? ==> r.value.IntValue? && 0 <= r.value.i < |v.logLevels|
                         && v.logLevels[r.value.i] == ToUpper(value) && ToUpper(value) !in v.logLevels[..r.value.i])
      && (r.Failure? ==> r.error == PlainError("Unsupported log level - " + value + ". Supported log levels " + JoinComma(v.logLevels)))
  {
    LogLevelCase(name, value, v);
  }

  /** A non-empty string is accepted as it is, and the empty string is rejected as not supplied. */
  lemma NonEmptyStringChecked(name: string, value: string, v: EnvValidators)
    ensures AssertEnvVarType(name, value, NonEmptyString, v).Success? <==> value != ""
    ensures value != "" ==> AssertEnvVarType(name, value, NonEmptyString, v).value == Text(value)
    ensures value == "" ==> AssertEnvVarType(name, value, NonEmptyString, v).error == PlainError(name + " must be supplied")
  {
  }
}
