/**
 * Calldata and fee utilities (src/utils/service-utils.ts): repair of the
 * pay-taker transformer payload, the affiliate trailer, the liquidity-source
 * breakdown and the affiliate fee amounts.
 */
module ServiceUtils {
  import opened Wrappers
  import opened Numeric
  import opened Strings
  import opened Constants
  import opened Errors
  import opened NumberUtils
  import opened QuoteTypes
  import opened ObjectEntries

  // ---------------------------------------------------------------------------
  // ABI words
  // ---------------------------------------------------------------------------

  /** Hex characters in one ABI word. */
  const WORD: nat := 64

  /** `/^0x[0-9A-Fa-f]*$/`: the strings `hexZeroPad` accepts. */
  predicate IsHexString(s: string)
  {
    |s| >= 2 && s[0] == '0' && s[1] == 'x' && AllHex(s[2..])
  }

  /** Left-pads hex digits with zeros to one word. */
  function PadWord(digits: string): (w: string)
    requires |digits| <= WORD
    ensures |w| == WORD && w[WORD - |digits|..] == digits
    ensures forall i :: 0 <= i < WORD - |digits| ==> w[i] == '0'
  {
    Zeros(WORD - |digits|) + digits
  }

  /** `hexZeroPad(value, 32)`: rejects non-hex input and values longer than one word. */
  function HexZeroPad(value: string): (r: Result<string, Error>)
    ensures r.Success? <==> IsHexString(value) && |value| <= WORD + 2
    ensures r.Success? ==> |r.value| == WORD + 2 && r.value[..2] == "0x" && r.value[WORD + 2 - (|value| - 2)..] == value[2..]
  {
    if !IsHexString(value) then Failure(PlainError("invalid hex string"))
    else if |value| > WORD + 2 then Failure(PlainError("value out of range"))
    else Success("0x" + PadWord(value[2..]))
  }

  /** The word of an address, `hexZeroPad(address.toLowerCase(), 32).substr(2)`: lower-case hex. */
  function TokenWord(token: string): (r: Result<string, Error>)
    ensures r.Success? <==> IsHexString(ToLower(token)) && |token| <= WORD + 2
    ensures r.Success? ==> |r.value| == WORD && AllHex(r.value) && IsLower(r.value)
  {
    var lower := ToLower(token);
    var padded :- HexZeroPad(lower);
    assert padded[2..] == PadWord(lower[2..]);
    Success(padded[2..])
  }

  /** The word of a small number, `hexZeroPad('0x' + n.toString(16), 32).substr(2)`; it reads back as `n`. */
  function NumberWord(n: nat): (w: string)
    requires n < 0x1_0000
    ensures |w| == WORD && AllHex(w) && ValueOf(w, 16) == n
  {
    assert Pow(16, 4) == 0x1_0000;
    NatToStringLength(n, 16, 4);
    var digits := NatToString(n, 16);
    ValueOfZeros(WORD - |digits|, 16);
    ValueOfAppend(Zeros(WORD - |digits|), digits, 16);
    NatToStringRoundTrip(n, 16);
    PadWord(digits)
  }

  /** A string made of whole words. */
  function Concat(words: seq<string>): (s: string)
    ensures (forall j :: 0 <= j < |words| ==> |words[j]| == WORD) ==> |s| == |words| * WORD
  {
    if words == [] then "" else words[0] + Concat(words[1..])
  }

  /** Word `i` of a string of whole words is the `i`-th word. */
  lemma {:induction false} ConcatWord(words: seq<string>, i: nat)
    requires forall j :: 0 <= j < |words| ==> |words[j]| == WORD
    requires i < |words|
    ensures |Concat(words)| == |words| * WORD
    ensures Concat(words)[i * WORD..(i + 1) * WORD] == words[i]
  {
    if i > 0 {
      ConcatWord(words[1..], i - 1);
      assert Concat(words) == words[0] + Concat(words[1..]);
    }
  }

  // ---------------------------------------------------------------------------
  // fixCallData
  // ---------------------------------------------------------------------------

  const SEVEN_WORD: string := PadWord("7")
  const FORTY_WORD: string := PadWord("40")
  const TWENTY_WORD: string := PadWord("20")
  const ZERO_WORD: string := PadWord("0")

  /** The transformer's first two head words, 0x7 and 0x40. */
  const PAY_TAKER_TRANSFORMER_START_WORDS: string := SEVEN_WORD + FORTY_WORD

  /** The two words between the data size and the token array, 0x20 and 0x40. */
  const PAY_TAKER_TRANSFORMER_MIDDLE_WORDS: string := TWENTY_WORD + FORTY_WORD

  /** The literal `lit` occurs at `pos`, letters compared as the `i` flag compares them. */
  predicate LiteralAt(d: string, pos: int, lit: string)
  {
    0 <= pos && pos + |lit| <= |d| && EqualsIgnoreCase(d[pos..pos + |lit|], lit)
  }

  /** `[0-9a-f]{64}` with the `i` flag matches at `pos`. */
  predicate HexWordAt(d: string, pos: int)
  {
    0 <= pos && pos + WORD <= |d| && AllHex(d[pos..pos + WORD])
  }

  /** Length of a match: ten words with the optional native-token word, nine without. */
  function MatchLength(withNative: bool): nat
  {
    if withNative then 10 * WORD else 9 * WORD
  }

  /**
   * The pay-taker pattern matches the suffix of `d` starting at `p`: start words,
   * any word, middle words, two any words, the maker or the taker word, the
   * native word when `withNative`, the zero word, then the end of the input.
   */
  predicate PayTakerAt(d: string, p: int, makerW: string, takerW: string, nativeW: string, withNative: bool)
  {
    && p >= 0 && p + MatchLength(withNative) == |d|
    && LiteralAt(d, p, PAY_TAKER_TRANSFORMER_START_WORDS)
    && HexWordAt(d, p + 2 * WORD)
    && LiteralAt(d, p + 3 * WORD, PAY_TAKER_TRANSFORMER_MIDDLE_WORDS)
    && HexWordAt(d, p + 5 * WORD)
    && HexWordAt(d, p + 6 * WORD)
    && (LiteralAt(d, p + 7 * WORD, makerW) || LiteralAt(d, p + 7 * WORD, takerW))
    && (withNative ==> LiteralAt(d, p + 8 * WORD, nativeW))
    && LiteralAt(d, |d| - WORD, ZERO_WORD)
  }

  /** The pattern matches at `p`, with or without the optional native word. */
  predicate MatchesAt(d: string, p: int, makerW: string, takerW: string, nativeW: string)
  {
    PayTakerAt(d, p, makerW, takerW, nativeW, true) || PayTakerAt(d, p, makerW, takerW, nativeW, false)
  }

  /** `regEx.exec(d)` searching from position `p`: the first start at which the pattern matches. */
  function ExecFrom(d: string, p: nat, makerW: string, takerW: string, nativeW: string): (r: Option<nat>)
    ensures r.Some? ==> p <= r.value && MatchesAt(d, r.value, makerW, takerW, nativeW)
    decreases |d| + 1 - p
  {
    if p > |d| then None
    else if MatchesAt(d, p, makerW, takerW, nativeW) then Some(p)
    else ExecFrom(d, p + 1, makerW, takerW, nativeW)
  }

  /** The two starts at which the end-anchored pattern can match, the longer match first. */
  function LastMatch(d: string, makerW: string, takerW: string, nativeW: string): Option<nat>
  {
    if |d| >= 10 * WORD && PayTakerAt(d, |d| - 10 * WORD, makerW, takerW, nativeW, true) then Some(|d| - 10 * WORD)
    else if |d| >= 9 * WORD && PayTakerAt(d, |d| - 9 * WORD, makerW, takerW, nativeW, false) then Some(|d| - 9 * WORD)
    else None
  }

  lemma {:induction false} ExecFromCandidates(d: string, p: nat, makerW: string, takerW: string, nativeW: string)
    requires p <= |d| + 1
    ensures ExecFrom(d, p, makerW, takerW, nativeW)
         == if p + 10 * WORD <= |d| && PayTakerAt(d, |d| - 10 * WORD, makerW, takerW, nativeW, true) then Some(|d| - 10 * WORD)
            else if p + 9 * WORD <= |d| && PayTakerAt(d, |d| - 9 * WORD, makerW, takerW, nativeW, false) then Some(|d| - 9 * WORD)
            else None
    decreases |d| + 1 - p
  {
    if p <= |d| && !MatchesAt(d, p, makerW, takerW, nativeW) {
      ExecFromCandidates(d, p + 1, makerW, takerW, nativeW);
    }
  }

  /**
   * The pattern has a fixed length apart from the optional word and is anchored at
   * the end, so the left-to-right search finds one of two starts: ten words from
   * the end (with the native word, tried first) or nine words from the end.
   */
  lemma ExecCandidates(d: string, makerW: string, takerW: string, nativeW: string)
    ensures ExecFrom(d, 0, makerW, takerW, nativeW) == LastMatch(d, makerW, takerW, nativeW)
  {
    ExecFromCandidates(d, 0, makerW, takerW, nativeW);
  }

  /** Word `i` of the `WORD`-sized words of `s` counted from position `p`. */
  function WordAt(s: string, p: nat, i: nat): string
    requires p + (i + 1) * WORD <= |s|
  {
    s[p + i * WORD..p + (i + 1) * WORD]
  }

  /** The number of head words before the size word, and between it and the token array. */
  const FIRST_WORDS_LENGTH: nat := 2
  const MIDDLE_WORDS_LENGTH: nat := 3

  /**
   * The token array of the rewritten payload: the matched token, the trade token
   * it is not, and the native token. `foldCase` chooses how the matched text is
   * compared with the maker word: exactly (as written) or after lower-casing.
   */
  function AddressesWords(token: string, makerW: string, takerW: string, nativeW: string, foldCase: bool): seq<string>
  {
    var isMaker := if foldCase then ToLower(token) == makerW else token == makerW;
    [token, if isMaker then takerW else makerW, nativeW]
  }

  /**
   * The eleven words of the replacement: the start words, the total data size,
   * the middle words, the middle data size, the token count, the token array and
   * the closing zero word.
   */
  function ReplacementWords(addressesWords: seq<string>): (words: seq<string>)
    requires |addressesWords| == 3
    requires forall k :: 0 <= k < 3 ==> |addressesWords[k]| == WORD
    ensures |words| == 11
    ensures forall j :: 0 <= j < 11 ==> |words[j]| == WORD
  {
    var n := |addressesWords|;
    var totalDataSizeWord := NumberWord((FIRST_WORDS_LENGTH + MIDDLE_WORDS_LENGTH + n) * ONE_WORD_LENGTH);
    var middleDataSizeWord := NumberWord((MIDDLE_WORDS_LENGTH + n) * ONE_WORD_LENGTH);
    var tokensLengthWord := NumberWord(n);
    [SEVEN_WORD, FORTY_WORD, totalDataSizeWord, TWENTY_WORD, FORTY_WORD, middleDataSizeWord, tokensLengthWord]
      + addressesWords + [ZERO_WORD]
  }

  /** `replaceValue`: the replacement words concatenated. */
  function ReplaceValue(addressesWords: seq<string>): (r: string)
    requires |addressesWords| == 3
    requires forall k :: 0 <= k < 3 ==> |addressesWords[k]| == WORD
    ensures |r| == 11 * WORD
  {
    Concat(ReplacementWords(addressesWords))
  }

  /** The start and middle constants are the first two words and words three and four of a replacement. */
  lemma ReplaceValueConstants(addressesWords: seq<string>)
    requires |addressesWords| == 3
    requires forall k :: 0 <= k < 3 ==> |addressesWords[k]| == WORD
    ensures ReplaceValue(addressesWords)[..2 * WORD] == PAY_TAKER_TRANSFORMER_START_WORDS
    ensures ReplaceValue(addressesWords)[3 * WORD..5 * WORD] == PAY_TAKER_TRANSFORMER_MIDDLE_WORDS
  {
    var w := ReplacementWords(addressesWords);
    var r := ReplaceValue(addressesWords);
    ConcatWord(w, 0);
    ConcatWord(w, 1);
    ConcatWord(w, 3);
    ConcatWord(w, 4);
    assert r[..2 * WORD] == r[..WORD] + r[WORD..2 * WORD];
    assert r[3 * WORD..5 * WORD] == r[3 * WORD..4 * WORD] + r[4 * WORD..5 * WORD];
  }

  /** The matched text of the token group: the eighth word of the match. */
  function MatchedToken(data: string, p: nat): string
    requires p + 8 * WORD <= |data|
  {
    data[p + 7 * WORD..p + 8 * WORD]
  }

  /** `data.replace(regEx, replaceValue)` for a match at `p`, which runs to the end of the data. */
  function FixAt(data: string, p: nat, makerW: string, takerW: string, nativeW: string, foldCase: bool): string
    requires p + 8 * WORD <= |data| && |makerW| == WORD && |takerW| == WORD && |nativeW| == WORD
  {
    data[..p] + ReplaceValue(AddressesWords(MatchedToken(data, p), makerW, takerW, nativeW, foldCase))
  }

  /**
   * `fixCallData` with the case comparison chosen by `foldCase`; `nativeW` is the
   * native-token word, fixed when the module loads.
   */
  function FixCallDataWith(data: string, takerToken: string, makerToken: string, nativeW: string, foldCase: bool): (r: Result<string, Error>)
    requires |nativeW| == WORD
    ensures r.Success? <==> TokenWord(makerToken).Success? && TokenWord(takerToken).Success?
  {
    var makerW :- TokenWord(makerToken);
    var takerW :- TokenWord(takerToken);
    match ExecFrom(data, 0, makerW, takerW, nativeW)
    case None => Success(data)
    case Some(p) => Success(FixAt(data, p, makerW, takerW, nativeW, foldCase))
  }

  /** `NATIVE_TOKEN_WORD`, computed from the native-token placeholder address. */
  function NativeTokenWord(ethTokenAddress: string): (w: string)
    requires TokenWord(ethTokenAddress).Success?
    ensures |w| == WORD && IsLower(w)
  {
    TokenWord(ethTokenAddress).value
  }

  /**
   * `fixCallData(data, takerToken, makerToken)` as written: the captured token is
   * compared with the maker word exactly.
   */
  function FixCallData(data: string, takerToken: string, makerToken: string, ethTokenAddress: string): (r: Result<string, Error>)
    requires TokenWord(ethTokenAddress).Success?
    ensures r.Success? <==> TokenWord(makerToken).Success? && TokenWord(takerToken).Success?
  {
    FixCallDataWith(data, takerToken, makerToken, NativeTokenWord(ethTokenAddress), false)
  }

  /** `fixCallData` with the captured token lower-cased before the comparison. */
  function FixCallDataCaseFolded(data: string, takerToken: string, makerToken: string, ethTokenAddress: string): (r: Result<string, Error>)
    requires TokenWord(ethTokenAddress).Success?
    ensures r.Success? <==> TokenWord(makerToken).Success? && TokenWord(takerToken).Success?
  {
    FixCallDataWith(data, takerToken, makerToken, NativeTokenWord(ethTokenAddress), true)
  }

  /** Without a match the payload is returned unchanged. */
  lemma FixCallDataNoMatch(data: string, takerToken: string, makerToken: string, nativeW: string, foldCase: bool,
                           makerW: string, takerW: string)
    requires |nativeW| == WORD
    requires TokenWord(makerToken) == Success(makerW) && TokenWord(takerToken) == Success(takerW)
    requires LastMatch(data, makerW, takerW, nativeW).None?
    ensures FixCallDataWith(data, takerToken, makerToken, nativeW, foldCase) == Success(data)
  {
    ExecCandidates(data, makerW, takerW, nativeW);
  }

  /** With a match, the payload is rewritten from the match start, which is one of the two candidates. */
  lemma FixCallDataMatch(data: string, takerToken: string, makerToken: string, nativeW: string, foldCase: bool,
                         makerW: string, takerW: string)
    requires |nativeW| == WORD
    requires TokenWord(makerToken) == Success(makerW) && TokenWord(takerToken) == Success(takerW)
    requires LastMatch(data, makerW, takerW, nativeW).Some?
    ensures var p := LastMatch(data, makerW, takerW, nativeW).value;
      && (p + 10 * WORD == |data| || p + 9 * WORD == |data|)
      && (LiteralAt(data, p + 7 * WORD, makerW) || LiteralAt(data, p + 7 * WORD, takerW))
      && FixCallDataWith(data, takerToken, makerToken, nativeW, foldCase) == Success(FixAt(data, p, makerW, takerW, nativeW, foldCase))
  {
    ExecCandidates(data, makerW, takerW, nativeW);
  }

  /** Word `i` after a prefix of whole words is the `i`-th word. */
  lemma WordAfterPrefix(prefix: string, words: seq<string>, i: nat)
    requires forall j :: 0 <= j < |words| ==> |words[j]| == WORD
    requires i < |words|
    ensures |prefix + Concat(words)| == |prefix| + |words| * WORD
    ensures WordAt(prefix + Concat(words), |prefix|, i) == words[i]
  {
    ConcatWord(words, i);
    var c := Concat(words);
    assert (prefix + c)[|prefix| + i * WORD..|prefix| + (i + 1) * WORD] == c[i * WORD..(i + 1) * WORD];
  }

  /** A rewrite at `p` is the data before `p` followed by the eleven replacement words. */
  lemma FixAtWords(data: string, p: nat, makerW: string, takerW: string, nativeW: string, foldCase: bool)
    requires p + 8 * WORD <= |data| && |makerW| == WORD && |takerW| == WORD && |nativeW| == WORD
    ensures var out := FixAt(data, p, makerW, takerW, nativeW, foldCase);
      var words := ReplacementWords(AddressesWords(MatchedToken(data, p), makerW, takerW, nativeW, foldCase));
      && |out| == p + 11 * WORD
      && out[..p] == data[..p]
      && forall i :: 0 <= i < 11 ==> WordAt(out, p, i) == words[i]
  {
    var aw := AddressesWords(MatchedToken(data, p), makerW, takerW, nativeW, foldCase);
    var words := ReplacementWords(aw);
    var out := FixAt(data, p, makerW, takerW, nativeW, foldCase);
    forall i | 0 <= i < 11
      ensures WordAt(out, p, i) == words[i]
    {
      WordAfterPrefix(data[..p], words, i);
    }
  }

  /**
   * A rewrite at `p` keeps everything before `p` and then holds eleven words:
   * 0x7, 0x40, the data size 0x100 = (2 + 3 + 3) * 32, 0x20, 0x40, the middle size
   * 0xc0 = (3 + 3) * 32, the token count 3, three token words and a zero word.
   */
  lemma FixAtLayout(data: string, p: nat, makerW: string, takerW: string, nativeW: string, foldCase: bool)
    requires p + 8 * WORD <= |data| && |makerW| == WORD && |takerW| == WORD && |nativeW| == WORD
    ensures var out := FixAt(data, p, makerW, takerW, nativeW, foldCase);
      && |out| == p + 11 * WORD
      && out[..p] == data[..p]
      && WordAt(out, p, 0) == SEVEN_WORD
      && WordAt(out, p, 1) == FORTY_WORD
      && AllHex(WordAt(out, p, 2)) && ValueOf(WordAt(out, p, 2), 16) == 0x100
      && WordAt(out, p, 3) == TWENTY_WORD
      && WordAt(out, p, 4) == FORTY_WORD
      && AllHex(WordAt(out, p, 5)) && ValueOf(WordAt(out, p, 5), 16) == 0xc0
      && AllHex(WordAt(out, p, 6)) && ValueOf(WordAt(out, p, 6), 16) == 3
      && WordAt(out, p, 10) == ZERO_WORD
  {
    FixAtWords(data, p, makerW, takerW, nativeW, foldCase);
    var out := FixAt(data, p, makerW, takerW, nativeW, foldCase);
    var words := ReplacementWords(AddressesWords(MatchedToken(data, p), makerW, takerW, nativeW, foldCase));
    assert WordAt(out, p, 0) == words[0] == SEVEN_WORD;
    assert WordAt(out, p, 1) == words[1] == FORTY_WORD;
    assert WordAt(out, p, 2) == words[2] == NumberWord(0x100);
    assert WordAt(out, p, 3) == words[3] == TWENTY_WORD;
    assert WordAt(out, p, 4) == words[4] == FORTY_WORD;
    assert WordAt(out, p, 5) == words[5] == NumberWord(0xc0);
    assert WordAt(out, p, 6) == words[6] == NumberWord(3);
    assert WordAt(out, p, 10) == words[10] == ZERO_WORD;
  }

  /**
   * The token array of a rewrite at `p`: the matched text, then the taker word if
   * that text is the maker word (compared as `foldCase` says) and the maker word
   * otherwise, then the native word.
   */
  lemma FixAtTokens(data: string, p: nat, makerW: string, takerW: string, nativeW: string, foldCase: bool)
    requires p + 8 * WORD <= |data| && |makerW| == WORD && |takerW| == WORD && |nativeW| == WORD
    ensures var out := FixAt(data, p, makerW, takerW, nativeW, foldCase);
      && |out| == p + 11 * WORD
      && WordAt(out, p, 7) == MatchedToken(data, p)
      && WordAt(out, p, 8) == (if (if foldCase then ToLower(MatchedToken(data, p)) else MatchedToken(data, p)) == makerW then takerW else makerW)
      && WordAt(out, p, 9) == nativeW
  {
    FixAtWords(data, p, makerW, takerW, nativeW, foldCase);
    var out := FixAt(data, p, makerW, takerW, nativeW, foldCase);
    var aw := AddressesWords(MatchedToken(data, p), makerW, takerW, nativeW, foldCase);
    var words := ReplacementWords(aw);
    assert WordAt(out, p, 7) == words[7] == aw[0];
    assert WordAt(out, p, 8) == words[8] == aw[1];
    assert WordAt(out, p, 9) == words[9] == aw[2];
  }

  /** Two words that both match the same text ignoring case match each other ignoring case. */
  lemma EqualsIgnoreCaseShared(s: string, a: string, b: string)
    requires EqualsIgnoreCase(s, a) && EqualsIgnoreCase(s, b)
    ensures EqualsIgnoreCase(a, b)
  {
  }

  /**
   * On calldata whose token word is lower-case, as the quote encoder writes it,
   * the two trade entries of the token array are the maker and the taker word.
   */
  lemma FixAtTokenListLowerCase(data: string, p: nat, makerW: string, takerW: string, nativeW: string)
    requires p + 8 * WORD <= |data| && |makerW| == WORD && |takerW| == WORD && |nativeW| == WORD
    requires IsLower(makerW) && IsLower(takerW) && IsLower(MatchedToken(data, p))
    requires LiteralAt(data, p + 7 * WORD, makerW) || LiteralAt(data, p + 7 * WORD, takerW)
    ensures var out := FixAt(data, p, makerW, takerW, nativeW, false);
      && |out| == p + 11 * WORD
      && ((WordAt(out, p, 7) == makerW && WordAt(out, p, 8) == takerW)
          || (WordAt(out, p, 7) == takerW && WordAt(out, p, 8) == makerW))
  {
    FixAtTokens(data, p, makerW, takerW, nativeW, false);
    var token := MatchedToken(data, p);
    if LiteralAt(data, p + 7 * WORD, makerW) {
      LowerEqualsIgnoreCase(token, makerW);
    } else {
      LowerEqualsIgnoreCase(token, takerW);
    }
  }

  /**
   * With the matched text lower-cased before the comparison, the two trade entries
   * of the token array are the maker and the taker word whatever the case of the data.
   */
  lemma FixAtTokenListCaseFolded(data: string, p: nat, makerW: string, takerW: string, nativeW: string)
    requires p + 8 * WORD <= |data| && |makerW| == WORD && |takerW| == WORD && |nativeW| == WORD
    requires IsLower(makerW) && IsLower(takerW)
    requires LiteralAt(data, p + 7 * WORD, makerW) || LiteralAt(data, p + 7 * WORD, takerW)
    ensures var out := FixAt(data, p, makerW, takerW, nativeW, true);
      && |out| == p + 11 * WORD
      && ((ToLower(WordAt(out, p, 7)) == makerW && WordAt(out, p, 8) == takerW)
          || (ToLower(WordAt(out, p, 7)) == takerW && WordAt(out, p, 8) == makerW))
  {
    FixAtTokens(data, p, makerW, takerW, nativeW, true);
    var token := MatchedToken(data, p);
    if LiteralAt(data, p + 7 * WORD, makerW) {
      ToLowerEqualsIgnoreCase(token, makerW);
    } else {
      ToLowerEqualsIgnoreCase(token, takerW);
    }
  }

  /**
   * As written, a matched maker word that differs from the lower-case maker word
   * only in case is taken for the taker word: the maker word is appended again and
   * the taker token is missing from the token array.
   */
  lemma FixAtDropsTakerOnUpperCase(data: string, p: nat, makerW: string, takerW: string, nativeW: string)
    requires p + 8 * WORD <= |data| && |makerW| == WORD && |takerW| == WORD && |nativeW| == WORD
    requires IsLower(makerW) && IsLower(takerW) && makerW != takerW
    requires LiteralAt(data, p + 7 * WORD, makerW) && MatchedToken(data, p) != makerW
    ensures var out := FixAt(data, p, makerW, takerW, nativeW, false);
      && |out| == p + 11 * WORD
      && EqualsIgnoreCase(WordAt(out, p, 7), makerW)
      && WordAt(out, p, 8) == makerW
      && !EqualsIgnoreCase(WordAt(out, p, 7), takerW) && WordAt(out, p, 8) != takerW
  {
    FixAtTokens(data, p, makerW, takerW, nativeW, false);
    var token := MatchedToken(data, p);
    if EqualsIgnoreCase(token, takerW) {
      EqualsIgnoreCaseShared(token, makerW, takerW);
      LowerEqualsIgnoreCase(makerW, takerW);
    }
  }

  /** A word ending in '0' where the start words hold the 7 of 0x7 cannot begin a match. */
  lemma NoStartWordsAt(s: string, pos: nat)
    requires pos + WORD <= |s| && s[pos + WORD - 1] == '0'
    ensures !LiteralAt(s, pos, PAY_TAKER_TRANSFORMER_START_WORDS)
  {
    assert SEVEN_WORD[WORD - 1..] == "7";
    assert PAY_TAKER_TRANSFORMER_START_WORDS[WORD - 1] == '7';
  }

  /** The last characters of the 0x40 word and of the 0x100 size word of a rewrite. */
  lemma FixAtSizeDigits(data: string, p: nat, makerW: string, takerW: string, nativeW: string, foldCase: bool)
    requires p + 8 * WORD <= |data| && |makerW| == WORD && |takerW| == WORD && |nativeW| == WORD
    ensures var out := FixAt(data, p, makerW, takerW, nativeW, foldCase);
      && |out| == p + 11 * WORD
      && out[p + 2 * WORD - 1] == '0' && out[p + 3 * WORD - 1] == '0'
  {
    FixAtWords(data, p, makerW, takerW, nativeW, foldCase);
    var out := FixAt(data, p, makerW, takerW, nativeW, foldCase);
    var words := ReplacementWords(AddressesWords(MatchedToken(data, p), makerW, takerW, nativeW, foldCase));
    assert WordAt(out, p, 1) == words[1] == FORTY_WORD;
    assert FORTY_WORD[WORD - 2..] == "40";
    assert out[p + 2 * WORD - 1] == WordAt(out, p, 1)[WORD - 1];
    var digits := NatToString(0x100, 16);
    assert digits[|digits| - 1] == DigitChar(0) == '0';
    assert WordAt(out, p, 2) == words[2] == PadWord(digits);
    assert out[p + 3 * WORD - 1] == WordAt(out, p, 2)[WORD - 1];
  }

  /**
   * A rewritten payload does not match again: the two candidate starts fall on the
   * 0x40 word and on the 0x100 size word, which both end in '0' where the pattern
   * needs the 7 of 0x7.
   */
  lemma FixAtNoSecondMatch(data: string, p: nat, makerW: string, takerW: string, nativeW: string, foldCase: bool)
    requires p + 8 * WORD <= |data| && |makerW| == WORD && |takerW| == WORD && |nativeW| == WORD
    ensures LastMatch(FixAt(data, p, makerW, takerW, nativeW, foldCase), makerW, takerW, nativeW).None?
  {
    FixAtSizeDigits(data, p, makerW, takerW, nativeW, foldCase);
    var out := FixAt(data, p, makerW, takerW, nativeW, foldCase);
    NoStartWordsAt(out, p + WORD);
    NoStartWordsAt(out, p + 2 * WORD);
  }

  /** Fixing calldata a second time changes nothing. */
  lemma FixCallDataIdempotent(data: string, takerToken: string, makerToken: string, nativeW: string, foldCase: bool)
    requires |nativeW| == WORD
    requires FixCallDataWith(data, takerToken, makerToken, nativeW, foldCase).Success?
    ensures var out := FixCallDataWith(data, takerToken, makerToken, nativeW, foldCase).value;
      FixCallDataWith(out, takerToken, makerToken, nativeW, foldCase) == Success(out)
  {
    var makerW := TokenWord(makerToken).value;
    var takerW := TokenWord(takerToken).value;
    if LastMatch(data, makerW, takerW, nativeW).None? {
      FixCallDataNoMatch(data, takerToken, makerToken, nativeW, foldCase, makerW, takerW);
    } else {
      FixCallDataMatch(data, takerToken, makerToken, nativeW, foldCase, makerW, takerW);
      var p := LastMatch(data, makerW, takerW, nativeW).value;
      FixAtNoSecondMatch(data, p, makerW, takerW, nativeW, foldCase);
      FixCallDataNoMatch(FixAt(data, p, makerW, takerW, nativeW, foldCase), takerToken, makerToken, nativeW, foldCase, makerW, takerW);
    }
  }

  // ---------------------------------------------------------------------------
  // attributeCallData
  // ---------------------------------------------------------------------------

  /**
   * The ABI encoder of `ZeroExAPIAffiliate(address affiliate, uint256 timestamp)`:
   * it returns the `0x`-prefixed encoded call for an affiliate and a number.
   */
  type AffiliateEncoder = (string, nat) -> string

  datatype AttributedCallData = AttributedCallData(affiliatedData: string, decodedUniqueId: string)

  /** `affiliateAddress ? affiliateAddress : FEE_RECIPIENT_ADDRESS`: an absent or empty address falls back. */
  function AffiliateOrDefault(affiliateAddress: Option<string>, feeRecipient: string): string
  {
    if affiliateAddress.Some? && affiliateAddress.value != "" then affiliateAddress.value else feeRecipient
  }

  /** `new BigNumber(Date.now() / 1000).integerValue()`: milliseconds to seconds, rounded half up. */
  function TimestampInSeconds(nowMs: nat): (ts: nat)
    ensures 1000 * ts <= nowMs + 500 && nowMs < 1000 * ts + 500
  {
    RoundHalfUpBounds(nowMs as real / 1000.0);
    RoundHalfUp(nowMs as real / 1000.0)
  }

  /** `String.prototype.slice(2)`. */
  function DropPrefix(s: string): (r: string)
    ensures |s| >= 2 ==> s == s[..2] + r
    ensures |s| < 2 ==> r == ""
  {
    if |s| >= 2 then s[2..] else ""
  }

  /** `new BigNumber(random + hexTimestamp, 16)`: the random digits followed by the timestamp in base 16. */
  function UniqueIdentifier(random: string, ts: nat): nat
    requires AllHex(random)
  {
    ValueOfAppend(random, NatToString(ts, 16), 16);
    ValueOf(random + NatToString(ts, 16), 16)
  }

  /**
   * `attributeCallData(data, affiliateAddress)`: the clock reading `nowMs`, the
   * `Math.random()` draws and the ABI encoder are parameters.
   */
  function AttributeCallData(data: string, affiliateAddress: Option<string>, feeRecipient: string,
                             nowMs: nat, randoms: seq<real>, encode: AffiliateEncoder): (r: AttributedCallData)
    requires |randoms| >= 10 && forall i :: 0 <= i < |randoms| ==> IsRandom(randoms[i])
    ensures StartsWith(r.affiliatedData, data)
  {
    var timestampInSeconds := TimestampInSeconds(nowMs);
    var randomNumber := HexDigits(randoms[..10]);
    var uniqueIdentifier := UniqueIdentifier(randomNumber, timestampInSeconds);
    var encodedAffiliateData := encode(AffiliateOrDefault(affiliateAddress, feeRecipient), uniqueIdentifier);
    AttributedCallData(data + DropPrefix(encodedAffiliateData),
                       randomNumber + "-" + NatToString(timestampInSeconds, 10))
  }

  /** The random part is what `randomHexNumberOfLength(10)` builds from the same draws. */
  lemma RandomPartLength(randoms: seq<real>)
    requires |randoms| >= 10 && forall i :: 0 <= i < |randoms| ==> IsRandom(randoms[i])
    ensures IterationCount(10.0) == 10
    ensures |HexDigits(randoms[..10])| == 10
  {
  }

  /**
   * The data is followed by the encoded trailer without its `0x`, the trailer
   * names the given affiliate or, when it is absent or empty, the fee recipient.
   */
  lemma AttributeCallDataTrailer(data: string, affiliateAddress: Option<string>, feeRecipient: string,
                                 nowMs: nat, randoms: seq<real>, encode: AffiliateEncoder)
    requires |randoms| >= 10 && forall i :: 0 <= i < |randoms| ==> IsRandom(randoms[i])
    ensures var r := AttributeCallData(data, affiliateAddress, feeRecipient, nowMs, randoms, encode);
      var id := UniqueIdentifier(HexDigits(randoms[..10]), TimestampInSeconds(nowMs));
      && ((affiliateAddress.None? || affiliateAddress == Some("")) ==>
            r.affiliatedData == data + DropPrefix(encode(feeRecipient, id)))
      && ((affiliateAddress.Some? && affiliateAddress.value != "") ==>
            r.affiliatedData == data + DropPrefix(encode(affiliateAddress.value, id)))
      && ((affiliateAddress.None? || affiliateAddress == Some("")) ==>
            r == AttributeCallData(data, Some(feeRecipient), feeRecipient, nowMs, randoms, encode))
  {
  }

  /**
   * `decodedUniqueId` splits at its one '-' into the ten random digits and the
   * decimal timestamp in seconds.
   */
  lemma {:induction false} DecodedUniqueIdParts(data: string, affiliateAddress: Option<string>, feeRecipient: string,
                                                nowMs: nat, randoms: seq<real>, encode: AffiliateEncoder)
    requires |randoms| >= 10 && forall i :: 0 <= i < |randoms| ==> IsRandom(randoms[i])
    ensures var r := AttributeCallData(data, affiliateAddress, feeRecipient, nowMs, randoms, encode);
      var parts := Split(r.decodedUniqueId, '-');
      && |parts| == 2
      && parts[0] == HexDigits(randoms[..10]) && |parts[0]| == 10
      && parts[1] == NatToString(TimestampInSeconds(nowMs), 10)
  {
    var random := HexDigits(randoms[..10]);
    var decimal := NatToString(TimestampInSeconds(nowMs), 10);
    assert '-' !in random by {
      forall i | 0 <= i < |random|
        ensures random[i] != '-'
      {
        assert IsLowerHexChar(random[i]);
      }
    }
    assert '-' !in decimal by {
      forall i | 0 <= i < |decimal|
        ensures decimal[i] != '-'
      {
        assert IsLowerHexChar(decimal[i]);
      }
    }
    SplitAround(random, decimal, '-');
  }

  /**
   * The encoded identifier holds the random digits above the timestamp: dividing by
   * 16 to the number of timestamp digits gives the random part back, and the
   * remainder is the timestamp.
   */
  lemma UniqueIdentifierParts(random: string, ts: nat)
    requires AllHex(random)
    ensures var shift := Pow(16, |NatToString(ts, 16)|);
      && UniqueIdentifier(random, ts) / shift == ValueOf(random, 16)
      && UniqueIdentifier(random, ts) % shift == ts
  {
    var digits := NatToString(ts, 16);
    var shift := Pow(16, |digits|);
    ValueOfAppend(random, digits, 16);
    NatToStringRoundTrip(ts, 16);
    NatToStringBound(ts, 16);
    DivModUnique(UniqueIdentifier(random, ts), shift, ValueOf(random, 16), ts);
  }

  lemma DivModUnique(n: nat, d: nat, q: nat, r: nat)
    requires 0 <= r < d && n == q * d + r
    ensures n / d == q && n % d == r
  {
    var q', r' := n / d, n % d;
    if q > q' {
      MulAtLeast(q - q', d);
    } else if q < q' {
      MulAtLeast(q' - q, d);
    }
  }

  lemma MulAtLeast(k: int, d: int)
    requires k >= 1 && d >= 0
    ensures k * d >= d
  {
  }

  // ---------------------------------------------------------------------------
  // convertSourceBreakdownToArray
  // ---------------------------------------------------------------------------

  /** The breakdown's type: only the MultiHop key holds a multihop record. */
  predicate RecordsUnderMultiHop(e: Entries<Breakdown>)
  {
    forall i :: 0 <= i < |e| && e[i].1.MultiHopBreakdown? ==> e[i].0 == MULTI_HOP
  }

  /** The default breakdown: every source of the chain with a zero proportion. */
  function DefaultBreakdown(sources: seq<string>): Entries<Breakdown>
  {
    AssignAll([], seq(|sources|, i requires 0 <= i < |sources| => (sources[i], Proportion(0.0))))
  }

  /** `{ ...defaultSourceBreakdown, ...sourceBreakdown }`. */
  function MergedBreakdown(sources: seq<string>, sourceBreakdown: Entries<Breakdown>): (merged: Entries<Breakdown>)
    ensures RecordsUnderMultiHop(sourceBreakdown) ==> RecordsUnderMultiHop(merged)
  {
    var defaults := seq(|sources|, i requires 0 <= i < |sources| => (sources[i], Proportion(0.0)));
    AssignAllRecordsUnderMultiHop([], defaults);
    if RecordsUnderMultiHop(sourceBreakdown) then
      AssignAllRecordsUnderMultiHop(DefaultBreakdown(sources), sourceBreakdown);
      AssignAll(DefaultBreakdown(sources), sourceBreakdown)
    else
      AssignAll(DefaultBreakdown(sources), sourceBreakdown)
  }

  /**
   * One response entry: a multihop record under the MultiHop key keeps its other
   * fields; a proportion gets its source name, with Native shown as "0x".
   * `toPrecision` stands for `new BigNumber(x.toPrecision(4))`.
   */
  function ToLiquiditySource(source: string, breakdown: Breakdown, toPrecision: real -> real): (s: LiquiditySource)
    requires breakdown.MultiHopBreakdown? ==> source == MULTI_HOP
    ensures s.proportion == toPrecision(breakdown.proportion)
    ensures s.name == (if source == NATIVE then "0x" else source)
    ensures s.intermediateToken.Some? <==> breakdown.MultiHopBreakdown?
    ensures breakdown.MultiHopBreakdown? ==> s.intermediateToken == Some(breakdown.intermediateToken) && s.hops == Some(breakdown.hops)
    ensures breakdown.Proportion? ==> s.hops.None?
  {
    if source == MULTI_HOP && breakdown.MultiHopBreakdown? then
      LiquiditySource(MULTI_HOP, toPrecision(breakdown.proportion), Some(breakdown.intermediateToken), Some(breakdown.hops))
    else
      LiquiditySource(if source == NATIVE then "0x" else source, toPrecision(breakdown.proportion), None, None)
  }

  lemma {:induction false} SetRecordsUnderMultiHop(e: Entries<Breakdown>, k: string, v: Breakdown)
    requires RecordsUnderMultiHop(e) && (v.MultiHopBreakdown? ==> k == MULTI_HOP)
    ensures RecordsUnderMultiHop(Set(e, k, v))
  {
    if e != [] && e[0].0 != k {
      SetRecordsUnderMultiHop(e[1..], k, v);
      assert Set(e, k, v) == [e[0]] + Set(e[1..], k, v);
    }
  }

  lemma {:induction false} AssignAllRecordsUnderMultiHop(target: Entries<Breakdown>, source: Entries<Breakdown>)
    requires RecordsUnderMultiHop(target) && RecordsUnderMultiHop(source)
    ensures RecordsUnderMultiHop(AssignAll(target, source))
    decreases |source|
  {
    if source != [] {
      SetRecordsUnderMultiHop(target, source[0].0, source[0].1);
      AssignAllRecordsUnderMultiHop(Set(target, source[0].0, source[0].1), source[1..]);
    }
  }

  /** `convertSourceBreakdownToArray(sourceBreakdown)` for the chain's `sources`: one entry per merged key, in order. */
  function ConvertSourceBreakdownToArray(sourceBreakdown: Entries<Breakdown>, sources: seq<string>,
                                         toPrecision: real -> real): (r: seq<LiquiditySource>)
    requires RecordsUnderMultiHop(sourceBreakdown)
    ensures |r| == |MergedBreakdown(sources, sourceBreakdown)|
    ensures forall i :: 0 <= i < |r| ==> r[i] == ToLiquiditySource(MergedBreakdown(sources, sourceBreakdown)[i].0,
                                                                   MergedBreakdown(sources, sourceBreakdown)[i].1, toPrecision)
  {
    var merged := MergedBreakdown(sources, sourceBreakdown);
    seq(|merged|, i requires 0 <= i < |merged| => ToLiquiditySource(merged[i].0, merged[i].1, toPrecision))
  }

  /**
   * The merged keys are the chain's sources in order, without repeats, followed by
   * the breakdown's other keys in their order; each key appears once, and a key
   * reads as in the breakdown when the breakdown has it and as a zero proportion
   * otherwise.
   */
  lemma MergedBreakdownSpec(sources: seq<string>, sourceBreakdown: Entries<Breakdown>, k: string)
    requires DistinctKeys(sourceBreakdown)
    ensures var merged := MergedBreakdown(sources, sourceBreakdown);
      && Keys(merged) == AppendNewKeys(AppendNewKeys([], seq(|sources|, i requires 0 <= i < |sources| => (sources[i], Proportion(0.0)))), sourceBreakdown)
      && DistinctKeys(merged)
      && (k in Keys(merged) <==> k in sources || k in Keys(sourceBreakdown))
      && (k in Keys(sourceBreakdown) ==> Get(merged, k) == Get(sourceBreakdown, k))
      && (k in sources && k !in Keys(sourceBreakdown) ==> Get(merged, k) == Some(Proportion(0.0)))
  {
    var defaults := seq(|sources|, i requires 0 <= i < |sources| => (sources[i], Proportion(0.0)));
    var d := DefaultBreakdown(sources);
    AssignAllKeys([], defaults);
    AssignAllKeys(d, sourceBreakdown);
    AssignAllDistinct([], defaults);
    AssignAllDistinct(d, sourceBreakdown);
    AppendNewKeysSpec([], defaults);
    AppendNewKeysSpec(Keys(d), sourceBreakdown);
    assert k in sources <==> k in Keys(defaults) by {
      assert forall i :: 0 <= i < |sources| ==> Keys(defaults)[i] == sources[i];
    }
    AssignAllGet(d, sourceBreakdown, k);
    if k in sources && k !in Keys(sourceBreakdown) {
      DefaultsGet(sources, k);
    }
  }

  /** A source of the chain reads as a zero proportion in the defaults. */
  lemma {:induction false} DefaultsGet(sources: seq<string>, k: string)
    requires k in sources
    ensures Get(DefaultBreakdown(sources), k) == Some(Proportion(0.0))
  {
    var defaults := seq(|sources|, i requires 0 <= i < |sources| => (sources[i], Proportion(0.0)));
    assert k in Keys(defaults) by {
      assert forall i :: 0 <= i < |sources| ==> Keys(defaults)[i] == sources[i];
    }
    AllZeroGet([], defaults, k);
  }

  /** Assigning only zero proportions leaves every assigned key reading zero. */
  lemma {:induction false} AllZeroGet(target: Entries<Breakdown>, source: Entries<Breakdown>, k: string)
    requires forall i :: 0 <= i < |source| ==> source[i].1 == Proportion(0.0)
    requires k in Keys(target) ==> Get(target, k) == Some(Proportion(0.0))
    requires k in Keys(target) || k in Keys(source)
    ensures Get(AssignAll(target, source), k) == Some(Proportion(0.0))
    decreases |source|
  {
    if source != [] {
      var t := Set(target, source[0].0, source[0].1);
      SetGet(target, source[0].0, source[0].1, k);
      SetKeys(target, source[0].0, source[0].1);
      assert Keys(source) == [source[0].0] + Keys(source[1..]);
      AllZeroGet(t, source[1..], k);
    }
  }

  // ---------------------------------------------------------------------------
  // getAffiliateFeeAmounts
  // ---------------------------------------------------------------------------

  /** `m.times(pct).dividedBy(pct + 1).integerValue(ROUND_DOWN)` for a non-negative rate. */
  function FeeShare(m: nat, pct: real): (f: nat)
    requires pct >= 0.0
  {
    FeeShareExact(m, pct);
    ((m as real * pct) / (pct + 1.0)).Floor
  }

  lemma FeeShareExact(m: nat, pct: real)
    requires pct >= 0.0
    ensures 0.0 <= (m as real * pct) / (pct + 1.0) <= m as real
    ensures (m as real * pct) / (pct + 1.0) * (pct + 1.0) == m as real * pct
  {
    var x := m as real * pct;
    assert 0.0 <= x;
    assert x <= m as real * (pct + 1.0);
    DivMonotone(x, m as real * (pct + 1.0), pct + 1.0);
    MulDivCancel(m as real, pct + 1.0);
  }

  /**
   * The fee taken from the bought amount is the rate applied to what the taker
   * keeps, rounded down: `f <= pct * (m - f)` and `pct * (m - f) < f + 1 + pct`,
   * and it is below the amount whenever the amount is positive.
   */
  lemma FeeShareBounds(m: nat, pct: real)
    requires pct >= 0.0
    ensures FeeShare(m, pct) <= m
    ensures m > 0 ==> FeeShare(m, pct) < m
    ensures FeeShare(m, pct) as real <= pct * (m - FeeShare(m, pct)) as real
    ensures pct * (m - FeeShare(m, pct)) as real < FeeShare(m, pct) as real + 1.0 + pct
  {
    var f := FeeShare(m, pct);
    var x := (m as real * pct) / (pct + 1.0);
    FeeShareExact(m, pct);
    assert f as real <= x < f as real + 1.0;
    MulMonotone(f as real, x, pct + 1.0);
    MulStrict(x, f as real + 1.0, pct + 1.0);
    assert f as real * (pct + 1.0) == f as real * pct + f as real;
    assert (f as real + 1.0) * (pct + 1.0) == f as real * pct + f as real + pct + 1.0;
    assert pct * (m - f) as real == pct * m as real - pct * f as real;
    if m > 0 {
      assert m as real * (pct + 1.0) == m as real * pct + m as real;
      DivStrict(m as real * pct, m as real * (pct + 1.0), pct + 1.0);
      MulDivCancel(m as real, pct + 1.0);
      assert x < m as real;
      assert f < m;
    }
    assert x * (pct + 1.0) == m as real * pct;
    assert m as real * pct < f as real * pct + f as real + pct + 1.0;
    assert pct * m as real == m as real * pct && pct * f as real == f as real * pct;
  }

  lemma MulStrict(a: real, b: real, p: real)
    requires p > 0.0 && a < b
    ensures a * p < b * p
  {
  }

  /** The fee options that take no fee: no fee type, or no usable recipient. */
  predicate TakesNoFee(fee: AffiliateFee)
  {
    fee.feeType == NoFee || fee.recipient == NULL_ADDRESS || fee.recipient == ""
  }

  /**
   * `getAffiliateFeeAmounts(quote, fee)`: no fee amounts and no gas without a fee;
   * otherwise the buy-side share of the worst-case bought amount and the gas of
   * the transformer that takes it. The sell-side fee is always zero.
   */
  function GetAffiliateFeeAmounts(quote: SwapQuote, fee: AffiliateFee): (r: AffiliateFeeAmounts)
    requires fee.buyTokenPercentageFee >= 0.0
    ensures r.sellTokenFeeAmount == 0
    ensures TakesNoFee(fee) ==> r.buyTokenFeeAmount == 0 && r.gasCost == 0
    ensures !TakesNoFee(fee) ==> r.buyTokenFeeAmount == FeeShare(quote.worstCaseQuoteInfo.makerAmount, fee.buyTokenPercentageFee)
    ensures !TakesNoFee(fee) && fee.feeType == PercentageFee ==> r.gasCost == AFFILIATE_FEE_TRANSFORMER_GAS
    ensures !TakesNoFee(fee) && fee.feeType == PositiveSlippageFee ==> r.gasCost == POSITIVE_SLIPPAGE_FEE_TRANSFORMER_GAS
    ensures r.buyTokenFeeAmount <= quote.worstCaseQuoteInfo.makerAmount
  {
    FeeShareBounds(quote.worstCaseQuoteInfo.makerAmount, fee.buyTokenPercentageFee);
    if TakesNoFee(fee) then AffiliateFeeAmounts(0, 0, 0)
    else
      var minBuyAmount := quote.worstCaseQuoteInfo.makerAmount;
      var buyTokenFeeAmount := FeeShare(minBuyAmount, fee.buyTokenPercentageFee);
      AffiliateFeeAmounts(0, buyTokenFeeAmount,
        if fee.feeType == PercentageFee then AFFILIATE_FEE_TRANSFORMER_GAS else POSITIVE_SLIPPAGE_FEE_TRANSFORMER_GAS)
  }
}
