/**
 * Random helpers (src/utils/number-utils.ts). `Math.random()` is an oracle:
 * each call is given as a value in [0, 1).
 */
module NumberUtils {
  import opened Numeric
  import opened Strings

  /** A value `Math.random()` may return. */
  predicate IsRandom(r: real)
  {
    0.0 <= r < 1.0
  }

  lemma ScaledRandomBounds(r: real, n: int)
    requires IsRandom(r)
    ensures n >= 1 ==> 0 <= (r * n as real).Floor <= n - 1
  {
    if n >= 1 {
      assert 0.0 <= r * n as real < n as real;
    }
  }

  /**
   * An integer drawn between `ceil(minimumSpecified)` and `floor(maximumSpecified)`,
   * both inclusive, when that range is not empty.
   */
  function RandomNumberInclusive(minimumSpecified: real, maximumSpecified: real, random: real): (r: int)
    requires IsRandom(random)
    ensures Ceil(minimumSpecified) <= maximumSpecified.Floor ==> Ceil(minimumSpecified) <= r <= maximumSpecified.Floor
  {
    var min := Ceil(minimumSpecified);
    var max := maximumSpecified.Floor;
    ScaledRandomBounds(random, max - min + 1);
    (random * (max - min + 1) as real).Floor + min
  }

  /** Number of iterations of `for (let i = 0; i < n; i++)` for any number `n`. */
  function IterationCount(n: real): (k: nat)
    ensures n <= k as real
    ensures k > 0 ==> ((k - 1) as real) < n
  {
    if n <= 0.0 then 0 else CeilBounds(n); Ceil(n)
  }

  /** The digit the loop appends for one random draw: an integer in 1..15 printed in base 16. */
  function HexDigitOf(random: real): (c: char)
    requires IsRandom(random)
    ensures IsLowerHexChar(c) && c != '0'
  {
    var d := RandomNumberInclusive(1.0, 15.0, random);
    DigitChar(d)
  }

  /** The string built from a sequence of random draws, one digit per draw. */
  function HexDigits(randoms: seq<real>): (s: string)
    requires forall i :: 0 <= i < |randoms| ==> IsRandom(randoms[i])
    ensures |s| == |randoms|
    ensures forall i :: 0 <= i < |s| ==> IsLowerHexChar(s[i]) && s[i] != '0'
  {
    if randoms == [] then "" else HexDigits(randoms[..|randoms| - 1]) + [HexDigitOf(randoms[|randoms| - 1])]
  }

  /**
   * `randomHexNumberOfLength(numberLength)`: appends one random non-zero hex digit
   * per iteration, so the result has exactly as many characters as the loop runs
   * (none when `numberLength <= 0`). `randoms` are the successive `Math.random()` values.
   */
  method RandomHexNumberOfLength(numberLength: real, randoms: seq<real>) returns (res: string)
    requires forall i :: 0 <= i < |randoms| ==> IsRandom(randoms[i])
    requires |randoms| >= IterationCount(numberLength)
    ensures |res| == IterationCount(numberLength)
    ensures numberLength <= 0.0 ==> res == ""
    ensures forall i :: 0 <= i < |res| ==> IsLowerHexChar(res[i]) && '1' <= res[i] <= 'f'
    ensures res == HexDigits(randoms[..IterationCount(numberLength)])
  {
    res := "";
    var i: nat := 0;
    while (i as real) < numberLength
      invariant i <= IterationCount(numberLength)
      invariant res == HexDigits(randoms[..i])
      decreases IterationCount(numberLength) - i
    {
      assert randoms[..i + 1][..i] == randoms[..i];
      res := res + [HexDigitOf(randoms[i])];
      i := i + 1;
    }
  }
}
