/**
 * String helpers with the semantics of the JavaScript built-ins the service uses:
 * ASCII case mapping, radix conversion of integers, `split`, `startsWith`,
 * substring tests and single-occurrence `replace`.
 */
module Strings {
  import opened Numeric

  /** `toLowerCase` on one character (ASCII letters; other characters are kept). */
  function LowerChar(c: char): char
  {
    if 'A' <= c <= 'Z' then (c as int + 32) as char else c
  }

  /** `toUpperCase` on one character (ASCII letters; other characters are kept). */
  function UpperChar(c: char): char
  {
    if 'a' <= c <= 'z' then (c as int - 32) as char else c
  }

  function ToLower(s: string): (r: string)
    ensures |r| == |s|
    ensures forall i :: 0 <= i < |s| ==> r[i] == LowerChar(s[i])
  {
    if s == [] then [] else [LowerChar(s[0])] + ToLower(s[1..])
  }

  /** No upper-case ASCII letter occurs in `s`. */
  predicate IsLower(s: string)
  {
    forall i :: 0 <= i < |s| ==> LowerChar(s[i]) == s[i]
  }

  /** Two lower-case strings that agree ignoring case are equal. */
  lemma LowerEqualsIgnoreCase(s: string, t: string)
    requires IsLower(s) && IsLower(t) && EqualsIgnoreCase(s, t)
    ensures s == t
  {
    forall i | 0 <= i < |s|
      ensures s[i] == t[i]
    {
      assert UpperChar(s[i]) == UpperChar(t[i]);
    }
  }

  /** Against a lower-case word, agreeing ignoring case means lower-casing gives the word. */
  lemma ToLowerEqualsIgnoreCase(s: string, t: string)
    requires IsLower(t) && EqualsIgnoreCase(s, t)
    ensures ToLower(s) == t
  {
    forall i | 0 <= i < |s|
      ensures ToLower(s)[i] == t[i]
    {
      assert UpperChar(s[i]) == UpperChar(t[i]);
    }
  }

  function ToUpper(s: string): (r: string)
    ensures |r| == |s|
    ensures forall i :: 0 <= i < |s| ==> r[i] == UpperChar(s[i])
  {
    if s == [] then [] else [UpperChar(s[0])] + ToUpper(s[1..])
  }

  /**
   * Equality under the case folding of a case-insensitive regular expression
   * whose pattern characters are ASCII.
   */
  predicate EqualsIgnoreCase(s: string, t: string)
  {
    |s| == |t| && forall i :: 0 <= i < |s| ==> UpperChar(s[i]) == UpperChar(t[i])
  }

  /** Characters matched by `[0-9a-f]` under the `i` flag. */
  predicate IsHexChar(c: char)
  {
    '0' <= c <= '9' || 'a' <= c <= 'f' || 'A' <= c <= 'F'
  }

  predicate IsLowerHexChar(c: char)
  {
    '0' <= c <= '9' || 'a' <= c <= 'f'
  }

  predicate AllHex(s: string)
  {
    forall i :: 0 <= i < |s| ==> IsHexChar(s[i])
  }

  /** A string of `n` zero digits. */
  function Zeros(n: nat): (r: string)
    ensures |r| == n
    ensures forall i :: 0 <= i < n ==> r[i] == '0'
  {
    seq(n, _ => '0')
  }

  /** The digit character `Number.prototype.toString(radix)` writes for `d`. */
  function DigitChar(d: nat): (c: char)
    requires d < 16
    ensures IsLowerHexChar(c)
  {
    if d < 10 then ('0' as int + d) as char else ('a' as int + d - 10) as char
  }

  /** The value of one digit character, either case. */
  function DigitValue(c: char): (d: nat)
    requires IsHexChar(c)
    ensures d < 16
  {
    if '0' <= c <= '9' then c as int - '0' as int
    else if 'a' <= c <= 'f' then c as int - 'a' as int + 10
    else c as int - 'A' as int + 10
  }

  lemma DigitRoundTrip(d: nat)
    requires d < 16
    ensures DigitValue(DigitChar(d)) == d
  {
  }

  /** The numeric value of a digit string in the given radix (`parseInt(s, radix)` on clean input). */
  function ValueOf(s: string, radix: nat): nat
    requires AllHex(s)
  {
    if s == [] then 0 else ValueOf(s[..|s| - 1], radix) * radix + DigitValue(s[|s| - 1])
  }

  lemma DivMod(n: nat, radix: nat)
    requires 2 <= radix <= n
    ensures 0 < n / radix < n && n % radix < radix
    ensures n == (n / radix) * radix + n % radix
  {
  }

  /** `n.toString(radix)`: lower-case digits, no leading zero except for 0 itself. */
  function NatToString(n: nat, radix: nat): (r: string)
    requires 2 <= radix <= 16
    ensures |r| >= 1
    ensures forall i :: 0 <= i < |r| ==> IsLowerHexChar(r[i])
    decreases n
  {
    if n < radix then [DigitChar(n)]
    else
      DivMod(n, radix);
      NatToString(n / radix, radix) + [DigitChar(n % radix)]
  }

  /** Printing an integer and reading it back gives the integer. */
  lemma {:induction false} NatToStringRoundTrip(n: nat, radix: nat)
    requires 2 <= radix <= 16
    ensures ValueOf(NatToString(n, radix), radix) == n
    decreases n
  {
    var r := NatToString(n, radix);
    if n < radix {
      assert r[..|r| - 1] == [];
      DigitRoundTrip(n);
    } else {
      DivMod(n, radix);
      var q := n / radix;
      NatToStringRoundTrip(q, radix);
      assert r == NatToString(q, radix) + [DigitChar(n % radix)];
      assert r[..|r| - 1] == NatToString(q, radix);
      DigitRoundTrip(n % radix);
      assert ValueOf(r, radix) == q * radix + n % radix;
    }
  }

  /** The printed form carries no leading zero, so different integers print differently. */
  lemma NatToStringNoLeadingZero(n: nat, radix: nat)
    requires 2 <= radix <= 16
    ensures NatToString(n, radix)[0] == '0' <==> n == 0
    decreases n
  {
    if n >= radix {
      DivMod(n, radix);
      NatToStringNoLeadingZero(n / radix, radix);
      assert NatToString(n, radix)[0] == NatToString(n / radix, radix)[0];
    }
  }

  lemma QuotientBelow(q: nat, rem: nat, radix: nat, p: nat)
    requires radix > 0 && q * radix + rem < radix * p
    ensures q < p
  {
  }

  lemma NextPowerAbove(q: nat, rem: nat, radix: nat, p: nat)
    requires rem < radix && q < p
    ensures q * radix + rem < p * radix
  {
    assert (q + 1) * radix <= p * radix;
  }

  /** A number below radix^k prints in at most k digits. */
  lemma {:induction false} NatToStringLength(n: nat, radix: nat, k: nat)
    requires 2 <= radix <= 16 && 1 <= k && n < Pow(radix, k)
    ensures |NatToString(n, radix)| <= k
    decreases n
  {
    if n >= radix {
      DivMod(n, radix);
      assert Pow(radix, k) == radix * Pow(radix, k - 1);
      assert k >= 2;
      QuotientBelow(n / radix, n % radix, radix, Pow(radix, k - 1));
      NatToStringLength(n / radix, radix, k - 1);
    }
  }

  /** The printed digits are just enough: the number is below radix^(digit count). */
  lemma {:induction false} NatToStringBound(n: nat, radix: nat)
    requires 2 <= radix <= 16
    ensures n < Pow(radix, |NatToString(n, radix)|)
    decreases n
  {
    if n < radix {
      assert Pow(radix, 1) == radix * Pow(radix, 0);
    } else {
      DivMod(n, radix);
      var q := n / radix;
      NatToStringBound(q, radix);
      var k := |NatToString(q, radix)|;
      assert |NatToString(n, radix)| == k + 1;
      PowStep(radix, k);
      NextPowerAbove(q, n % radix, radix, Pow(radix, k));
    }
  }

  lemma ShiftStep(x: int, p: int, y: int, radix: int, d: int)
    ensures (x * p + y) * radix + d == x * (p * radix) + (y * radix + d)
  {
  }

  lemma PowStep(radix: nat, e: nat)
    ensures Pow(radix, e + 1) == Pow(radix, e) * radix
  {
  }

  /** Reading a concatenation: the left part is shifted by the length of the right part. */
  lemma {:induction false} ValueOfAppend(a: string, b: string, radix: nat)
    requires AllHex(a) && AllHex(b)
    ensures AllHex(a + b)
    ensures ValueOf(a + b, radix) == ValueOf(a, radix) * Pow(radix, |b|) + ValueOf(b, radix)
    decreases |b|
  {
    if b != [] {
      var ab := a + b;
      var b' := b[..|b| - 1];
      var d := DigitValue(b[|b| - 1]);
      assert ab[..|ab| - 1] == a + b';
      assert ab[|ab| - 1] == b[|b| - 1];
      ValueOfAppend(a, b', radix);
      assert ValueOf(ab, radix) == ValueOf(a + b', radix) * radix + d;
      assert ValueOf(b, radix) == ValueOf(b', radix) * radix + d;
      ShiftStep(ValueOf(a, radix), Pow(radix, |b'|), ValueOf(b', radix), radix, d);
      PowStep(radix, |b'|);
    } else {
      assert a + b == a;
    }
  }

  /** Leading zero digits do not change the value. */
  lemma {:induction false} ValueOfZeros(n: nat, radix: nat)
    ensures AllHex(Zeros(n)) && ValueOf(Zeros(n), radix) == 0
  {
    if n > 0 {
      assert Zeros(n)[..n - 1] == Zeros(n - 1);
      ValueOfZeros(n - 1, radix);
    }
  }

  /** `s.startsWith(prefix)`. */
  predicate StartsWith(s: string, prefix: string)
  {
    |prefix| <= |s| && s[..|prefix|] == prefix
  }

  /** `/sub/.test(s)` for a pattern without special characters: `sub` occurs in `s`. */
  predicate Contains(s: string, sub: string)
    decreases |s|
  {
    StartsWith(s, sub) || (s != [] && Contains(s[1..], sub))
  }

  /** `s.split(sep)` for a one-character separator. */
  function Split(s: string, sep: char): (r: seq<string>)
    ensures |r| >= 1
    ensures forall k :: 0 <= k < |r| ==> sep !in r[k]
  {
    if s == [] then [""]
    else
      var rest := Split(s[1..], sep);
      if s[0] == sep then [""] + rest
      else [[s[0]] + rest[0]] + rest[1..]
  }

  /** `parts.join(sep)`. */
  function Join(parts: seq<string>, sep: char): string
  {
    if parts == [] then ""
    else if |parts| == 1 then parts[0]
    else parts[0] + [sep] + Join(parts[1..], sep)
  }

  /** Splitting loses nothing: joining the pieces with the separator restores the input. */
  lemma {:induction false} SplitJoin(s: string, sep: char)
    ensures Join(Split(s, sep), sep) == s
  {
    if s != [] {
      var rest := Split(s[1..], sep);
      SplitJoin(s[1..], sep);
      if s[0] == sep {
        assert Split(s, sep) == [""] + rest;
        assert ([""] + rest)[1..] == rest;
        assert Join(Split(s, sep), sep) == "" + [sep] + Join(rest, sep);
        assert s == [s[0]] + s[1..];
      } else {
        var first := [s[0]] + rest[0];
        assert Split(s, sep) == [first] + rest[1..];
        if |rest| == 1 {
          assert Join(Split(s, sep), sep) == first;
          assert Join(rest, sep) == rest[0];
        } else {
          assert ([first] + rest[1..])[1..] == rest[1..];
          assert Join(Split(s, sep), sep) == first + [sep] + Join(rest[1..], sep);
          assert Join(rest, sep) == rest[0] + [sep] + Join(rest[1..], sep);
        }
        assert s == [s[0]] + s[1..];
      }
    }
  }

  /** A string without the separator splits into itself. */
  lemma {:induction false} SplitNoSeparator(s: string, sep: char)
    requires sep !in s
    ensures Split(s, sep) == [s]
  {
    if s != [] {
      SplitNoSeparator(s[1..], sep);
      assert s == [s[0]] + s[1..];
    }
  }

  /** Two pieces without the separator, joined by it, split back into the two pieces. */
  lemma {:induction false} SplitAround(a: string, b: string, sep: char)
    requires sep !in a && sep !in b
    ensures Split(a + [sep] + b, sep) == [a, b]
  {
    var s := a + [sep] + b;
    if a == [] {
      assert s[1..] == b;
      SplitNoSeparator(b, sep);
    } else {
      assert s[1..] == a[1..] + [sep] + b;
      SplitAround(a[1..], b, sep);
      assert a == [a[0]] + a[1..];
    }
  }

  /** Position of the first occurrence of `c`, or `|s|` when there is none (`indexOf`, with -1 read as |s|). */
  function IndexOf(s: string, c: char): (k: nat)
    ensures k <= |s|
    ensures k < |s| ==> s[k] == c
    ensures c !in s[..k]
  {
    if s == [] then 0
    else if s[0] == c then 0
    else
      var k := IndexOf(s[1..], c);
      assert s[..k + 1] == [s[0]] + s[1..][..k];
      k + 1
  }

  /** `s.replace(c, '')` for a one-character pattern: removes the first occurrence only. */
  function RemoveFirst(s: string, c: char): (r: string)
  {
    if s == [] then s
    else if s[0] == c then s[1..]
    else [s[0]] + RemoveFirst(s[1..], c)
  }

  /** The string without the character at index `k`. */
  function DropAt(s: string, k: nat): (r: string)
    requires k < |s|
    ensures |r| == |s| - 1
  {
    s[..k] + s[k + 1..]
  }

  lemma DropAtCons(s: string, k: nat)
    requires 0 < k < |s|
    ensures DropAt(s, k) == [s[0]] + DropAt(s[1..], k - 1)
  {
    assert s[..k] == [s[0]] + s[1..][..k - 1];
    assert s[k + 1..] == s[1..][k..];
  }

  /** The first occurrence, and only it, is dropped; without one the string is unchanged. */
  lemma {:induction false} RemoveFirstSpec(s: string, c: char)
    ensures IndexOf(s, c) < |s| ==> RemoveFirst(s, c) == DropAt(s, IndexOf(s, c))
    ensures IndexOf(s, c) == |s| ==> RemoveFirst(s, c) == s
  {
    if s == [] {
    } else if s[0] == c {
      assert DropAt(s, 0) == s[1..];
    } else {
      var t := s[1..];
      var k := IndexOf(t, c);
      RemoveFirstSpec(t, c);
      assert IndexOf(s, c) == k + 1;
      assert RemoveFirst(s, c) == [s[0]] + RemoveFirst(t, c);
      if k < |t| {
        DropAtCons(s, k + 1);
      } else {
        assert s == [s[0]] + t;
      }
    }
  }
}
