/**
 * String primitives the provider relies on: `String.contains` with and
 * without `ignoreCase`, splitting and joining on a separator character, and
 * the decimal rendering of an `Int` inside a string template.
 * Strings are `seq<char>`.
 */
module Text {

  // ---------------------------------------------------------------------------
  // Case-sensitive substring search
  // ---------------------------------------------------------------------------

  /** `sub` occurs in `s` starting at index `i`. */
  ghost predicate OccursAt(s: string, sub: string, i: int) {
    0 <= i && i + |sub| <= |s| && s[i..i + |sub|] == sub
  }

  lemma ShiftOccurrence(s: string, sub: string, i: int)
    requires |s| > 0 && 0 <= i
    ensures OccursAt(s[1..], sub, i) <==> OccursAt(s, sub, i + 1)
  {
    if 0 <= i && i + |sub| <= |s| - 1 {
      assert s[1..][i..i + |sub|] == s[i + 1..i + 1 + |sub|];
    }
  }

  /** Kotlin's `s.contains(sub)`: true when `sub` occurs somewhere in `s`. */
  function Contains(s: string, sub: string): (r: bool)
    ensures r <==> exists i :: OccursAt(s, sub, i)
    decreases |s|
  {
    if |sub| > |s| then false
    else if s[..|sub|] == sub then (assert OccursAt(s, sub, 0); true)
    else
      var rest := Contains(s[1..], sub);
      assert rest <==> exists i :: OccursAt(s, sub, i) by {
        forall i | 0 <= i ensures OccursAt(s[1..], sub, i) <==> OccursAt(s, sub, i + 1) {
          ShiftOccurrence(s, sub, i);
        }
        if exists i :: OccursAt(s, sub, i) {
          var i :| OccursAt(s, sub, i);
          assert i != 0;
          assert OccursAt(s[1..], sub, i - 1);
        }
      }
      rest
  }

  /** A needle with a character that `s` lacks does not occur in `s`. */
  lemma AbsentCharNoMatch(s: string, sub: string, k: int)
    requires 0 <= k < |sub| && sub[k] !in s
    ensures !Contains(s, sub)
  {
    forall i ensures !OccursAt(s, sub, i) {
      if 0 <= i && i + |sub| <= |s| {
        assert s[i..i + |sub|][k] == s[i + k];
      }
    }
  }

  // ---------------------------------------------------------------------------
  // Case-insensitive substring search
  // ---------------------------------------------------------------------------

  /**
   * `Character.toUpperCase` restricted to the letters whose upper case can
   * equal that of an ASCII letter: the ASCII lower-case letters and the
   * Latin long s (U+017F), whose upper case is 'S'.
   */
  function UpperChar(c: char): char {
    if 'a' <= c <= 'z' then (c as int - 32) as char
    else if c == '\U{017F}' then 'S'
    else c
  }

  /**
   * `Character.toLowerCase` restricted in the same way: the ASCII upper-case
   * letters and the Kelvin sign (U+212A), whose lower case is 'k'.
   */
  function LowerChar(c: char): char {
    if 'A' <= c <= 'Z' then (c as int + 32) as char
    else if c == '\U{212A}' then 'k'
    else c
  }

  /**
   * The JVM's `regionMatches(ignoreCase = true)` character test: equal, or
   * equal upper cases, or equal lower cases of the upper cases. Exact for
   * comparisons against an ASCII letter or digit.
   */
  predicate CharEqualsIgnoreCase(a: char, b: char) {
    a == b || UpperChar(a) == UpperChar(b) || LowerChar(UpperChar(a)) == LowerChar(UpperChar(b))
  }

  /** `sub` occurs in `s` at index `i` when case is ignored. */
  ghost predicate OccursIgnoreCaseAt(s: string, sub: string, i: int) {
    0 <= i && i + |sub| <= |s| && forall k :: 0 <= k < |sub| ==> CharEqualsIgnoreCase(s[i + k], sub[k])
  }

  /** Compares `|sub|` leading characters of `s` with `sub`, ignoring case. */
  predicate RegionMatchesIgnoreCase(s: string, sub: string)
    requires |sub| <= |s|
  {
    forall k :: 0 <= k < |sub| ==> CharEqualsIgnoreCase(s[k], sub[k])
  }

  /** Kotlin's `s.contains(sub, ignoreCase = true)`. */
  function ContainsIgnoreCase(s: string, sub: string): (r: bool)
    ensures r <==> exists i :: OccursIgnoreCaseAt(s, sub, i)
    decreases |s|
  {
    if |sub| > |s| then false
    else if RegionMatchesIgnoreCase(s, sub) then (assert OccursIgnoreCaseAt(s, sub, 0); true)
    else
      var rest := ContainsIgnoreCase(s[1..], sub);
      assert rest <==> exists i :: OccursIgnoreCaseAt(s, sub, i) by {
        forall i | 0 <= i ensures OccursIgnoreCaseAt(s[1..], sub, i) <==> OccursIgnoreCaseAt(s, sub, i + 1) {
          if i + |sub| <= |s| - 1 {
            forall k | 0 <= k < |sub|
              ensures CharEqualsIgnoreCase(s[1..][i + k], sub[k]) == CharEqualsIgnoreCase(s[i + 1 + k], sub[k])
            {
            }
          }
        }
        if exists i :: OccursIgnoreCaseAt(s, sub, i) {
          var i :| OccursIgnoreCaseAt(s, sub, i);
          assert i != 0;
          assert OccursIgnoreCaseAt(s[1..], sub, i - 1);
        }
      }
      rest
  }

  /** The characters that equal 'k' when case is ignored: 'k', 'K' and the Kelvin sign. */
  lemma FoldK(c: char)
    ensures CharEqualsIgnoreCase(c, 'k') <==> c == 'k' || c == 'K' || c == '\U{212A}'
  {
  }

  /** The characters that equal 's' when case is ignored: 's', 'S' and the long s. */
  lemma FoldS(c: char)
    ensures CharEqualsIgnoreCase(c, 's') <==> c == 's' || c == 'S' || c == '\U{017F}'
  {
  }

  /** The characters that equal 'd' when case is ignored: 'd' and 'D'. */
  lemma FoldD(c: char)
    ensures CharEqualsIgnoreCase(c, 'd') <==> c == 'd' || c == 'D'
  {
  }

  /** A digit equals only itself when case is ignored. */
  lemma FoldDigit(c: char, d: char)
    requires '0' <= d <= '9'
    ensures CharEqualsIgnoreCase(c, d) <==> c == d
  {
  }

  // ---------------------------------------------------------------------------
  // Splitting and joining on a separator character
  // ---------------------------------------------------------------------------

  /** Index of the first `c` in `s`, or `|s|` when there is none. */
  function IndexOf(s: string, c: char): (r: nat)
    ensures r <= |s|
    ensures r < |s| ==> s[r] == c
    ensures forall k :: 0 <= k < r ==> s[k] != c
  {
    if |s| == 0 then 0
    else if s[0] == c then 0
    else 1 + IndexOf(s[1..], c)
  }

  /** The pieces of `s` between occurrences of `sep`, in order. */
  function Split(s: string, sep: char): (parts: seq<string>)
    ensures |parts| >= 1
    decreases |s|
  {
    var i := IndexOf(s, sep);
    if i == |s| then [s] else [s[..i]] + Split(s[i + 1..], sep)
  }

  /** `parts` with `sep` between neighbours. */
  function Join(parts: seq<string>, sep: char): string
    requires |parts| >= 1
  {
    if |parts| == 1 then parts[0] else parts[0] + [sep] + Join(parts[1..], sep)
  }

  /** Number of occurrences of `c` in `s`. */
  function Count(s: string, c: char): nat {
    if s == [] then 0 else (if s[0] == c then 1 else 0) + Count(s[1..], c)
  }

  lemma {:induction false} CountConcat(a: string, b: string, c: char)
    ensures Count(a + b, c) == Count(a, c) + Count(b, c)
  {
    if a != [] {
      assert (a + b)[1..] == a[1..] + b;
      CountConcat(a[1..], b, c);
    } else {
      assert a + b == b;
    }
  }

  /** `c` is counted zero times exactly when it does not occur. */
  lemma {:induction false} CountAbsent(s: string, c: char)
    ensures Count(s, c) == 0 <==> c !in s
  {
    if s != [] {
      assert s == [s[0]] + s[1..];
      CountAbsent(s[1..], c);
    }
  }

  /** The first separator of `p + [sep] + rest` is the one after `p`. */
  lemma {:induction false} IndexOfAfterPiece(p: string, sep: char, rest: string)
    requires sep !in p
    ensures IndexOf(p + [sep] + rest, sep) == |p|
    decreases |p|
  {
    var s := p + [sep] + rest;
    if p != [] {
      assert s[1..] == p[1..] + [sep] + rest;
      IndexOfAfterPiece(p[1..], sep, rest);
    }
  }

  /** Splitting a joined list gives the list back when no piece contains the separator. */
  lemma {:induction false} SplitJoin(parts: seq<string>, sep: char)
    requires |parts| >= 1
    requires forall k :: 0 <= k < |parts| ==> sep !in parts[k]
    ensures Split(Join(parts, sep), sep) == parts
  {
    var s := Join(parts, sep);
    if |parts| == 1 {
      assert IndexOf(s, sep) == |s|;
    } else {
      var p, rest := parts[0], Join(parts[1..], sep);
      assert s == p + [sep] + rest;
      IndexOfAfterPiece(p, sep, rest);
      assert s[..|p|] == p;
      assert s[|p| + 1..] == rest;
      SplitJoin(parts[1..], sep);
      assert Split(s, sep) == [p] + Split(rest, sep);
      assert parts == [p] + parts[1..];
    }
  }

  /** Splitting yields one piece more than there are separators. */
  lemma {:induction false} SplitCount(s: string, sep: char)
    ensures |Split(s, sep)| == Count(s, sep) + 1
    decreases |s|
  {
    var i := IndexOf(s, sep);
    if i == |s| {
      CountAbsent(s, sep);
    } else {
      assert s == s[..i] + [sep] + s[i + 1..];
      CountConcat(s[..i] + [sep], s[i + 1..], sep);
      CountConcat(s[..i], [sep], sep);
      CountAbsent(s[..i], sep);
      SplitCount(s[i + 1..], sep);
    }
  }

  /** Joining adds one separator between each pair of neighbours. */
  lemma {:induction false} JoinCount(parts: seq<string>, sep: char)
    requires |parts| >= 1
    ensures Count(Join(parts, sep), sep) == |parts| - 1 + SumCount(parts, sep)
  {
    if |parts| > 1 {
      CountConcat(parts[0] + [sep], Join(parts[1..], sep), sep);
      CountConcat(parts[0], [sep], sep);
      JoinCount(parts[1..], sep);
    }
  }

  /** Total number of occurrences of `c` over all of `parts`. */
  function SumCount(parts: seq<string>, c: char): nat {
    if parts == [] then 0 else Count(parts[0], c) + SumCount(parts[1..], c)
  }

  // ---------------------------------------------------------------------------
  // Decimal rendering of integers
  // ---------------------------------------------------------------------------

  predicate IsDigit(c: char) {
    '0' <= c <= '9'
  }

  function DigitChar(d: nat): (c: char)
    requires d < 10
    ensures IsDigit(c)
  {
    ('0' as int + d) as char
  }

  function DigitValue(c: char): (d: nat)
    requires IsDigit(c)
    ensures d < 10 && DigitChar(d) == c
  {
    c as int - '0' as int
  }

  predicate AllDigits(s: string) {
    forall k :: 0 <= k < |s| ==> IsDigit(s[k])
  }

  /** Shortest decimal spelling of `n`: digits only, no leading zero. */
  function NatToDecimal(n: nat): (s: string)
    ensures |s| >= 1 && AllDigits(s)
    ensures |s| > 1 ==> s[0] != '0'
  {
    if n < 10 then [DigitChar(n)] else NatToDecimal(n / 10) + [DigitChar(n % 10)]
  }

  /** Value of a string of decimal digits. */
  function DecimalToNat(s: string): nat
    requires AllDigits(s)
  {
    if s == [] then 0 else 10 * DecimalToNat(s[..|s| - 1]) + DigitValue(s[|s| - 1])
  }

  lemma {:induction false} NatDecimalRoundTrip(n: nat)
    ensures DecimalToNat(NatToDecimal(n)) == n
  {
    var s := NatToDecimal(n);
    if n >= 10 {
      assert s[..|s| - 1] == NatToDecimal(n / 10);
      NatDecimalRoundTrip(n / 10);
      assert DigitValue(s[|s| - 1]) == n % 10 by {
        assert DigitChar(DigitValue(s[|s| - 1])) == DigitChar(n % 10);
      }
    } else {
      assert DigitChar(DigitValue(s[0])) == DigitChar(n);
    }
  }

  /** Kotlin's `Int.toString()`, as used by a string template: a minus sign for negatives, then the digits. */
  function IntToDecimal(n: int): (s: string)
    ensures |s| >= 1
    ensures forall k :: 0 <= k < |s| ==> IsDigit(s[k]) || (k == 0 && s[k] == '-')
  {
    if n < 0 then "-" + NatToDecimal(-n) else NatToDecimal(n)
  }

  /** Reads back a string produced by `IntToDecimal`. */
  function DecimalToInt(s: string): int
    requires |s| >= 1
    requires forall k :: 0 <= k < |s| ==> IsDigit(s[k]) || (k == 0 && s[k] == '-')
  {
    if s[0] == '-' then -(DecimalToNat(s[1..]) as int) else DecimalToNat(s)
  }

  lemma IntDecimalRoundTrip(n: int)
    ensures DecimalToInt(IntToDecimal(n)) == n
  {
    if n < 0 {
      assert IntToDecimal(n)[1..] == NatToDecimal(-n);
      NatDecimalRoundTrip(-n);
    } else {
      NatDecimalRoundTrip(n);
    }
  }
}
