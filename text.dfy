/**
 * Character and string helpers shared by the browser and the server model:
 * ASCII case mapping, each language's whitespace trimming, splitting and joining on a
 * separator, decimal rendering, and code-point ordering of strings.
 */
module Text {

  // ---------------------------------------------------------------------
  // Digits and decimal rendering
  // ---------------------------------------------------------------------

  predicate IsDigit(c: char)
  {
    '0' <= c <= '9'
  }

  predicate AllDigits(s: string)
  {
    forall i :: 0 <= i < |s| ==> IsDigit(s[i])
  }

  function DigitChar(n: nat): char
    requires n < 10
  {
    (n + '0' as int) as char
  }

  function DigitValue(c: char): nat
    requires IsDigit(c)
  {
    c as int - '0' as int
  }

  /** The value of a string of decimal digits, most significant first. */
  function DigitsValue(s: string): nat
    requires AllDigits(s)
  {
    if |s| == 0 then 0 else DigitsValue(s[..|s| - 1]) * 10 + DigitValue(s[|s| - 1])
  }

  /** Decimal text of a natural number, without leading zeros. */
  function NatToString(n: nat): (s: string)
    ensures 1 <= |s|
    ensures AllDigits(s)
    ensures n < 10 <==> |s| == 1
    decreases n
  {
    if n < 10 then [DigitChar(n)] else NatToString(n / 10) + [DigitChar(n % 10)]
  }

  /** Decimal text of an integer, with a leading '-' when negative. */
  function IntToString(i: int): string
  {
    if i < 0 then "-" + NatToString(-i) else NatToString(i)
  }

  lemma {:induction false} NatToStringValue(n: nat)
    ensures DigitsValue(NatToString(n)) == n
    decreases n
  {
    if n >= 10 {
      var s := NatToString(n);
      NatToStringValue(n / 10);
      assert s[..|s| - 1] == NatToString(n / 10);
    }
  }

  /** A number between 10^(k-1) and 10^k has exactly k decimal digits. */
  lemma {:induction false} NatToStringLength(n: nat, k: nat)
    requires 1 <= k
    requires (if k == 1 then 0 else Pow10(k - 1)) <= n < Pow10(k)
    ensures |NatToString(n)| == k
    decreases k
  {
    if k > 1 {
      NatToStringLength(n / 10, k - 1);
    }
  }

  /** The quotient and remainder by a constant divisor are the only such pair. */
  lemma DivModUnique(y: int, k: int, q: int, r: int)
    requires k == 4 || k == 10 || k == 100 || k == 400
    requires y == k * q + r && 0 <= r < k
    ensures y / k == q && y % k == r
  {
    if k == 4 {
      assert y == 4 * q + r;
    } else if k == 10 {
      assert y == 10 * q + r;
    } else if k == 100 {
      assert y == 100 * q + r;
    } else {
      assert y == 400 * q + r;
    }
  }

  function Pow10(k: nat): (p: nat)
    ensures p >= 1
  {
    if k == 0 then 1 else 10 * Pow10(k - 1)
  }

  // ---------------------------------------------------------------------
  // Case mapping (ASCII letters only)
  // ---------------------------------------------------------------------

  function LowerChar(c: char): char
  {
    if 'A' <= c <= 'Z' then (c as int + 32) as char else c
  }

  function UpperChar(c: char): char
  {
    if 'a' <= c <= 'z' then (c as int - 32) as char else c
  }

  function Lower(s: string): string
  {
    seq(|s|, i requires 0 <= i < |s| => LowerChar(s[i]))
  }

  function Upper(s: string): string
  {
    seq(|s|, i requires 0 <= i < |s| => UpperChar(s[i]))
  }

  // ---------------------------------------------------------------------
  // Whitespace trimming
  // ---------------------------------------------------------------------

  /** Whose trim: JavaScript's String.prototype.trim or Python's str.strip. */
  datatype Language = JavaScript | Python

  /**
   * The white space both languages remove: the ASCII controls TAB, LF,
   * VT, FF and CR, the line and paragraph separators, and the space
   * separators (U+0020, U+00A0, U+1680, U+2000 to U+200A, U+202F, U+205F,
   * U+3000).
   */
  predicate IsCommonSpace(c: char)
  {
    c == ' ' || c == '\t' || c == '\n' || c == '\r' || c == '\U{B}' || c == '\U{C}'
    || c == '\U{A0}' || c == '\U{1680}' || '\U{2000}' <= c <= '\U{200A}'
    || c == '\U{2028}' || c == '\U{2029}' || c == '\U{202F}' || c == '\U{205F}' || c == '\U{3000}'
  }

  /**
   * White space as each language sees it: JavaScript also counts the byte
   * order mark U+FEFF; Python (str.isspace, and so str.strip and the \s
   * of its regular expressions) also counts the separators U+001C to
   * U+001F and NEL (U+0085).
   */
  predicate IsSpace(lang: Language, c: char)
  {
    IsCommonSpace(c)
    || match lang
       case JavaScript => c == '\U{FEFF}'
       case Python => '\U{1C}' <= c <= '\U{1F}' || c == '\U{85}'
  }

  function TrimStart(lang: Language, s: string): (r: string)
    ensures |r| <= |s| && r == s[|s| - |r|..]
    ensures |r| == 0 || !IsSpace(lang, r[0])
  {
    if |s| > 0 && IsSpace(lang, s[0]) then TrimStart(lang, s[1..]) else s
  }

  function TrimEnd(lang: Language, s: string): (r: string)
    ensures |r| <= |s| && r == s[..|r|]
    ensures |r| == 0 || !IsSpace(lang, r[|r| - 1])
  {
    if |s| > 0 && IsSpace(lang, s[|s| - 1]) then TrimEnd(lang, s[..|s| - 1]) else s
  }

  function Trim(lang: Language, s: string): string
  {
    TrimEnd(lang, TrimStart(lang, s))
  }

  /** A string with no whitespace at either end is left alone by Trim. */
  lemma TrimOfTrimmed(lang: Language, s: string)
    requires |s| == 0 || (!IsSpace(lang, s[0]) && !IsSpace(lang, s[|s| - 1]))
    ensures Trim(lang, s) == s
  {
  }

  // ---------------------------------------------------------------------
  // Splitting and joining on a separator character
  // ---------------------------------------------------------------------

  /** The index of the first occurrence of c in s, or |s| when there is none. */
  function IndexOf(s: string, c: char): (i: nat)
    ensures i <= |s|
    ensures i < |s| ==> s[i] == c
    ensures forall j :: 0 <= j < i ==> s[j] != c
  {
    if |s| == 0 then 0 else if s[0] == c then 0 else 1 + IndexOf(s[1..], c)
  }

  /** The pieces of s between occurrences of sep, as Python's str.split(sep) and JavaScript's String.split(sep) give them. */
  function Split(s: string, sep: char): (parts: seq<string>)
    ensures 1 <= |parts|
    ensures forall p :: p in parts ==> sep !in p
    decreases |s|
  {
    var i := IndexOf(s, sep);
    if i == |s| then [s] else [s[..i]] + Split(s[i + 1..], sep)
  }

  /** The pieces joined with sep between neighbours, as Array.join and str.join give them. */
  function Join(parts: seq<string>, sep: char): string
  {
    if |parts| == 0 then ""
    else if |parts| == 1 then parts[0]
    else parts[0] + [sep] + Join(parts[1..], sep)
  }

  /** Splitting a joined list gives the list back when no piece contains the separator. */
  lemma {:induction false} SplitJoin(parts: seq<string>, sep: char)
    requires 1 <= |parts|
    requires forall p :: p in parts ==> sep !in p
    ensures Split(Join(parts, sep), sep) == parts
    decreases |parts|
  {
    if |parts| > 1 {
      var s := Join(parts, sep);
      var rest := Join(parts[1..], sep);
      assert s == parts[0] + [sep] + rest;
      IndexOfPrefix(parts[0], sep, rest);
      assert s[..|parts[0]|] == parts[0];
      assert s[|parts[0]| + 1..] == rest;
      SplitJoin(parts[1..], sep);
    } else {
      assert Join(parts, sep) == parts[0];
      IndexOfAbsent(parts[0], sep);
    }
  }

  lemma {:induction false} IndexOfAbsent(s: string, c: char)
    requires c !in s
    ensures IndexOf(s, c) == |s|
    decreases |s|
  {
    if |s| > 0 {
      IndexOfAbsent(s[1..], c);
    }
  }

  lemma {:induction false} IndexOfPrefix(p: string, c: char, rest: string)
    requires c !in p
    ensures IndexOf(p + [c] + rest, c) == |p|
    decreases |p|
  {
    if |p| > 0 {
      assert (p + [c] + rest)[1..] == p[1..] + [c] + rest;
      IndexOfPrefix(p[1..], c, rest);
    }
  }

  // ---------------------------------------------------------------------
  // Code-point ordering of strings (Python's str comparison)
  // ---------------------------------------------------------------------

  /** Lexicographic "strictly before" on strings, comparing characters by code point. */
  predicate StrLt(a: string, b: string)
  {
    if |a| == 0 then |b| != 0
    else if |b| == 0 then false
    else if a[0] < b[0] then true
    else a[0] == b[0] && StrLt(a[1..], b[1..])
  }

  lemma {:induction false} StrLtIrreflexive(a: string)
    ensures !StrLt(a, a)
    decreases |a|
  {
    if |a| > 0 {
      StrLtIrreflexive(a[1..]);
    }
  }

  lemma {:induction false} StrLtTransitive(a: string, b: string, c: string)
    requires StrLt(a, b) && StrLt(b, c)
    ensures StrLt(a, c)
    decreases |a|
  {
    if |a| > 0 && a[0] == b[0] && b[0] == c[0] {
      StrLtTransitive(a[1..], b[1..], c[1..]);
    }
  }

  lemma {:induction false} StrLtTotal(a: string, b: string)
    ensures a == b || StrLt(a, b) || StrLt(b, a)
    decreases |a|
  {
    if |a| > 0 && |b| > 0 && a[0] == b[0] {
      StrLtTotal(a[1..], b[1..]);
      if a[1..] == b[1..] {
        assert a == [a[0]] + a[1..] && b == [b[0]] + b[1..];
      }
    }
  }
}
