/**
 * String helpers the scanner relies on: Python's `str.strip()` with no
 * argument, `str.startswith`, and the decimal rendering of an integer that an
 * f-string such as `f"[{status}]"` produces.
 */
module Text {

  /** The characters for which Python's `str.isspace()` holds. */
  const Whitespace: set<char> := {
    '\t', '\n', '\U{0B}', '\U{0C}', '\r',                 // tab, line feed, vertical tab, form feed, carriage return
    '\U{1C}', '\U{1D}', '\U{1E}', '\U{1F}',                 // file, group, record and unit separators
    ' ', '\U{85}', '\U{A0}', '\U{1680}',
    '\U{2000}', '\U{2001}', '\U{2002}', '\U{2003}', '\U{2004}', '\U{2005}',
    '\U{2006}', '\U{2007}', '\U{2008}', '\U{2009}', '\U{200A}',
    '\U{2028}', '\U{2029}', '\U{202F}', '\U{205F}', '\U{3000}'
  }

  predicate IsSpace(c: char) {
    c in Whitespace
  }

  predicate AllSpace(s: string) {
    forall k :: 0 <= k < |s| ==> IsSpace(s[k])
  }

  /** `s[i..j]` is what is left of `s` once the whitespace at both ends is cut off. */
  ghost predicate TrimmedInfix(s: string, i: nat, j: nat) {
    && i <= j <= |s|
    && (forall k :: 0 <= k < i ==> IsSpace(s[k]))
    && (forall k :: j <= k < |s| ==> IsSpace(s[k]))
    && (i < j ==> !IsSpace(s[i]) && !IsSpace(s[j - 1]))
  }

  /**
   * Python's `str.strip()`: whitespace is cut off at either end until neither
   * end is whitespace, so a non-empty result starts and ends with a
   * non-whitespace character.
   */
  function Strip(s: string): (r: string)
    ensures |r| <= |s|
    ensures r == [] || (!IsSpace(r[0]) && !IsSpace(r[|r| - 1]))
    decreases |s|
  {
    if s == [] then []
    else if IsSpace(s[0]) then Strip(s[1..])
    else if IsSpace(s[|s| - 1]) then Strip(s[..|s| - 1])
    else s
  }

  /** Past a leading whitespace character, trimmed infixes of `s` and of its tail correspond one to one. */
  lemma TrimmedInfixDropFirst(s: string, i: nat, j: nat)
    requires s != [] && IsSpace(s[0])
    ensures TrimmedInfix(s, i + 1, j + 1) <==> TrimmedInfix(s[1..], i, j)
    ensures TrimmedInfix(s[1..], i, j) ==> s[1..][i..j] == s[i + 1..j + 1]
  {
    assert forall k :: 1 <= k < |s| ==> s[k] == s[1..][k - 1];
  }

  /** Before a trailing whitespace character, trimmed infixes of `s` and of its front correspond one to one. */
  lemma TrimmedInfixDropLast(s: string, i: nat, j: nat)
    requires s != [] && IsSpace(s[|s| - 1]) && j < |s|
    ensures TrimmedInfix(s, i, j) <==> TrimmedInfix(s[..|s| - 1], i, j)
    ensures TrimmedInfix(s[..|s| - 1], i, j) ==> s[..|s| - 1][i..j] == s[i..j]
  {
    assert forall k :: 0 <= k < |s| - 1 ==> s[k] == s[..|s| - 1][k];
  }

  /** Strip is determined by the trimmed-infix property alone: whatever infix has it is the result. */
  lemma {:induction false} StripUnique(s: string, i: nat, j: nat)
    requires TrimmedInfix(s, i, j)
    ensures Strip(s) == s[i..j]
    decreases |s|
  {
    if s == [] {
    } else if IsSpace(s[0]) {
      if i == 0 {
        assert j == 0;
        TrimmedInfixDropFirst(s, 0, 0);
        StripUnique(s[1..], 0, 0);
      } else {
        TrimmedInfixDropFirst(s, i - 1, j - 1);
        StripUnique(s[1..], i - 1, j - 1);
      }
    } else if IsSpace(s[|s| - 1]) {
      assert i == 0 && j < |s|;
      TrimmedInfixDropLast(s, i, j);
      StripUnique(s[..|s| - 1], i, j);
    } else {
      assert i == 0 && j == |s|;
    }
  }

  /** Strip returns a trimmed infix of its input: together with `StripUnique`, this characterises it. */
  lemma {:induction false} StripIsTrimmedInfix(s: string)
    ensures exists i: nat, j: nat :: TrimmedInfix(s, i, j) && Strip(s) == s[i..j]
    decreases |s|
  {
    if s == [] {
      assert TrimmedInfix(s, 0, 0);
    } else if IsSpace(s[0]) {
      StripIsTrimmedInfix(s[1..]);
      var i: nat, j: nat :| TrimmedInfix(s[1..], i, j) && Strip(s[1..]) == s[1..][i..j];
      TrimmedInfixDropFirst(s, i, j);
    } else if IsSpace(s[|s| - 1]) {
      var front := s[..|s| - 1];
      StripIsTrimmedInfix(front);
      var i: nat, j: nat :| TrimmedInfix(front, i, j) && Strip(front) == front[i..j];
      TrimmedInfixDropLast(s, i, j);
    } else {
      assert TrimmedInfix(s, 0, |s|);
    }
  }

  /** Stripping yields the empty string exactly for an all-whitespace string. */
  lemma {:induction false} StripEmptyIff(s: string)
    ensures Strip(s) == [] <==> AllSpace(s)
    decreases |s|
  {
    if s == [] {
    } else if IsSpace(s[0]) {
      StripEmptyIff(s[1..]);
      assert AllSpace(s) <==> AllSpace(s[1..]) by {
        assert forall k :: 1 <= k < |s| ==> s[k] == s[1..][k - 1];
      }
    } else if IsSpace(s[|s| - 1]) {
      var front := s[..|s| - 1];
      StripEmptyIff(front);
      assert AllSpace(s) <==> AllSpace(front) by {
        assert forall k :: 0 <= k < |s| - 1 ==> s[k] == front[k];
      }
    } else {
      assert !AllSpace(s) by { assert !IsSpace(s[0]); }
    }
  }

  /** Stripping twice is stripping once. */
  lemma StripIdempotent(s: string)
    ensures Strip(Strip(s)) == Strip(s)
  {
    var r := Strip(s);
    assert TrimmedInfix(r, 0, |r|);
    StripUnique(r, 0, |r|);
  }

  predicate StartsWith(s: string, prefix: string) {
    prefix <= s
  }

  predicate IsDigit(c: char) {
    '0' <= c <= '9'
  }

  function DigitChar(d: nat): (c: char)
    requires d < 10
    ensures IsDigit(c) && c as int - '0' as int == d
  {
    (d + '0' as int) as char
  }

  /** The decimal digits of `n`, most significant first, without leading zeros. */
  function NatToString(n: nat): (r: string)
    ensures r != [] && forall k :: 0 <= k < |r| ==> IsDigit(r[k])
    ensures r[0] == '0' ==> n == 0
    decreases n
  {
    if n < 10 then [DigitChar(n)] else NatToString(n / 10) + [DigitChar(n % 10)]
  }

  /** The value of a string of decimal digits. */
  function DigitsValue(s: string): nat
    requires forall k :: 0 <= k < |s| ==> IsDigit(s[k])
  {
    assert IsDigit(s[|s| - 1]) <== s != [];
    if s == [] then 0 else DigitsValue(s[..|s| - 1]) * 10 + (s[|s| - 1] as int - '0' as int)
  }

  /** Python's `str(n)` for an integer `n`. */
  function IntToString(n: int): (r: string)
    ensures r != []
    ensures forall k :: 0 <= k < |r| ==> IsDigit(r[k]) || r[k] == '-'
  {
    if n < 0 then "-" + NatToString(-n) else NatToString(n)
  }

  /** Reads back what `IntToString` writes. */
  function ParseInt(s: string): int
    requires s != [] && (s[0] == '-' || IsDigit(s[0]))
    requires forall k :: 1 <= k < |s| ==> IsDigit(s[k])
  {
    if s[0] == '-' then -(DigitsValue(s[1..]) as int) else DigitsValue(s)
  }

  lemma {:induction false} NatToStringRoundTrip(n: nat)
    ensures DigitsValue(NatToString(n)) == n
    decreases n
  {
    var r := NatToString(n);
    if n >= 10 {
      NatToStringRoundTrip(n / 10);
      assert r[..|r| - 1] == NatToString(n / 10);
    }
  }

  lemma IntToStringRoundTrip(n: int)
    ensures ParseInt(IntToString(n)) == n
  {
    if n < 0 {
      NatToStringRoundTrip(-n);
      assert IntToString(n)[1..] == NatToString(-n);
    } else {
      NatToStringRoundTrip(n);
    }
  }

  /** Distinct integers are written differently. */
  lemma IntToStringInjective(a: int, b: int)
    requires IntToString(a) == IntToString(b)
    ensures a == b
  {
    IntToStringRoundTrip(a);
    IntToStringRoundTrip(b);
  }
}
