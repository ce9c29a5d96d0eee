/**
 * The string primitives the combo parser and the state keys rely on:
 * Python's `str.strip()`, `str.lower()`/`str.upper()` (ASCII letters only),
 * `str.split(sep)` and `str(n)` for a natural number.
 */
module Text {

  /** Python's `str.isspace()`: the characters `str.strip()` removes. */
  predicate IsSpace(c: char) {
    || '\t' <= c <= '\r'
    || '\U{1c}' <= c <= ' '
    || c == '\U{85}' || c == '\U{a0}' || c == '\U{1680}'
    || '\U{2000}' <= c <= '\U{200a}'
    || c == '\U{2028}' || c == '\U{2029}' || c == '\U{202f}' || c == '\U{205f}' || c == '\U{3000}'
  }

  predicate IsAsciiUpper(c: char) { 'A' <= c <= 'Z' }
  predicate IsAsciiLower(c: char) { 'a' <= c <= 'z' }
  predicate IsDigit(c: char) { '0' <= c <= '9' }

  function LowerChar(c: char): (r: char)
    ensures !IsAsciiUpper(r)
    ensures IsAsciiUpper(c) || r == c
  {
    if IsAsciiUpper(c) then (c as int + 32) as char else c
  }

  function UpperChar(c: char): (r: char)
    ensures !IsAsciiLower(r)
    ensures IsAsciiLower(c) || r == c
  {
    if IsAsciiLower(c) then (c as int - 32) as char else c
  }

  lemma CaseRoundTrip(c: char)
    ensures LowerChar(UpperChar(c)) == LowerChar(c)
    ensures IsAsciiUpper(c) || IsDigit(c) ==> UpperChar(LowerChar(c)) == c
  {
  }

  /** `s.lower()`, restricted to ASCII letters. */
  function Lower(s: string): (r: string)
    ensures |r| == |s|
    ensures forall i :: 0 <= i < |s| ==> r[i] == LowerChar(s[i])
  {
    seq(|s|, i requires 0 <= i < |s| => LowerChar(s[i]))
  }

  lemma LowerIdempotent(s: string)
    ensures Lower(Lower(s)) == Lower(s)
  {
    assert forall i :: 0 <= i < |s| ==> LowerChar(LowerChar(s[i])) == LowerChar(s[i]);
  }

  predicate AllSpace(s: string) {
    forall i :: 0 <= i < |s| ==> IsSpace(s[i])
  }

  /**
   * `s` consists of `a` whitespace characters, then `r`, then nothing but
   * whitespace.
   */
  predicate StrippedAt(s: string, r: string, a: int) {
    && 0 <= a && a + |r| <= |s|
    && (forall i :: 0 <= i < a ==> IsSpace(s[i]))
    && (forall i :: 0 <= i < |r| ==> r[i] == s[a + i])
    && (forall i :: a + |r| <= i < |s| ==> IsSpace(s[i]))
  }

  /** `s.lstrip()`: drops the leading whitespace. */
  function StripStart(s: string): string {
    if s != [] && IsSpace(s[0]) then StripStart(s[1..]) else s
  }

  /** `s.rstrip()`: drops the trailing whitespace. */
  function StripEnd(s: string): string {
    if s != [] && IsSpace(s[|s| - 1]) then StripEnd(s[..|s| - 1]) else s
  }

  /** `s.strip()`. */
  function Strip(s: string): string {
    StripEnd(StripStart(s))
  }

  /** `lstrip` removes whitespace from the front and nothing else, up to a non-space character. */
  lemma {:induction false} StripStartProperties(s: string)
    ensures var r := StripStart(s);
            StrippedAt(s, r, |s| - |r|) && (r == [] || !IsSpace(r[0]))
  {
    if s != [] && IsSpace(s[0]) {
      StripStartProperties(s[1..]);
      var r := StripStart(s);
      var a := |s| - |r|;
      forall i | 0 <= i < a ensures IsSpace(s[i]) {
        if i > 0 {
          assert s[i] == s[1..][i - 1];
        }
      }
      forall i | 0 <= i < |r| ensures r[i] == s[a + i] {
        assert s[a + i] == s[1..][a - 1 + i];
      }
    }
  }

  /** `rstrip` removes whitespace from the back and nothing else, up to a non-space character. */
  lemma {:induction false} StripEndProperties(s: string)
    ensures var r := StripEnd(s);
            StrippedAt(s, r, 0) && (r == [] || !IsSpace(r[|r| - 1]))
  {
    if s != [] && IsSpace(s[|s| - 1]) {
      var init := s[..|s| - 1];
      StripEndProperties(init);
      var r := StripEnd(s);
      forall i | |r| <= i < |s| ensures IsSpace(s[i]) {
        if i < |s| - 1 {
          assert s[i] == init[i];
        }
      }
      forall i | 0 <= i < |r| ensures r[i] == s[i] {
        assert s[i] == init[i];
      }
    }
  }

  /** `s.strip()` neither starts nor ends with whitespace. */
  lemma StripEnds(s: string)
    ensures var r := Strip(s);
            r == [] || (!IsSpace(r[0]) && !IsSpace(r[|r| - 1]))
  {
    var t := StripStart(s);
    var r := StripEnd(t);
    StripStartProperties(s);
    StripEndProperties(t);
    if r != [] {
      assert r[0] == t[0];
    }
  }

  /** `s.strip()` is `s` without some leading and some trailing whitespace. */
  lemma StripShape(s: string)
    ensures StrippedAt(s, Strip(s), |s| - |StripStart(s)|)
  {
    var t := StripStart(s);
    var r := StripEnd(t);
    assert StrippedAt(s, t, |s| - |t|) by {
      StripStartProperties(s);
    }
    assert StrippedAt(t, r, 0) by {
      StripEndProperties(t);
    }
    StripComposes(s, t, r);
  }

  /** `s.strip()` is empty exactly when `s` is all whitespace. */
  lemma StripEmpty(s: string)
    ensures Strip(s) == [] <==> AllSpace(s)
  {
    var t := StripStart(s);
    StripShape(s);
    StripEnds(s);
    StripEmptyExactly(s, t, Strip(s));
  }

  /** Trailing whitespace removed from the left-stripped string is trailing in the original. */
  lemma StripComposes(s: string, t: string, r: string)
    requires StrippedAt(s, t, |s| - |t|) && StrippedAt(t, r, 0)
    ensures StrippedAt(s, r, |s| - |t|)
  {
    var a := |s| - |t|;
    forall i | a + |r| <= i < |s| ensures IsSpace(s[i]) {
      assert s[i] == t[i - a];
    }
  }

  /** Stripping leaves nothing exactly when everything was whitespace. */
  lemma StripEmptyExactly(s: string, t: string, r: string)
    requires StrippedAt(s, r, |s| - |t|)
    requires r == [] || !IsSpace(r[0])
    ensures r == [] <==> AllSpace(s)
  {
    var a := |s| - |t|;
    if r == [] {
      assert |r| == 0;
    } else {
      assert r[0] == s[a];
    }
  }

  lemma StripOfUnspaced(s: string)
    requires s == [] || (!IsSpace(s[0]) && !IsSpace(s[|s| - 1]))
    ensures Strip(s) == s
  {
  }

  /** `sep.join(parts)`. */
  function Join(parts: seq<string>, sep: char): string
    requires |parts| > 0
  {
    if |parts| == 1 then parts[0] else parts[0] + [sep] + Join(parts[1..], sep)
  }

  /** `s.split(sep)`: the pieces between separators, in order. */
  function Split(s: string, sep: char): (parts: seq<string>)
    ensures |parts| > 0
  {
    if s == [] then [[]]
    else
      var rest := Split(s[1..], sep);
      if s[0] == sep then [[]] + rest
      else [[s[0]] + rest[0]] + rest[1..]
  }

  /**
   * No piece holds a separator, and joining the pieces back with the
   * separator gives `s`.
   */
  lemma {:induction false} SplitProperties(s: string, sep: char)
    ensures var parts := Split(s, sep);
            && (forall i :: 0 <= i < |parts| ==> sep !in parts[i])
            && Join(parts, sep) == s
  {
    if s != [] {
      var rest := Split(s[1..], sep);
      SplitProperties(s[1..], sep);
      var parts := Split(s, sep);
      if s[0] == sep {
        assert parts[1..] == rest;
      } else {
        assert parts[0] == [s[0]] + rest[0];
        assert forall i :: 1 <= i < |parts| ==> parts[i] == rest[i];
        if |rest| > 1 {
          assert parts[1..] == rest[1..];
        }
      }
    }
  }

  lemma SplitUnseparated(s: string, sep: char)
    requires sep !in s
    ensures Split(s, sep) == [s]
  {
    if s != [] {
      SplitUnseparated(s[1..], sep);
      assert [s[0]] + s[1..] == s;
    }
  }

  lemma {:induction false} SplitAfterPiece(x: string, sep: char, y: string)
    requires sep !in x
    ensures Split(x + [sep] + y, sep) == [x] + Split(y, sep)
  {
    if x == [] {
      assert (x + [sep] + y)[1..] == y;
    } else {
      assert (x + [sep] + y)[1..] == x[1..] + [sep] + y;
      SplitAfterPiece(x[1..], sep, y);
      assert [x[0]] + x[1..] == x;
    }
  }

  /** Splitting undoes joining pieces that hold no separator. */
  lemma {:induction false} SplitJoin(parts: seq<string>, sep: char)
    requires |parts| > 0
    requires forall i :: 0 <= i < |parts| ==> sep !in parts[i]
    ensures Split(Join(parts, sep), sep) == parts
  {
    if |parts| == 1 {
      SplitUnseparated(parts[0], sep);
    } else {
      SplitJoin(parts[1..], sep);
      SplitAfterPiece(parts[0], sep, Join(parts[1..], sep));
    }
  }

  /** The number of times `x` occurs in `xs`. */
  function Count(xs: seq<string>, x: string): (c: nat)
    ensures c <= |xs|
    ensures c == 0 <==> x !in xs
  {
    if xs == [] then 0
    else
      var init := xs[..|xs| - 1];
      assert xs == init + [xs[|xs| - 1]];
      Count(init, x) + (if xs[|xs| - 1] == x then 1 else 0)
  }

  /** Appending one element adds one to its own count and nothing to any other. */
  lemma CountSnoc(xs: seq<string>, y: string, x: string)
    ensures Count(xs + [y], x) == Count(xs, x) + (if y == x then 1 else 0)
  {
    assert (xs + [y])[..|xs|] == xs;
  }

  function DigitChar(d: int): (c: char)
    requires 0 <= d < 10
    ensures IsDigit(c)
  {
    ('0' as int + d) as char
  }

  /** `str(n)` for a natural number: decimal digits, no leading zero. */
  function DecimalString(n: nat): (r: string)
    ensures |r| > 0
    ensures forall i :: 0 <= i < |r| ==> IsDigit(r[i])
    ensures r[0] == '0' ==> n == 0 && r == "0"
  {
    if n < 10 then [DigitChar(n)] else DecimalString(n / 10) + [DigitChar(n % 10)]
  }

  /** The value of a string of decimal digits. */
  function DecimalValue(s: string): nat
    requires forall i :: 0 <= i < |s| ==> IsDigit(s[i])
  {
    if s == [] then 0
    else
      var last := s[|s| - 1];
      assert IsDigit(last);
      DecimalValue(s[..|s| - 1]) * 10 + (last as int - '0' as int)
  }

  lemma {:induction false} DecimalRoundTrip(n: nat)
    ensures DecimalValue(DecimalString(n)) == n
  {
    if n >= 10 {
      var d := DecimalString(n);
      assert d[..|d| - 1] == DecimalString(n / 10);
      DecimalRoundTrip(n / 10);
    }
  }

  lemma DecimalStringInjective(m: nat, n: nat)
    requires DecimalString(m) == DecimalString(n)
    ensures m == n
  {
    DecimalRoundTrip(m);
    DecimalRoundTrip(n);
  }
}
