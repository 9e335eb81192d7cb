/** The few JavaScript string operations the core relies on: `trim`,
    `split` on one character, `Number.prototype.toString` for integers,
    `parseInt` and `Number` (ECMA-262, sections 22.1.3.32, 22.1.3.23,
    19.2.5 and 7.1.4.1). */
module Text {
  import opened Wrappers

  /** WhiteSpace and LineTerminator code points (ECMA-262, sections 12.2 and 12.3). */
  predicate IsWhitespace(c: char) {
    || c == '\U{0009}' || c == '\U{000B}' || c == '\U{000C}' || c == '\U{0020}'
    || c == '\U{00A0}' || c == '\U{FEFF}' || c == '\U{1680}'
    || ('\U{2000}' <= c <= '\U{200A}') || c == '\U{202F}' || c == '\U{205F}' || c == '\U{3000}'
    || c == '\U{000A}' || c == '\U{000D}' || c == '\U{2028}' || c == '\U{2029}'
  }

  predicate AllWhitespace(s: string) {
    forall k :: 0 <= k < |s| ==> IsWhitespace(s[k])
  }

  /** Number of whitespace characters at the end of `s`. */
  function TrailingWhitespace(s: string): (n: nat)
    ensures n <= |s|
    ensures forall k :: |s| - n <= k < |s| ==> IsWhitespace(s[k])
    ensures n < |s| ==> !IsWhitespace(s[|s| - n - 1])
  {
    if |s| > 0 && IsWhitespace(s[|s| - 1]) then
      var n := TrailingWhitespace(s[..|s| - 1]);
      assert forall k :: 0 <= k < |s| - 1 ==> s[..|s| - 1][k] == s[k];
      1 + n
    else 0
  }

  /** `s` with its leading whitespace removed. */
  function TrimStart(s: string): (r: string)
    ensures r != [] ==> !IsWhitespace(r[0])
  {
    s[PrefixLength(s, IsWhitespace)..]
  }

  /** `String.prototype.trim`: the part of `s` between its leading and
      trailing whitespace; empty exactly when `s` is blank. */
  function Trim(s: string): (r: string)
    ensures exists i :: 0 <= i <= |s| - |r| && r == s[i..i + |r|]
                        && AllWhitespace(s[..i]) && AllWhitespace(s[i + |r|..])
    ensures r == [] <==> AllWhitespace(s)
    ensures r != [] ==> !IsWhitespace(r[0]) && !IsWhitespace(r[|r| - 1])
  {
    var i := PrefixLength(s, IsWhitespace);
    if i == |s| then
      assert AllWhitespace(s[..i]) && AllWhitespace(s[i..]);
      []
    else
      var n := TrailingWhitespace(s);
      assert !IsWhitespace(s[i]);
      assert !AllWhitespace(s);
      assert |s| - n > i;
      var r := s[i..|s| - n];
      assert AllWhitespace(s[..i]) && AllWhitespace(s[|s| - n..]);
      r
  }

  /** `s.split(c)` for a one-character separator `c`. */
  function Split(s: string, c: char): (r: seq<string>)
    ensures |r| >= 1
    ensures forall k :: 0 <= k < |r| ==> c !in r[k]
  {
    if |s| == 0 then [""]
    else
      var rest := Split(s[1..], c);
      if s[0] == c then [""] + rest
      else [[s[0]] + rest[0]] + rest[1..]
  }

  lemma {:induction false} SplitWithoutSeparator(a: string, c: char)
    requires c !in a
    ensures Split(a, c) == [a]
  {
    if |a| > 0 {
      SplitWithoutSeparator(a[1..], c);
      assert [a[0]] + a[1..] == a;
    }
  }

  lemma {:induction false} SplitAtFirstSeparator(a: string, c: char, rest: string)
    requires c !in a
    ensures Split(a + [c] + rest, c) == [a] + Split(rest, c)
  {
    if |a| == 0 {
      assert a + [c] + rest == [c] + rest;
      assert ([c] + rest)[1..] == rest;
    } else {
      SplitAtFirstSeparator(a[1..], c, rest);
      assert (a + [c] + rest)[1..] == a[1..] + [c] + rest;
      assert [a[0]] + a[1..] == a;
    }
  }

  /** Splitting "a:b" at ':' gives back exactly the two parts. */
  lemma SplitTwoFields(a: string, b: string, c: char)
    requires c !in a && c !in b
    ensures Split(a + [c] + b, c) == [a, b]
  {
    SplitAtFirstSeparator(a, c, b);
    SplitWithoutSeparator(b, c);
  }

  predicate IsDigit(c: char) { '0' <= c <= '9' }

  predicate AllDigits(s: string) {
    forall k :: 0 <= k < |s| ==> IsDigit(s[k])
  }

  function DigitValue(c: char): (v: nat)
    requires IsDigit(c)
    ensures v < 10
  {
    (c - '0') as nat
  }

  function DigitChar(v: nat): (c: char)
    requires v < 10
    ensures IsDigit(c) && DigitValue(c) == v
  {
    ('0' as int + v) as char
  }

  /** The value of a string of decimal digits, most significant first. */
  function DigitsValue(s: string): nat
    requires AllDigits(s)
  {
    if s == [] then 0 else DigitsValue(s[..|s| - 1]) * 10 + DigitValue(s[|s| - 1])
  }

  /** Decimal digits of a natural number, without leading zeros. */
  function NatToDigits(n: nat): (s: string)
    ensures s != [] && AllDigits(s)
    ensures DigitsValue(s) == n
  {
    if n < 10 then [DigitChar(n)]
    else
      var s := NatToDigits(n / 10) + [DigitChar(n % 10)];
      assert s[..|s| - 1] == NatToDigits(n / 10);
      s
  }

  /** `String(n)` / `n.toString()` for an integer `n`. */
  function IntToString(n: int): (s: string)
    ensures s != []
  {
    if n < 0 then "-" + NatToDigits(-n) else NatToDigits(n)
  }

  /** Length of the longest prefix of `s` that satisfies `p`. */
  function PrefixLength(s: string, p: char -> bool): (n: nat)
    ensures n <= |s|
    ensures forall k :: 0 <= k < n ==> p(s[k])
    ensures n < |s| ==> !p(s[n])
  {
    if |s| > 0 && p(s[0]) then 1 + PrefixLength(s[1..], p) else 0
  }

  lemma PrefixLengthAll(s: string, p: char -> bool)
    requires forall k :: 0 <= k < |s| ==> p(s[k])
    ensures PrefixLength(s, p) == |s|
  {
  }

  predicate IsHexDigit(c: char) {
    IsDigit(c) || ('a' <= c <= 'f') || ('A' <= c <= 'F')
  }

  function HexDigitValue(c: char): (v: nat)
    requires IsHexDigit(c)
    ensures v < 16
  {
    if IsDigit(c) then DigitValue(c)
    else if 'a' <= c <= 'f' then (c - 'a') as nat + 10
    else (c - 'A') as nat + 10
  }

  function HexValue(s: string): nat
    requires forall k :: 0 <= k < |s| ==> IsHexDigit(s[k])
  {
    if s == [] then 0 else HexValue(s[..|s| - 1]) * 16 + HexDigitValue(s[|s| - 1])
  }

  /** Magnitude of `parseInt` after the sign: a "0x"/"0X" prefix selects base 16,
      otherwise base 10; the longest run of digits is read and None (NaN)
      results when there is none. */
  function ParseMagnitude(s: string): (r: Option<nat>)
  {
    if |s| >= 2 && s[0] == '0' && (s[1] == 'x' || s[1] == 'X') then
      var body := s[2..];
      var n := PrefixLength(body, IsHexDigit);
      if n == 0 then None else Some(HexValue(body[..n]))
    else
      var n := PrefixLength(s, IsDigit);
      if n == 0 then None else Some(DigitsValue(s[..n]))
  }

  /** `parseInt(s)` with no radix, for integral results; None stands for NaN. */
  function ParseInt(s: string): (r: Option<int>)
    ensures AllWhitespace(s) ==> r.None?
    ensures s != [] && AllDigits(s) ==> r == Some(DigitsValue(s))
  {
    var t := TrimStart(s);
    assert AllWhitespace(s) ==> t == [] by {
      if AllWhitespace(s) { PrefixLengthAll(s, IsWhitespace); }
    }
    assert s != [] && AllDigits(s) ==> t == s && ParseMagnitude(s) == Some(DigitsValue(s)) by {
      if s != [] && AllDigits(s) {
        assert !IsWhitespace(s[0]);
        ParseMagnitudeOfDigits(s);
      }
    }
    if |t| > 0 && t[0] == '-' then
      match ParseMagnitude(t[1..])
      case None => None
      case Some(v) => Some(0 - v)
    else if |t| > 0 && t[0] == '+' then ParseMagnitude(t[1..])
    else ParseMagnitude(t)
  }

  /** `Number(s)` for the strings an integer field produces: blank is 0, an
      optionally signed run of decimal digits is its value, anything else is
      NaN (None). */
  function Number(s: string): (r: Option<int>)
    ensures AllWhitespace(s) ==> r == Some(0)
  {
    var t := Trim(s);
    if t == [] then Some(0)
    else if t[0] == '-' && |t| > 1 && AllDigits(t[1..]) then Some(0 - DigitsValue(t[1..]))
    else if t[0] == '+' && |t| > 1 && AllDigits(t[1..]) then Some(DigitsValue(t[1..]))
    else if AllDigits(t) then Some(DigitsValue(t))
    else None
  }

  /** `Number` reads a plain run of decimal digits as its value. */
  lemma NumberOfDigits(s: string)
    requires AllDigits(s) && s != []
    ensures Number(s) == Some(DigitsValue(s))
  {
    assert !IsWhitespace(s[0]) && !IsWhitespace(s[|s| - 1]);
    assert PrefixLength(s, IsWhitespace) == 0;
    assert TrailingWhitespace(s) == 0;
    assert Trim(s) == s[0..|s|] == s;
  }

  /** `parseInt` reads a plain run of decimal digits as its value. */
  lemma ParseMagnitudeOfDigits(d: string)
    requires AllDigits(d) && d != []
    ensures ParseMagnitude(d) == Some(DigitsValue(d))
  {
    assert |d| >= 2 ==> d[1] != 'x' && d[1] != 'X';
    PrefixLengthAll(d, IsDigit);
    assert d[..|d|] == d;
  }

  /** `parseInt(String(n))` gives back `n` for every integer. */
  lemma ParseIntOfIntToString(n: int)
    ensures ParseInt(IntToString(n)) == Some(n)
  {
    var digits := NatToDigits(if n < 0 then -n else n);
    ParseMagnitudeOfDigits(digits);
    var s := IntToString(n);
    assert !IsWhitespace(s[0]);
    assert PrefixLength(s, IsWhitespace) == 0;
    assert TrimStart(s) == s;
    if n < 0 {
      assert s[1..] == digits;
    } else {
      assert s == digits;
    }
  }
}
