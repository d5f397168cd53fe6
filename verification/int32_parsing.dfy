/**
 * The framework's `int.TryParse(string, out int)` with its default number
 * style: optional leading and trailing white space, an optional leading
 * `+` or `-`, then one or more decimal digits, the value within the range of
 * a 32-bit signed integer. Also the decimal rendering of an `int`, so that
 * the parser can be stated against its inverse.
 */
module Int32Parsing {
  import opened Wrappers

  const MinInt32: int := -0x8000_0000
  const MaxInt32: int := 0x7fff_ffff

  predicate InInt32(n: int)
  {
    MinInt32 <= n <= MaxInt32
  }

  /** White space the default number style skips: tab, line feed, vertical tab, form feed, carriage return, space. */
  predicate IsWhite(c: char)
  {
    c == ' ' || '\t' <= c <= '\r'
  }

  predicate IsDigit(c: char)
  {
    '0' <= c <= '9'
  }

  predicate AllDigits(s: string)
  {
    forall i :: 0 <= i < |s| ==> IsDigit(s[i])
  }

  function TrimStart(s: string): (r: string)
    ensures |r| <= |s| && r == s[|s| - |r|..]
    ensures r != [] ==> !IsWhite(r[0])
    decreases |s|
  {
    if s != [] && IsWhite(s[0]) then TrimStart(s[1..]) else s
  }

  function TrimEnd(s: string): (r: string)
    ensures |r| <= |s| && r == s[..|r|]
    ensures r != [] ==> !IsWhite(r[|r| - 1])
    decreases |s|
  {
    if s != [] && IsWhite(s[|s| - 1]) then TrimEnd(s[..|s| - 1]) else s
  }

  /** The value of a string of decimal digits, most significant first. */
  function DigitsValue(s: string): nat
    requires AllDigits(s)
    decreases |s|
  {
    if s == [] then 0
    else DigitsValue(s[..|s| - 1]) * 10 + (s[|s| - 1] as int - '0' as int)
  }

  /** `int.TryParse`: the parsed value, or None where the framework returns false. */
  function TryParseInt32(s: string): (r: Option<int>)
    ensures r.Some? ==> InInt32(r.value)
  {
    var t := TrimEnd(TrimStart(s));
    if t == [] then None
    else
      var negative := t[0] == '-';
      var digits := if t[0] == '-' || t[0] == '+' then t[1..] else t;
      if digits == [] || !AllDigits(digits) then None
      else
        var value: int := DigitsValue(digits);
        var v := if negative then -value else value;
        if InInt32(v) then Some(v) else None
  }

  /** The shortest decimal rendering of a natural number. */
  function DecimalString(n: nat): (s: string)
    ensures s != [] && AllDigits(s)
    decreases n
  {
    var d := ['0' + (n % 10) as char];
    if n < 10 then d else DecimalString(n / 10) + d
  }

  /** `n.ToString()` in the invariant culture. */
  function Int32ToString(n: int): string
  {
    if n < 0 then "-" + DecimalString(-n) else DecimalString(n)
  }

  /** Reading back a decimal rendering gives the number. */
  lemma {:induction false} DecimalStringValue(n: nat)
    ensures DigitsValue(DecimalString(n)) == n
    decreases n
  {
    var s := DecimalString(n);
    if n >= 10 {
      DecimalStringValue(n / 10);
      assert s[..|s| - 1] == DecimalString(n / 10);
    }
  }

  /** A string with no white space at either end is left alone by trimming. */
  lemma TrimNothing(s: string)
    requires s != [] && !IsWhite(s[0]) && !IsWhite(s[|s| - 1])
    ensures TrimEnd(TrimStart(s)) == s
  {
  }

  /** `int.TryParse(n.ToString())` succeeds with `n` for every 32-bit `n`. */
  lemma ParseFormatRoundTrip(n: int)
    requires InInt32(n)
    ensures TryParseInt32(Int32ToString(n)) == Some(n)
  {
    var m: nat := if n < 0 then -n else n;
    DecimalStringValue(m);
    ParseSignedDigits(Int32ToString(n), DecimalString(m), n < 0);
  }

  /** A run of digits, after a minus sign or none, parses to its value (or its negation) when that fits. */
  lemma ParseSignedDigits(s: string, d: string, negative: bool)
    requires d != [] && AllDigits(d)
    requires s == if negative then "-" + d else d
    ensures var value: int := DigitsValue(d);
            var v := if negative then -value else value;
            TryParseInt32(s) == if InInt32(v) then Some(v) else None
  {
    assert IsDigit(d[0]) && IsDigit(d[|d| - 1]);
    assert s[|s| - 1] == d[|d| - 1];
    TrimNothing(s);
    var digits := if s[0] == '-' || s[0] == '+' then s[1..] else s;
    assert digits == d && (s[0] == '-' <==> negative);
  }

  /** Strings with no digit at all never parse. */
  lemma NoDigitsNoParse(s: string)
    requires forall i :: 0 <= i < |s| ==> !IsDigit(s[i])
    ensures TryParseInt32(s) == None
  {
    var t := TrimEnd(TrimStart(s));
    if t != [] {
      var digits := if t[0] == '-' || t[0] == '+' then t[1..] else t;
      if digits != [] {
        assert digits[0] in s;
      }
    }
  }
}
