/**
 * The few JavaScript / Python string operations the dashboard relies on,
 * written out character by character: `split(sep)[0]`, `substring(0, n)`
 * (and Python's `s[:n]`), `toLowerCase` and `parseInt`.
 */
module Text {
  import opened Wrappers

  /** `s.substring(0, n)` in JavaScript, `s[:n]` in Python: the first `n` characters, or all of `s`. */
  function Take(s: string, n: nat): (r: string)
    ensures |r| == if |s| < n then |s| else n
    ensures r <= s
  {
    if |s| <= n then s else s[..n]
  }

  /** `s.split(sep)[0]`: the text before the first `sep`, or all of `s` when there is none. */
  function Before(s: string, sep: char): (r: string)
    ensures r <= s
    ensures sep !in r
    ensures r == s || s[|r|] == sep
  {
    if s == [] then []
    else if s[0] == sep then []
    else [s[0]] + Before(s[1..], sep)
  }

  /** ASCII part of `toLowerCase`: `A`..`Z` become `a`..`z`, every other character stays. */
  function LowerChar(c: char): (r: char)
    ensures 'A' <= c <= 'Z' ==> 'a' <= r <= 'z'
    ensures !('A' <= c <= 'Z') ==> r == c
  {
    if 'A' <= c <= 'Z' then (c as int - 'A' as int + 'a' as int) as char else c
  }

  function ToLower(s: string): (r: string)
    ensures |r| == |s|
    ensures forall i :: 0 <= i < |s| ==> r[i] == LowerChar(s[i])
  {
    if s == [] then [] else [LowerChar(s[0])] + ToLower(s[1..])
  }

  /** The white-space and line-terminator characters `parseInt` skips before the number. */
  predicate IsJsWhitespace(c: char) {
    c == ' ' || c == '\t' || c == '\n' || c == '\r' || c == '\U{B}' || c == '\U{C}'
    || c == '\U{A0}' || c == '\U{FEFF}' || c == '\U{1680}' || ('\U{2000}' <= c <= '\U{200A}')
    || c == '\U{2028}' || c == '\U{2029}' || c == '\U{202F}' || c == '\U{205F}' || c == '\U{3000}'
  }

  function TrimStart(s: string): (r: string)
    ensures |r| <= |s| && r == s[|s| - |r|..]
    ensures r == [] || !IsJsWhitespace(r[0])
    ensures forall i :: 0 <= i < |s| - |r| ==> IsJsWhitespace(s[i])
  {
    if s != [] && IsJsWhitespace(s[0]) then TrimStart(s[1..]) else s
  }

  /** Value of `c` as a digit in base `radix` (10 or 16), if it is one. */
  function DigitValue(c: char, radix: nat): (r: Option<nat>)
    requires radix == 10 || radix == 16
    ensures r.Some? ==> r.value < radix
  {
    if '0' <= c <= '9' then Some(c as int - '0' as int)
    else if radix == 16 && 'a' <= c <= 'f' then Some(c as int - 'a' as int + 10)
    else if radix == 16 && 'A' <= c <= 'F' then Some(c as int - 'A' as int + 10)
    else None
  }

  /** Every character of `ds` is a digit in base `radix`. */
  predicate IsDigits(ds: string, radix: nat)
    requires radix == 10 || radix == 16
  {
    forall i :: 0 <= i < |ds| ==> DigitValue(ds[i], radix).Some?
  }

  /** The longest prefix of `s` made of digits in base `radix`. */
  function LeadingDigits(s: string, radix: nat): (r: string)
    requires radix == 10 || radix == 16
    ensures r <= s
    ensures IsDigits(r, radix)
    ensures r == s || DigitValue(s[|r|], radix).None?
  {
    if s != [] && DigitValue(s[0], radix).Some? then [s[0]] + LeadingDigits(s[1..], radix) else []
  }

  /** Mathematical value of a digit string, most significant digit first. */
  function DigitsValue(ds: string, radix: nat): nat
    requires radix == 10 || radix == 16
    requires IsDigits(ds, radix)
  {
    if ds == [] then 0
    else
      var high := DigitsValue(ds[..|ds| - 1], radix);
      (if radix == 10 then high * 10 else high * 16) + DigitValue(ds[|ds| - 1], radix).value
  }

  /** The unsigned part of `parseInt`: a `0x`/`0X` prefix selects base 16, then the longest run of digits. */
  function ParseUnsigned(u: string): (r: Option<nat>)
  {
    var hex := |u| >= 2 && u[0] == '0' && (u[1] == 'x' || u[1] == 'X');
    var radix := if hex then 16 else 10;
    var ds := LeadingDigits(if hex then u[2..] else u, radix);
    if ds == [] then None else Some(DigitsValue(ds, radix))
  }

  /**
   * `parseInt(s)` with no radix argument. `None` stands for `NaN`.
   * Leading white space is skipped and one `+` or `-` sign is read; anything
   * after the run of digits is ignored.
   */
  function ParseInt(s: string): (r: Option<int>)
    ensures TrimStart(s) == [] ==> r.None?
    ensures r.Some? && r.value < 0 ==> TrimStart(s)[0] == '-'
  {
    var t := TrimStart(s);
    var signed := t != [] && (t[0] == '-' || t[0] == '+');
    var negative := t != [] && t[0] == '-';
    match ParseUnsigned(if signed then t[1..] else t)
    case Some(v) => Some(if negative then -(v as int) else v as int)
    case None => None
  }

  /** Decimal text of a natural number, without leading zeros: the partner of `ParseInt`. */
  function DecimalText(n: nat): (r: string)
    ensures r != [] && IsDigits(r, 10)
    ensures |r| > 1 ==> r[0] != '0'
  {
    if n < 10 then [('0' as int + n) as char]
    else DecimalText(n / 10) + [('0' as int + n % 10) as char]
  }

  lemma {:induction false} DecimalTextValue(n: nat)
    ensures DigitsValue(DecimalText(n), 10) == n
  {
    var r := DecimalText(n);
    if n >= 10 {
      DecimalTextValue(n / 10);
      assert r[..|r| - 1] == DecimalText(n / 10);
    }
  }

  /**
   * Round trip: `parseInt` reads back the decimal text of any natural number,
   * whatever follows it after a `-` (the shape of an ISO date's year).
   */
  lemma ParseIntDecimalThen(n: nat, rest: string)
    requires rest == [] || rest[0] == '-'
    ensures ParseInt(DecimalText(n) + rest) == Some(n)
  {
    DecimalTextValue(n);
    ParseIntDigitsThen(DecimalText(n), rest);
  }

  /** A decimal digit string without a leading zero, followed by nothing or a `-`, parses to its value. */
  lemma ParseIntDigitsThen(ds: string, rest: string)
    requires ds != [] && IsDigits(ds, 10) && (|ds| > 1 ==> ds[0] != '0')
    requires rest == [] || rest[0] == '-'
    ensures ParseInt(ds + rest) == Some(DigitsValue(ds, 10) as int)
  {
    var s := ds + rest;
    assert s[0] == ds[0] && DigitValue(ds[0], 10).Some?;
    ParseIntOfDigitStart(s);
    ParseUnsignedDigitsThen(ds, rest);
  }

  lemma ParseIntOfDigitStart(s: string)
    requires s != [] && '0' <= s[0] <= '9'
    ensures ParseInt(s) == match ParseUnsigned(s) case Some(v) => Some(v as int) case None => None
  {
    assert TrimStart(s) == s;
    assert !(s[0] == '-' || s[0] == '+');
  }

  lemma ParseUnsignedDigitsThen(ds: string, rest: string)
    requires ds != [] && IsDigits(ds, 10) && (|ds| > 1 ==> ds[0] != '0')
    requires rest == [] || rest[0] == '-'
    ensures ParseUnsigned(ds + rest) == Some(DigitsValue(ds, 10))
  {
    var s := ds + rest;
    var hex := |s| >= 2 && s[0] == '0' && (s[1] == 'x' || s[1] == 'X');
    assert !hex by {
      if |ds| == 1 && |s| >= 2 { assert s[1] == rest[0]; }
      else if |ds| > 1 { assert s[0] == ds[0]; }
    }
    LeadingDigitsAppend(ds, rest);
    assert LeadingDigits(s, 10) == ds;
  }

  lemma ParseIntDecimal(n: nat)
    ensures ParseInt(DecimalText(n)) == Some(n)
  {
    assert DecimalText(n) + [] == DecimalText(n);
    ParseIntDecimalThen(n, []);
  }

  lemma {:induction false} LeadingDigitsAppend(ds: string, rest: string)
    requires IsDigits(ds, 10)
    requires rest == [] || DigitValue(rest[0], 10).None?
    ensures LeadingDigits(ds + rest, 10) == ds
  {
    if ds != [] {
      assert (ds + rest)[1..] == ds[1..] + rest;
      LeadingDigitsAppend(ds[1..], rest);
    }
  }

  /** `parseInt` yields `NaN` exactly when no digit follows the optional sign and prefix; in particular for text starting with a letter other than a digit. */
  lemma ParseIntNaN(s: string)
    requires s != [] && !IsJsWhitespace(s[0]) && s[0] != '+' && s[0] != '-'
    requires DigitValue(s[0], 10).None?
    ensures ParseInt(s) == None
  {
  }
}
