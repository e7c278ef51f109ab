/** Conversions between numbers and their decimal text: `parseInt(s, 10)` and `n.toString()`. */
module JsNumbers {
  import opened Wrappers
  import opened Strings

  predicate IsDigit(c: char) {
    '0' <= c <= '9'
  }

  /** The longest prefix of `s` made of decimal digits. */
  function DigitPrefix(s: string): (r: string)
    ensures |r| <= |s| && r == s[..|r|]
    ensures forall i :: 0 <= i < |r| ==> IsDigit(r[i])
    ensures |r| < |s| ==> !IsDigit(s[|r|])
    decreases |s|
  {
    if s != [] && IsDigit(s[0]) then [s[0]] + DigitPrefix(s[1..]) else []
  }

  /** The value of a string of decimal digits, most significant first. */
  function DigitsValue(ds: string): (n: nat)
    requires forall i :: 0 <= i < |ds| ==> IsDigit(ds[i])
    decreases |ds|
  {
    if ds == [] then 0
    else
      assert IsDigit(ds[|ds| - 1]);
      DigitsValue(ds[..|ds| - 1]) * 10 + (ds[|ds| - 1] as int - '0' as int)
  }

  /**
   * `parseInt(s, 10)`: skip leading white space, read an optional sign, then as many decimal digits
   * as there are; `None` stands for `NaN` (no digit at all).
   */
  function ParseInt(s: string): Option<int> {
    ParseSigned(TrimStart(s))
  }

  /** `parseInt` after the leading white space: an optional sign, then the digits. */
  function ParseSigned(t: string): Option<int> {
    var negative := t != [] && t[0] == '-';
    var body := if t != [] && (t[0] == '-' || t[0] == '+') then t[1..] else t;
    match ReadDigits(body)
    case None => None
    case Some(v) =>
      var value: int := v;
      Some(if negative then -value else value)
  }

  /** The value of the leading digits, `None` when there is none. */
  function ReadDigits(body: string): Option<nat> {
    var ds := DigitPrefix(body);
    if ds == [] then None else Some(DigitsValue(ds))
  }

  function DigitChar(d: nat): (c: char)
    requires d < 10
    ensures IsDigit(c) && c as int - '0' as int == d
  {
    ('0' as int + d) as char
  }

  /** `n.toString()` for a non-negative integer: its decimal digits without leading zeros. */
  function NatToString(n: nat): (s: string)
    ensures s != [] && forall i :: 0 <= i < |s| ==> IsDigit(s[i])
    ensures |s| > 1 ==> s[0] != '0'
  {
    if n < 10 then [DigitChar(n)]
    else NatToString(n / 10) + [DigitChar(n % 10)]
  }

  lemma {:induction false} DigitsOfNatToString(n: nat)
    ensures DigitsValue(NatToString(n)) == n
  {
    if n >= 10 {
      DigitsOfNatToString(n / 10);
      var s := NatToString(n);
      assert s[..|s| - 1] == NatToString(n / 10);
    }
  }

  lemma {:induction false} DigitPrefixOfDigits(s: string)
    requires forall i :: 0 <= i < |s| ==> IsDigit(s[i])
    ensures DigitPrefix(s) == s
    decreases |s|
  {
    if s != [] {
      DigitPrefixOfDigits(s[1..]);
    }
  }

  /** The digits of a run of decimal digits are all of it. */
  lemma ReadAllDigits(s: string)
    requires s != [] && forall i :: 0 <= i < |s| ==> IsDigit(s[i])
    ensures ReadDigits(s) == Some(DigitsValue(s))
  {
    DigitPrefixOfDigits(s);
  }

  /** Without a sign, `parseInt` reads the leading digits as they are. */
  lemma ParseUnsigned(t: string)
    requires t != [] && IsDigit(t[0])
    ensures ParseSigned(t) == if ReadDigits(t).None? then None else Some(ReadDigits(t).value as int)
  {
  }

  /** `parseInt` of a run of decimal digits is their value. */
  lemma ParseDigits(s: string)
    requires s != [] && forall i :: 0 <= i < |s| ==> IsDigit(s[i])
    ensures ParseInt(s) == Some(DigitsValue(s) as int)
  {
    var c := s[0];
    assert IsDigit(c);
    assert !IsSpace(c);
    TrimStartUnspaced(s);
    ReadAllDigits(s);
    ParseUnsigned(s);
  }

  /** `parseInt` reads back what `toString` wrote: the id text in a token or a response is the id. */
  lemma ParseNatToString(n: nat)
    ensures ParseInt(NatToString(n)) == Some(n)
  {
    ParseDigits(NatToString(n));
    DigitsOfNatToString(n);
  }

  /** Distinct ids have distinct decimal texts. */
  lemma NatToStringInjective(m: nat, n: nat)
    requires NatToString(m) == NatToString(n)
    ensures m == n
  {
    ParseNatToString(m);
    ParseNatToString(n);
  }
  /**
   * `Number(text)` for a query parameter, on integer texts: an absent parameter is `NaN`, a blank one
   * is 0, and an optionally signed run of digits, white space around it allowed, is its value.
   * `None` stands for `NaN`.
   */
  function NumberOf(text: Option<string>): Option<int> {
    if text.None? then None else NumberText(Trim(text.value))
  }

  /** `Number` of a text without surrounding white space. */
  function NumberText(t: string): Option<int> {
    if t == [] then Some(0)
    else
      var negative := t[0] == '-';
      var body := if t[0] == '-' || t[0] == '+' then t[1..] else t;
      if body != [] && forall i | 0 <= i < |body| :: IsDigit(body[i]) then
        var v: int := DigitsValue(body);
        Some(if negative then -v else v)
      else None
  }

  /** An unsigned run of digits is its value. */
  lemma NumberTextDigits(ds: string)
    requires ds != [] && forall i :: 0 <= i < |ds| ==> IsDigit(ds[i])
    ensures NumberText(ds) == Some(DigitsValue(ds) as int)
  {
    assert IsDigit(ds[0]);
  }

  /** A minus sign before a run of digits negates their value. */
  lemma NumberTextNegated(ds: string, v: nat)
    requires ds != [] && forall i :: 0 <= i < |ds| ==> IsDigit(ds[i])
    requires DigitsValue(ds) == v
    ensures NumberText("-" + ds) == Some(-(v as int))
  {
    var t := "-" + ds;
    assert t[0] == '-' && t[1..] == ds;
  }

  /** `Number` reads back what `toString` wrote. */
  lemma NumberOfNatToString(n: nat)
    ensures NumberOf(Some(NatToString(n))) == Some(n)
  {
    var s := NatToString(n);
    assert IsDigit(s[0]) && IsDigit(s[|s| - 1]);
    TrimUnspaced(s);
    NumberTextDigits(s);
    DigitsOfNatToString(n);
  }

  /** A minus sign before digits has no white space to trim. */
  lemma TrimSignedDigits(ds: string)
    requires ds != [] && forall i :: 0 <= i < |ds| ==> IsDigit(ds[i])
    ensures Trim("-" + ds) == "-" + ds
  {
    var s := "-" + ds;
    var last := ds[|ds| - 1];
    assert s[|s| - 1] == last;
    assert IsDigit(last);
    TrimUnspaced(s);
  }

  /** `Number` reads a minus sign followed by digits as their negated value. */
  lemma NumberOfSignedDigits(ds: string, v: nat)
    requires ds != [] && forall i :: 0 <= i < |ds| ==> IsDigit(ds[i])
    requires DigitsValue(ds) == v
    ensures NumberOf(Some("-" + ds)) == Some(-(v as int))
  {
    TrimSignedDigits(ds);
    NumberTextNegated(ds, v);
  }
}
