/**
 * The list columns (`tags`, `platforms` and the five `user_data` lists) hold a list of strings as
 * JSON text. `EncodeList` is what `JSON.stringify` writes for an array of strings (section 5 of
 * RFC 8259 for arrays, section 7 for strings); `DecodeList` is `JSON.parse` restricted to such arrays,
 * with `None` where `JSON.parse` throws or yields something other than an array of strings.
 */
module JsonLists {
  import opened Wrappers

  /** Lower-case hexadecimal digit, as `JSON.stringify` writes in `\u00XX`. */
  function HexDigit(d: nat): (c: char)
    requires d < 16
  {
    if d < 10 then ('0' as int + d) as char else ('a' as int + d - 10) as char
  }

  /** The value of a hexadecimal digit in either case (section 7 of RFC 8259). */
  function HexValue(c: char): Option<nat> {
    if '0' <= c <= '9' then Some(c as int - '0' as int)
    else if 'a' <= c <= 'f' then Some(c as int - 'a' as int + 10)
    else if 'A' <= c <= 'F' then Some(c as int - 'A' as int + 10)
    else None
  }

  lemma HexValueOfDigit(d: nat)
    requires d < 16
    ensures HexValue(HexDigit(d)) == Some(d)
  {
  }

  /** How `JSON.stringify` writes one character inside a string literal. */
  function EscapeChar(c: char): (r: string)
    ensures r != []
  {
    if c == '"' then ['\\', '"']
    else if c == '\\' then ['\\', '\\']
    else if c as int == 0x08 then ['\\', 'b']
    else if c as int == 0x0C then ['\\', 'f']
    else if c == '\n' then ['\\', 'n']
    else if c == '\r' then ['\\', 'r']
    else if c == '\t' then ['\\', 't']
    else if c as int < 0x20 then ['\\', 'u', '0', '0', HexDigit(c as int / 16), HexDigit(c as int % 16)]
    else [c]
  }

  function Escape(s: string): string
    decreases |s|
  {
    if s == [] then [] else EscapeChar(s[0]) + Escape(s[1..])
  }

  /** `JSON.stringify` of a string: the escaped characters between double quotes. */
  function Quote(s: string): string {
    ['"'] + Escape(s) + ['"']
  }

  /** `JSON.stringify` of an array of strings: no white space, elements separated by commas. */
  function EncodeList(xs: seq<string>): (text: string)
    ensures |text| >= 2 && text[0] == '[' && text[|text| - 1] == ']'
  {
    if xs == [] then "[]" else "[" + EncodeItems(xs)
  }

  /** The elements of a non-empty array and its closing bracket. */
  function EncodeItems(xs: seq<string>): (text: string)
    requires xs != []
    ensures text != [] && text[0] == '"' && text[|text| - 1] == ']'
    decreases |xs|
  {
    Quote(xs[0]) + (if |xs| == 1 then "]" else "," + EncodeItems(xs[1..]))
  }

  /** The insignificant white space of section 2 of RFC 8259. */
  predicate IsWhitespace(c: char) {
    c == ' ' || c == '\t' || c == '\n' || c == '\r'
  }

  function SkipWhitespace(s: string): (r: string)
    ensures |r| <= |s|
    decreases |s|
  {
    if s != [] && IsWhitespace(s[0]) then SkipWhitespace(s[1..]) else s
  }

  /** The value of four hexadecimal digits. */
  function Hex4(s: string): (r: Option<nat>)
    requires |s| == 4
    ensures r.Some? ==> r.value < 0x10000
  {
    match (HexValue(s[0]), HexValue(s[1]), HexValue(s[2]), HexValue(s[3]))
    case (Some(a), Some(b), Some(c), Some(d)) =>
      if a < 16 && b < 16 && c < 16 && d < 16 then Some(((a * 16 + b) * 16 + c) * 16 + d) else None
    case _ => None
  }

  /** The character a UTF-16 surrogate pair stands for (section 7 of RFC 8259, section 2.2 of RFC 2781). */
  function CombineSurrogates(hi: nat, lo: nat): (c: char)
    requires 0xD800 <= hi < 0xDC00 && 0xDC00 <= lo < 0xE000
  {
    (0x10000 + (hi - 0xD800) * 0x400 + (lo - 0xDC00)) as char
  }

  /**
   * The character an escape sequence stands for, given the text after its backslash, with the number
   * of characters the sequence takes there. A high-surrogate `\u` escape followed by a low-surrogate
   * one is a single character; a lone surrogate is refused, since the model's characters are Unicode
   * scalar values.
   */
  function Unescape(t: string): (r: Option<(char, nat)>)
    ensures r.Some? ==> 1 <= r.value.1 <= |t|
  {
    if t == [] then None
    else if t[0] == '"' || t[0] == '\\' || t[0] == '/' then Some((t[0], 1))
    else if t[0] == 'b' then Some((0x08 as char, 1))
    else if t[0] == 'f' then Some((0x0C as char, 1))
    else if t[0] == 'n' then Some(('\n', 1))
    else if t[0] == 'r' then Some(('\r', 1))
    else if t[0] == 't' then Some(('\t', 1))
    else if t[0] == 'u' && |t| >= 5 then
      match Hex4(t[1..5])
      case None => None
      case Some(v) =>
        if v < 0xD800 || 0xE000 <= v then Some((v as char, 5))
        else if v < 0xDC00 && |t| >= 11 && t[5] == '\\' && t[6] == 'u' then
          match Hex4(t[7..11])
          case Some(w) => if 0xDC00 <= w < 0xE000 then Some((CombineSurrogates(v, w), 11)) else None
          case None => None
        else None
    else None
  }

  /** Four hexadecimal digits for a code unit, as a `\uXXXX` escape spells it. */
  function Hex4Text(v: nat): (t: string)
    requires v < 0x10000
    ensures |t| == 4
  {
    var q1 := v / 16;
    var q2 := q1 / 16;
    [HexDigit(q2 / 16), HexDigit(q2 % 16), HexDigit(q1 % 16), HexDigit(v % 16)]
  }

  lemma Hex4OfText(v: nat)
    requires v < 0x10000
    ensures Hex4(Hex4Text(v)) == Some(v)
  {
    var q1 := v / 16;
    var q2 := q1 / 16;
    HexValueOfDigit(q2 / 16);
    HexValueOfDigit(q2 % 16);
    HexValueOfDigit(q1 % 16);
    HexValueOfDigit(v % 16);
    assert v == q1 * 16 + v % 16;
    assert q1 == q2 * 16 + q1 % 16;
    assert q2 == (q2 / 16) * 16 + q2 % 16;
  }

  /** The high and the low surrogate of a character beyond U+FFFF. */
  function HighSurrogate(c: char): (hi: nat)
    requires c as int >= 0x10000
    ensures 0xD800 <= hi < 0xDC00
  {
    0xD800 + (c as int - 0x10000) / 0x400
  }

  function LowSurrogate(c: char): (lo: nat)
    requires c as int >= 0x10000
    ensures 0xDC00 <= lo < 0xE000
  {
    0xDC00 + (c as int - 0x10000) % 0x400
  }

  /** A character beyond U+FFFF written as two `\u` escapes of its surrogates decodes to that character. */
  lemma SurrogatePairDecodes(c: char, tail: string)
    requires c as int >= 0x10000
    ensures Unescape(['u'] + Hex4Text(HighSurrogate(c)) + ['\\', 'u'] + Hex4Text(LowSurrogate(c)) + tail) == Some((c, 11))
  {
    var hi, lo := HighSurrogate(c), LowSurrogate(c);
    var t := ['u'] + Hex4Text(hi) + ['\\', 'u'] + Hex4Text(lo) + tail;
    assert t[1..5] == Hex4Text(hi);
    assert t[7..11] == Hex4Text(lo);
    Hex4OfText(hi);
    Hex4OfText(lo);
    var x := c as int - 0x10000;
    assert (x / 0x400) * 0x400 + x % 0x400 == x;
    assert CombineSurrogates(hi, lo) == c;
  }

  /** Put `c` in front of the characters of a parsed string, keeping what follows it. */
  function Cons(c: char, r: Option<(string, string)>): (r': Option<(string, string)>)
    ensures r'.Some? <==> r.Some?
    ensures r'.Some? ==> r'.value == ([c] + r.value.0, r.value.1)
  {
    match r
    case None => None
    case Some((x, rest)) => Some(([c] + x, rest))
  }

  /**
   * The body of a string literal whose opening quote has been consumed: the characters it denotes
   * and the text after the closing quote. Unescaped control characters are refused.
   */
  function ParseChars(s: string): (r: Option<(string, string)>)
    ensures r.Some? ==> |r.value.1| < |s|
    decreases |s|
  {
    if s == [] then None
    else if s[0] == '"' then Some(([], s[1..]))
    else if s[0] == '\\' then
      match Unescape(s[1..])
      case None => None
      case Some((c, k)) => Cons(c, ParseChars(s[1 + k..]))
    else if s[0] as int < 0x20 then None
    else Cons(s[0], ParseChars(s[1..]))
  }

  /** The elements of an array after its opening bracket, and the text after its closing bracket. */
  function ParseItems(s: string): (r: Option<(seq<string>, string)>)
    ensures r.Some? ==> |r.value.1| < |s|
    decreases |s|
  {
    if s == [] || s[0] != '"' then None
    else
      match ParseChars(s[1..])
      case None => None
      case Some((x, after)) =>
        var t := SkipWhitespace(after);
        if t == [] then None
        else if t[0] == ']' then Some(([x], t[1..]))
        else if t[0] == ',' then
          match ParseItems(SkipWhitespace(t[1..]))
          case None => None
          case Some((xs, rest)) => Some(([x] + xs, rest))
        else None
  }

  /** `JSON.parse(text)` when the text is an array of strings; `None` for anything else. */
  function DecodeList(text: string): Option<seq<string>> {
    var s := SkipWhitespace(text);
    if s == [] || s[0] != '[' then None
    else
      var b := SkipWhitespace(s[1..]);
      if b != [] && b[0] == ']' then
        if SkipWhitespace(b[1..]) == [] then Some([]) else None
      else
        match ParseItems(b)
        case None => None
        case Some((xs, rest)) => if SkipWhitespace(rest) == [] then Some(xs) else None
  }

  /** An escape sequence that `Unescape` reads as `c` is decoded as `c`, and decoding goes on after it. */
  lemma EscapeStep(s: string, c: char, k: nat)
    requires s != [] && s[0] == '\\' && Unescape(s[1..]) == Some((c, k))
    ensures ParseChars(s) == Cons(c, ParseChars(s[1 + k..]))
  {
  }

  /** The two-character escapes decode to the character they stand for. */
  lemma ShortEscapeDecodes(c: char, tail: string)
    requires c == '"' || c == '\\' || c as int == 0x08 || c as int == 0x0C || c == '\n' || c == '\r' || c == '\t'
    ensures ParseChars(EscapeChar(c) + tail) == Cons(c, ParseChars(tail))
  {
    var s := EscapeChar(c) + tail;
    assert s[1..] == [EscapeChar(c)[1]] + tail;
    assert Unescape(s[1..]) == Some((c, 1));
    assert s[1 + 1..] == tail;
    EscapeStep(s, c, 1);
  }

  /** The other control characters go through `\u00XX` and decode back. */
  lemma UnicodeEscapeDecodes(c: char, tail: string)
    requires c as int < 0x20
    requires !(c == '"' || c == '\\' || c as int == 0x08 || c as int == 0x0C || c == '\n' || c == '\r' || c == '\t')
    ensures ParseChars(EscapeChar(c) + tail) == Cons(c, ParseChars(tail))
  {
    var s := EscapeChar(c) + tail;
    var hi, lo := c as int / 16, c as int % 16;
    HexValueOfDigit(hi);
    HexValueOfDigit(lo);
    var e := EscapeChar(c);
    assert e == ['\\', 'u', '0', '0', HexDigit(hi), HexDigit(lo)];
    var digits := s[1..][1..5];
    assert digits == e[2..6];
    assert digits == ['0', '0', HexDigit(hi), HexDigit(lo)];
    assert hi * 16 + lo == c as int;
    assert Hex4(digits) == Some(c as int);
    assert Unescape(s[1..]) == Some((c, 5));
    assert s[1 + 5..] == tail;
    EscapeStep(s, c, 5);
  }

  /** Decoding one escaped character yields that character and continues after it. */
  lemma EscapedCharDecodes(c: char, tail: string)
    ensures ParseChars(EscapeChar(c) + tail) == Cons(c, ParseChars(tail))
  {
    if c == '"' || c == '\\' || c as int == 0x08 || c as int == 0x0C || c == '\n' || c == '\r' || c == '\t' {
      ShortEscapeDecodes(c, tail);
    } else if c as int < 0x20 {
      UnicodeEscapeDecodes(c, tail);
    } else {
      var s := EscapeChar(c) + tail;
      assert s[1..] == tail;
    }
  }

  /** A quoted string decodes to itself, leaving the text after the closing quote. */
  lemma {:induction false} StringRoundTrip(x: string, rest: string)
    ensures ParseChars(Escape(x) + ['"'] + rest) == Some((x, rest))
    decreases |x|
  {
    if x == [] {
      assert Escape(x) + ['"'] + rest == ['"'] + rest;
    } else {
      var tail := Escape(x[1..]) + ['"'] + rest;
      assert Escape(x) + ['"'] + rest == EscapeChar(x[0]) + tail;
      EscapedCharDecodes(x[0], tail);
      StringRoundTrip(x[1..], rest);
      assert [x[0]] + x[1..] == x;
    }
  }

  /** After a string element, a closing bracket ends the array. */
  lemma ParseItemsLast(s: string, x: string, after: string)
    requires s != [] && s[0] == '"' && ParseChars(s[1..]) == Some((x, after))
    requires after != [] && after[0] == ']'
    ensures ParseItems(s) == Some(([x], after[1..]))
  {
  }

  /** After a string element, a comma continues the array. */
  lemma ParseItemsMore(s: string, x: string, after: string, xs: seq<string>, rest: string)
    requires s != [] && s[0] == '"' && ParseChars(s[1..]) == Some((x, after))
    requires after != [] && after[0] == ','
    requires ParseItems(SkipWhitespace(after[1..])) == Some((xs, rest))
    ensures ParseItems(s) == Some(([x] + xs, rest))
  {
  }

  lemma QuotedPrefix(x: string, after: string)
    ensures (Quote(x) + after)[1..] == Escape(x) + ['"'] + after
  {
  }

  /** A quoted element decodes to itself, leaving what follows its closing quote. */
  lemma QuotedItem(x: string, after: string)
    ensures var s := Quote(x) + after; s != [] && s[0] == '"' && ParseChars(s[1..]) == Some((x, after))
  {
    QuotedPrefix(x, after);
    StringRoundTrip(x, after);
  }

  /** The encoded elements of a non-empty array decode to the same elements in the same order. */
  lemma {:induction false} ItemsRoundTrip(xs: seq<string>, rest: string)
    requires xs != []
    ensures ParseItems(EncodeItems(xs) + rest) == Some((xs, rest))
    decreases |xs|
  {
    var s := EncodeItems(xs) + rest;
    if |xs| == 1 {
      var after := "]" + rest;
      assert s == Quote(xs[0]) + after;
      QuotedItem(xs[0], after);
      ParseItemsLast(s, xs[0], after);
      assert after[1..] == rest;
      assert [xs[0]] == xs;
    } else {
      var next := EncodeItems(xs[1..]) + rest;
      var after := [','] + next;
      assert s == Quote(xs[0]) + after;
      QuotedItem(xs[0], after);
      assert after[1..] == next;
      assert SkipWhitespace(next) == next;
      ItemsRoundTrip(xs[1..], rest);
      ParseItemsMore(s, xs[0], after, xs[1..], rest);
      assert [xs[0]] + xs[1..] == xs;
    }
  }

  /** Round trip: `JSON.parse(JSON.stringify(xs))` gives back `xs`, order included. */
  lemma DecodeEncode(xs: seq<string>)
    ensures DecodeList(EncodeList(xs)) == Some(xs)
  {
    var text := EncodeList(xs);
    assert SkipWhitespace(text) == text;
    if xs != [] {
      assert text[1..] == EncodeItems(xs) + [];
      assert SkipWhitespace(text[1..]) == text[1..];
      ItemsRoundTrip(xs, []);
    } else {
      assert text[1..] == "]";
    }
  }

  /** Different lists are stored as different texts. */
  lemma EncodeInjective(xs: seq<string>, ys: seq<string>)
    requires EncodeList(xs) == EncodeList(ys)
    ensures xs == ys
  {
    DecodeEncode(xs);
    DecodeEncode(ys);
  }
}
