/**
 * JSON text for strings, as `JSON.stringify` produces it (ECMAScript's
 * QuoteJSONString), together with a decoder for JSON string literals.
 * Dafny characters are Unicode scalar values, so the lone-surrogate case
 * of QuoteJSONString never arises.
 */
module JsonString {
  import opened Wrappers

  /** Lower-case hexadecimal digit, as QuoteJSONString writes `\u00XX`. */
  function HexDigit(d: nat): (c: char)
    requires d < 16
  {
    if d < 10 then ('0' as int + d) as char else ('a' as int + d - 10) as char
  }

  /** Value of one hexadecimal digit of either case. */
  function HexValue(c: char): (r: Option<nat>)
    ensures r.Some? ==> r.value < 16
  {
    if '0' <= c <= '9' then Some(c as int - '0' as int)
    else if 'a' <= c <= 'f' then Some(c as int - 'a' as int + 10)
    else if 'A' <= c <= 'F' then Some(c as int - 'A' as int + 10)
    else None
  }

  /** Value of four hexadecimal digits. */
  function HexQuad(s: string): (r: Option<nat>)
    requires |s| == 4
    ensures r.Some? ==> r.value < 0x10000
  {
    match (HexValue(s[0]), HexValue(s[1]), HexValue(s[2]), HexValue(s[3]))
    case (Some(a), Some(b), Some(c), Some(d)) => Some(((a * 16 + b) * 16 + c) * 16 + d)
    case _ => None
  }

  /** The JSON text of one character inside a string literal. */
  function EscapeChar(c: char): string {
    if c == '"' then ['\\', '"']
    else if c == '\\' then ['\\', '\\']
    else if c as int == 0x08 then ['\\', 'b']
    else if c as int == 0x09 then ['\\', 't']
    else if c as int == 0x0A then ['\\', 'n']
    else if c as int == 0x0C then ['\\', 'f']
    else if c as int == 0x0D then ['\\', 'r']
    else if c as int < 0x20 then ['\\', 'u', '0', '0', HexDigit(c as int / 16), HexDigit(c as int % 16)]
    else [c]
  }

  /** The body of a JSON string literal, without the quotes. */
  function Escape(s: string): string {
    if s == [] then [] else EscapeChar(s[0]) + Escape(s[1..])
  }

  /** `JSON.stringify` of a string value. */
  function Quote(s: string): string {
    "\"" + Escape(s) + "\""
  }

  /** Decodes the escape sequence that follows a backslash; returns the character and what follows. */
  function Unescape(s: string): (r: Option<(char, string)>)
    ensures r.Some? ==> |r.value.1| < |s|
  {
    if |s| == 0 then None
    else if s[0] == '"' then Some(('"', s[1..]))
    else if s[0] == '\\' then Some(('\\', s[1..]))
    else if s[0] == '/' then Some(('/', s[1..]))
    else if s[0] == 'b' then Some((0x08 as char, s[1..]))
    else if s[0] == 't' then Some((0x09 as char, s[1..]))
    else if s[0] == 'n' then Some((0x0A as char, s[1..]))
    else if s[0] == 'f' then Some((0x0C as char, s[1..]))
    else if s[0] == 'r' then Some((0x0D as char, s[1..]))
    else if s[0] == 'u' && |s| >= 5 then
      match HexQuad(s[1..5])
      case Some(code) =>
        if code < 0xD800 || 0xE000 <= code then Some((code as char, s[5..])) else None
      case None => None
    else None
  }

  function Prepend(c: char, r: Option<(string, string)>): Option<(string, string)> {
    match r
    case None => None
    case Some((body, rest)) => Some(([c] + body, rest))
  }

  /** Reads the characters of a string literal up to its closing quote; returns them and what follows the quote. */
  function ParseChars(s: string): Option<(string, string)>
    decreases |s|
  {
    if |s| == 0 then None
    else if s[0] == '"' then Some(([], s[1..]))
    else if s[0] == '\\' then
      match Unescape(s[1..])
      case None => None
      case Some((c, rest)) => Prepend(c, ParseChars(rest))
    else if s[0] as int < 0x20 then None
    else Prepend(s[0], ParseChars(s[1..]))
  }

  /** Reads one JSON string literal at the start of `s`. */
  function ParseString(s: string): Option<(string, string)> {
    if |s| > 0 && s[0] == '"' then ParseChars(s[1..]) else None
  }

  lemma HexDigitValue(d: nat)
    requires d < 16
    ensures HexValue(HexDigit(d)) == Some(d)
  {
  }

  /** Each character's escape decodes back to that character. */
  lemma EscapeCharParses(c: char, t: string)
    ensures ParseChars(EscapeChar(c) + t) == Prepend(c, ParseChars(t))
  {
    var e := EscapeChar(c);
    if c as int < 0x20 && c as int !in {0x08, 0x09, 0x0A, 0x0C, 0x0D} {
      var hi, lo := c as int / 16, c as int % 16;
      HexDigitValue(hi);
      HexDigitValue(lo);
      var s := e + t;
      assert s[1..] == ['u', '0', '0', HexDigit(hi), HexDigit(lo)] + t;
      assert s[1..][1..5] == ['0', '0', HexDigit(hi), HexDigit(lo)];
      assert s[1..][5..] == t;
      assert HexQuad(s[1..][1..5]) == Some(c as int);
    } else if |e| == 2 {
      assert (e + t)[1..] == [e[1]] + t;
      assert (e + t)[1..][1..] == t;
    } else {
      assert (e + t)[1..] == t;
    }
  }

  /** Decoding the escaped body of a string, followed by the closing quote, gives the string back. */
  lemma {:induction false} EscapeParses(s: string, t: string)
    ensures ParseChars(Escape(s) + "\"" + t) == Some((s, t))
  {
    if s == [] {
      assert Escape(s) + "\"" + t == "\"" + t;
    } else {
      var rest := Escape(s[1..]) + "\"" + t;
      assert Escape(s) + "\"" + t == EscapeChar(s[0]) + rest;
      EscapeCharParses(s[0], rest);
      EscapeParses(s[1..], t);
      assert [s[0]] + s[1..] == s;
    }
  }

  /** Round trip: the string literal `JSON.stringify` writes reads back as the same string. */
  lemma QuoteParses(s: string, t: string)
    ensures ParseString(Quote(s) + t) == Some((s, t))
  {
    assert (Quote(s) + t)[1..] == Escape(s) + "\"" + t;
    EscapeParses(s, t);
  }
}
