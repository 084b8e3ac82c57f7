/**
 * The part of JSON that the webhook configuration is stored in: string
 * literals as `JSON.stringify` writes them, and the reading of such a
 * literal back. Only the escapes `JSON.stringify` produces are needed for
 * the round trip. The reader accepts the short escapes of the JSON grammar
 * and `\u` escapes outside the surrogate range; it refuses every `\u`
 * escape from D800 to DFFF, a well-formed surrogate pair included.
 */
module Json {
  import opened Wrappers
  import opened Strings

  const Quote: char := '"'
  const Backslash: char := '\\'
  const Backspace: char := 8 as char
  const FormFeed: char := 12 as char

  /**
   * How `JSON.stringify` writes one character inside a string literal: the
   * quote and the backslash escaped, the five control characters with a
   * short escape written as such, the other control characters as
   * `\u00XX`, and every other character as itself.
   */
  function EscapeChar(c: char): (r: string)
    ensures r != [] && r[0] != Quote
    ensures r[0] == Backslash ==> |r| >= 2
    ensures r[0] != Backslash ==> r == [c] && c >= ' '
  {
    if c == Quote then [Backslash, Quote]
    else if c == Backslash then [Backslash, Backslash]
    else if c == Backspace then "\\b"
    else if c == '\t' then "\\t"
    else if c == '\n' then "\\n"
    else if c == FormFeed then "\\f"
    else if c == '\r' then "\\r"
    else if c < ' ' then "\\u00" + [HexDigit(c as int / 16), HexDigit(c as int % 16)]
    else [c]
  }

  /** The characters of a string, each escaped. */
  function Escape(s: string): string {
    if s == [] then [] else EscapeChar(s[0]) + Escape(s[1..])
  }

  /** `JSON.stringify` of a string: the escaped characters between quotes. */
  function StringLiteral(s: string): string {
    [Quote] + Escape(s) + [Quote]
  }

  /** The character a short escape `\x` stands for, if `x` is one. */
  function ShortEscape(x: char): Option<char> {
    if x == Quote then Some(Quote)
    else if x == Backslash then Some(Backslash)
    else if x == '/' then Some('/')
    else if x == 'b' then Some(Backspace)
    else if x == 't' then Some('\t')
    else if x == 'n' then Some('\n')
    else if x == 'f' then Some(FormFeed)
    else if x == 'r' then Some('\r')
    else None
  }

  /** The value of four hexadecimal digits. */
  function Hex4(s: string): (r: Option<nat>)
    requires |s| == 4
    ensures r.Some? ==> r.value < 0x10000
  {
    match (HexValue(s[0]), HexValue(s[1]), HexValue(s[2]), HexValue(s[3]))
    case (Some(a), Some(b), Some(c), Some(d)) => Some(((a * 16 + b) * 16 + c) * 16 + d)
    case _ => None
  }

  /**
   * Reads one character of a string literal's body from the front of `s`
   * (which does not start with the closing quote): the character and how
   * many characters of `s` it took. A raw control character, an unknown
   * escape, and any `\u` escape in the surrogate range D800-DFFF (even one
   * half of a well-formed pair) are refused.
   */
  function ReadChar(s: string): (r: Option<(char, nat)>)
    ensures r.Some? ==> 0 < r.value.1 <= |s|
  {
    if s == [] then None
    else if s[0] != Backslash then
      if s[0] < ' ' then None else Some((s[0], 1))
    else if |s| < 2 then None
    else if s[1] == 'u' then
      if |s| < 6 then None
      else match Hex4(s[2..6])
        case Some(v) => if 0xD800 <= v < 0xE000 then None else Some((v as char, 6))
        case None => None
    else match ShortEscape(s[1])
      case Some(c) => Some((c, 2))
      case None => None
  }

  /**
   * Reads the body of a string literal and its closing quote from the front
   * of `s`: the decoded string and what follows the closing quote.
   */
  function ReadBody(s: string): (r: Option<(string, string)>)
    ensures r.Some? ==> |r.value.1| < |s|
    decreases |s|
  {
    if s == [] then None
    else if s[0] == Quote then Some(([], s[1..]))
    else match ReadChar(s)
      case None => None
      case Some((c, n)) =>
        match ReadBody(s[n..])
        case None => None
        case Some((d, rest)) => Some(([c] + d, rest))
  }

  /** Reads a whole string literal, opening quote included, from the front of `s`. */
  function ReadString(s: string): (r: Option<(string, string)>)
    ensures r.Some? ==> |r.value.1| < |s|
  {
    if s == [] || s[0] != Quote then None else ReadBody(s[1..])
  }

  /** An escaped character is read back as itself, taking exactly its escape. */
  lemma ReadEscapedChar(c: char, t: string)
    ensures ReadChar(EscapeChar(c) + t) == Some((c, |EscapeChar(c)|))
  {
    var e := EscapeChar(c);
    var s := e + t;
    assert s[..|e|] == e;
    if c < ' ' && c != Backspace && c != '\t' && c != '\n' && c != FormFeed && c != '\r' {
      var hi, lo := c as int / 16, c as int % 16;
      HexDigitValue(hi);
      HexDigitValue(lo);
      assert s[2..6] == e[2..6] == [HexDigit(0), HexDigit(0), HexDigit(hi), HexDigit(lo)];
      assert Hex4(s[2..6]) == Some(hi * 16 + lo);
    }
  }

  /** The escaped characters of `x` followed by a quote are read back as `x`, leaving what follows. */
  lemma {:induction false} ReadEscaped(x: string, rest: string)
    ensures ReadBody(Escape(x) + [Quote] + rest) == Some((x, rest))
    decreases |x|
  {
    if x == [] {
      assert Escape(x) + [Quote] + rest == [Quote] + rest;
    } else {
      var e := EscapeChar(x[0]);
      var tail := Escape(x[1..]) + [Quote] + rest;
      assert Escape(x) + [Quote] + rest == e + tail;
      ReadEscapedChar(x[0], tail);
      assert (e + tail)[|e|..] == tail;
      ReadEscaped(x[1..], rest);
      assert [x[0]] + x[1..] == x;
    }
  }

  /** A string literal is read back as the string it was written from, leaving what follows it. */
  lemma ReadStringLiteral(x: string, rest: string)
    ensures ReadString(StringLiteral(x) + rest) == Some((x, rest))
  {
    var s := StringLiteral(x) + rest;
    assert s[1..] == Escape(x) + [Quote] + rest;
    ReadEscaped(x, rest);
  }

  /** Different strings have different literals. */
  lemma StringLiteralInjective(x: string, y: string)
    requires StringLiteral(x) == StringLiteral(y)
    ensures x == y
  {
    ReadStringLiteral(x, []);
    ReadStringLiteral(y, []);
    assert StringLiteral(x) + [] == StringLiteral(x);
    assert StringLiteral(y) + [] == StringLiteral(y);
  }
}
