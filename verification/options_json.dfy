/** The text form in which a question's options are stored: a JSON array of
    strings, written the way `JSON.stringify` writes one. The decoder reads
    such an array back; any other text decodes to None. Strings are sequences
    of characters, so a `\uXXXX` escape naming a surrogate code unit, paired or
    not, is rejected. */
module OptionsJson {
  import opened Wrappers

  const HexDigits: string := "0123456789abcdef"

  predicate IsWhitespace(c: char) {
    c == ' ' || c == '\t' || c == '\n' || c == '\r'
  }

  /** Drops leading JSON whitespace. */
  function SkipWhitespace(s: string): (r: string)
    ensures |r| <= |s|
    ensures r == s[|s| - |r|..]
    ensures r == [] || !IsWhitespace(r[0])
  {
    if s != [] && IsWhitespace(s[0]) then SkipWhitespace(s[1..]) else s
  }

  // ---------------------------------------------------------------- encoding

  /** The JSON escape of one character inside a string literal: quote and
      backslash are escaped, the five control characters with short escapes use
      them, every other control character is written as a `\u00xx` escape. */
  function EscapeChar(c: char): string {
    if c == '"' then "\\\""
    else if c == '\\' then "\\\\"
    else if c as int == 8 then "\\b"
    else if c as int == 12 then "\\f"
    else if c == '\n' then "\\n"
    else if c == '\r' then "\\r"
    else if c == '\t' then "\\t"
    else if c as int < 0x20 then "\\u00" + [HexDigits[c as int / 16], HexDigits[c as int % 16]]
    else [c]
  }

  function Escape(s: string): string {
    if s == [] then [] else EscapeChar(s[0]) + Escape(s[1..])
  }

  function Quote(s: string): string {
    "\"" + Escape(s) + "\""
  }

  /** The comma-separated string literals of a non-empty list. */
  function Elements(xs: seq<string>): string {
    if |xs| == 0 then ""
    else if |xs| == 1 then Quote(xs[0])
    else Quote(xs[0]) + "," + Elements(xs[1..])
  }

  /** `JSON.stringify(options)` for a list of strings. */
  function Encode(xs: seq<string>): (r: string)
    ensures |r| >= 2 && r[0] == '[' && r[|r| - 1] == ']'
  {
    "[" + Elements(xs) + "]"
  }

  // ---------------------------------------------------------------- decoding

  function HexValue(c: char): (r: Option<nat>)
    ensures r.Some? ==> r.value < 16
  {
    if '0' <= c <= '9' then Some(c as int - '0' as int)
    else if 'a' <= c <= 'f' then Some(c as int - 'a' as int + 10)
    else if 'A' <= c <= 'F' then Some(c as int - 'A' as int + 10)
    else None
  }

  /** The character named by the four hex digits of a `\uXXXX` escape; a
      surrogate code unit (D800 to DFFF) is not a character and decodes to None,
      even as half of a pair. */
  function UnicodeEscape(h: string): Option<char>
    requires |h| == 4
  {
    match (HexValue(h[0]), HexValue(h[1]), HexValue(h[2]), HexValue(h[3]))
    case (Some(a), Some(b), Some(c), Some(d)) =>
      var v := ((a * 16 + b) * 16 + c) * 16 + d;
      if v < 0xD800 || 0xE000 <= v then Some(v as char) else None
    case _ => None
  }

  /** The character named by a one-letter escape `\e`. */
  function ShortEscape(e: char): Option<char> {
    if e == '"' then Some('"')
    else if e == '\\' then Some('\\')
    else if e == '/' then Some('/')
    else if e == 'b' then Some(8 as char)
    else if e == 'f' then Some(12 as char)
    else if e == 'n' then Some('\n')
    else if e == 'r' then Some('\r')
    else if e == 't' then Some('\t')
    else None
  }

  function Prepend(c: char, r: Option<(string, string)>): (p: Option<(string, string)>)
    ensures p.Some? <==> r.Some?
    ensures p.Some? ==> p.value.1 == r.value.1
  {
    match r
    case None => None
    case Some((v, rest)) => Some(([c] + v, rest))
  }

  /** Reads the body of a string literal whose opening quote has been consumed:
      its value and the text after the closing quote. An unescaped control
      character, an unknown escape or a missing closing quote is an error. */
  function ParseString(s: string): (r: Option<(string, string)>)
    ensures r.Some? ==> |r.value.1| < |s|
    decreases |s|
  {
    if s == [] then None
    else if s[0] == '"' then Some(([], s[1..]))
    else if s[0] == '\\' then
      if |s| < 2 then None
      else if s[1] == 'u' then
        if |s| < 6 then None
        else match UnicodeEscape(s[2..6])
          case None => None
          case Some(c) => Prepend(c, ParseString(s[6..]))
      else match ShortEscape(s[1])
        case None => None
        case Some(c) => Prepend(c, ParseString(s[2..]))
    else if s[0] as int < 0x20 then None
    else Prepend(s[0], ParseString(s[1..]))
  }

  /** Reads `"…" (, "…")* ]` : the strings of a non-empty array whose opening
      bracket has been consumed, and the text after the closing bracket. */
  function ParseElements(u: string): (r: Option<(seq<string>, string)>)
    ensures r.Some? ==> |r.value.1| < |u|
    decreases |u|
  {
    if u == [] || u[0] != '"' then None
    else match ParseString(u[1..])
      case None => None
      case Some((v, rest)) =>
        var t := SkipWhitespace(rest);
        if t == [] then None
        else if t[0] == ']' then Some(([v], t[1..]))
        else if t[0] == ',' then
          match ParseElements(SkipWhitespace(t[1..]))
          case None => None
          case Some((vs, rest')) => Some(([v] + vs, rest'))
        else None
  }

  /** `JSON.parse(text)` for text holding an array of strings written without
      surrogate escapes. */
  function Decode(s: string): Option<seq<string>> {
    var t := SkipWhitespace(s);
    if t == [] || t[0] != '[' then None
    else
      var u := SkipWhitespace(t[1..]);
      if u != [] && u[0] == ']' then
        if SkipWhitespace(u[1..]) == [] then Some([]) else None
      else match ParseElements(u)
        case None => None
        case Some((xs, rest)) => if SkipWhitespace(rest) == [] then Some(xs) else None
  }

  // ---------------------------------------------------------------- round trip

  lemma SkipNothing(s: string)
    requires s != [] && !IsWhitespace(s[0])
    ensures SkipWhitespace(s) == s
  {
  }

  lemma HexDigitValue(i: nat)
    requires i < 16
    ensures HexValue(HexDigits[i]) == Some(i)
  {
  }

  /** Reading back the escape of one character yields that character. */
  lemma ParseEscapedChar(c: char, tail: string)
    ensures ParseString(EscapeChar(c) + tail) == Prepend(c, ParseString(tail))
  {
    var e := EscapeChar(c);
    if c == '"' || c == '\\' || c as int == 8 || c as int == 12 || c == '\n' || c == '\r' || c == '\t' {
      assert (e + tail)[2..] == tail;
    } else if c as int < 0x20 {
      var s := e + tail;
      HexDigitValue(c as int / 16);
      HexDigitValue(c as int % 16);
      assert s[2..6] == ['0', '0', HexDigits[c as int / 16], HexDigits[c as int % 16]];
      assert s[6..] == tail;
    } else {
      assert (e + tail)[1..] == tail;
    }
  }

  lemma {:induction false} ParseQuoted(s: string, rest: string)
    ensures ParseString(Escape(s) + "\"" + rest) == Some((s, rest))
  {
    if s == [] {
      assert Escape(s) + "\"" + rest == "\"" + rest;
    } else {
      var tail := Escape(s[1..]) + "\"" + rest;
      assert Escape(s) + "\"" + rest == EscapeChar(s[0]) + tail;
      ParseEscapedChar(s[0], tail);
      ParseQuoted(s[1..], rest);
      assert [s[0]] + s[1..] == s;
    }
  }

  lemma ParseLastElement(u: string, v: string, rest: string)
    requires u != [] && u[0] == '"'
    requires ParseString(u[1..]) == Some((v, "]" + rest))
    ensures ParseElements(u) == Some(([v], rest))
  {
    SkipNothing("]" + rest);
    assert ("]" + rest)[1..] == rest;
  }

  lemma ParseNextElement(u: string, v: string, next: string)
    requires u != [] && u[0] == '"'
    requires ParseString(u[1..]) == Some((v, "," + next))
    requires next != [] && next[0] == '"'
    ensures ParseElements(u) == match ParseElements(next)
      case None => None
      case Some((vs, rest')) => Some(([v] + vs, rest'))
  {
    SkipNothing("," + next);
    assert ("," + next)[1..] == next;
    SkipNothing(next);
  }

  lemma QuoteThen(s: string, tail: string)
    ensures var u := Quote(s) + tail; u != [] && u[0] == '"' && u[1..] == Escape(s) + "\"" + tail
  {
    assert Quote(s) + tail == ['"'] + (Escape(s) + "\"" + tail);
  }

  lemma {:induction false} MoreElements(xs: seq<string>, rest: string)
    requires |xs| > 1
    ensures Elements(xs) + "]" + rest == Quote(xs[0]) + ("," + (Elements(xs[1..]) + "]" + rest))
  {
  }

  lemma {:induction false} LastElement(xs: seq<string>, rest: string)
    requires |xs| == 1
    ensures Elements(xs) + "]" + rest == Quote(xs[0]) + ("]" + rest)
  {
  }

  lemma ElementsStartWithQuote(xs: seq<string>, rest: string)
    requires |xs| > 0
    ensures var u := Elements(xs) + "]" + rest; u != [] && u[0] == '"'
  {
    if |xs| == 1 {
      LastElement(xs, rest);
      QuoteThen(xs[0], "]" + rest);
    } else {
      MoreElements(xs, rest);
      QuoteThen(xs[0], "," + (Elements(xs[1..]) + "]" + rest));
    }
  }

  lemma ParseSingleElement(xs: seq<string>, rest: string)
    requires |xs| == 1
    ensures ParseElements(Elements(xs) + "]" + rest) == Some((xs, rest))
  {
    var u := Elements(xs) + "]" + rest;
    LastElement(xs, rest);
    QuoteThen(xs[0], "]" + rest);
    ParseQuoted(xs[0], "]" + rest);
    ParseLastElement(u, xs[0], rest);
    assert xs == [xs[0]];
  }

  lemma ParseFirstOfMany(xs: seq<string>, rest: string)
    requires |xs| > 1
    requires ParseElements(Elements(xs[1..]) + "]" + rest) == Some((xs[1..], rest))
    ensures ParseElements(Elements(xs) + "]" + rest) == Some((xs, rest))
  {
    var u := Elements(xs) + "]" + rest;
    var next := Elements(xs[1..]) + "]" + rest;
    MoreElements(xs, rest);
    QuoteThen(xs[0], "," + next);
    ParseQuoted(xs[0], "," + next);
    ElementsStartWithQuote(xs[1..], rest);
    ParseNextElement(u, xs[0], next);
    assert [xs[0]] + xs[1..] == xs;
  }

  lemma {:induction false} ParseEncodedElements(xs: seq<string>, rest: string)
    requires |xs| > 0
    ensures ParseElements(Elements(xs) + "]" + rest) == Some((xs, rest))
    decreases |xs|
  {
    if |xs| == 1 {
      ParseSingleElement(xs, rest);
    } else {
      ParseEncodedElements(xs[1..], rest);
      ParseFirstOfMany(xs, rest);
    }
  }

  lemma DecodeArray(s: string, xs: seq<string>)
    requires |s| > 1 && s[0] == '[' && s[1] == '"'
    requires ParseElements(s[1..]) == Some((xs, []))
    ensures Decode(s) == Some(xs)
  {
    SkipNothing(s);
    SkipNothing(s[1..]);
  }

  lemma {:induction false} EncodeShape(xs: seq<string>)
    ensures Encode(xs)[1..] == Elements(xs) + "]" + []
    ensures xs != [] ==> |Encode(xs)| > 1 && Encode(xs)[1] == '"'
  {
    if xs != [] {
      if |xs| == 1 { LastElement(xs, []); } else { MoreElements(xs, []); }
      QuoteThen(xs[0], if |xs| == 1 then "]" else "," + (Elements(xs[1..]) + "]" + []));
    }
  }

  /** Decoding what was encoded gives back the same list of options. */
  lemma {:induction false} DecodeEncode(xs: seq<string>)
    ensures Decode(Encode(xs)) == Some(xs)
  {
    var e := Encode(xs);
    EncodeShape(xs);
    if xs == [] {
      SkipNothing(e);
      assert e == "[]";
    } else {
      ParseEncodedElements(xs, []);
      DecodeArray(e, xs);
    }
  }
}
