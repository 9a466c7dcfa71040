/** JSON.stringify and JSON.parse on strings, ECMA-262 QuoteJSONString and the JSON string grammar. */
module JsonString {
  import opened Wrappers
  import opened JsText

  predicate IsHighSurrogate(c: Unit) { 0xD800 <= c <= 0xDBFF }

  predicate IsLowSurrogate(c: Unit) { 0xDC00 <= c <= 0xDFFF }

  /** The lower-case digit that JSON.stringify writes. */
  function HexDigit(d: int): Unit
    requires 0 <= d < 16
  {
    if d < 10 then 0x30 + d else 0x61 + (d - 10)
  }

  /** The value of a hexadecimal digit in either case, -1 for any other unit. */
  function HexValue(c: Unit): (d: int)
    ensures -1 <= d < 16
  {
    if 0x30 <= c <= 0x39 then c - 0x30
    else if 0x61 <= c <= 0x66 then c - 0x61 + 10
    else if 0x41 <= c <= 0x46 then c - 0x41 + 10
    else -1
  }

  function UnicodeEscape(c: Unit): (t: Text)
    ensures |t| == 6
  {
    [BACKSLASH, 0x75, HexDigit(c / 0x1000), HexDigit(c / 0x100 % 16), HexDigit(c / 0x10 % 16), HexDigit(c % 16)]
  }

  /** The letter of a two-unit escape, or 0 when the unit has none. */
  function ShortEscape(c: Unit): Unit {
    if c == QUOTE then QUOTE
    else if c == BACKSLASH then BACKSLASH
    else if c == 0x08 then 0x62
    else if c == 0x0C then 0x66
    else if c == 0x0A then 0x6E
    else if c == 0x0D then 0x72
    else if c == 0x09 then 0x74
    else 0
  }

  function EscapeUnit(c: Unit): Text {
    if ShortEscape(c) != 0 then [BACKSLASH, ShortEscape(c)]
    else if c < 0x20 || IsHighSurrogate(c) || IsLowSurrogate(c) then UnicodeEscape(c)
    else [c]
  }

  /** The inside of JSON.stringify(s): a surrogate pair is written raw, a lone surrogate escaped. */
  function Escape(s: Text): Text
    decreases |s|
  {
    if s == [] then []
    else if StartsWithPair(s) then s[..2] + Escape(s[2..])
    else EscapeUnit(s[0]) + Escape(s[1..])
  }

  /** JSON.stringify(s) */
  function Quoted(s: Text): (t: Text)
    ensures |t| >= 2 && t[0] == QUOTE && t[|t| - 1] == QUOTE
  {
    [QUOTE] + Escape(s) + [QUOTE]
  }

  function UnescapeLetter(c: Unit): Option<Unit> {
    if c == QUOTE || c == BACKSLASH || c == 0x2F then Some(c)
    else if c == 0x62 then Some(0x08)
    else if c == 0x66 then Some(0x0C)
    else if c == 0x6E then Some(0x0A)
    else if c == 0x72 then Some(0x0D)
    else if c == 0x74 then Some(0x09)
    else None
  }

  function FourHex(t: Text): Option<Unit>
    requires |t| >= 4
  {
    var a, b, c, d := HexValue(t[0]), HexValue(t[1]), HexValue(t[2]), HexValue(t[3]);
    if a < 0 || b < 0 || c < 0 || d < 0 then None
    else Some(a * 0x1000 + b * 0x100 + c * 0x10 + d)
  }

  function Prepend(c: Unit, r: Option<(Text, Text)>): Option<(Text, Text)> {
    match r
    case None => None
    case Some(p) => Some(([c] + p.0, p.1))
  }

  /** Reads a string after its opening quote: the value, and what follows the closing quote. */
  function Unescape(t: Text): (r: Option<(Text, Text)>)
    ensures r.Some? ==> |r.value.1| < |t|
    decreases |t|
  {
    if t == [] then None
    else if t[0] == QUOTE then Some(([], t[1..]))
    else if t[0] < 0x20 then None
    else if t[0] != BACKSLASH then Prepend(t[0], Unescape(t[1..]))
    else if |t| == 1 then None
    else if t[1] == 0x75 then
      if |t| < 6 || FourHex(t[2..]).None? then None
      else Prepend(FourHex(t[2..]).value, Unescape(t[6..]))
    else if UnescapeLetter(t[1]).None? then None
    else Prepend(UnescapeLetter(t[1]).value, Unescape(t[2..]))
  }

  /** JSON.parse of a text that starts with a quote; None where it throws. */
  function Unquoted(t: Text): Option<Text>
    requires t != [] && t[0] == QUOTE
  {
    match Unescape(t[1..])
    case Some((value, rest)) => if rest == [] then Some(value) else None
    case None => None
  }

  lemma HexRoundTrip(d: int)
    requires 0 <= d < 16
    ensures HexValue(HexDigit(d)) == d
  {
  }

  lemma FourHexRoundTrip(c: Unit, rest: Text)
    ensures FourHex((UnicodeEscape(c) + rest)[2..]) == Some(c)
  {
    var t := (UnicodeEscape(c) + rest)[2..];
    assert t[0] == HexDigit(c / 0x1000) && t[1] == HexDigit(c / 0x100 % 16);
    assert t[2] == HexDigit(c / 0x10 % 16) && t[3] == HexDigit(c % 16);
    hide UnicodeEscape;
    HexRoundTrip(c / 0x1000);
    HexRoundTrip(c / 0x100 % 16);
    HexRoundTrip(c / 0x10 % 16);
    HexRoundTrip(c % 16);
    hide HexDigit, HexValue;
    HexDigitsSum(c);
  }

  lemma HexDigitsSum(c: Unit)
    ensures c / 0x1000 * 0x1000 + c / 0x100 % 16 * 0x100 + c / 0x10 % 16 * 0x10 + c % 16 == c
  {
    assert c / 0x10 / 0x10 == c / 0x100 && c / 0x100 / 0x10 == c / 0x1000;
  }

  lemma UnescapeUnicode(c: Unit, rest: Text)
    ensures Unescape(UnicodeEscape(c) + rest) == Prepend(c, Unescape(rest))
  {
    FourHexRoundTrip(c, rest);
    var t := UnicodeEscape(c) + rest;
    assert t[6..] == rest && t[0] == BACKSLASH && t[1] == 0x75;
    hide FourHex, UnicodeEscape;
  }

  lemma UnescapeShort(c: Unit, rest: Text)
    requires ShortEscape(c) != 0
    ensures Unescape([BACKSLASH, ShortEscape(c)] + rest) == Prepend(c, Unescape(rest))
  {
    var t := [BACKSLASH, ShortEscape(c)] + rest;
    assert t[2..] == rest;
    assert UnescapeLetter(t[1]) == Some(c);
  }

  lemma UnescapeUnit(c: Unit, rest: Text)
    ensures Unescape(EscapeUnit(c) + rest) == Prepend(c, Unescape(rest))
  {
    hide Unescape, UnicodeEscape;
    if ShortEscape(c) != 0 {
      UnescapeShort(c, rest);
    } else if c < 0x20 || IsHighSurrogate(c) || IsLowSurrogate(c) {
      UnescapeUnicode(c, rest);
    } else {
      UnescapeRaw(c, rest);
    }
  }

  lemma UnescapeRaw(c: Unit, rest: Text)
    requires c >= 0x20 && c != QUOTE && c != BACKSLASH
    ensures Unescape([c] + rest) == Prepend(c, Unescape(rest))
  {
    assert ([c] + rest)[1..] == rest;
  }

  predicate StartsWithPair(s: Text) {
    |s| >= 2 && IsHighSurrogate(s[0]) && IsLowSurrogate(s[1])
  }

  lemma UnescapePairStep(s: Text, body: Text, rest: Text)
    requires StartsWithPair(s)
    requires Unescape(body) == Some((s[2..], rest))
    ensures Unescape(s[..2] + body) == Some((s, rest))
  {
    hide Unescape;
    UnescapeRaw(s[1], body);
    UnescapeRaw(s[0], [s[1]] + body);
    assert s[..2] + body == [s[0]] + ([s[1]] + body);
    assert [s[0]] + ([s[1]] + s[2..]) == s;
  }

  lemma UnescapeUnitStep(s: Text, body: Text, rest: Text)
    requires s != []
    requires Unescape(body) == Some((s[1..], rest))
    ensures Unescape(EscapeUnit(s[0]) + body) == Some((s, rest))
  {
    hide Unescape, EscapeUnit;
    UnescapeUnit(s[0], body);
    assert [s[0]] + s[1..] == s;
  }

  lemma UnescapeEnd(rest: Text)
    ensures Unescape([QUOTE] + rest) == Some(([], rest))
  {
    assert ([QUOTE] + rest)[1..] == rest;
  }

  /** An escaped string followed by a quote reads back to itself, whatever comes after. */
  lemma {:induction false} UnescapeEscape(s: Text, rest: Text)
    ensures Unescape(Escape(s) + ([QUOTE] + rest)) == Some((s, rest))
    decreases |s|
  {
    hide Unescape, EscapeUnit;
    var tail := [QUOTE] + rest;
    if s == [] {
      UnescapeEnd(rest);
      assert Escape(s) + tail == tail;
    } else if StartsWithPair(s) {
      var body := Escape(s[2..]) + tail;
      assert Escape(s) + tail == s[..2] + body;
      UnescapeEscape(s[2..], rest);
      UnescapePairStep(s, body, rest);
    } else {
      var body := Escape(s[1..]) + tail;
      assert Escape(s) + tail == EscapeUnit(s[0]) + body;
      UnescapeEscape(s[1..], rest);
      UnescapeUnitStep(s, body, rest);
    }
  }

  /** JSON.parse(JSON.stringify(s)) == s for every string, lone surrogates included. */
  lemma UnquotedQuoted(s: Text)
    ensures Unquoted(Quoted(s)) == Some(s)
  {
    hide Unescape, Escape;
    UnescapeEscape(s, []);
    assert Quoted(s)[1..] == Escape(s) + ([QUOTE] + []);
  }

  /** Escaping writes no control unit and no bracket of its own. */
  lemma {:induction false} EscapeUnits(s: Text, c: Unit)
    requires c < 0x20 || (c in {OPEN_BRACKET, CLOSE_BRACKET} && c !in s)
    ensures c !in Escape(s)
    decreases |s|
  {
    if s == [] {
    } else if StartsWithPair(s) {
      EscapeUnits(s[2..], c);
    } else {
      EscapeUnits(s[1..], c);
    }
  }
}
