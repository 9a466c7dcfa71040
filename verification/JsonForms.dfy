/** The escapes JSON.parse reads, whoever wrote them, and what it refuses inside a string (section 7 of RFC 8259). */
module JsonForms {
  import opened Wrappers
  import opened JsText
  import opened JsonString

  /** A backslash and one of these letters stand for one unit. */
  predicate LetterStandsFor(letter: Unit, unit: Unit) {
    || (letter == '\"' as int && unit == 0x22) || (letter == '\\' as int && unit == 0x5C) || (letter == '/' as int && unit == 0x2F)
    || (letter == 'b' as int && unit == 0x08) || (letter == 'f' as int && unit == 0x0C) || (letter == 'n' as int && unit == 0x0A)
    || (letter == 'r' as int && unit == 0x0D) || (letter == 't' as int && unit == 0x09)
  }

  lemma LetterReads(letter: Unit, unit: Unit, rest: Text)
    requires LetterStandsFor(letter, unit)
    ensures Unescape([0x5C, letter] + rest) == Prepend(unit, Unescape(rest))
  {
    assert ([0x5C as Unit, letter] + rest)[2..] == rest;
  }

  /** A hexadecimal digit in either case. */
  predicate HexIs(digit: Unit, value: nat) {
    if value < 10 then digit == '0' as int + value
    else value < 16 && (digit == 'a' as int + value - 10 || digit == 'A' as int + value - 10)
  }

  lemma UnicodeReads(a: Unit, b: Unit, c: Unit, d: Unit, va: nat, vb: nat, vc: nat, vd: nat, rest: Text)
    requires HexIs(a, va) && HexIs(b, vb) && HexIs(c, vc) && HexIs(d, vd)
    ensures Unescape([0x5C, 'u' as int, a, b, c, d] + rest) == Prepend(((va * 16 + vb) * 16 + vc) * 16 + vd, Unescape(rest))
  {
    var t: Text := [0x5C, 'u' as int, a, b, c, d] + rest;
    assert t[6..] == rest;
    HexReads(t[2..], va, vb, vc, vd);
    hide FourHex, HexIs;
  }

  lemma HexReads(t: Text, va: nat, vb: nat, vc: nat, vd: nat)
    requires |t| >= 4 && HexIs(t[0], va) && HexIs(t[1], vb) && HexIs(t[2], vc) && HexIs(t[3], vd)
    ensures va < 16 && vb < 16 && vc < 16 && vd < 16 && FourHex(t) == Some(((va * 16 + vb) * 16 + vc) * 16 + vd)
  {
    DigitReads(t[0], va);
    DigitReads(t[1], vb);
    DigitReads(t[2], vc);
    DigitReads(t[3], vd);
    hide HexValue, HexIs;
  }

  lemma DigitReads(digit: Unit, value: nat)
    requires HexIs(digit, value)
    ensures HexValue(digit) == value && value < 16
  {
  }

  /** An open string, a control character and an unknown escape are refused. */
  lemma Refusals(c: Unit, rest: Text)
    ensures Unescape([]) == None && Unescape([0x5C]) == None
    ensures c < 0x20 ==> Unescape([c] + rest) == None
    ensures c != 'u' as int && (forall unit :: !LetterStandsFor(c, unit)) ==> Unescape([0x5C, c] + rest) == None
  {
    if c != 'u' as int && forall unit :: !LetterStandsFor(c, unit) {
      assert !LetterStandsFor(c, 0x22) && !LetterStandsFor(c, 0x5C) && !LetterStandsFor(c, 0x2F) && !LetterStandsFor(c, 0x08);
      assert !LetterStandsFor(c, 0x0C) && !LetterStandsFor(c, 0x0A) && !LetterStandsFor(c, 0x0D) && !LetterStandsFor(c, 0x09);
      assert UnescapeLetter(c) == None;
    }
  }
}
