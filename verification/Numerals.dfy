/** Numerals in UTF-8 text, as `str.isdigit` and `int` of Python 3.11 take them (its Unicode is 14.0). */
module Numerals {
  import opened Bytes
  import opened Options

  // ---- characters ----

  /** The payload of a byte with this marker. */
  function Bits(b: Byte, marker: Byte): nat
    requires marker <= b
  {
    b as int - marker as int
  }

  /** The code point at the start of a text; a byte that starts no sequence reads as U+FFFD. */
  function FirstCodePoint(b: Bytes): nat
    requires b != []
  {
    match Utf8Step(b)
    case 1 => b[0]
    case 2 => Bits(b[0], 0xC0) * 0x40 + Bits(b[1], 0x80)
    case 3 => Bits(b[0], 0xE0) * 0x1000 + Bits(b[1], 0x80) * 0x40 + Bits(b[2], 0x80)
    case 4 => Bits(b[0], 0xF0) * 0x4_0000 + Bits(b[1], 0x80) * 0x1000 + Bits(b[2], 0x80) * 0x40 + Bits(b[3], 0x80)
    case _ => 0xFFFD
  }

  /** The decoded text. */
  function Decode(b: Bytes): seq<nat>
    decreases |b|
  {
    if b == [] then []
    else
      var n := Utf8Step(b);
      [FirstCodePoint(b)] + Decode(b[if n == 0 then 1 else n..])
  }

  /** A text that is UTF-8 stays UTF-8 on both sides of an ASCII character, so the pieces a reader cuts
      at line feeds and separators never hold a byte that starts no sequence. */
  lemma {:induction false} PiecesAreUtf8(a: Bytes, cut: Byte, b: Bytes)
    requires cut < 0x80 && IsUtf8(a + [cut] + b)
    ensures IsUtf8(a) && IsUtf8(b)
    decreases |a|
  {
    var text := a + [cut] + b;
    if a == [] {
      assert text[1..] == b;
    } else {
      var n := Utf8Step(text);
      assert text[|a|] == cut && n <= |a|;
      assert forall i :: 0 <= i < |a| ==> text[i] == a[i];
      assert Utf8Step(a) == n;
      assert text[n..] == a[n..] + [cut] + b;
      PiecesAreUtf8(a[n..], cut, b);
    }
  }

  // ---- the encoding ----

  /** A character is any code point but a surrogate. */
  predicate IsCharacter(c: nat) { c < 0xD800 || 0xE000 <= c < 0x11_0000 }

  predicate AllCharacters(text: seq<nat>) { forall i :: 0 <= i < |text| ==> IsCharacter(text[i]) }

  /** UTF-8 (RFC 3629, section 3). */
  function Encoded(c: nat): Bytes
    requires IsCharacter(c)
  {
    if c < 0x80 then [c]
    else if c < 0x800 then [0xC0 + c / 0x40, 0x80 + c % 0x40]
    else if c < 0x1_0000 then [0xE0 + c / 0x1000, 0x80 + c / 0x40 % 0x40, 0x80 + c % 0x40]
    else [0xF0 + c / 0x4_0000, 0x80 + c / 0x1000 % 0x40, 0x80 + c / 0x40 % 0x40, 0x80 + c % 0x40]
  }

  function EncodedText(text: seq<nat>): Bytes
    requires AllCharacters(text)
  {
    if text == [] then []
    else
      assert IsCharacter(text[0]) && forall i :: 0 <= i < |text[1..]| ==> text[1..][i] == text[i + 1];
      Encoded(text[0]) + EncodedText(text[1..])
  }

  lemma EncodedStarts(c: nat, rest: Bytes)
    requires IsCharacter(c)
    ensures Utf8Step(Encoded(c) + rest) == |Encoded(c)| > 0 && FirstCodePoint(Encoded(c) + rest) == c
  {
    SixBits(c);
    var b := Encoded(c) + rest;
    assert forall i :: 0 <= i < |Encoded(c)| ==> b[i] == Encoded(c)[i];
  }

  /** The groups of six bits of a number. */
  lemma SixBits(c: nat)
    ensures c == c / 0x1000 * 0x1000 + c / 0x40 % 0x40 * 0x40 + c % 0x40
    ensures c == c / 0x4_0000 * 0x4_0000 + c / 0x1000 % 0x40 * 0x1000 + c / 0x40 % 0x40 * 0x40 + c % 0x40
  {
    assert c / 0x1000 == c / 0x40 / 0x40 && c / 0x4_0000 == c / 0x1000 / 0x40;
  }

  lemma Regrouped(a: nat, x: nat, y: nat, z: nat)
    requires x < 0x40 && y < 0x40 && z < 0x40
    ensures var c := a * 0x4_0000 + x * 0x1000 + y * 0x40 + z;
      c / 0x4_0000 == a && c / 0x1000 % 0x40 == x && c / 0x40 % 0x40 == y && c % 0x40 == z
  {
    var c := a * 0x4_0000 + x * 0x1000 + y * 0x40 + z;
    assert c / 0x40 == a * 0x1000 + x * 0x40 + y && c / 0x1000 == a * 0x40 + x;
  }

  lemma StartIsEncoded(b: Bytes)
    requires Utf8Step(b) > 0
    ensures IsCharacter(FirstCodePoint(b)) && Encoded(FirstCodePoint(b)) == b[..Utf8Step(b)]
  {
    match Utf8Step(b)
    case 3 => ThreeByteStart(b);
    case 4 => FourByteStart(b);
    case _ =>
  }

  lemma ThreeByteStart(b: Bytes)
    requires Utf8Step(b) == 3
    ensures IsCharacter(FirstCodePoint(b)) && Encoded(FirstCodePoint(b)) == b[..3]
  {
    var x, y, z: nat := b[0] as int - 0xE0, b[1] as int - 0x80, b[2] as int - 0x80;
    Regrouped(0, x, y, z);
    var c := x * 0x1000 + y * 0x40 + z;
    assert FirstCodePoint(b) == c && 0x800 <= c < 0x1_0000 && IsCharacter(c);
    assert c / 0x1000 == x;
  }

  lemma FourByteStart(b: Bytes)
    requires Utf8Step(b) == 4
    ensures IsCharacter(FirstCodePoint(b)) && Encoded(FirstCodePoint(b)) == b[..4]
  {
    var w, x, y, z: nat := b[0] as int - 0xF0, b[1] as int - 0x80, b[2] as int - 0x80, b[3] as int - 0x80;
    Regrouped(w, x, y, z);
    var c := w * 0x4_0000 + x * 0x1000 + y * 0x40 + z;
    assert FirstCodePoint(b) == c && 0x1_0000 <= c < 0x11_0000;
  }

  /** Text survives being encoded and decoded. */
  lemma {:induction false} DecodedBack(text: seq<nat>)
    requires AllCharacters(text)
    ensures IsUtf8(EncodedText(text)) && Decode(EncodedText(text)) == text
  {
    hide Encoded, FirstCodePoint, Utf8Step;
    if text != [] {
      DecodedBack(text[1..]);
      var rest := EncodedText(text[1..]);
      EncodedStarts(text[0], rest);
      assert (Encoded(text[0]) + rest)[|Encoded(text[0])|..] == rest;
    }
  }

  /** Bytes are UTF-8 exactly when they encode some text. */
  lemma {:induction false} Utf8Exactly(b: Bytes)
    ensures IsUtf8(b) <==> exists text :: AllCharacters(text) && EncodedText(text) == b
    decreases |b|
  {
    if IsUtf8(b) { EncodesItsText(b); }
    if text :| AllCharacters(text) && EncodedText(text) == b { DecodedBack(text); }
  }

  lemma {:induction false} EncodesItsText(b: Bytes)
    requires IsUtf8(b)
    ensures AllCharacters(Decode(b)) && EncodedText(Decode(b)) == b
    decreases |b|
  {
    hide Encoded, FirstCodePoint, Utf8Step;
    if b != [] {
      var n := Utf8Step(b);
      StartIsEncoded(b);
      EncodesItsText(b[n..]);
      var text := Decode(b);
      assert text[1..] == Decode(b[n..]) && text[0] == FirstCodePoint(b);
      forall i | 0 <= i < |text| ensures IsCharacter(text[i]) { if i > 0 { assert text[i] == text[1..][i - 1]; } }
      assert b == b[..n] + b[n..];
    }
  }

  // ---- digits ----

  /** Where the ten decimal digits of each script start, after those of ASCII. */
  const SCRIPT_ZEROS: seq<nat> := [
    0x660, 0x6F0, 0x7C0, 0x966, 0x9E6, 0xA66, 0xAE6, 0xB66, 0xBE6, 0xC66, 0xCE6, 0xD66, 0xDE6, 0xE50, 0xED0, 0xF20,
    0x1040, 0x1090, 0x17E0, 0x1810, 0x1946, 0x19D0, 0x1A80, 0x1A90, 0x1B50, 0x1BB0, 0x1C40, 0x1C50, 0xA620, 0xA8D0,
    0xA900, 0xA9D0, 0xA9F0, 0xAA50, 0xABF0, 0xFF10, 0x104A0, 0x10D30, 0x11066, 0x110F0, 0x11136, 0x111D0, 0x112F0,
    0x11450, 0x114D0, 0x11650, 0x116C0, 0x11730, 0x118E0, 0x11950, 0x11C50, 0x11D50, 0x11DA0, 0x16A60, 0x16AC0,
    0x16B50, 0x1D7CE, 0x1D7D8, 0x1D7E2, 0x1D7EC, 0x1D7F6, 0x1E140, 0x1E2F0, 0x1E950, 0x1FBF0]

  /** The first and the last of each row of digits that are no decimal digits, after the
      superscripts of Latin-1. */
  const OTHER_DIGITS: seq<(nat, nat)> := [
    (0x1369, 0x1371), (0x19DA, 0x19DA), (0x2070, 0x2070), (0x2074, 0x2079),
    (0x2080, 0x2089), (0x2460, 0x2468), (0x2474, 0x247C), (0x2488, 0x2490), (0x24EA, 0x24EA), (0x24F5, 0x24FD),
    (0x24FF, 0x24FF), (0x2776, 0x277E), (0x2780, 0x2788), (0x278A, 0x2792), (0x10A40, 0x10A43), (0x10E60, 0x10E68),
    (0x11052, 0x1105A), (0x1F100, 0x1F10A)]

  function DigitAfter(c: nat, zeros: seq<nat>): Option<nat> {
    if zeros == [] then None
    else if zeros[0] <= c < zeros[0] + 10 then Some(c - zeros[0])
    else DigitAfter(c, zeros[1..])
  }

  /** The value of a decimal digit. */
  function DecimalDigit(c: nat): Option<nat> {
    if 48 <= c <= 57 then Some(c - 48) else if c < 0x660 then None else DigitAfter(c, SCRIPT_ZEROS)
  }

  predicate IsOtherDigit(c: nat) {
    c in {0xB2, 0xB3, 0xB9} || (c > 0x1000 && exists row :: row in OTHER_DIGITS && row.0 <= c <= row.1)
  }

  /** One character of `str.isdigit`. */
  predicate IsDigitChar(c: nat) { DecimalDigit(c).Some? || IsOtherDigit(c) }

  // ---- numerals ----

  /** `int` refuses longer numerals. */
  const MAX_DIGITS: nat := 4300

  /** What a reader finds that asks `isdigit` and then `int`, which may still refuse. */
  datatype Numeral = NotDigits | Value(n: nat) | Refused

  predicate AllDigitChars(text: seq<nat>) { text != [] && forall i :: 0 <= i < |text| ==> IsDigitChar(text[i]) }

  predicate AllDecimal(text: seq<nat>) { forall i :: 0 <= i < |text| ==> DecimalDigit(text[i]).Some? }

  function NumeralValue(text: seq<nat>): nat
    requires AllDecimal(text)
  {
    if text == [] then 0
    else
      assert DecimalDigit(text[|text| - 1]).Some?;
      10 * NumeralValue(text[..|text| - 1]) + DecimalDigit(text[|text| - 1]).value
  }

  function ReadNumeral(b: Bytes): Numeral {
    var text := Decode(b);
    if !AllDigitChars(text) then NotDigits
    else if |text| <= MAX_DIGITS && AllDecimal(text) then Value(NumeralValue(text))
    else Refused
  }

  // ---- ASCII ----

  predicate IsAscii(b: Bytes) { forall i :: 0 <= i < |b| ==> b[i] < 0x80 }

  lemma {:induction false} AsciiDecodes(b: Bytes)
    requires IsAscii(b)
    ensures IsUtf8(b) && Decode(b) == b
  {
    if b != [] {
      AsciiDecodes(b[1..]);
      assert Utf8Step(b) == 1 && b == [b[0]] + b[1..];
    }
  }

  lemma AsciiDigits(c: Byte)
    requires c < 0x80
    ensures DecimalDigit(c) == if IsDigit(c) then Some(c as int - 48) else None
    ensures IsDigitChar(c) <==> IsDigit(c)
  {
  }

  lemma {:induction false} AsciiValue(b: Bytes)
    requires forall i :: 0 <= i < |b| ==> IsDigit(b[i])
    ensures AllDecimal(b) && NumeralValue(b) == DigitsValue(b)
  {
    hide DecimalDigit;
    forall i | 0 <= i < |b| ensures DecimalDigit(b[i]) == Some(b[i] as int - 48) { AsciiDigits(b[i]); }
    if b != [] { AsciiValue(b[..|b| - 1]); }
  }

  /** ASCII text is a numeral exactly when it is all digits, and is refused exactly when it is too long. */
  lemma AsciiNumeral(b: Bytes)
    requires IsAscii(b)
    ensures ReadNumeral(b) ==
      if !AllDigits(b) then NotDigits else if |b| <= MAX_DIGITS then Value(DigitsValue(b)) else Refused
  {
    hide Decode, AllDigitChars, AllDigits, AllDecimal, NumeralValue, DigitsValue, IsAscii;
    AsciiDecodes(b);
    AsciiDigitChars(b);
    if AllDigits(b) {
      DigitsOnly(b);
      AsciiValue(b);
    }
  }

  lemma AsciiDigitChars(b: Bytes)
    requires IsAscii(b)
    ensures AllDigitChars(b) <==> AllDigits(b)
  {
    hide IsDigitChar, IsDigit;
    forall i | 0 <= i < |b| ensures IsDigitChar(b[i]) <==> IsDigit(b[i]) { AsciiDigits(b[i]); }
  }

  lemma DigitsOnly(b: Bytes)
    requires AllDigits(b)
    ensures forall i :: 0 <= i < |b| ==> IsDigit(b[i])
  {
  }

  /** A superscript two is a digit to `isdigit` and none to `int`. */
  lemma SuperscriptRefused()
    ensures ReadNumeral([0xC2, 0xB2]) == Refused
  {
    var b: Bytes := [0xC2, 0xB2];
    assert b[2..] == [] && Decode(b) == [0xB2];
    assert DecimalDigit(Decode(b)[0]).None? && IsDigitChar(Decode(b)[0]);
  }
}
