/**
 The escapes of string literals by the table of section 7 of RFC 8259, written
 with the bytes themselves: what the reader makes of each escape, which texts it
 decodes at all, and which form the printer chooses.
 */
module JsonEscapes {
  import opened Bytes
  import opened JsonText

  // ---------------------------------------------------------------- the table

  const LOWER_DIGITS := "0123456789abcdef"
  const UPPER_DIGITS := "0123456789ABCDEF"

  /** `b` is the hexadecimal digit `d`, in either case. */
  predicate IsDigitOf(b: byte, d: nat) {
    d < 16 && (b == LOWER_DIGITS[d] as int || b == UPPER_DIGITS[d] as int)
  }

  predicate DenotesDigit(b: byte) {
    exists d :: 0 <= d < 16 && IsDigitOf(b, d)
  }

  /** The four bytes `t` are the hexadecimal form of `n`, in any mix of cases. */
  predicate IsHexOf(t: bytes, n: nat) {
    && |t| == 4 && n < 0x10000
    && IsDigitOf(t[0], n / 4096) && IsDigitOf(t[1], n / 256 % 16) && IsDigitOf(t[2], n / 16 % 16)
    && IsDigitOf(t[3], n % 16)
  }

  /** The short escapes: the letter behind the backslash and the byte meant. */
  predicate IsShortEscape(letter: byte, b: byte) {
    || (letter == 34 && b == 34)
    || (letter == 92 && b == 92)
    || (letter == 47 && b == 47)
    || (letter == 98 && b == 8)
    || (letter == 102 && b == 12)
    || (letter == 110 && b == 10)
    || (letter == 114 && b == 13)
    || (letter == 116 && b == 9)
  }

  /** What stands for one character, or one byte, between the quotes. */
  datatype Piece =
    | Plain(b: byte)
    | Short(letter: byte, b: byte)
    | Unit(digits: bytes, unit: nat)
    | Pair(digits: bytes, high: nat, lowDigits: bytes, second: nat)

  /** The first half of a pair stands from U+D800 up; the second may be any four
      digits, of which the lowest ten bits count. */
  predicate WellFormed(p: Piece) {
    match p
    case Plain(b) => b != 34 && b != 92
    case Short(letter, b) => IsShortEscape(letter, b)
    case Unit(digits, unit) => IsHexOf(digits, unit) && !(0xD800 <= unit <= 0xDBFF)
    case Pair(digits, high, lowDigits, second) =>
      IsHexOf(digits, 0xD800 + high) && high < 1024 && IsHexOf(lowDigits, second)
  }

  function Text(p: Piece): bytes {
    match p
    case Plain(b) => [b]
    case Short(letter, _) => [92, letter]
    case Unit(digits, _) => [92, 117] + digits
    case Pair(digits, _, lowDigits, _) => [92, 117] + digits + [92, 117] + lowDigits
  }

  function Meaning(p: Piece): bytes {
    match p
    case Plain(b) => [b]
    case Short(_, b) => [b]
    case Unit(_, unit) => CodePointToUtf8(unit)
    case Pair(_, high, _, second) => CodePointToUtf8(0x10000 + high * 1024 + second % 1024)
  }

  predicate AllWellFormed(pieces: seq<Piece>) {
    forall k :: 0 <= k < |pieces| ==> WellFormed(pieces[k])
  }

  function TextOf(pieces: seq<Piece>): bytes {
    if pieces == [] then [] else Text(pieces[0]) + TextOf(pieces[1..])
  }

  function MeaningOf(pieces: seq<Piece>): bytes {
    if pieces == [] then [] else Meaning(pieces[0]) + MeaningOf(pieces[1..])
  }

  // ---------------------------------------------------------------- reading

  /** The reader takes a hexadecimal digit for the number it denotes. */
  lemma DigitDenotes(b: byte, d: nat)
    ensures IsHexDigit(b) && HexValue(b) == d <==> IsDigitOf(b, d)
  {
    if IsDigitOf(b, d) {
      DigitTable(d);
    } else if IsHexDigit(b) && HexValue(b) == d {
      DigitTable(d);
    }
  }

  lemma DigitTable(d: nat)
    requires d < 16
    ensures LOWER_DIGITS[d] as int == (if d < 10 then 48 + d else 87 + d)
    ensures UPPER_DIGITS[d] as int == (if d < 10 then 48 + d else 55 + d)
  {
  }

  lemma UnitDenotes(t: bytes, n: nat)
    ensures |t| >= 4 && IsHexOf(t[..4], n) <==> UnicodeEscape(t) == CodeUnit(n)
  {
    hide IsHexOf;
    if UnicodeEscape(t) == CodeUnit(n) {
      UnitIsHex(t, n);
    } else if |t| >= 4 && IsHexOf(t[..4], n) {
      HexIsUnit(t, n);
    }
  }

  lemma HexIsUnit(t: bytes, n: nat)
    requires |t| >= 4 && IsHexOf(t[..4], n)
    ensures UnicodeEscape(t) == CodeUnit(n)
  {
    hide IsDigitOf, HexValue, IsHexDigit;
    DigitDenotes(t[0], n / 4096);
    DigitDenotes(t[1], n / 256 % 16);
    DigitDenotes(t[2], n / 16 % 16);
    DigitDenotes(t[3], n % 16);
    Assemble(n);
  }

  lemma UnitIsHex(t: bytes, n: nat)
    requires UnicodeEscape(t) == CodeUnit(n)
    ensures |t| >= 4 && IsHexOf(t[..4], n)
  {
    hide IsDigitOf, HexValue, IsHexDigit;
    FourDigits(HexValue(t[0]), HexValue(t[1]), HexValue(t[2]), HexValue(t[3]));
    DigitDenotes(t[0], HexValue(t[0]));
    DigitDenotes(t[1], HexValue(t[1]));
    DigitDenotes(t[2], HexValue(t[2]));
    DigitDenotes(t[3], HexValue(t[3]));
  }

  lemma FourDigits(a: nat, b: nat, c: nat, d: nat)
    requires a < 16 && b < 16 && c < 16 && d < 16
    ensures var n := ((a * 16 + b) * 16 + c) * 16 + d;
            n < 0x10000 && n / 4096 == a && n / 256 % 16 == b && n / 16 % 16 == c && n % 16 == d
  {
    var n := ((a * 16 + b) * 16 + c) * 16 + d;
    assert n / 16 == (a * 16 + b) * 16 + c;
    assert n / 256 == a * 16 + b;
  }

  lemma Assemble(n: nat)
    requires n < 0x10000
    ensures ((n / 4096 * 16 + n / 256 % 16) * 16 + n / 16 % 16) * 16 + n % 16 == n
  {
    assert n / 256 == n / 4096 * 16 + n / 256 % 16;
    assert n / 16 == n / 256 * 16 + n / 16 % 16;
  }

  /** Each piece of the table is read as what it means, whatever follows. */
  lemma PieceDecodes(p: Piece, rest: bytes)
    requires WellFormed(p)
    ensures UnescapeText(Text(p) + rest) == Prepend(Meaning(p), UnescapeText(rest))
  {
    hide UnescapeText, SimpleEscape, IsShortEscape, IsHexOf, CodePointToUtf8;
    match p
    case Plain(b) => UnescapePlain(b, rest);
    case Short(letter, b) => ShortDecodes(letter, b, rest);
    case Unit(digits, unit) => UnitDecodes(digits, unit, rest);
    case Pair(digits, high, lowDigits, second) => PairDecodes(digits, high, lowDigits, second, rest);
  }

  lemma ShortDecodes(letter: byte, b: byte, rest: bytes)
    requires IsShortEscape(letter, b)
    ensures UnescapeText([92, letter] + rest) == Prepend([b], UnescapeText(rest))
  {
    hide UnescapeText;
    UnescapeSimple(letter, rest);
  }

  lemma UnitDecodes(digits: bytes, unit: nat, rest: bytes)
    requires IsHexOf(digits, unit) && !(0xD800 <= unit <= 0xDBFF)
    ensures UnescapeText([92, 117] + digits + rest) == Prepend(CodePointToUtf8(unit), UnescapeText(rest))
  {
    hide IsHexOf, UnicodeEscape, UnescapeText, CodePointToUtf8;
    assert |digits| == 4 by { HexHasFour(digits, unit); }
    var t := [92, 117] + digits + rest;
    assert t[2..][..4] == digits && t[6..] == rest;
    UnitDenotes(t[2..], unit);
    UnescapeCode(t, unit, 4);
  }

  lemma HexHasFour(digits: bytes, unit: nat)
    requires IsHexOf(digits, unit)
    ensures |digits| == 4 && unit < 0x10000
  {
  }

  lemma PairDecodes(digits: bytes, high: nat, lowDigits: bytes, second: nat, rest: bytes)
    requires IsHexOf(digits, 0xD800 + high) && high < 1024 && IsHexOf(lowDigits, second)
    ensures UnescapeText([92, 117] + digits + [92, 117] + lowDigits + rest)
         == Prepend(CodePointToUtf8(0x10000 + high * 1024 + second % 1024), UnescapeText(rest))
  {
    hide IsHexOf, UnicodeEscape, UnescapeText, CodePointToUtf8;
    HexHasFour(digits, 0xD800 + high);
    HexHasFour(lowDigits, second);
    var t := [92, 117] + digits + [92, 117] + lowDigits + rest;
    assert t[2..][..4] == digits && t[2..][6..][..4] == lowDigits && t[12..] == rest;
    UnitDenotes(t[2..], 0xD800 + high);
    UnitDenotes(t[2..][6..], second);
    assert (0xD800 + high) % 1024 == high;
    UnescapeCode(t, 0x10000 + high * 1024 + second % 1024, 10);
  }

  /** A text made of pieces is read as what the pieces mean. */
  lemma {:induction false} PiecesDecode(pieces: seq<Piece>, rest: bytes)
    requires AllWellFormed(pieces)
    ensures UnescapeText(TextOf(pieces) + rest) == Prepend(MeaningOf(pieces), UnescapeText(rest))
  {
    hide UnescapeText, WellFormed, Text, Meaning;
    if pieces == [] {
      assert [] + rest == rest;
      PrependNothing(UnescapeText(rest));
    } else {
      var more := TextOf(pieces[1..]) + rest;
      assert TextOf(pieces) + rest == Text(pieces[0]) + more;
      PieceDecodes(pieces[0], more);
      PiecesDecode(pieces[1..], rest);
      PrependPrepend(Meaning(pieces[0]), MeaningOf(pieces[1..]), UnescapeText(rest));
    }
  }

  /** Where the decoding loop stops without an error. */
  predicate AtEnd(t: bytes) {
    t == [] || t[0] == 34
  }

  /** Nothing but pieces of the table is decoded, up to the end or a bare quote. */
  lemma {:induction false} DecodedIsPieces(t: bytes) returns (pieces: seq<Piece>, rest: bytes)
    requires UnescapeText(t).Unescaped?
    ensures AllWellFormed(pieces) && t == TextOf(pieces) + rest && AtEnd(rest)
    ensures UnescapeText(t) == Unescaped(MeaningOf(pieces))
    decreases |t|
  {
    hide UnescapeText, WellFormed, Text, Meaning;
    if AtEnd(t) {
      EndDecodes(t);
      pieces, rest := [], t;
    } else {
      var p, behind := HeadPiece(t);
      PieceDecodes(p, behind);
      var others;
      others, rest := DecodedIsPieces(behind);
      pieces := [p] + others;
      assert pieces[1..] == others;
      assert Text(p) + (TextOf(others) + rest) == TextOf(pieces) + rest;
    }
  }

  lemma HeadPiece(t: bytes) returns (p: Piece, behind: bytes)
    requires UnescapeText(t).Unescaped? && !AtEnd(t)
    ensures WellFormed(p) && t == Text(p) + behind && |behind| < |t|
  {
    if t[0] != 92 {
      p, behind := Plain(t[0]), t[1..];
    } else if SimpleEscape(t[1]) != 0 {
      p, behind := Short(t[1], SimpleEscape(t[1])), t[2..];
    } else {
      p, behind := HeadCode(t);
    }
  }

  lemma HeadCode(t: bytes) returns (p: Piece, behind: bytes)
    requires |t| >= 2 && t[0] == 92 && t[1] == 117 && UnicodeCodePoint(t[2..]).CodePoint?
    ensures WellFormed(p) && t == Text(p) + behind && |behind| < |t|
  {
    hide IsHexOf, UnicodeEscape;
    var u := t[2..];
    var first := UnicodeEscape(u);
    assert first.CodeUnit?;
    UnitDenotes(u, first.unit);
    if 0xD800 <= first.unit <= 0xDBFF {
      var second := UnicodeEscape(u[6..]);
      UnitDenotes(u[6..], second.unit);
      p, behind := Pair(u[..4], first.unit - 0xD800, u[6..][..4], second.unit), t[12..];
      assert t == [92, 117] + t[2..6] + [92, 117] + t[8..12] + t[12..];
    } else {
      p, behind := Unit(u[..4], first.unit), t[6..];
      assert t == [92, 117] + t[2..6] + t[6..];
    }
  }

  /** A text without bare quotes is decoded if and only if it is made of pieces. */
  lemma DecodesExactly(t: bytes, s: bytes)
    ensures UnescapeText(t) == Unescaped(s)
       <==> exists pieces, rest ::
              AllWellFormed(pieces) && AtEnd(rest) && t == TextOf(pieces) + rest && s == MeaningOf(pieces)
  {
    hide UnescapeText, AllWellFormed, TextOf, MeaningOf;
    if UnescapeText(t) == Unescaped(s) {
      var pieces, rest := DecodedIsPieces(t);
    }
    if pieces, rest :| AllWellFormed(pieces) && AtEnd(rest) && t == TextOf(pieces) + rest && s == MeaningOf(pieces) {
      PiecesDecode(pieces, rest);
      EndDecodes(rest);
      assert MeaningOf(pieces) + [] == MeaningOf(pieces);
    }
  }

  lemma EndDecodes(rest: bytes)
    requires AtEnd(rest)
    ensures UnescapeText(rest) == Unescaped([])
  {
  }

  /** The short escapes one by one, and no others. */
  lemma ShortEscapes(rest: bytes)
    ensures UnescapeText([92, 34] + rest) == Prepend([34], UnescapeText(rest))
    ensures UnescapeText([92, 92] + rest) == Prepend([92], UnescapeText(rest))
    ensures UnescapeText([92, 47] + rest) == Prepend([47], UnescapeText(rest))
    ensures UnescapeText([92, 98] + rest) == Prepend([8], UnescapeText(rest))
    ensures UnescapeText([92, 102] + rest) == Prepend([12], UnescapeText(rest))
    ensures UnescapeText([92, 110] + rest) == Prepend([10], UnescapeText(rest))
    ensures UnescapeText([92, 114] + rest) == Prepend([13], UnescapeText(rest))
    ensures UnescapeText([92, 116] + rest) == Prepend([9], UnescapeText(rest))
  {
    hide UnescapeText;
    PieceDecodes(Short(34, 34), rest);
    PieceDecodes(Short(92, 92), rest);
    PieceDecodes(Short(47, 47), rest);
    PieceDecodes(Short(98, 8), rest);
    PieceDecodes(Short(102, 12), rest);
    PieceDecodes(Short(110, 10), rest);
    PieceDecodes(Short(114, 13), rest);
    PieceDecodes(Short(116, 9), rest);
  }

  /** Any other letter behind a backslash is an error, except the `u` of a code unit. */
  lemma OtherEscapesFail(letter: byte, rest: bytes)
    requires letter !in {34, 92, 47, 98, 102, 110, 114, 116, 117}
    ensures UnescapeText([92, letter] + rest) == Malformed(BadEscape)
  {
  }

  /** A `\u` without four digits behind it is an error. */
  lemma BadUnitsFail(rest: bytes)
    requires |rest| < 4 || exists k :: 0 <= k < 4 && !DenotesDigit(rest[k])
    ensures UnescapeText([92, 117] + rest)
         == Malformed(if |rest| < 4 then FourHexDigitsExpected else HexDigitExpected)
  {
    hide UnicodeEscape, IsDigitOf, IsHexDigit;
    var t := [92, 117] + rest;
    assert t[2..] == rest;
    BadUnit4(rest);
  }

  lemma BadUnit4(t: bytes)
    requires |t| < 4 || exists k :: 0 <= k < 4 && !DenotesDigit(t[k])
    ensures UnicodeEscape(t) == BadUnit(if |t| < 4 then FourHexDigitsExpected else HexDigitExpected)
  {
    hide IsHexDigit, HexValue, DenotesDigit;
    if |t| >= 4 {
      var k :| 0 <= k < 4 && !DenotesDigit(t[k]);
      NoDigit(t[k]);
    }
  }

  lemma NoDigit(b: byte)
    requires !DenotesDigit(b)
    ensures !IsHexDigit(b)
  {
    if IsHexDigit(b) {
      DigitDenotes(b, HexValue(b));
    }
  }

  /** The clef of section 7 of RFC 8259, a Euro sign and an umlaut, in both cases. */
  lemma EscapedSigns()
    ensures UnescapeText([92, 117] + [100, 56, 51, 52] + [92, 117] + [100, 100, 49, 101])
         == Unescaped([0xF0, 0x9D, 0x84, 0x9E])
    ensures UnescapeText([92, 117] + [68, 56, 51, 52] + [92, 117] + [68, 68, 49, 69])
         == Unescaped([0xF0, 0x9D, 0x84, 0x9E])
    ensures UnescapeText([92, 117] + [50, 48, 97, 67]) == Unescaped([0xE2, 0x82, 0xAC])
    ensures UnescapeText([92, 117] + [48, 48, 69, 98]) == Unescaped([0xC3, 0xAB])
  {
    hide UnescapeText, WellFormed, CodePointToUtf8;
    ClefPieces();
    SignPieces();
    SignDecodes(Pair([100, 56, 51, 52], 0x34, [100, 100, 49, 101], 0xDD1E));
    SignDecodes(Pair([68, 56, 51, 52], 0x34, [68, 68, 49, 69], 0xDD1E));
    SignDecodes(Unit([50, 48, 97, 67], 0x20AC));
    SignDecodes(Unit([48, 48, 69, 98], 0xEB));
  }

  lemma ClefPieces()
    ensures WellFormed(Pair([100, 56, 51, 52], 0x34, [100, 100, 49, 101], 0xDD1E))
    ensures WellFormed(Pair([68, 56, 51, 52], 0x34, [68, 68, 49, 69], 0xDD1E))
    ensures CodePointToUtf8(0x10000 + 0x34 * 1024 + 0xDD1E % 1024) == [0xF0, 0x9D, 0x84, 0x9E]
  {
    hide CodePointToUtf8, IsHexOf;
    LowerClef();
    UpperClef();
    FourBytes(0, 0x1D, 4, 0x1E);
    assert 0x10000 + 0x34 * 1024 + 0xDD1E % 1024 == 0x1D * 4096 + 4 * 64 + 0x1E;
  }

  lemma LowerClef()
    ensures IsHexOf([100, 56, 51, 52], 0xD834) && IsHexOf([100, 100, 49, 101], 0xDD1E)
  {
  }

  lemma UpperClef()
    ensures IsHexOf([68, 56, 51, 52], 0xD834) && IsHexOf([68, 68, 49, 69], 0xDD1E)
  {
  }

  lemma SignPieces()
    ensures WellFormed(Unit([50, 48, 97, 67], 0x20AC)) && WellFormed(Unit([48, 48, 69, 98], 0xEB))
    ensures CodePointToUtf8(0x20AC) == [0xE2, 0x82, 0xAC] && CodePointToUtf8(0xEB) == [0xC3, 0xAB]
  {
  }

  lemma SignDecodes(p: Piece)
    requires WellFormed(p)
    ensures UnescapeText(Text(p)) == Unescaped(Meaning(p))
  {
    PieceDecodes(p, []);
    assert Text(p) + [] == Text(p);
    assert UnescapeText([]) == Unescaped([]);
  }

  // ---------------------------------------------------------------- printing

  /** The piece the printer chooses for a character below U+0080. */
  function AsciiPiece(b: byte): (p: Piece)
    requires b < 0x80
  {
    if b == 34 then Short(34, 34)
    else if b == 92 then Short(92, 92)
    else if b == 8 then Short(98, 8)
    else if b == 12 then Short(102, 12)
    else if b == 10 then Short(110, 10)
    else if b == 13 then Short(114, 13)
    else if b == 9 then Short(116, 9)
    else if b >= 32 then Plain(b)
    else Unit([48, 48, LOWER_DIGITS[b / 16] as int, LOWER_DIGITS[b % 16] as int], b)
  }

  /** A character below U+0080 is printed as itself, as its short escape or as a
      control character in four digits; a slash stays as it is. */
  lemma AsciiPrinted(b: byte, rest: bytes)
    requires b < 0x80
    ensures EscapeText([b] + rest) == Text(AsciiPiece(b)) + EscapeText(rest)
  {
    hide AsciiPiece, EscapeHead;
    var t := [b] + rest;
    assert t[1..] == rest;
    AsciiHead(t);
  }

  lemma AsciiHead(s: bytes)
    requires |s| > 0 && s[0] < 0x80
    ensures EscapeHead(s) == Escaped(Text(AsciiPiece(s[0])), 1)
  {
    hide UnicodeEscapeText;
    var b := s[0];
    if ShortEscape(b) == 0 && b < 32 {
      ControlText(b);
    }
  }

  /** A byte that begins no character, or one that is cut short, is printed as the
      replacement character. */
  lemma IllFormedPrinted(s: bytes)
    requires s != []
    requires || s[0] >= 0xF8 || (0x80 <= s[0] < 0xE0 && |s| < 2) || (0xE0 <= s[0] < 0xF0 && |s| < 3)
             || (0xF0 <= s[0] < 0xF8 && |s| < 4)
    ensures EscapeHead(s) == Escaped([92, 117, 102, 102, 102, 100], 1)
  {
    assert UnicodeEscapeText(0xFFFD) == [92, 117, 102, 102, 102, 100];
    hide UnicodeEscapeText;
  }

  /** The printer writes characters of ASCII alone, and no control characters. */
  lemma {:induction false} PrintedIsAscii(s: bytes)
    ensures forall k :: 0 <= k < |EscapeText(s)| ==> 32 <= EscapeText(s)[k] < 128
    decreases |s|
  {
    hide EscapeHead;
    if s != [] {
      HeadIsAscii(s);
      PrintedIsAscii(s[EscapeHead(s).used..]);
    }
  }

  lemma HeadIsAscii(s: bytes)
    requires s != []
    ensures forall k :: 0 <= k < |EscapeHead(s).text| ==> 32 <= EscapeHead(s).text[k] < 128
  {
    hide Utf8ToCodePoint;
  }

  lemma ControlText(b: nat)
    requires b < 32
    ensures UnicodeEscapeText(b) == [92, 117] + [48, 48, LOWER_DIGITS[b / 16] as int, LOWER_DIGITS[b % 16] as int]
  {
    DigitTable(b / 16);
    DigitTable(b % 16);
  }
}
