/**
 String literals of the JSON printer and reader: UTF-8 decoding and encoding,
 escaping, unescaping.  Bit masks and shifts of the source are written as `%`
 and `/`, and an `|` of operands without common bits as `+`.
 */
module JsonText {
  import opened Bytes

  const REPLACEMENT_CHARACTER := 0xFFFD

  /** The messages the reader can record. */
  datatype ErrorKind =
    | ExtraAfterValue
    | ArrayOrObjectRequired
    | ValueExpected
    | MissingColon
    | MissingCommaOrBrace
    | MissingBraceOrName
    | MissingCommaOrBracket
    | DuplicateKey(name: bytes)
    | NotANumber
    | EmptyEscape
    | BadEscape
    | SurrogateNeedsSixCharacters
    | SurrogateNeedsSecondHalf
    | FourHexDigitsExpected
    | HexDigitExpected

  // ---------------------------------------------------------------- UTF-8

  /** The UTF-8 form of a code point; nothing above U+10FFFF. */
  function CodePointToUtf8(cp: nat): bytes {
    if cp <= 0x7F then
      [cp]
    else if cp <= 0x7FF then
      [0xC0 + (cp / 64) % 32, 0x80 + cp % 64]
    else if cp <= 0xFFFF then
      [0xE0 + (cp / 4096) % 16, 0x80 + (cp / 64) % 64, 0x80 + cp % 64]
    else if cp <= 0x10FFFF then
      [0xF0 + (cp / 262144) % 8, 0x80 + (cp / 4096) % 64, 0x80 + (cp / 64) % 64, 0x80 + cp % 64]
    else
      []
  }

  function LowSix(b: int): nat {
    b % 64
  }

  datatype Decoded = Decoded(codePoint: nat, used: nat)

  /** The code point at the head of `s` and the number of bytes it used up. */
  function Utf8ToCodePoint(s: bytes): (r: Decoded)
    requires |s| > 0
    ensures 1 <= r.used <= |s| && r.used <= 4
    ensures r.codePoint <= 0x1FFFFF && !(0xD800 <= r.codePoint <= 0xDFFF)
  {
    var first: int := s[0];
    if first < 0x80 then
      Decoded(first, 1)
    else if first < 0xE0 then
      if |s| < 2 then Decoded(REPLACEMENT_CHARACTER, 1)
      else
        var calculated := (first % 32) * 64 + LowSix(s[1]);
        Decoded(if calculated < 0x80 then REPLACEMENT_CHARACTER else calculated, 2)
    else if first < 0xF0 then
      if |s| < 3 then Decoded(REPLACEMENT_CHARACTER, 1)
      else
        var calculated := (first % 16) * 4096 + LowSix(s[1]) * 64 + LowSix(s[2]);
        Decoded(if 0xD800 <= calculated <= 0xDFFF || calculated < 0x800 then REPLACEMENT_CHARACTER
                else calculated, 3)
    else if first < 0xF8 then
      if |s| < 4 then Decoded(REPLACEMENT_CHARACTER, 1)
      else
        var calculated := (first % 8) * 262144 + LowSix(s[1]) * 4096 + LowSix(s[2]) * 64 + LowSix(s[3]);
        Decoded(if calculated < 0x10000 then REPLACEMENT_CHARACTER else calculated, 4)
    else
      Decoded(REPLACEMENT_CHARACTER, 1)
  }

  predicate IsTail(b: byte) {
    0x80 <= b <= 0xBF
  }

  /** The length of the well-formed character that starts `s` by the table of
      section 4 of RFC 3629, or 0 when there is none. */
  function CharacterLength(s: bytes): (n: nat)
    ensures n <= |s|
  {
    if |s| >= 1 && s[0] <= 0x7F then 1
    else if |s| >= 2 && 0xC2 <= s[0] <= 0xDF && IsTail(s[1]) then 2
    else if |s| >= 3 && IsTail(s[2]) &&
            ((s[0] == 0xE0 && 0xA0 <= s[1] <= 0xBF) ||
             (0xE1 <= s[0] <= 0xEC && IsTail(s[1])) ||
             (s[0] == 0xED && 0x80 <= s[1] <= 0x9F) ||
             (0xEE <= s[0] <= 0xEF && IsTail(s[1]))) then 3
    else if |s| >= 4 && IsTail(s[2]) && IsTail(s[3]) &&
            ((s[0] == 0xF0 && 0x90 <= s[1] <= 0xBF) ||
             (0xF1 <= s[0] <= 0xF3 && IsTail(s[1])) ||
             (s[0] == 0xF4 && 0x80 <= s[1] <= 0x8F)) then 4
    else 0
  }

  predicate WellFormedUtf8(s: bytes) {
    s == [] || (CharacterLength(s) > 0 && WellFormedUtf8(s[CharacterLength(s)..]))
  }

  // ---------------------------------------------------------------- printing

  function HexDigitText(d: nat): byte
    requires d < 16
  {
    if d < 10 then 48 + d else 87 + d
  }

  function Hex16(x: nat): bytes
    requires x <= 0xFFFF
  {
    [HexDigitText(x / 4096), HexDigitText((x / 256) % 16), HexDigitText((x / 16) % 16), HexDigitText(x % 16)]
  }

  function UnicodeEscapeText(x: nat): bytes
    requires x <= 0xFFFF
  {
    [BACKSLASH, 117] + Hex16(x)
  }

  /** The letter of the short escape of `b`, or 0. */
  function ShortEscape(b: byte): byte {
    if b == QUOTE then QUOTE
    else if b == BACKSLASH then BACKSLASH
    else if b == 8 then 98
    else if b == 12 then 102
    else if b == LF then 110
    else if b == CR then 114
    else if b == TAB then 116
    else 0
  }

  datatype Escaped = Escaped(text: bytes, used: nat)

  /** What one turn of the printing loop appends, and how far it moves. */
  function EscapeHead(s: bytes): (r: Escaped)
    requires |s| > 0
    ensures 1 <= r.used <= |s|
  {
    if ShortEscape(s[0]) != 0 then
      Escaped([BACKSLASH, ShortEscape(s[0])], 1)
    else
      var d := Utf8ToCodePoint(s);
      var cp := d.codePoint;
      if 0x20 <= cp < 0x80 then
        Escaped([cp], d.used)
      else if cp < 0x10000 then
        Escaped(UnicodeEscapeText(cp), d.used)
      else
        var above := cp - 0x10000;
        Escaped(UnicodeEscapeText(above / 1024 + 0xD800) + UnicodeEscapeText(above % 1024 + 0xDC00), d.used)
  }

  function EscapeText(s: bytes): bytes {
    if s == [] then [] else EscapeHead(s).text + EscapeText(s[EscapeHead(s).used..])
  }

  /** A string literal as the writers print it. */
  function Quoted(s: bytes): (q: bytes)
    ensures |q| >= 2 && q[0] == QUOTE
  {
    [QUOTE] + EscapeText(s) + [QUOTE]
  }

  /** Whether a byte makes the printer walk the string.  `char` is signed, so a
      byte from 128 up is negative and counts as smaller than a space. */
  predicate ForcesQuoting(b: byte) {
    b == BACKSLASH || b == QUOTE || b >= 0x80 || b < SPACE || b < 0x80
  }

  method IsAnyCharRequiredQuoting(s: bytes) returns (required: bool)
    ensures required <==> s != []
  {
    for i := 0 to |s|
      invariant i == 0
    {
      if ForcesQuoting(s[i]) {
        return true;
      }
    }
    return false;
  }

  /** The bytes before the first NUL: what appending a `char const*` appends. */
  function CString(s: bytes): bytes {
    if s == [] || s[0] == 0 then [] else [s[0]] + CString(s[1..])
  }

  /** What is still to be printed at position `c`. */
  function EscapeFrom(s: bytes, c: nat): bytes
    requires c <= |s|
  {
    EscapeText(s[c..])
  }

  lemma EscapeEnds(s: bytes, done: bytes)
    ensures EscapeFrom(s, 0) == EscapeText(s) && done + EscapeFrom(s, |s|) == done
  {
    assert s[0..] == s && s[|s|..] == [];
  }

  /** One turn of the printing loop. */
  lemma EscapeStep(s: bytes, c: nat, done: bytes)
    requires c < |s|
    ensures var head := EscapeHead(s[c..]);
            && 0 < head.used <= |s| - c
            && done + EscapeFrom(s, c) == (done + head.text) + EscapeFrom(s, c + head.used)
  {
    hide EscapeHead;
    var head := EscapeHead(s[c..]);
    assert s[c..][head.used..] == s[c + head.used..];
    assert done + (head.text + EscapeFrom(s, c + head.used)) == (done + head.text) + EscapeFrom(s, c + head.used);
  }

  method EscapeLoop(value: bytes) returns (result: bytes)
    ensures result == [QUOTE] + EscapeText(value)
  {
    hide EscapeText, EscapeFrom, EscapeHead;
    EscapeEnds(value, []);
    result := [QUOTE];
    var c := 0;
    while c != |value|
      invariant 0 <= c <= |value|
      invariant [QUOTE] + EscapeText(value) == result + EscapeFrom(value, c)
      decreases |value| - c
    {
      EscapeStep(value, c, result);
      var head := EscapeHead(value[c..]);
      result := result + head.text;
      c := c + head.used;
    }
    EscapeEnds(value, result);
  }

  method ValueToQuotedString(value: bytes) returns (result: bytes)
    ensures result == Quoted(value)
  {
    var needsQuoting := IsAnyCharRequiredQuoting(value);
    if !needsQuoting {
      return [QUOTE] + CString(value) + [QUOTE];
    }
    result := EscapeLoop(value);
    result := result + [QUOTE];
  }

  // ---------------------------------------------------------------- reading

  datatype Unescaped = Unescaped(text: bytes) | Malformed(error: ErrorKind)

  function Prepend(prefix: bytes, r: Unescaped): Unescaped {
    match r
    case Unescaped(text) => Unescaped(prefix + text)
    case Malformed(_) => r
  }

  lemma PrependPrepend(p: bytes, q: bytes, r: Unescaped)
    ensures Prepend(p, Prepend(q, r)) == Prepend(p + q, r)
  {
    if r.Unescaped? {
      assert p + (q + r.text) == (p + q) + r.text;
    }
  }

  predicate IsHexDigit(b: byte) {
    IsDigit(b) || 97 <= b <= 102 || 65 <= b <= 70
  }

  function HexValue(b: byte): (v: nat)
    requires IsHexDigit(b)
    ensures v < 16
  {
    if IsDigit(b) then b - 48 else if b >= 97 then b - 87 else b - 55
  }

  datatype CodeUnit = CodeUnit(unit: nat) | BadUnit(error: ErrorKind)

  /** The four hexadecimal digits at the head of `t`. */
  function UnicodeEscape(t: bytes): (r: CodeUnit)
    ensures r.CodeUnit? ==> |t| >= 4 && r.unit <= 0xFFFF
  {
    if |t| < 4 then BadUnit(FourHexDigitsExpected)
    else if IsHexDigit(t[0]) && IsHexDigit(t[1]) && IsHexDigit(t[2]) && IsHexDigit(t[3]) then
      CodeUnit(((HexValue(t[0]) * 16 + HexValue(t[1])) * 16 + HexValue(t[2])) * 16 + HexValue(t[3]))
    else BadUnit(HexDigitExpected)
  }

  datatype CodePoint = CodePoint(codePoint: nat, used: nat) | BadPoint(error: ErrorKind)

  /** The code point after a `\u`: one escape, or two for a high surrogate.  The
      second half is not checked to be a low surrogate. */
  function UnicodeCodePoint(t: bytes): (r: CodePoint)
    ensures r.CodePoint? ==> 4 <= r.used <= |t| && r.codePoint <= 0x10FFFF
  {
    match UnicodeEscape(t)
    case BadUnit(e) => BadPoint(e)
    case CodeUnit(unicode) =>
      if 0xD800 <= unicode <= 0xDBFF then
        if |t| < 10 then BadPoint(SurrogateNeedsSixCharacters)
        else if t[4] == BACKSLASH && t[5] == 117 then
          match UnicodeEscape(t[6..])
          case BadUnit(e) => BadPoint(e)
          case CodeUnit(second) => CodePoint(0x10000 + (unicode % 1024) * 1024 + second % 1024, 10)
        else BadPoint(SurrogateNeedsSecondHalf)
      else CodePoint(unicode, 4)
  }

  /** The byte a short escape letter stands for, or 0. */
  function SimpleEscape(letter: byte): byte {
    if letter == QUOTE then QUOTE
    else if letter == SLASH then SLASH
    else if letter == BACKSLASH then BACKSLASH
    else if letter == 98 then 8
    else if letter == 102 then 12
    else if letter == 110 then LF
    else if letter == 114 then CR
    else if letter == 116 then TAB
    else 0
  }

  /** The text between the quotes of a literal, unescaped. */
  function UnescapeText(t: bytes): Unescaped
    decreases |t|
  {
    if t == [] || t[0] == QUOTE then Unescaped([])
    else if t[0] != BACKSLASH then Prepend([t[0]], UnescapeText(t[1..]))
    else if |t| == 1 then Malformed(EmptyEscape)
    else if SimpleEscape(t[1]) != 0 then Prepend([SimpleEscape(t[1])], UnescapeText(t[2..]))
    else if t[1] == 117 then
      match UnicodeCodePoint(t[2..])
      case BadPoint(e) => Malformed(e)
      case CodePoint(cp, used) => Prepend(CodePointToUtf8(cp), UnescapeText(t[2 + used..]))
    else Malformed(BadEscape)
  }

  /** `decodeUnicodeEscapeSequence` over `doc[from..end]`. */
  method DecodeUnicodeEscapeSequence(doc: bytes, from: nat, end: nat) returns (r: CodeUnit)
    requires from <= end <= |doc|
    ensures r == UnicodeEscape(doc[from..end])
  {
    if end - from < 4 {
      return BadUnit(FourHexDigitsExpected);
    }
    ghost var t := doc[from..end];
    var unicode: nat := 0;
    var index := 0;
    while index < 4
      invariant 0 <= index <= 4
      invariant forall k :: 0 <= k < index ==> IsHexDigit(t[k])
      invariant index == 1 ==> unicode == HexValue(t[0])
      invariant index == 2 ==> unicode == HexValue(t[0]) * 16 + HexValue(t[1])
      invariant index == 3 ==> unicode == (HexValue(t[0]) * 16 + HexValue(t[1])) * 16 + HexValue(t[2])
      invariant index == 4 ==> UnicodeEscape(t) == CodeUnit(unicode)
      invariant index == 0 ==> unicode == 0
    {
      var c := doc[from + index];
      assert c == t[index];
      if !IsHexDigit(c) {
        return BadUnit(HexDigitExpected);
      }
      unicode := unicode * 16 + HexValue(c);
      index := index + 1;
    }
    r := CodeUnit(unicode);
  }

  method DecodeUnicodeCodePoint(doc: bytes, from: nat, end: nat) returns (r: CodePoint)
    requires from <= end <= |doc|
    ensures r == UnicodeCodePoint(doc[from..end])
  {
    ghost var t := doc[from..end];
    var first := DecodeUnicodeEscapeSequence(doc, from, end);
    if first.BadUnit? {
      return BadPoint(first.error);
    }
    var unicode := first.unit;
    if 0xD800 <= unicode <= 0xDBFF {
      if end - (from + 4) < 6 {
        return BadPoint(SurrogateNeedsSixCharacters);
      }
      assert doc[from + 4] == t[4] && doc[from + 5] == t[5];
      if doc[from + 4] != BACKSLASH || doc[from + 5] != 117 {
        return BadPoint(SurrogateNeedsSecondHalf);
      }
      assert t[6..] == doc[from + 6..end];
      var second := DecodeUnicodeEscapeSequence(doc, from + 6, end);
      if second.BadUnit? {
        return BadPoint(second.error);
      }
      return CodePoint(0x10000 + (unicode % 1024) * 1024 + second.unit % 1024, 10);
    }
    r := CodePoint(unicode, 4);
  }

  /** One turn of the loop of `decodeString`. */
  datatype UnescapeStep = Append(piece: bytes, next: nat) | Stop | Broken(error: ErrorKind)

  method DecodeStringStep(doc: bytes, from: nat, end: nat) returns (step: UnescapeStep)
    requires from < end <= |doc|
    ensures match step
            case Append(piece, next) =>
              && from < next <= end
              && UnescapeText(doc[from..end]) == Prepend(piece, UnescapeText(doc[next..end]))
            case Stop => UnescapeText(doc[from..end]) == Unescaped([])
            case Broken(e) => UnescapeText(doc[from..end]) == Malformed(e)
  {
    ghost var t := doc[from..end];
    var c := doc[from];
    assert t[0] == c;
    if c == QUOTE {
      return Stop;
    }
    if c != BACKSLASH {
      assert t[1..] == doc[from + 1..end];
      return Append([c], from + 1);
    }
    if from + 1 == end {
      return Broken(EmptyEscape);
    }
    var escape := doc[from + 1];
    assert t[1] == escape && t[2..] == doc[from + 2..end];
    if SimpleEscape(escape) != 0 {
      return Append([SimpleEscape(escape)], from + 2);
    }
    if escape != 117 {
      return Broken(BadEscape);
    }
    var point := DecodeUnicodeCodePoint(doc, from + 2, end);
    match point {
      case BadPoint(e) => step := Broken(e);
      case CodePoint(cp, used) =>
        assert t[2 + used..] == doc[from + 2 + used..end];
        step := Append(CodePointToUtf8(cp), from + 2 + used);
    }
  }

  /** `decodeString` over the bytes between the quotes. */
  method Unescape(doc: bytes, start: nat, end: nat) returns (decoded: Unescaped)
    requires start <= end <= |doc|
    ensures decoded == UnescapeText(doc[start..end])
  {
    var text: bytes := [];
    var current := start;
    ghost var goal := UnescapeText(doc[start..end]);
    PrependNothing(goal);
    while current != end
      invariant start <= current <= end
      invariant goal == Prepend(text, UnescapeText(doc[current..end]))
      decreases end - current
    {
      var step := DecodeStringStep(doc, current, end);
      match step {
        case Append(piece, next) =>
          PrependPrepend(text, piece, UnescapeText(doc[next..end]));
          text := text + piece;
          current := next;
        case Stop =>
          return Unescaped(text);
        case Broken(e) =>
          return Malformed(e);
      }
    }
    decoded := Unescaped(text);
  }

  lemma PrependNothing(r: Unescaped)
    ensures Prepend([], r) == r
  {
    if r.Unescaped? {
      assert [] + r.text == r.text;
    }
  }

  // ---------------------------------------------------------------- round trip

  /** What reading gives for the character at the head of `s` after printing it. */
  function RereadHead(s: bytes): bytes
    requires |s| > 0
  {
    var cp := Utf8ToCodePoint(s).codePoint;
    if ShortEscape(s[0]) != 0 then [s[0]]
    else if cp <= 0x10FFFF then CodePointToUtf8(cp)
    else CodePointToUtf8((cp - 0x10000) / 1024 + 0xD800) + CodePointToUtf8((cp - 0x10000) % 1024 + 0xDC00)
  }

  function Reread(s: bytes): bytes {
    if s == [] then [] else RereadHead(s) + Reread(s[EscapeHead(s).used..])
  }

  lemma HexDigitRoundTrip(d: nat)
    requires d < 16
    ensures IsHexDigit(HexDigitText(d)) && HexValue(HexDigitText(d)) == d
  {
  }

  lemma Hex16RoundTrip(x: nat, rest: bytes)
    requires x <= 0xFFFF
    ensures UnicodeEscape(Hex16(x) + rest) == CodeUnit(x)
  {
    HexDigitRoundTrip(x / 4096);
    HexDigitRoundTrip((x / 256) % 16);
    HexDigitRoundTrip((x / 16) % 16);
    HexDigitRoundTrip(x % 16);
    var t := Hex16(x) + rest;
    assert t[..4] == Hex16(x);
    assert x / 16 == (x / 256) * 16 + (x / 16) % 16;
    assert x / 256 == (x / 4096) * 16 + (x / 256) % 16;
  }

  /** An escape that is no high surrogate is read back as that one code point. */
  lemma {:induction false} UnescapeUnit(x: nat, rest: bytes)
    requires x <= 0xFFFF && !(0xD800 <= x <= 0xDBFF)
    ensures UnescapeText(UnicodeEscapeText(x) + rest) == Prepend(CodePointToUtf8(x), UnescapeText(rest))
  {
    var t := UnicodeEscapeText(x) + rest;
    Hex16RoundTrip(x, rest);
    assert t[2..] == Hex16(x) + rest;
    assert t[6..] == rest;
  }

  lemma SurrogatePairValue(t: bytes, hi: nat, lo: nat)
    requires 0xD800 <= hi <= 0xDBFF && 0xDC00 <= lo <= 0xDFFF
    requires |t| >= 10 && t[4] == BACKSLASH && t[5] == 117
    requires UnicodeEscape(t) == CodeUnit(hi) && UnicodeEscape(t[6..]) == CodeUnit(lo)
    ensures UnicodeCodePoint(t) == CodePoint(0x10000 + (hi - 0xD800) * 1024 + (lo - 0xDC00), 10)
  {
    hide UnicodeEscape;
    assert hi % 1024 == hi - 0xD800 && lo % 1024 == lo - 0xDC00;
  }

  lemma {:induction false} PairCodePoint(hi: nat, lo: nat, rest: bytes)
    requires 0xD800 <= hi <= 0xDBFF && 0xDC00 <= lo <= 0xDFFF
    ensures UnicodeCodePoint(Hex16(hi) + (UnicodeEscapeText(lo) + rest))
         == CodePoint(0x10000 + (hi - 0xD800) * 1024 + (lo - 0xDC00), 10)
  {
    hide UnicodeEscape, UnicodeCodePoint, HexDigitText;
    var after := UnicodeEscapeText(lo) + rest;
    var t := Hex16(hi) + after;
    Hex16RoundTrip(hi, after);
    Hex16RoundTrip(lo, rest);
    assert t[6..] == Hex16(lo) + rest;
    SurrogatePairValue(t, hi, lo);
  }

  lemma {:induction false} UnescapePair(hi: nat, lo: nat, rest: bytes)
    requires 0xD800 <= hi <= 0xDBFF && 0xDC00 <= lo <= 0xDFFF
    ensures UnescapeText(UnicodeEscapeText(hi) + UnicodeEscapeText(lo) + rest)
         == Prepend(CodePointToUtf8(0x10000 + (hi - 0xD800) * 1024 + (lo - 0xDC00)), UnescapeText(rest))
  {
    hide UnescapeText, UnicodeCodePoint, CodePointToUtf8, Hex16;
    var t := UnicodeEscapeText(hi) + UnicodeEscapeText(lo) + rest;
    PairShape(hi, lo, rest);
    PairCodePoint(hi, lo, rest);
    UnescapeCode(t, 0x10000 + (hi - 0xD800) * 1024 + (lo - 0xDC00), 10);
  }

  lemma PairShape(hi: nat, lo: nat, rest: bytes)
    requires hi <= 0xFFFF && lo <= 0xFFFF
    ensures var t := UnicodeEscapeText(hi) + UnicodeEscapeText(lo) + rest;
            && |t| >= 12 && t[0] == BACKSLASH && t[1] == 117
            && t[2..] == Hex16(hi) + (UnicodeEscapeText(lo) + rest) && t[12..] == rest
  {
  }

  lemma UnescapeCode(t: bytes, cp: nat, used: nat)
    requires |t| >= 2 && t[0] == BACKSLASH && t[1] == 117 && UnicodeCodePoint(t[2..]) == CodePoint(cp, used)
    ensures UnescapeText(t) == Prepend(CodePointToUtf8(cp), UnescapeText(t[2 + used..]))
  {
    hide UnicodeCodePoint, CodePointToUtf8;
  }

  lemma {:induction false} UnescapeEscapedHead(s: bytes, rest: bytes)
    requires |s| > 0
    ensures UnescapeText(EscapeHead(s).text + rest) == Prepend(RereadHead(s), UnescapeText(rest))
  {
    hide UnescapeText, UnicodeEscapeText;
    var text := EscapeHead(s).text;
    var cp := Utf8ToCodePoint(s).codePoint;
    if ShortEscape(s[0]) != 0 {
      assert SimpleEscape(ShortEscape(s[0])) == s[0];
      UnescapeSimple(ShortEscape(s[0]), rest);
    } else if cp < 0x80 {
      PlainAsciiIsItself(s);
      assert CodePointToUtf8(cp) == [cp];
      if 0x20 <= cp {
        UnescapePlain(cp, rest);
      } else {
        UnescapeUnit(cp, rest);
      }
    } else if cp < 0x10000 {
      UnescapeUnit(cp, rest);
    } else {
      UnescapeEscapedAstral(cp, rest);
    }
  }

  lemma {:induction false} UnescapeSimple(letter: byte, rest: bytes)
    requires SimpleEscape(letter) != 0
    ensures UnescapeText([BACKSLASH, letter] + rest) == Prepend([SimpleEscape(letter)], UnescapeText(rest))
  {
    assert ([BACKSLASH, letter] + rest)[2..] == rest;
  }

  lemma {:induction false} UnescapePlain(b: byte, rest: bytes)
    requires b != QUOTE && b != BACKSLASH
    ensures UnescapeText([b] + rest) == Prepend([b], UnescapeText(rest))
  {
    assert ([b] + rest)[1..] == rest;
  }

  /** Above U+FFFF: a surrogate pair up to U+10FFFF, two lone halves beyond. */
  lemma {:induction false} UnescapeEscapedAstral(cp: nat, rest: bytes)
    requires 0x10000 <= cp <= 0x1FFFFF
    ensures var hi, lo := (cp - 0x10000) / 1024 + 0xD800, (cp - 0x10000) % 1024 + 0xDC00;
            UnescapeText(UnicodeEscapeText(hi) + UnicodeEscapeText(lo) + rest)
            == Prepend(if cp <= 0x10FFFF then CodePointToUtf8(cp) else CodePointToUtf8(hi) + CodePointToUtf8(lo),
                       UnescapeText(rest))
  {
    hide UnescapeText, UnicodeEscapeText, CodePointToUtf8;
    var hi, lo := (cp - 0x10000) / 1024 + 0xD800, (cp - 0x10000) % 1024 + 0xDC00;
    if cp <= 0x10FFFF {
      UnescapePair(hi, lo, rest);
      assert 0x10000 + (hi - 0xD800) * 1024 + (lo - 0xDC00) == cp;
    } else {
      UnescapeTwoUnits(hi, lo, rest);
    }
  }

  lemma {:induction false} UnescapeTwoUnits(x: nat, y: nat, rest: bytes)
    requires x <= 0xFFFF && !(0xD800 <= x <= 0xDBFF)
    requires y <= 0xFFFF && !(0xD800 <= y <= 0xDBFF)
    ensures UnescapeText(UnicodeEscapeText(x) + UnicodeEscapeText(y) + rest)
         == Prepend(CodePointToUtf8(x) + CodePointToUtf8(y), UnescapeText(rest))
  {
    calc {
      UnescapeText(UnicodeEscapeText(x) + UnicodeEscapeText(y) + rest);
      { assert UnicodeEscapeText(x) + UnicodeEscapeText(y) + rest
        == UnicodeEscapeText(x) + (UnicodeEscapeText(y) + rest); }
      UnescapeText(UnicodeEscapeText(x) + (UnicodeEscapeText(y) + rest));
      { UnescapeUnit(x, UnicodeEscapeText(y) + rest); }
      Prepend(CodePointToUtf8(x), UnescapeText(UnicodeEscapeText(y) + rest));
      { UnescapeUnit(y, rest); }
      Prepend(CodePointToUtf8(x), Prepend(CodePointToUtf8(y), UnescapeText(rest)));
      { PrependPrepend(CodePointToUtf8(x), CodePointToUtf8(y), UnescapeText(rest)); }
      Prepend(CodePointToUtf8(x) + CodePointToUtf8(y), UnescapeText(rest));
    }
  }

  lemma PlainAsciiIsItself(s: bytes)
    requires |s| > 0 && Utf8ToCodePoint(s).codePoint < 0x80
    ensures s[0] == Utf8ToCodePoint(s).codePoint && Utf8ToCodePoint(s).used == 1
  {
  }

  /** Unescaping what the printer wrote always succeeds, with the text `Reread`. */
  lemma {:induction false} UnescapeEscaped(s: bytes)
    ensures UnescapeText(EscapeText(s)) == Unescaped(Reread(s))
    decreases |s|
  {
    if s != [] {
      var rest := s[EscapeHead(s).used..];
      UnescapeEscapedHead(s, EscapeText(rest));
      UnescapeEscaped(rest);
    }
  }

  // The bytes of a code point assembled from its bit groups.
  lemma TwoBytes(a: nat, b: nat)
    requires a < 32 && b < 64 && a * 64 + b >= 0x80
    ensures CodePointToUtf8(a * 64 + b) == [0xC0 + a, 0x80 + b]
  {
    var cp := a * 64 + b;
    assert cp / 64 == a && cp % 64 == b;
  }

  lemma ThreeBytes(a: nat, b: nat, c: nat)
    requires a < 16 && b < 64 && c < 64 && a * 4096 + b * 64 + c >= 0x800
    ensures CodePointToUtf8(a * 4096 + b * 64 + c) == [0xE0 + a, 0x80 + b, 0x80 + c]
  {
    var cp := a * 4096 + b * 64 + c;
    assert cp / 4096 == a && cp / 64 == a * 64 + b && cp % 64 == c;
    assert (a * 64 + b) % 64 == b;
  }

  lemma FourBytes(a: nat, b: nat, c: nat, d: nat)
    requires a < 8 && b < 64 && c < 64 && d < 64
    requires 0x10000 <= a * 262144 + b * 4096 + c * 64 + d <= 0x10FFFF
    ensures CodePointToUtf8(a * 262144 + b * 4096 + c * 64 + d) == [0xF0 + a, 0x80 + b, 0x80 + c, 0x80 + d]
  {
    var cp := a * 262144 + b * 4096 + c * 64 + d;
    assert cp / 262144 == a && cp / 4096 == a * 64 + b && cp / 64 == a * 4096 + b * 64 + c && cp % 64 == d;
    assert (a * 64 + b) % 64 == b && (a * 4096 + b * 64 + c) % 64 == c;
  }

  lemma TailByte(b: byte)
    ensures 0x80 + LowSix(b) == b <==> IsTail(b)
  {
  }

  predicate HeadExact(s: bytes)
    requires |s| > 0
  {
    && (CharacterLength(s) > 0 ==>
          CharacterLength(s) == EscapeHead(s).used && RereadHead(s) == s[..CharacterLength(s)])
    && (CharacterLength(s) == 0 ==> !(RereadHead(s) <= s))
  }

  lemma TwoByteReread(s: bytes, cp: nat)
    requires |s| >= 2 && 0x80 <= s[0] < 0xE0 && cp == (s[0] % 32) * 64 + LowSix(s[1])
    ensures EscapeHead(s).used == 2
    ensures RereadHead(s) == CodePointToUtf8(if cp < 0x80 then REPLACEMENT_CHARACTER else cp)
  {
    hide CodePointToUtf8, UnicodeEscapeText;
  }

  lemma TwoByteLength(s: bytes)
    requires |s| >= 2 && 0x80 <= s[0] < 0xE0
    ensures CharacterLength(s)
         == if (s[0] % 32) * 64 + LowSix(s[1]) >= 0x80 && s[0] >= 0xC0 && IsTail(s[1]) then 2 else 0
    ensures s[0] >= 0xC0 <==> s[0] == 0xC0 + s[0] % 32
  {
  }

  lemma TwoByteExact(s: bytes)
    requires |s| >= 2 && 0x80 <= s[0] < 0xE0
    ensures HeadExact(s)
  {
    var a: nat, b := s[0] % 32, LowSix(s[1]);
    TailByte(s[1]);
    TwoByteReread(s, a * 64 + b);
    TwoByteLength(s);
    hide LowSix, EscapeHead, RereadHead, CharacterLength, IsTail, CodePointToUtf8;
    if a * 64 + b >= 0x80 {
      TwoBytes(a, b);
    } else {
      ReplacementText();
    }
  }

  lemma ReplacementText()
    ensures CodePointToUtf8(REPLACEMENT_CHARACTER) != [] && CodePointToUtf8(REPLACEMENT_CHARACTER)[0] == 0xEF
  {
  }

  lemma ThreeByteReread(s: bytes, cp: nat)
    requires |s| >= 3 && 0xE0 <= s[0] < 0xF0
    requires cp == (s[0] % 16) * 4096 + LowSix(s[1]) * 64 + LowSix(s[2])
    ensures EscapeHead(s).used == 3
    ensures RereadHead(s) == CodePointToUtf8(if 0xD800 <= cp <= 0xDFFF || cp < 0x800 then REPLACEMENT_CHARACTER else cp)
  {
    hide CodePointToUtf8, UnicodeEscapeText;
  }

  lemma FourByteReread(s: bytes, cp: nat)
    requires |s| >= 4 && 0xF0 <= s[0] < 0xF8
    requires cp == (s[0] % 8) * 262144 + LowSix(s[1]) * 4096 + LowSix(s[2]) * 64 + LowSix(s[3])
    ensures EscapeHead(s).used == 4
    ensures 0x10000 <= cp <= 0x10FFFF ==> RereadHead(s) == CodePointToUtf8(cp)
    ensures !(0x10000 <= cp <= 0x10FFFF) ==> RereadHead(s) != [] && RereadHead(s)[0] < 0xF0
  {
    hide UnicodeEscapeText;
  }

  lemma ThreeByteExact(s: bytes)
    requires |s| >= 3 && 0xE0 <= s[0] < 0xF0
    ensures HeadExact(s)
  {
    var a: nat, b, c := s[0] % 16, LowSix(s[1]), LowSix(s[2]);
    TailByte(s[1]);
    TailByte(s[2]);
    assert s[0] == 0xE0 + a;
    var cp := a * 4096 + b * 64 + c;
    ThreeByteReread(s, cp);
    hide LowSix, EscapeHead, RereadHead;
    if cp >= 0x800 && !(0xD800 <= cp <= 0xDFFF) {
      ThreeBytes(a, b, c);
    } else {
      assert CodePointToUtf8(REPLACEMENT_CHARACTER)[0] == 0xEF && s[0] != 0xEF;
    }
  }

  lemma FourByteExact(s: bytes)
    requires |s| >= 4 && 0xF0 <= s[0] < 0xF8
    ensures HeadExact(s)
  {
    var a: nat, b, c, d := s[0] % 8, LowSix(s[1]), LowSix(s[2]), LowSix(s[3]);
    TailByte(s[1]);
    TailByte(s[2]);
    TailByte(s[3]);
    assert s[0] == 0xF0 + a;
    var cp := a * 262144 + b * 4096 + c * 64 + d;
    FourByteReread(s, cp);
    hide LowSix, EscapeHead, RereadHead;
    if 0x10000 <= cp <= 0x10FFFF {
      FourBytes(a, b, c, d);
    }
  }

  /** One character survives exactly when it is well formed; otherwise the text
      that comes back differs from `s`, whatever follows it. */
  lemma RereadHeadExact(s: bytes)
    requires |s| > 0
    ensures HeadExact(s)
  {
    var first := s[0];
    if ShortEscape(first) != 0 || first < 0x80 {
      assert s[..1] == [first];
    } else if first < 0xE0 {
      if |s| >= 2 { TwoByteExact(s); }
    } else if first < 0xF0 {
      if |s| >= 3 { ThreeByteExact(s); }
    } else if first < 0xF8 {
      if |s| >= 4 { FourByteExact(s); }
    }
  }

  /** A string comes back unchanged if and only if it is well-formed UTF-8. */
  lemma {:induction false} StringRoundTrip(s: bytes)
    ensures UnescapeText(EscapeText(s)) == Unescaped(s) <==> WellFormedUtf8(s)
  {
    UnescapeEscaped(s);
    RereadExact(s);
  }

  lemma {:induction false} RereadExact(s: bytes)
    ensures Reread(s) == s <==> WellFormedUtf8(s)
    decreases |s|
  {
    if s != [] {
      RereadHeadExact(s);
      var n := CharacterLength(s);
      if n > 0 {
        assert s == s[..n] + s[n..];
        RereadExact(s[n..]);
        if Reread(s) == s {
          assert Reread(s)[n..] == Reread(s[n..]);
        }
      }
    }
  }
}
