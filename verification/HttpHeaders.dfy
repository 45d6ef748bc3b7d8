/**
 What each header line sets in a request, with the names and the numbers written out.
 */
module HttpHeaders {
  import opened Bytes
  import opened HttpParser
  import opened HttpRoundTrip
  import JsonNumber

  /** A line of a name, a space and a value. */
  function Line(name: bytes, value: bytes): bytes {
    name + [32] + value
  }

  lemma LineIsSplit(name: bytes, value: bytes)
    requires 32 !in name
    ensures var line := Line(name, value);
            SpaceAt(line) == |name| < |line| && line[..|name|] == name && line[|name| + 1..] == value
  {
    SpaceBehind(name, value);
  }

  // ---------------------------------------------------------------- the headers

  /** "Content-Length: " and a number. */
  lemma ContentLengthIsRead(value: bytes, req: HttpRequest)
    ensures HeaderOf(Line([67, 111, 110, 116, 101, 110, 116, 45, 76, 101, 110, 103, 116, 104, 58], value), req)
         == req.(dataSize := ToUint32(Atoi(value)))
  {
    LineIsSplit(CONTENT_LENGTH, value);
  }

  /** "Pragma: " and a number. */
  lemma PragmaLineIsRead(value: bytes, req: HttpRequest)
    ensures HeaderOf(Line([80, 114, 97, 103, 109, 97, 58], value), req) == req.(pragma := ToUint32(Atoi(value)))
  {
    LineIsSplit(PRAGMA, value);
  }

  /** "Origin: " and any text, which is taken as it is. */
  lemma OriginIsRead(value: bytes, req: HttpRequest)
    ensures HeaderOf(Line([79, 114, 105, 103, 105, 110, 58], value), req) == req.(origin := value)
  {
    LineIsSplit(ORIGIN, value);
  }

  /** "Connection: " keeps the connection just if "keep-alive" follows. */
  lemma ConnectionIsRead(value: bytes, req: HttpRequest)
    ensures HeaderOf(Line([67, 111, 110, 110, 101, 99, 116, 105, 111, 110, 58], value), req)
         == req.(keepAlive := value == [107, 101, 101, 112, 45, 97, 108, 105, 118, 101])
  {
    LineIsSplit(CONNECTION, value);
  }

  /** A line of another name, in any other case of letters say, or without a space says
      nothing. */
  lemma OthersAreIgnored(line: bytes, name: bytes, value: bytes, req: HttpRequest)
    requires 32 !in line || (32 !in name && line == Line(name, value) && name !in {
      [67, 111, 110, 116, 101, 110, 116, 45, 76, 101, 110, 103, 116, 104, 58], [80, 114, 97, 103, 109, 97, 58],
      [79, 114, 105, 103, 105, 110, 58], [67, 111, 110, 110, 101, 99, 116, 105, 111, 110, 58]})
    ensures HeaderOf(line, req) == req
  {
    if 32 in line {
      LineIsSplit(name, value);
    }
  }

  // ---------------------------------------------------------------- the numbers

  predicate Blank(b: byte) {
    b == 32 || 9 <= b <= 13
  }

  /** White space, maybe a sign, digits and what is no digit. */
  function Written(blanks: bytes, sign: bytes, n: nat, rest: bytes): bytes {
    blanks + (sign + (JsonNumber.Digits(n) + rest))
  }

  predicate EndsDigits(rest: bytes) {
    rest == [] || !IsDigit(rest[0])
  }

  lemma {:induction false} DigitsStop(t: bytes, rest: bytes, value: int)
    requires EndsDigits(rest) && forall k :: 0 <= k < |t| ==> IsDigit(t[k])
    ensures DigitsValue(t + rest, value) == DigitsValue(t, value)
  {
    if t == [] {
      assert [] + rest == rest;
    } else {
      assert (t + rest)[1..] == t[1..] + rest;
      DigitsStop(t[1..], rest, 10 * value + (t[0] - ZERO));
    }
  }

  lemma {:induction false} BlanksAreSkipped(blanks: bytes, t: bytes)
    requires forall k :: 0 <= k < |blanks| ==> Blank(blanks[k])
    ensures NumberOf(blanks + t) == NumberOf(t)
  {
    if blanks == [] {
      assert [] + t == t;
    } else {
      assert (blanks + t)[1..] == blanks[1..] + t;
      BlanksAreSkipped(blanks[1..], t);
    }
  }

  /** A number is read behind white space and a sign, up to what is no digit, and cut off
      at the ends of `int`. */
  lemma NumberIsRead(blanks: bytes, sign: bytes, n: nat, rest: bytes)
    requires (forall k :: 0 <= k < |blanks| ==> Blank(blanks[k])) && sign in {[], [43], [45]} && EndsDigits(rest)
    ensures var i := if sign == [45] then 0 - n else n;
            Atoi(Written(blanks, sign, n, rest))
            == if i > 2147483647 then 2147483647 else if i < -2147483648 then -2147483648 else i
  {
    var d := JsonNumber.Digits(n);
    var t := d + rest;
    BlanksAreSkipped(blanks, sign + t);
    JsonNumber.DigitsAreDigits(n);
    DigitsAreRead(n);
    DigitsStop(d, rest, 0);
    assert t[0] == d[0] && IsDigit(t[0]);
    if sign == [] {
      assert [] + t == t;
    } else {
      assert (sign + t)[1..] == t;
    }
  }

  /** A text without a number is read as 0. */
  lemma NoNumberIsZero(blanks: bytes, rest: bytes)
    requires forall k :: 0 <= k < |blanks| ==> Blank(blanks[k])
    requires rest == [] || (!IsDigit(rest[0]) && rest[0] != 43 && rest[0] != 45 && !Blank(rest[0]))
    ensures Atoi(blanks + rest) == 0
  {
    BlanksAreSkipped(blanks, rest);
  }

  /** A negative number becomes the number 2^32 above it. */
  lemma NegativesWrap(i: int)
    requires -2147483648 <= i <= 2147483647
    ensures ToUint32(i) == i % 4294967296
  {
  }
}
