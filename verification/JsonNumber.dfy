/**
 Integers of the JSON printer and reader: decimal text written backwards into a
 fixed buffer, and overflow-guarded decoding into 64 bits.
 */
module JsonNumber {
  import opened Bytes
  import JsonText

  const MAX_INT64: int := 0x7FFF_FFFF_FFFF_FFFF
  const MIN_INT64: int := -0x8000_0000_0000_0000
  const MAX_UINT64: int := 0xFFFF_FFFF_FFFF_FFFF
  const MAX_INT32: int := 0x7FFF_FFFF

  // ---------------------------------------------------------------- printing

  /** The shortest decimal text of `n`. */
  function Digits(n: nat): (t: bytes)
    ensures |t| >= 1
  {
    if n < 10 then [ZERO + n] else Digits(n / 10) + [ZERO + n % 10]
  }

  function IntText(i: int): bytes {
    if i < 0 then [MINUS] + Digits(-i) else Digits(i)
  }

  function Pow10(k: nat): nat {
    if k == 0 then 1 else 10 * Pow10(k - 1)
  }

  lemma {:induction false} DigitsLength(n: nat, k: nat)
    requires k >= 1 && n < Pow10(k)
    ensures |Digits(n)| <= k
  {
    if n >= 10 {
      DigitsLength(n / 10, k - 1);
    }
  }

  lemma Pow10Of20()
    ensures Pow10(20) == 100_000_000_000_000_000_000
  {
    assert Pow10(5) == 100_000;
    assert Pow10(10) == 10_000_000_000;
    assert Pow10(15) == 1_000_000_000_000_000;
  }

  /** A 64-bit number has at most 20 digits. */
  lemma {:induction false} DigitsFit(n: nat)
    requires n <= MAX_UINT64
    ensures |Digits(n)| <= 20
  {
    Pow10Of20();
    DigitsLength(n, 20);
  }

  lemma DigitsAreDigits(n: nat)
    ensures forall k :: 0 <= k < |Digits(n)| ==> IsDigit(Digits(n)[k])
  {
  }

  /** One turn of the printing loop, from the least significant digit up. */
  lemma {:induction false} DigitsStep(left: nat, written: bytes)
    ensures left < 10 ==> Digits(left) + written == [left % 10 + ZERO] + written
    ensures left >= 10 ==> Digits(left) + written == Digits(left / 10) + ([left % 10 + ZERO] + written)
  {
    if left >= 10 {
      assert Digits(left / 10) + [left % 10 + ZERO] + written == Digits(left / 10) + ([left % 10 + ZERO] + written);
    }
  }

  /** Writes the digits of `value` and a terminator so that they end at `current`;
      returns where they start. */
  method UintToString(value: nat, buffer: array<byte>, current: nat) returns (start: nat)
    requires value <= MAX_UINT64
    requires |Digits(value)| + 1 <= current <= buffer.Length
    modifies buffer
    ensures start == current - 1 - |Digits(value)|
    ensures buffer[start..current] == Digits(value) + [0]
    ensures buffer[..start] == old(buffer[..start]) && buffer[current..] == old(buffer[current..])
  {
    hide Digits;
    start := current - 1;
    buffer[start] := 0;
    var left: int := value;
    ghost var written: bytes := [];
    while true
      invariant left >= 0
      invariant start == current - 1 - |written|
      invariant Digits(value) == Digits(left) + written
      invariant start < buffer.Length && buffer[start..current] == written + [0]
      invariant buffer[..start] == old(buffer[..start]) && buffer[current..] == old(buffer[current..])
      decreases left
    {
      DigitsStep(left, written);
      start := start - 1;
      buffer[start] := left % 10 + ZERO;
      written := [left % 10 + ZERO] + written;
      left := left / 10;
      if left == 0 {
        break;
      }
    }
  }

  lemma CStringBeforeNul(t: bytes)
    requires forall k :: 0 <= k < |t| ==> t[k] != 0
    ensures JsonText.CString(t + [0]) == t
  {
    if t == [] {
      assert (t + [0])[0] == 0;
    } else {
      assert (t + [0])[1..] == t[1..] + [0];
      CStringBeforeNul(t[1..]);
    }
  }

  lemma NoNulInIntText(i: int)
    ensures forall k :: 0 <= k < |IntText(i)| ==> IntText(i)[k] != 0
  {
    DigitsAreDigits(if i < 0 then -i else i);
  }

  /** The sign goes in front of what was written. */
  method PutMinus(buffer: array<byte>, current: nat, ghost written: bytes) returns (start: nat)
    requires 0 < current <= buffer.Length && buffer[current..] == written
    modifies buffer
    ensures start == current - 1 && buffer[start..] == [MINUS] + written
  {
    start := current - 1;
    buffer[start] := MINUS;
    assert buffer[start + 1..] == written;
  }

  /** Writes sign and digits so that the text ends at the end of the buffer. */
  method SignedToBuffer(value: int, buffer: array<byte>) returns (current: nat)
    requires MIN_INT64 <= value <= MAX_INT64 && buffer.Length == 25
    modifies buffer
    ensures current < 25 && buffer[current..] == IntText(value) + [0]
  {
    hide Digits;
    current := buffer.Length;
    DigitsFit(if value < 0 then -value else value);
    if value == MIN_INT64 {
      current := UintToString(MAX_INT64 + 1, buffer, current);
      current := PutMinus(buffer, current, Digits(-value) + [0]);
    } else if value < 0 {
      current := UintToString(-value, buffer, current);
      current := PutMinus(buffer, current, Digits(-value) + [0]);
    } else {
      current := UintToString(value, buffer, current);
    }
  }

  /** The text of a signed value.  The 25-byte buffer is never underrun: that is
      what the index checks of `buffer[current]` prove. */
  method IntToString(value: int) returns (text: bytes)
    requires MIN_INT64 <= value <= MAX_INT64
    ensures text == IntText(value)
  {
    var buffer := new byte[25];
    var current := SignedToBuffer(value, buffer);
    NoNulInIntText(value);
    CStringBeforeNul(IntText(value));
    text := JsonText.CString(buffer[current..]);
  }

  method UIntToString(value: nat) returns (text: bytes)
    requires value <= MAX_UINT64
    ensures text == Digits(value)
  {
    hide Digits;
    var buffer := new byte[25];
    DigitsFit(value);
    var current := UintToString(value, buffer, buffer.Length);
    NoNulInIntText(value);
    assert IntText(value) == Digits(value);
    CStringBeforeNul(Digits(value));
    assert buffer[current..] == Digits(value) + [0];
    text := JsonText.CString(buffer[current..]);
  }

  // ---------------------------------------------------------------- decoding

  /** What a number token decodes to: a signed or an unsigned 64-bit integer, or
      whatever the double path makes of it. */
  datatype Numeral = Signed(i: int) | Unsigned(u: nat) | ByDouble {
    predicate IsInteger() { !ByDouble? }
    function Amount(): int
      requires IsInteger()
    {
      if Signed? then i else u
    }
  }

  predicate AllDigits(t: bytes) {
    forall k :: 0 <= k < |t| ==> IsDigit(t[k])
  }

  /** The number a text of digits denotes; 0 for no digits. */
  function Magnitude(t: bytes): nat
    requires AllDigits(t)
  {
    if t == [] then 0 else Magnitude(t[..|t| - 1]) * 10 + (t[|t| - 1] - ZERO)
  }

  predicate Negative(t: bytes) {
    t != [] && t[0] == MINUS
  }

  function Unsign(t: bytes): bytes {
    if Negative(t) then t[1..] else t
  }

  function Limit(negative: bool): nat {
    if negative then -MIN_INT64 else MAX_UINT64
  }

  predicate IsInteger(t: bytes) {
    AllDigits(Unsign(t)) && Magnitude(Unsign(t)) <= Limit(Negative(t))
  }

  function Amount(t: bytes): int
    requires IsInteger(t)
  {
    var m: int := Magnitude(Unsign(t));
    if Negative(t) then -m else m
  }

  /** The integer a token denotes, signed up to `signedLimit`. */
  function NumeralOf(t: bytes, signedLimit: int): Numeral {
    if !IsInteger(t) then ByDouble
    else if Negative(t) || Amount(t) <= signedLimit then Signed(Amount(t))
    else Unsigned(Amount(t))
  }

  /** Conversion of an unsigned 64-bit number to a signed one, and negation, both
      wrapping around. */
  function ToInt64(u: int): int {
    if u <= MAX_INT64 then u else u - 0x1_0000_0000_0000_0000
  }

  function NegateInt64(i: int): int {
    if i == MIN_INT64 then i else -i
  }

  /** Each digit counts by its place: the last for itself, the one before it tenfold. */
  lemma {:induction false} PlaceValues(t: bytes, k: nat)
    requires AllDigits(t) && k < |t|
    ensures AllDigits(t[..k]) && AllDigits(t[k + 1..])
    ensures Magnitude(t) == Magnitude(t[..k]) * Pow10(|t| - k) + (t[k] - 48) * Pow10(|t| - k - 1)
        + Magnitude(t[k + 1..])
    ensures Magnitude(t[k + 1..]) < Pow10(|t| - k - 1)
    decreases |t|
  {
    var front, n := t[..|t| - 1], |t| - k - 1;
    if n == 0 {
      assert t[..k] == front && t[k + 1..] == [];
      assert Pow10(1) == 10 * Pow10(0);
    } else {
      PlaceValues(front, k);
      assert front[..k] == t[..k] && front[k + 1..] == t[k + 1..][..n - 1];
      TenTimes(Magnitude(t[..k]), t[k] - 48, Magnitude(front[k + 1..]), n);
    }
  }

  lemma TenTimes(a: nat, b: nat, c: nat, n: nat)
    requires n > 0
    ensures (a * Pow10(n) + b * Pow10(n - 1) + c) * 10 == a * Pow10(n + 1) + b * Pow10(n) + c * 10
  {
  }

  /** The text of a number has no leading zeros. */
  lemma {:induction false} DigitsAreShortest(n: nat)
    ensures Digits(n)[0] == 48 <==> n == 0
    ensures |Digits(n)| > 1 ==> Digits(n)[0] != 48
  {
    if n >= 10 {
      DigitsAreShortest(n / 10);
    }
  }

  lemma MagnitudeGrows(t: bytes, k: nat)
    requires AllDigits(t) && k <= |t|
    ensures Magnitude(t[..k]) <= Magnitude(t)
    ensures k < |t| ==> 10 * Magnitude(t[..k]) + (t[k] - ZERO) <= Magnitude(t)
    ensures k + 1 < |t| ==> 100 * Magnitude(t[..k]) <= Magnitude(t)
    decreases |t|
  {
    if k == |t| {
      assert t[..k] == t;
    } else {
      var s := t[..|t| - 1];
      assert AllDigits(s);
      assert s[..k] == t[..k];
      MagnitudeGrows(s, k);
    }
  }

  lemma MagnitudeStep(t: bytes, k: nat)
    requires k < |t| && AllDigits(t[..k + 1])
    ensures AllDigits(t[..k])
    ensures Magnitude(t[..k + 1]) == Magnitude(t[..k]) * 10 + (t[k] - ZERO)
  {
    assert t[..k + 1][..k] == t[..k];
    forall j | 0 <= j < k ensures IsDigit(t[..k][j]) { assert t[..k + 1][j] == t[..k][j]; }
  }

  /** Once the guard of the digit loop trips, the number is out of range. */
  lemma GuardIsExact(t: bytes, k: nat, limit: nat)
    requires AllDigits(t) && k < |t| && (limit == MAX_UINT64 || limit == -MIN_INT64)
    requires Magnitude(t[..k]) >= limit / 10
    requires Magnitude(t[..k]) > limit / 10 || k + 1 != |t| || t[k] - ZERO > limit % 10
    ensures Magnitude(t) > limit
  {
    MagnitudeGrows(t, k);
  }

  /** The digit loop with its overflow guard.  No step leaves 64 bits, and the loop
      gives up exactly on texts that are no integer in range. */
  method DecodeDigits(doc: bytes, from: nat, end: nat, limit: nat) returns (ok: bool, value: nat)
    requires from <= end <= |doc| && (limit == MAX_UINT64 || limit == -MIN_INT64)
    ensures ok <==> AllDigits(doc[from..end]) && Magnitude(doc[from..end]) <= limit
    ensures ok ==> value == Magnitude(doc[from..end])
  {
    ghost var t := doc[from..end];
    var threshold, lastDigit := limit / 10, limit % 10;
    var current := from;
    value := 0;
    while current < end
      invariant from <= current <= end
      invariant AllDigits(t[..current - from]) && value == Magnitude(t[..current - from]) <= limit
    {
      var c := doc[current];
      ghost var k := current - from;
      assert c == t[k];
      current := current + 1;
      if c < ZERO || c > NINE {
        return false, value;
      }
      var digit: nat := c - ZERO;
      assert t[..k + 1] == t[..k] + [c];
      if value >= threshold {
        if value > threshold || current != end || digit > lastDigit {
          if AllDigits(t) {
            GuardIsExact(t, k, limit);
          }
          return false, value;
        }
      }
      MagnitudeStep(t, k);
      value := value * 10 + digit;
      assert value <= MAX_UINT64;
    }
    assert t[..end - from] == t;
    ok := true;
  }

  /** `OurReader::decodeNumber`: integers up to the largest 64-bit signed value are
      signed. */
  method DecodeNumber(doc: bytes, start: nat, end: nat) returns (decoded: Numeral)
    requires start < end <= |doc|
    ensures decoded == NumeralOf(doc[start..end], MAX_INT64)
  {
    var isNegative := doc[start] == MINUS;
    var current := if isNegative then start + 1 else start;
    assert doc[start..end][0] == doc[start];
    assert Unsign(doc[start..end]) == doc[current..end];
    var ok, value := DecodeDigits(doc, current, end, Limit(isNegative));
    if !ok {
      return ByDouble;
    }
    if isNegative {
      decoded := Signed(NegateInt64(ToInt64(value)));
    } else if value <= MAX_INT64 {
      decoded := Signed(value);
    } else {
      decoded := Unsigned(value);
    }
  }

  /** `Reader::decodeNumber`, the older reader: signed only up to 32 bits. */
  method DecodeNumberLegacy(doc: bytes, start: nat, end: nat) returns (decoded: Numeral)
    requires start < end <= |doc|
    ensures decoded == NumeralOf(doc[start..end], MAX_INT32)
  {
    var isNegative := doc[start] == MINUS;
    var current := if isNegative then start + 1 else start;
    assert doc[start..end][0] == doc[start];
    assert Unsign(doc[start..end]) == doc[current..end];
    var maxIntegerValue := if isNegative then MAX_INT64 + 1 else MAX_UINT64;
    var ok, value := DecodeDigits(doc, current, end, maxIntegerValue);
    if !ok {
      return ByDouble;
    }
    if isNegative && value == maxIntegerValue {
      decoded := Signed(MIN_INT64);
    } else if isNegative {
      decoded := Signed(NegateInt64(ToInt64(value)));
    } else if value <= MAX_INT32 {
      decoded := Signed(value);
    } else {
      decoded := Unsigned(value);
    }
  }

  /** Both readers decode the same tokens, to the same amounts. */
  lemma ReadersAgree(t: bytes)
    ensures var ours, older := NumeralOf(t, MAX_INT64), NumeralOf(t, MAX_INT32);
            && (ours.IsInteger() <==> older.IsInteger())
            && (ours.IsInteger() ==> ours.Amount() == older.Amount())
  {
  }

  lemma {:induction false} MagnitudeOfDigits(n: nat)
    ensures AllDigits(Digits(n)) && Magnitude(Digits(n)) == n
  {
    DigitsAreDigits(n);
    if n >= 10 {
      MagnitudeOfDigits(n / 10);
      assert Digits(n)[..|Digits(n)| - 1] == Digits(n / 10);
    }
  }

  /** Decoding what was printed gives the number back, exactly in the 64-bit range. */
  lemma {:induction false} IntegerRoundTrip(n: int)
    ensures IsInteger(IntText(n)) <==> MIN_INT64 <= n <= MAX_UINT64
    ensures MIN_INT64 <= n <= MAX_UINT64 ==>
              NumeralOf(IntText(n), MAX_INT64) == if n <= MAX_INT64 then Signed(n) else Unsigned(n)
  {
    var m := if n < 0 then -n else n;
    MagnitudeOfDigits(m);
    assert Unsign(IntText(n)) == Digits(m) by {
      assert IsDigit(Digits(m)[0]);
    }
  }

  /** The empty magnitude is accepted: a lone minus sign decodes to zero. */
  lemma LoneMinusIsZero()
    ensures NumeralOf([MINUS], MAX_INT64) == Signed(0)
  {
    assert Unsign([MINUS]) == [];
  }
}
