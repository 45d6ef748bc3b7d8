/**
 The request parser: lines end in CRLF, the first one holds the method, the URL and
 the version, and fields are cut out by splitting at single characters.
 */
module HttpParser {
  import opened Optional
  import opened Bytes

  const CRLF: bytes := [CR, LF]
  const QUESTION: byte := 63
  const AMPERSAND: byte := 38
  const EQUALS: byte := 61
  const PLUS: byte := 43
  /** "Content-Length:", "Pragma:", "Origin:", "Connection:" and "keep-alive". */
  const CONTENT_LENGTH: bytes := [67, 111, 110, 116, 101, 110, 116, 45, 76, 101, 110, 103, 116, 104, 58]
  const PRAGMA: bytes := [80, 114, 97, 103, 109, 97, 58]
  const ORIGIN: bytes := [79, 114, 105, 103, 105, 110, 58]
  const CONNECTION: bytes := [67, 111, 110, 110, 101, 99, 116, 105, 111, 110, 58]
  const KEEP_ALIVE: bytes := [107, 101, 101, 112, 45, 97, 108, 105, 118, 101]

  datatype Param = Param(key: bytes, value: bytes)

  datatype HttpRequest = HttpRequest(
    kind: bytes, cmd: bytes, params: seq<Param>, version: bytes,
    origin: bytes, keepAlive: bool, data: Option<nat>, dataSize: nat, pragma: nat)

  const BLANK := HttpRequest([], [], [], [], [], false, None, 0, 0)

  // ---------------------------------------------------------------- splitting

  datatype Desc = Desc(start: nat, length: nat)

  /** The non-empty runs between delimiters; `s` is where the current run began. */
  function RunsFrom(str: bytes, s: nat, i: nat, end: nat, ptrn: bytes): (r: seq<Desc>)
    requires s <= i <= end <= |str|
    ensures forall k :: 0 <= k < |r| ==> r[k].length > 0 && s <= r[k].start && r[k].start + r[k].length <= end
    decreases end - i
  {
    var run := if i > s then [Desc(s, i - s)] else [];
    if i == end then run
    else if str[i] in ptrn then run + RunsFrom(str, i + 1, i + 1, end, ptrn)
    else RunsFrom(str, s, i + 1, end, ptrn)
  }

  function Runs(str: bytes, start: nat, end: nat, ptrn: bytes): (r: seq<Desc>)
    requires start <= end <= |str|
    ensures forall k :: 0 <= k < |r| ==> r[k].length > 0 && start <= r[k].start && r[k].start + r[k].length <= end
  {
    RunsFrom(str, start, start, end, ptrn)
  }

  function Text(str: bytes, d: Desc): bytes {
    if d.start + d.length <= |str| then str[d.start..d.start + d.length] else []
  }

  function Texts(str: bytes, ds: seq<Desc>): (r: seq<bytes>)
    ensures |r| == |ds| && forall k :: 0 <= k < |ds| ==> r[k] == Text(str, ds[k])
  {
    if ds == [] then [] else [Text(str, ds[0])] + Texts(str, ds[1..])
  }

  method SplitString(str: bytes, start: nat, end: nat, ptrn: bytes) returns (list: seq<Desc>)
    requires start <= end <= |str|
    ensures list == Runs(str, start, end, ptrn)
  {
    list := [];
    var i := start;
    var s := i;
    while i < end
      invariant start <= s <= i <= end
      invariant list + RunsFrom(str, s, i, end, ptrn) == Runs(str, start, end, ptrn)
    {
      if str[i] in ptrn {
        if i - s > 0 {
          list := list + [Desc(s, i - s)];
        }
        s := i + 1;
      }
      i := i + 1;
    }
    if i - s > 0 {
      list := list + [Desc(s, i - s)];
    }
  }

  // ---------------------------------------------------------------- the URL

  /** `strlen`: up to the first zero byte. */
  function StrLen(t: bytes): (n: nat)
    ensures n <= |t|
  {
    if t == [] || t[0] == 0 then 0 else 1 + StrLen(t[1..])
  }

  function ParamOf(buff: bytes, d: Desc): seq<Param>
    requires d.start + d.length <= |buff|
  {
    var parts := Runs(buff, d.start, d.start + d.length, [EQUALS]);
    if |parts| < 2 then [] else [Param(Text(buff, parts[0]), Text(buff, parts[1]))]
  }

  function ParamsOf(buff: bytes, ds: seq<Desc>): seq<Param>
    requires forall k :: 0 <= k < |ds| ==> ds[k].start + ds[k].length <= |buff|
  {
    if ds == [] then [] else ParamOf(buff, ds[0]) + ParamsOf(buff, ds[1..])
  }

  /** What the URL adds to a request; `None` when `at(0)` throws, on a last segment of
      question marks alone. */
  function UrlOf(buff: bytes, req: HttpRequest): Option<HttpRequest> {
    var segments := Runs(buff, 0, StrLen(buff), [SLASH]);
    if segments == [] then Some(req)
    else
      var last := segments[|segments| - 1];
      var parts := Runs(buff, last.start, last.start + last.length, [QUESTION]);
      if parts == [] then None
      else
        var named := req.(cmd := Text(buff, parts[0]));
        if |parts| == 1 then Some(named)
        else
          var pairs := Runs(buff, parts[1].start, parts[1].start + parts[1].length, [AMPERSAND]);
          Some(named.(params := named.params + ParamsOf(buff, pairs)))
  }

  method ParseUrl(buff: bytes, req0: HttpRequest) returns (r: Option<HttpRequest>)
    ensures r == UrlOf(buff, req0)
  {
    hide RunsFrom, Runs, StrLen, ParamsOf, Text;
    var req := req0;
    var strDesc := SplitString(buff, 0, StrLen(buff), [SLASH]);
    var index := |strDesc| - 1;
    if index < 0 {
      return Some(req);
    }
    strDesc := SplitString(buff, strDesc[index].start, strDesc[index].start + strDesc[index].length, [QUESTION]);
    if strDesc == [] {
      return None;
    }
    req := req.(cmd := Text(buff, strDesc[0]));
    if |strDesc| > 1 {
      strDesc := SplitString(buff, strDesc[1].start, strDesc[1].start + strDesc[1].length, [AMPERSAND]);
      var more := ReadParams(buff, strDesc);
      req := req.(params := req.params + more);
    }
    r := Some(req);
  }

  lemma ParamsStep(buff: bytes, ds: seq<Desc>, i: nat, before: seq<Param>)
    requires forall k :: 0 <= k < |ds| ==> ds[k].start + ds[k].length <= |buff|
    requires i < |ds|
    ensures before + ParamsOf(buff, ds[i..]) == (before + ParamOf(buff, ds[i])) + ParamsOf(buff, ds[i + 1..])
  {
    hide ParamOf;
    assert ds[i..][1..] == ds[i + 1..];
  }

  /** The loop over the pairs. */
  method ReadParams(buff: bytes, strDesc: seq<Desc>) returns (params: seq<Param>)
    requires forall k :: 0 <= k < |strDesc| ==> strDesc[k].start + strDesc[k].length <= |buff|
    ensures params == ParamsOf(buff, strDesc)
  {
    assert ParamsOf(buff, []) == [];
    hide Runs, Text, ParamsOf;
    params := [];
    assert strDesc[0..] == strDesc;
    for i := 0 to |strDesc|
      invariant params + ParamsOf(buff, strDesc[i..]) == ParamsOf(buff, strDesc)
    {
      ParamsStep(buff, strDesc, i, params);
      var strDesc2 := SplitString(buff, strDesc[i].start, strDesc[i].start + strDesc[i].length, [EQUALS]);
      if |strDesc2| < 2 {
        assert params + [] == params;
        continue;
      }
      params := params + [Param(Text(buff, strDesc2[0]), Text(buff, strDesc2[1]))];
    }
    assert strDesc[|strDesc|..] == [];
  }

  // ---------------------------------------------------------------- the lines

  function FirstLineOf(line: bytes, req: HttpRequest): Option<HttpRequest> {
    var fields := Runs(line, 0, |line|, [SPACE]);
    var typed := if |fields| > 0 then req.(kind := Text(line, fields[0])) else req;
    var located := if |fields| > 1 then UrlOf(Text(line, fields[1]), typed) else Some(typed);
    if |fields| > 2 && located.Some? then Some(located.value.(version := Text(line, fields[2]))) else located
  }

  /** The offset of the first space, or the length. */
  function SpaceAt(t: bytes): (k: nat)
    ensures k <= |t| && (k < |t| ==> t[k] == SPACE) && forall i :: 0 <= i < k ==> t[i] != SPACE
  {
    if t == [] || t[0] == SPACE then 0 else 1 + SpaceAt(t[1..])
  }

  function DigitsValue(t: bytes, value: int): int {
    if t == [] || !IsDigit(t[0]) then value else DigitsValue(t[1..], 10 * value + (t[0] - ZERO))
  }

  const INT_MAX: int := 0x7FFF_FFFF
  const INT_MIN: int := -0x8000_0000

  /** The number a text starts with: white space, a sign, digits. */
  function NumberOf(t: bytes): int {
    if t == [] then 0
    else if t[0] == SPACE || 9 <= t[0] <= 13 then NumberOf(t[1..])
    else if t[0] == MINUS then -DigitsValue(t[1..], 0)
    else if t[0] == PLUS then DigitsValue(t[1..], 0)
    else DigitsValue(t, 0)
  }

  /** `atoi`, which stops at the ends of `int`. */
  function Atoi(t: bytes): int {
    var n := NumberOf(t);
    if n > INT_MAX then INT_MAX else if n < INT_MIN then INT_MIN else n
  }

  /** Assignment of an `int` to a `uint32_t`. */
  function ToUint32(i: int): (u: nat)
    requires INT_MIN <= i <= INT_MAX
    ensures u < 0x1_0000_0000
  {
    if i < 0 then i + 0x1_0000_0000 else i
  }

  function HeaderOf(line: bytes, req: HttpRequest): HttpRequest {
    var pos := SpaceAt(line);
    if pos == |line| then req
    else
      var name, value := line[..pos], line[pos + 1..];
      if name == CONTENT_LENGTH then req.(dataSize := ToUint32(Atoi(value)))
      else if name == PRAGMA then req.(pragma := ToUint32(Atoi(value)))
      else if name == ORIGIN then req.(origin := value)
      else if name == CONNECTION then req.(keepAlive := value == KEEP_ALIVE)
      else req
  }

  /** Where the line ends, or the length of the document.  The byte behind the
      document is zero. */
  function LineEnd(doc: bytes, i: nat): (e: nat)
    requires i <= |doc|
    ensures i <= e <= |doc| && (e < |doc| ==> At(doc, e, CRLF))
    ensures forall k :: i <= k < e ==> !At(doc, k, CRLF)
    decreases |doc| - i
  {
    if i == |doc| then i
    else if At(doc, i, CRLF) then i
    else LineEnd(doc, i + 1)
  }

  /** The parser's answer with the request as far as it was filled in, or an exception. */
  datatype Outcome = Parsed(ok: bool, request: HttpRequest) | Threw

  /** The lines from `lineStart` on; `first` tells whether one was read before. */
  function ParseLines(doc: bytes, lineStart: nat, first: bool, req: HttpRequest): Outcome
    requires lineStart <= |doc|
    decreases |doc| - lineStart
  {
    var e := LineEnd(doc, lineStart);
    if e == |doc| then Parsed(false, req)
    else if e == lineStart then Parsed(true, if e + 2 < |doc| then req.(data := Some(e + 2)) else req)
    else
      var line := doc[lineStart..e];
      var read := if first then FirstLineOf(line, req) else Some(HeaderOf(line, req));
      if read.None? then Threw else ParseLines(doc, e + 2, false, read.value)
  }

  function ParseMessage(doc: bytes): Outcome {
    ParseLines(doc, 0, true, BLANK)
  }

  /** The terminating zero stands behind the message. */
  function CharAt(doc: bytes, k: nat): byte {
    if k < |doc| then doc[k] else 0
  }

  lemma BreakAt(doc: bytes, i: nat)
    requires i < |doc|
    ensures CharAt(doc, i) == CR && CharAt(doc, i + 1) == LF <==> At(doc, i, CRLF)
  {
    if i + 1 < |doc| {
      assert doc[i..i + 2] == [doc[i], doc[i + 1]];
    }
  }

  method ParseHttpMessage(buffer: bytes) returns (outcome: Outcome)
    ensures outcome == ParseMessage(buffer)
  {
    hide FirstLineOf, HeaderOf, At;
    var req := BLANK;
    var i, lineStart, lineNo := 0, 0, 0;
    while i < |buffer|
      invariant lineStart <= i <= |buffer|
      invariant LineEnd(buffer, lineStart) == LineEnd(buffer, i)
      invariant ParseLines(buffer, lineStart, lineNo == 0, req) == ParseMessage(buffer)
    {
      BreakAt(buffer, i);
      if CharAt(buffer, i) == CR && CharAt(buffer, i + 1) == LF {
        var lineEnd := i;
        BreakInside(buffer, i);
        if lineEnd - lineStart > 0 {
          var line := buffer[lineStart..lineEnd];
          if lineNo == 0 {
            var read := ParseFirstLine(line, req);
            if read.None? {
              return Threw;
            }
            req := read.value;
          } else {
            req := HeaderOf(line, req);
          }
          lineNo := lineNo + 1;
        } else {
          i := i + 2;
          if i < |buffer| {
            req := req.(data := Some(i));
          }
          return Parsed(true, req);
        }
        lineStart := i + 2;
        i := i + 2;
      } else {
        i := i + 1;
      }
    }
    outcome := Parsed(false, req);
  }

  lemma BreakInside(doc: bytes, i: nat)
    requires At(doc, i, CRLF)
    ensures i + 2 <= |doc|
  {
  }

  method ParseFirstLine(line: bytes, req0: HttpRequest) returns (r: Option<HttpRequest>)
    ensures r == FirstLineOf(line, req0)
  {
    hide Runs, UrlOf;
    var req := req0;
    var descList := SplitString(line, 0, |line|, [SPACE]);
    if |descList| > 0 {
      req := req.(kind := Text(line, descList[0]));
    }
    if |descList| > 1 {
      var located := ParseUrl(Text(line, descList[1]), req);
      if located.None? {
        return None;
      }
      req := located.value;
    }
    if |descList| > 2 {
      req := req.(version := Text(line, descList[2]));
    }
    r := Some(req);
  }
}
