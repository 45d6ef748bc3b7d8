/**
 Parsing a printed request gives the request back.
 */
module HttpRoundTrip {
  import opened Optional
  import opened Bytes
  import opened HttpParser
  import JsonNumber

  // ---------------------------------------------------------------- printing

  function JoinBy(fields: seq<bytes>, d: byte): bytes {
    if fields == [] then []
    else if |fields| == 1 then fields[0]
    else fields[0] + [d] + JoinBy(fields[1..], d)
  }

  function PairTexts(params: seq<Param>): (r: seq<bytes>)
    ensures |r| == |params|
  {
    if params == [] then [] else [JoinBy([params[0].key, params[0].value], EQUALS)] + PairTexts(params[1..])
  }

  function PrintUrl(cmd: bytes, params: seq<Param>): bytes {
    [SLASH] + JoinBy(if params == [] then [cmd] else [cmd, JoinBy(PairTexts(params), AMPERSAND)], QUESTION)
  }

  function PrintHeaders(headers: seq<bytes>): bytes {
    if headers == [] then [] else headers[0] + CRLF + PrintHeaders(headers[1..])
  }

  datatype Printed = Printed(
    kind: bytes, cmd: bytes, params: seq<Param>, version: bytes, headers: seq<bytes>, body: bytes)

  function FirstLine(m: Printed): bytes {
    JoinBy([m.kind, PrintUrl(m.cmd, m.params), m.version], SPACE)
  }

  function Print(m: Printed): bytes {
    FirstLine(m) + CRLF + PrintHeaders(m.headers) + CRLF + m.body
  }

  /** Not empty and without the given characters. */
  predicate Free(t: bytes, stops: bytes) {
    t != [] && forall c :: c in stops ==> c !in t
  }

  predicate NoBreak(line: bytes) {
    forall k :: 0 <= k < |line| ==> !At(line, k, CRLF)
  }

  const URL_STOPS: bytes := [0, SPACE, SLASH, QUESTION]
  const PAIR_STOPS: bytes := [0, SPACE, SLASH, QUESTION, AMPERSAND, EQUALS]

  predicate ParamsFree(params: seq<Param>) {
    forall k :: 0 <= k < |params| ==> Free(params[k].key, PAIR_STOPS) && Free(params[k].value, PAIR_STOPS)
  }

  predicate Printable(m: Printed) {
    && Free(m.kind, [SPACE]) && Free(m.version, [SPACE])
    && Free(m.cmd, URL_STOPS) && ParamsFree(m.params)
    && NoBreak(FirstLine(m))
    && forall k :: 0 <= k < |m.headers| ==> m.headers[k] != [] && NoBreak(m.headers[k])
  }

  // ---------------------------------------------------------------- splitting undoes joining

  lemma {:induction false} RunWhole(str: bytes, s: nat, i: nat, end: nat, d: byte)
    requires s <= i <= end <= |str| && forall k :: i <= k < end ==> str[k] != d
    ensures RunsFrom(str, s, i, end, [d]) == if end > s then [Desc(s, end - s)] else []
    decreases end - i
  {
    if i < end {
      RunWhole(str, s, i + 1, end, d);
    }
  }

  lemma {:induction false} RunStep(str: bytes, s: nat, i: nat, e: nat, end: nat, d: byte)
    requires s <= i <= e < end <= |str| && str[e] == d && forall k :: i <= k < e ==> str[k] != d
    ensures RunsFrom(str, s, i, end, [d])
        == (if e > s then [Desc(s, e - s)] else []) + RunsFrom(str, e + 1, e + 1, end, [d])
    decreases e - i
  {
    if i < e {
      RunStep(str, s, i + 1, e, end, d);
    }
  }

  lemma PartAt(str: bytes, start: nat, end: nat, t: bytes, rest: bytes)
    requires start <= end <= |str| && str[start..end] == t + rest
    ensures start + |t| <= end && str[start..start + |t|] == t && str[start + |t|..end] == rest
    ensures forall k :: 0 <= k < |t| ==> str[start + k] == t[k]
  {
    var part := str[start..end];
    assert part[..|t|] == t && part[|t|..] == rest;
    assert str[start..start + |t|] == part[..|t|];
    assert str[start + |t|..end] == part[|t|..];
    forall k | 0 <= k < |t| ensures str[start + k] == t[k] {
      assert part[k] == t[k];
    }
  }

  lemma RunsWhole(str: bytes, start: nat, end: nat, d: byte)
    requires start < end <= |str| && forall k :: start <= k < end ==> str[k] != d
    ensures Runs(str, start, end, [d]) == [Desc(start, end - start)]
  {
    hide RunsFrom;
    RunWhole(str, start, start, end, d);
  }

  lemma TextOfOne(str: bytes, start: nat, end: nat)
    requires start <= end <= |str|
    ensures Texts(str, [Desc(start, end - start)]) == [str[start..end]]
  {
    assert Texts(str, []) == [];
    OneText(str, Desc(start, end - start), []);
  }

  lemma OneField(str: bytes, start: nat, end: nat, f: bytes, d: byte)
    requires start <= end <= |str| && str[start..end] == f && Free(f, [d])
    ensures Texts(str, Runs(str, start, end, [d])) == [f]
  {
    hide Runs, Texts, Free;
    NotEmpty(f, d);
    NoneInside(str, start, end, d);
    RunsWhole(str, start, end, d);
    TextOfOne(str, start, end);
  }

  lemma NoneInside(str: bytes, start: nat, end: nat, d: byte)
    requires start <= end <= |str| && Free(str[start..end], [d])
    ensures forall k :: start <= k < end ==> str[k] != d
  {
    NotAmong(str, start, str[start..end], d);
  }

  lemma HeadAndTail(str: bytes, e: nat, end: nat, d: byte, rest: bytes)
    requires e <= end <= |str| && str[e..end] == [d] + rest
    ensures e < end && str[e] == d && str[e + 1..end] == rest
  {
    var part := str[e..end];
    assert part[0] == str[e];
    assert part[1..] == str[e + 1..end];
  }

  lemma FieldParts(str: bytes, start: nat, end: nat, f: bytes, d: byte, rest: bytes)
    requires start <= end <= |str| && str[start..end] == f + ([d] + rest) && Free(f, [d])
    ensures start + |f| < end && str[start..start + |f|] == f && str[start + |f|] == d
        && str[start + |f| + 1..end] == rest
    ensures forall k :: start <= k < start + |f| ==> str[k] != d
  {
    PartAt(str, start, end, f, [d] + rest);
    NotAmong(str, start, f, d);
    HeadAndTail(str, start + |f|, end, d, rest);
  }

  lemma FieldStep(str: bytes, start: nat, e: nat, end: nat, d: byte)
    requires start < e < end <= |str| && str[e] == d && forall k :: start <= k < e ==> str[k] != d
    ensures Texts(str, Runs(str, start, end, [d])) == [str[start..e]] + Texts(str, Runs(str, e + 1, end, [d]))
  {
    hide Texts, Runs;
    var x := Desc(start, e - start);
    RunsStep(str, start, e, end, d);
    OneText(str, x, Runs(str, e + 1, end, [d]));
    assert Text(str, x) == str[start..e];
  }

  lemma RunsStep(str: bytes, start: nat, e: nat, end: nat, d: byte)
    requires start < e < end <= |str| && str[e] == d && forall k :: start <= k < e ==> str[k] != d
    ensures Runs(str, start, end, [d]) == [Desc(start, e - start)] + Runs(str, e + 1, end, [d])
  {
    hide RunsFrom;
    RunStep(str, start, start, e, end, d);
  }

  lemma NotEmpty(f: bytes, d: byte)
    requires Free(f, [d])
    ensures f != []
  {
  }

  lemma JoinHead(fields: seq<bytes>, d: byte)
    requires fields != []
    ensures JoinBy(fields, d)
         == if |fields| == 1 then fields[0] else fields[0] + ([d] + JoinBy(fields[1..], d))
  {
    if |fields| > 1 {
      assert fields[0] + [d] + JoinBy(fields[1..], d) == fields[0] + ([d] + JoinBy(fields[1..], d));
    }
  }

  lemma TailFree(fields: seq<bytes>, d: byte)
    requires fields != [] && forall k :: 0 <= k < |fields| ==> Free(fields[k], [d])
    ensures Free(fields[0], [d]) && forall k :: 0 <= k < |fields[1..]| ==> Free(fields[1..][k], [d])
  {
  }

  /** The characters from `start` up to `end`. */
  predicate Spells(str: bytes, start: nat, end: nat, t: bytes) {
    start <= end <= |str| && str[start..end] == t
  }

  lemma FieldSpelled(str: bytes, start: nat, end: nat, f: bytes, d: byte, rest: bytes)
    requires Spells(str, start, end, f + ([d] + rest)) && Free(f, [d])
    ensures var e := start + |f|;
            && start < e < end <= |str| && str[e] == d && Spells(str, e + 1, end, rest)
            && (forall k :: start <= k < e ==> str[k] != d) && str[start..e] == f
  {
    FieldParts(str, start, end, f, d, rest);
    NotEmpty(f, d);
  }

  lemma {:induction false} RunsOfSpelled(str: bytes, start: nat, end: nat, fields: seq<bytes>, d: byte)
    requires fields != [] && Spells(str, start, end, JoinBy(fields, d))
    requires forall k :: 0 <= k < |fields| ==> Free(fields[k], [d])
    ensures start <= end <= |str| && Texts(str, Runs(str, start, end, [d])) == fields
    decreases |fields|
  {
    hide Runs, Texts, Free, JoinBy;
    JoinHead(fields, d);
    TailFree(fields, d);
    if |fields| == 1 {
      OneField(str, start, end, fields[0], d);
      assert fields == [fields[0]];
    } else {
      hide Spells;
      var e := start + |fields[0]|;
      FieldSpelled(str, start, end, fields[0], d, JoinBy(fields[1..], d));
      RunsOfSpelled(str, e + 1, end, fields[1..], d);
      FieldStep(str, start, e, end, d);
      assert fields == [fields[0]] + fields[1..];
    }
  }

  /** The runs of a joined text are the fields joined. */
  lemma RunsOfJoin(str: bytes, start: nat, end: nat, fields: seq<bytes>, d: byte)
    requires start <= end <= |str| && fields != [] && str[start..end] == JoinBy(fields, d)
    requires forall k :: 0 <= k < |fields| ==> Free(fields[k], [d])
    ensures Texts(str, Runs(str, start, end, [d])) == fields
  {
    hide Runs, Texts, Free, JoinBy;
    RunsOfSpelled(str, start, end, fields, d);
  }

  lemma NotAmong(str: bytes, start: nat, f: bytes, d: byte)
    requires start + |f| <= |str| && Free(f, [d]) && forall k :: 0 <= k < |f| ==> str[start + k] == f[k]
    ensures forall k :: start <= k < start + |f| ==> str[k] != d
  {
    assert d in [d];
    forall k | start <= k < start + |f| ensures str[k] != d {
      assert str[start + (k - start)] == f[k - start];
    }
  }

  lemma OneText(str: bytes, x: Desc, ds: seq<Desc>)
    ensures Texts(str, [x] + ds) == [Text(str, x)] + Texts(str, ds)
  {
    assert ([x] + ds)[1..] == ds;
  }

  // ---------------------------------------------------------------- the URL

  lemma StrLenWhole(t: bytes)
    requires 0 !in t
    ensures StrLen(t) == |t|
  {
  }

  lemma {:induction false} ParamsRead(buff: bytes, ds: seq<Desc>, params: seq<Param>)
    requires |ds| == |params| && ParamsFree(params)
    requires forall k :: 0 <= k < |ds| ==> ds[k].start + ds[k].length <= |buff|
    requires Texts(buff, ds) == PairTexts(params)
    ensures ParamsOf(buff, ds) == params
    decreases |ds|
  {
    hide Runs, Free, JoinBy;
    if ds != [] {
      assert Texts(buff, ds)[1..] == Texts(buff, ds[1..]) && PairTexts(params)[1..] == PairTexts(params[1..]);
      ParamsRead(buff, ds[1..], params[1..]);
      assert Texts(buff, ds)[0] == PairTexts(params)[0];
      ParamRead(buff, ds[0], params[0]);
      assert params == [params[0]] + params[1..];
    }
  }

  lemma ParamRead(buff: bytes, d: Desc, p: Param)
    requires d.start + d.length <= |buff| && Free(p.key, PAIR_STOPS) && Free(p.value, PAIR_STOPS)
    requires Text(buff, d) == JoinBy([p.key, p.value], EQUALS)
    ensures ParamOf(buff, d) == [p]
  {
    hide Runs, JoinBy;
    StopIn(p.key, PAIR_STOPS, 5);
    StopIn(p.value, PAIR_STOPS, 5);
    RunsOfJoin(buff, d.start, d.start + d.length, [p.key, p.value], EQUALS);
    var parts := Runs(buff, d.start, d.start + d.length, [EQUALS]);
    assert Texts(buff, parts)[0] == p.key && Texts(buff, parts)[1] == p.value;
  }

  /** A text free of several characters is free of each. */
  lemma StopIn(t: bytes, stops: bytes, k: nat)
    requires Free(t, stops) && k < |stops|
    ensures Free(t, [stops[k]])
  {
    assert stops[k] in stops;
  }

  /** Joining adds nothing but the delimiter. */
  lemma {:induction false} JoinAvoids(fields: seq<bytes>, d: byte, c: byte)
    requires c != d && forall k :: 0 <= k < |fields| ==> c !in fields[k]
    ensures c !in JoinBy(fields, d)
  {
    if |fields| > 1 {
      JoinAvoids(fields[1..], d, c);
    }
  }

  lemma {:induction false} PairsAvoid(params: seq<Param>, c: byte)
    requires ParamsFree(params) && c in PAIR_STOPS && c != EQUALS
    ensures forall k :: 0 <= k < |params| ==> c !in PairTexts(params)[k] && PairTexts(params)[k] != []
  {
    if params != [] {
      var p := params[0];
      assert Free(p.key, PAIR_STOPS) && Free(p.value, PAIR_STOPS);
      JoinAvoids([p.key, p.value], EQUALS, c);
      PairsAvoid(params[1..], c);
    }
  }

  /** What the URL is split into at its question mark. */
  function UrlParts(cmd: bytes, params: seq<Param>): seq<bytes> {
    if params == [] then [cmd] else [cmd, JoinBy(PairTexts(params), AMPERSAND)]
  }

  lemma QueryAvoids(params: seq<Param>, c: byte)
    requires params != [] && ParamsFree(params) && c in URL_STOPS
    ensures Free(JoinBy(PairTexts(params), AMPERSAND), [c])
  {
    hide PairTexts, ParamsFree;
    assert c in PAIR_STOPS && c != EQUALS && c != AMPERSAND;
    PairsAvoid(params, c);
    JoinAvoids(PairTexts(params), AMPERSAND, c);
    JoinStarts(PairTexts(params), AMPERSAND);
  }

  lemma JoinStarts(fields: seq<bytes>, d: byte)
    requires fields != [] && fields[0] != []
    ensures JoinBy(fields, d) != []
  {
  }

  lemma UrlAvoids(cmd: bytes, params: seq<Param>, c: byte)
    requires Free(cmd, URL_STOPS) && ParamsFree(params) && c in URL_STOPS && c != QUESTION
    ensures c !in JoinBy(UrlParts(cmd, params), QUESTION)
    ensures JoinBy(UrlParts(cmd, params), QUESTION) != []
  {
    hide PairTexts, ParamsFree;
    if params != [] {
      QueryAvoids(params, c);
      assert c in [c];
    }
    JoinAvoids(UrlParts(cmd, params), QUESTION, c);
    JoinStarts(UrlParts(cmd, params), QUESTION);
  }

  /** The URL gives back the command and the parameters in order. */
  lemma UrlRead(cmd: bytes, params: seq<Param>, req: HttpRequest)
    requires Free(cmd, URL_STOPS) && ParamsFree(params)
    ensures UrlOf(PrintUrl(cmd, params), req) == Some(req.(cmd := cmd, params := req.params + params))
  {
    hide RunsFrom, Runs, JoinBy, PairTexts, Free, ParamsFree, ParamsOf;
    var url, tail := PrintUrl(cmd, params), JoinBy(UrlParts(cmd, params), QUESTION);
    assert url == [SLASH] + tail;
    LastSegment(url, tail, cmd, params);
    assert url[1..|url|] == tail;
    PartsFree(cmd, params);
    RunsOfJoin(url, 1, |url|, UrlParts(cmd, params), QUESTION);
    var parts := Runs(url, 1, |url|, [QUESTION]);
    assert Texts(url, parts)[0] == cmd;
    if params == [] {
      assert req.params + [] == req.params;
    } else {
      var p := parts[1];
      assert Text(url, p) == Texts(url, parts)[1] == JoinBy(PairTexts(params), AMPERSAND);
      PairsFree(params);
      RunsOfJoin(url, p.start, p.start + p.length, PairTexts(params), AMPERSAND);
      var pairs := Runs(url, p.start, p.start + p.length, [AMPERSAND]);
      assert |pairs| == |Texts(url, pairs)| == |params|;
      ParamsRead(url, pairs, params);
    }
  }

  lemma LastSegment(url: bytes, tail: bytes, cmd: bytes, params: seq<Param>)
    requires Free(cmd, URL_STOPS) && ParamsFree(params)
    requires tail == JoinBy(UrlParts(cmd, params), QUESTION) && url == [SLASH] + tail
    ensures StrLen(url) == |url| > 1 && Runs(url, 0, |url|, [SLASH]) == [Desc(1, |url| - 1)]
  {
    hide JoinBy, UrlParts, Free, ParamsFree, RunsFrom;
    UrlAvoids(cmd, params, 0);
    UrlAvoids(cmd, params, SLASH);
    OneSegment(url, tail);
  }

  lemma OneSegment(url: bytes, tail: bytes)
    requires url == [SLASH] + tail && tail != [] && 0 !in tail && SLASH !in tail
    ensures StrLen(url) == |url| && Runs(url, 0, |url|, [SLASH]) == [Desc(1, |url| - 1)]
  {
    hide RunsFrom;
    StrLenWhole(url);
    forall k | 1 <= k < |url| ensures url[k] != SLASH {
      assert url[k] == tail[k - 1];
    }
    RunStep(url, 0, 0, 0, |url|, SLASH);
    RunWhole(url, 1, 1, |url|, SLASH);
  }

  lemma PartsFree(cmd: bytes, params: seq<Param>)
    requires Free(cmd, URL_STOPS) && ParamsFree(params)
    ensures forall k :: 0 <= k < |UrlParts(cmd, params)| ==> Free(UrlParts(cmd, params)[k], [QUESTION])
  {
    StopIn(cmd, URL_STOPS, 3);
    if params != [] {
      QueryAvoids(params, QUESTION);
    }
  }

  lemma PairsFree(params: seq<Param>)
    requires ParamsFree(params)
    ensures forall k :: 0 <= k < |params| ==> Free(PairTexts(params)[k], [AMPERSAND])
  {
    PairsAvoid(params, AMPERSAND);
  }

  // ---------------------------------------------------------------- the lines

  lemma FirstLineRead(m: Printed)
    requires Printable(m)
    ensures FirstLineOf(FirstLine(m), BLANK)
        == Some(BLANK.(kind := m.kind, cmd := m.cmd, params := m.params, version := m.version))
  {
    hide Runs, JoinBy, PairTexts, ParamsFree, UrlOf, NoBreak, PrintUrl;
    var line, url := FirstLine(m), PrintUrl(m.cmd, m.params);
    UrlHasNoSpace(m.cmd, m.params);
    assert line[0..|line|] == line;
    RunsOfJoin(line, 0, |line|, [m.kind, url, m.version], SPACE);
    var fields := Runs(line, 0, |line|, [SPACE]);
    assert Texts(line, fields)[0] == m.kind && Texts(line, fields)[1] == url && Texts(line, fields)[2] == m.version;
    UrlRead(m.cmd, m.params, BLANK.(kind := m.kind));
    assert [] + m.params == m.params;
  }

  lemma UrlHasNoSpace(cmd: bytes, params: seq<Param>)
    requires Free(cmd, URL_STOPS) && ParamsFree(params)
    ensures Free(PrintUrl(cmd, params), [SPACE])
  {
    UrlAvoids(cmd, params, SPACE);
  }

  /** A printed line ends where its line break stands. */
  lemma LineEndIs(doc: bytes, start: nat, line: bytes, rest: bytes)
    requires start <= |doc| && doc[start..] == line + CRLF + rest && NoBreak(line)
    ensures LineEnd(doc, start) == start + |line| && doc[start..start + |line|] == line
    ensures start + |line| + 2 <= |doc| && doc[start + |line| + 2..] == rest
  {
    var e := start + |line|;
    assert doc[start..] == doc[start..|doc|];
    assert line + CRLF + rest == line + (CRLF + rest);
    PartAt(doc, start, |doc|, line, CRLF + rest);
    PartAt(doc, e, |doc|, CRLF, rest);
    forall k | start <= k < e ensures !At(doc, k, CRLF) {
      BreakChars(doc, k);
      BreakChars(line, k - start);
      assert doc[start + (k - start)] == line[k - start];
      if k + 1 < e {
        assert doc[start + (k + 1 - start)] == line[k + 1 - start];
      } else {
        assert doc[e + 0] == CR;
      }
    }
    FirstBreak(doc, start, e);
  }

  lemma BreakChars(doc: bytes, k: nat)
    requires k < |doc|
    ensures At(doc, k, CRLF) <==> k + 1 < |doc| && doc[k] == CR && doc[k + 1] == LF
  {
    if k + 1 < |doc| {
      assert doc[k..k + 2] == [doc[k], doc[k + 1]];
    }
  }

  lemma FirstBreak(doc: bytes, start: nat, e: nat)
    requires start <= e <= |doc| && At(doc, e, CRLF) && forall k :: start <= k < e ==> !At(doc, k, CRLF)
    ensures LineEnd(doc, start) == e
  {
    assert e < |doc|;
  }

  /** The header lines in turn. */
  function Headed(headers: seq<bytes>, req: HttpRequest): HttpRequest {
    if headers == [] then req else Headed(headers[1..], HeaderOf(headers[0], req))
  }

  lemma {:induction false} HeadersKeep(headers: seq<bytes>, req: HttpRequest)
    ensures var r := Headed(headers, req);
            r.kind == req.kind && r.cmd == req.cmd && r.params == req.params && r.version == req.version
              && r.data == req.data
  {
    hide HeaderOf;
    if headers != [] {
      HeaderKeeps(headers[0], req);
      HeadersKeep(headers[1..], HeaderOf(headers[0], req));
    }
  }

  lemma HeaderKeeps(line: bytes, req: HttpRequest)
    ensures var r := HeaderOf(line, req);
            r.kind == req.kind && r.cmd == req.cmd && r.params == req.params && r.version == req.version
              && r.data == req.data
  {
  }

  lemma {:induction false} HeadersRead(doc: bytes, start: nat, headers: seq<bytes>, body: bytes, req: HttpRequest)
    requires start <= |doc| && doc[start..] == PrintHeaders(headers) + CRLF + body
    requires forall k :: 0 <= k < |headers| ==> headers[k] != [] && NoBreak(headers[k])
    ensures var at := |doc| - |body|;
            at >= 0 && doc[at..] == body &&
            ParseLines(doc, start, false, req)
            == Parsed(true, if body != [] then Headed(headers, req).(data := Some(at)) else Headed(headers, req))
    decreases |headers|
  {
    hide HeaderOf, NoBreak, LineEnd;
    if headers == [] {
      assert doc[start..] == [] + CRLF + body;
      EmptyHasNoBreak();
      LineEndIs(doc, start, [], body);
    } else {
      var line, rest := headers[0], PrintHeaders(headers[1..]) + CRLF + body;
      assert line + CRLF + PrintHeaders(headers[1..]) + CRLF + body == line + CRLF + rest;
      LineEndIs(doc, start, line, rest);
      HeadersRead(doc, start + |line| + 2, headers[1..], body, HeaderOf(line, req));
    }
  }

  lemma EmptyHasNoBreak()
    ensures NoBreak([])
  {
  }

  /** Parsing what was printed gives back the method, the command, the parameters in
      order and the version, and the data start right behind the first blank line. */
  lemma ParseInvertsPrint(m: Printed)
    requires Printable(m)
    ensures var doc := Print(m);
            var at := |doc| - |m.body|;
            && at >= 0 && doc[at..] == m.body
            && ParseMessage(doc).Parsed? && ParseMessage(doc).ok
            && var r := ParseMessage(doc).request;
               && r.kind == m.kind && r.cmd == m.cmd && r.params == m.params && r.version == m.version
               && r.data == (if m.body != [] then Some(at) else None)
               && r == Headed(m.headers, HttpRequest(m.kind, m.cmd, m.params, m.version, [], false, None, 0, 0))
                       .(data := r.data)
  {
    hide HeaderOf, NoBreak, LineEnd, FirstLineOf, FirstLine, Free, ParamsFree, PrintHeaders, Headed;
    var doc, line := Print(m), FirstLine(m);
    var rest := PrintHeaders(m.headers) + CRLF + m.body;
    assert doc[0..] == line + CRLF + rest;
    LineEndIs(doc, 0, line, rest);
    LineIsNotEmpty(m);
    FirstLineRead(m);
    var req := BLANK.(kind := m.kind, cmd := m.cmd, params := m.params, version := m.version);
    HeadersRead(doc, |line| + 2, m.headers, m.body, req);
    HeadersKeep(m.headers, req);
  }

  lemma LineIsNotEmpty(m: Printed)
    requires Printable(m)
    ensures FirstLine(m) != []
  {
    JoinStarts([m.kind, PrintUrl(m.cmd, m.params), m.version], SPACE);
  }

  // ---------------------------------------------------------------- any document

  predicate BlankLineFrom(doc: bytes, start: nat) {
    At(doc, start, CRLF) || exists k :: start <= k <= |doc| && At(doc, k, CRLF + CRLF)
  }

  /** Unless it throws, the parser answers true just when the document starts with a
      line break or holds two in a row. */
  lemma {:induction false} TrueOnBlankLine(doc: bytes, start: nat, first: bool, req: HttpRequest)
    requires start <= |doc| && ParseLines(doc, start, first, req).Parsed?
    ensures ParseLines(doc, start, first, req).ok <==> BlankLineFrom(doc, start)
    decreases |doc| - start
  {
    hide HeaderOf, FirstLineOf, LineEnd;
    var e := LineEnd(doc, start);
    if e == |doc| {
      forall k | start <= k <= |doc| ensures !At(doc, k, CRLF + CRLF) {
        DoubleBreak(doc, k);
      }
    } else if e > start {
      var line := doc[start..e];
      var read := if first then FirstLineOf(line, req) else Some(HeaderOf(line, req));
      TrueOnBlankLine(doc, e + 2, false, read.value);
      SkipLine(doc, start, e);
    }
  }

  lemma DoubleBreak(doc: bytes, k: nat)
    requires k <= |doc|
    ensures At(doc, k, CRLF + CRLF) <==> At(doc, k, CRLF) && At(doc, k + 2, CRLF)
  {
    if k + 4 <= |doc| {
      assert doc[k..k + 4] == doc[k..k + 2] + doc[k + 2..k + 4];
      assert doc[k..k + 4][..2] == doc[k..k + 2] && doc[k..k + 4][2..] == doc[k + 2..k + 4];
      assert (CRLF + CRLF)[..2] == CRLF && (CRLF + CRLF)[2..] == CRLF;
    }
  }

  /** Behind a non-empty line nothing changes about the blank lines to come. */
  lemma SkipLine(doc: bytes, start: nat, e: nat)
    requires start < e && At(doc, e, CRLF) && forall k :: start <= k < e ==> !At(doc, k, CRLF)
    ensures BlankLineFrom(doc, start) <==> BlankLineFrom(doc, e + 2)
  {
    DoubleBreak(doc, e);
    BreakChars(doc, e);
    forall k | start <= k <= |doc| && At(doc, k, CRLF + CRLF) ensures k == e || k >= e + 2 {
      DoubleBreak(doc, k);
      if k == e + 1 {
        BreakChars(doc, k);
      }
    }
    if BlankLineFrom(doc, start) && !At(doc, e + 2, CRLF) {
      var k :| start <= k <= |doc| && At(doc, k, CRLF + CRLF);
      assert e + 2 <= k <= |doc|;
    }
    if BlankLineFrom(doc, e + 2) && At(doc, e + 2, CRLF) {
      assert At(doc, e, CRLF + CRLF);
    }
  }

  // ---------------------------------------------------------------- the peer id

  /** The header a peer names its id in. */
  function PragmaHeader(n: nat): bytes {
    PRAGMA + [SPACE] + JsonNumber.Digits(n)
  }

  /** The id in a Pragma header is read as the number written if and only if it is below
      2^31; from there on it is read as 2^31 - 1. */
  lemma PragmaIsRead(n: nat, req: HttpRequest)
    ensures HeaderOf(PragmaHeader(n), req) == req.(pragma := if n <= INT_MAX then n else INT_MAX)
    ensures HeaderOf(PragmaHeader(n), req).pragma == n <==> n < 0x8000_0000
  {
    var t := JsonNumber.Digits(n);
    var line := PragmaHeader(n);
    SpaceBehind(PRAGMA, t);
    assert line[..|PRAGMA|] == PRAGMA && line[|PRAGMA| + 1..] == t;
    DigitsAreRead(n);
  }

  lemma SpaceBehind(name: bytes, rest: bytes)
    requires SPACE !in name
    ensures SpaceAt(name + [SPACE] + rest) == |name|
  {
    var t := name + [SPACE] + rest;
    assert t[|name|] == SPACE;
    forall k | 0 <= k < |name| ensures t[k] != SPACE {
      assert t[k] == name[k];
    }
  }

  lemma {:induction false} DigitsSnoc(t: bytes, d: byte, value: int)
    requires IsDigit(d) && forall k :: 0 <= k < |t| ==> IsDigit(t[k])
    ensures DigitsValue(t + [d], value) == 10 * DigitsValue(t, value) + (d - ZERO)
  {
    if t == [] {
      assert [] + [d] == [d] && [d][1..] == [];
    } else {
      assert (t + [d])[1..] == t[1..] + [d];
      DigitsSnoc(t[1..], d, 10 * value + (t[0] - ZERO));
    }
  }

  lemma {:induction false} DigitsAreRead(n: nat)
    ensures DigitsValue(JsonNumber.Digits(n), 0) == n && NumberOf(JsonNumber.Digits(n)) == n
  {
    JsonNumber.DigitsAreDigits(n);
    assert IsDigit(JsonNumber.Digits(n)[0]);
    if n < 10 {
      DigitsSnoc([], ZERO + n, 0);
    } else {
      JsonNumber.DigitsAreDigits(n / 10);
      DigitsAreRead(n / 10);
      DigitsSnoc(JsonNumber.Digits(n / 10), ZERO + n % 10, 0);
    }
  }
}
