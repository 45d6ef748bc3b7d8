/**
 The first line of any request, in terms of its fields: the parser's nested splits by
 offsets come to splitting texts.
 */
module HttpFields {
  import opened Optional
  import opened Bytes
  import opened HttpParser
  import opened HttpRoundTrip

  /** The offset of the first `d`, or the length. */
  function FirstOf(t: bytes, d: byte): (k: nat)
    ensures k <= |t| && (k < |t| ==> t[k] == d) && forall i :: 0 <= i < k ==> t[i] != d
  {
    if t == [] || t[0] == d then 0 else 1 + FirstOf(t[1..], d)
  }

  /** The texts between the delimiters, empty ones left out. */
  function Fields(t: bytes, d: byte): seq<bytes>
    decreases |t|
  {
    if t == [] then []
    else if t[0] == d then Fields(t[1..], d)
    else [t[..FirstOf(t, d)]] + Fields(t[FirstOf(t, d)..], d)
  }

  /** The runs the loop finds are those fields. */
  lemma {:induction false} RunsAreFields(str: bytes, start: nat, end: nat, d: byte)
    requires start <= end <= |str|
    ensures Texts(str, Runs(str, start, end, [d])) == Fields(str[start..end], d)
    decreases end - start
  {
    hide Runs, Texts;
    var t := str[start..end];
    if start == end {
      NoRuns(str, start, d);
    } else if str[start] == d {
      AtDelimiter(str, start, end, d);
      assert t[1..] == str[start + 1..end];
      RunsAreFields(str, start + 1, end, d);
    } else {
      var k := FirstOf(t, d);
      var e := start + k;
      assert forall i :: start <= i < e ==> str[i] == t[i - start];
      assert t[..k] == str[start..e];
      if e == end {
        RunsWhole(str, start, end, d);
        TextOfOne(str, start, end);
        assert t[k..] == [];
      } else {
        assert str[e] == t[k] == d;
        RunsStep(str, start, e, end, d);
        OneText(str, Desc(start, e - start), Runs(str, e + 1, end, [d]));
        assert t[k..][0] == d && t[k..][1..] == str[e + 1..end];
        RunsAreFields(str, e + 1, end, d);
      }
    }
  }

  lemma AtDelimiter(str: bytes, start: nat, end: nat, d: byte)
    requires start < end <= |str| && str[start] == d
    ensures Runs(str, start, end, [d]) == Runs(str, start + 1, end, [d])
  {
    hide RunsFrom;
    RunStep(str, start, start, start, end, d);
  }

  lemma NoRuns(str: bytes, start: nat, d: byte)
    requires start <= |str|
    ensures Texts(str, Runs(str, start, start, [d])) == []
  {
  }

  /** The parameters among some pairs: those with a name and a value, the first two fields. */
  function ParamsIn(pairs: seq<bytes>): seq<Param> {
    if pairs == [] then []
    else
      var f := Fields(pairs[0], 61);
      (if |f| < 2 then [] else [Param(f[0], f[1])]) + ParamsIn(pairs[1..])
  }

  /** What a URL adds to a request: the command and the parameters of its last segment. */
  function Located(url: bytes, req: HttpRequest): Option<HttpRequest> {
    var segments := Fields(url, 47);
    if segments == [] then Some(req)
    else
      var parts := Fields(segments[|segments| - 1], 63);
      if parts == [] then None
      else if |parts| == 1 then Some(req.(cmd := parts[0]))
      else Some(req.(cmd := parts[0], params := req.params + ParamsIn(Fields(parts[1], 38))))
  }

  lemma RunsOfPart(buff: bytes, part: Desc, d: byte)
    requires part.start + part.length <= |buff|
    ensures var runs := Runs(buff, part.start, part.start + part.length, [d]);
            && |runs| == |Fields(Text(buff, part), d)|
            && forall k :: 0 <= k < |runs| ==> Text(buff, runs[k]) == Fields(Text(buff, part), d)[k]
  {
    hide Runs, Fields;
    RunsAreFields(buff, part.start, part.start + part.length, d);
  }

  lemma {:induction false} ParamsMean(buff: bytes, ds: seq<Desc>)
    requires forall k :: 0 <= k < |ds| ==> ds[k].start + ds[k].length <= |buff|
    ensures ParamsOf(buff, ds) == ParamsIn(Texts(buff, ds))
  {
    hide Runs, Fields, Text;
    if ds != [] {
      RunsOfPart(buff, ds[0], 61);
      OneText(buff, ds[0], ds[1..]);
      assert [ds[0]] + ds[1..] == ds;
      ParamsMean(buff, ds[1..]);
      assert Texts(buff, ds)[1..] == Texts(buff, ds[1..]);
    }
  }

  /** The URL up to its first zero is located by its fields. */
  lemma UrlMeans(url: bytes, req: HttpRequest)
    ensures UrlOf(url, req) == Located(url[..StrLen(url)], req)
  {
    hide Runs, Fields, Text, StrLen, ParamsOf, ParamsIn;
    var whole := Desc(0, StrLen(url));
    WholeText(url, StrLen(url));
    RunsOfPart(url, whole, 47);
    var segments := Runs(url, 0, StrLen(url), [47]);
    if segments != [] {
      var last := segments[|segments| - 1];
      RunsOfPart(url, last, 63);
      var parts := Runs(url, last.start, last.start + last.length, [63]);
      if |parts| > 1 {
        RunsAreFields(url, parts[1].start, parts[1].start + parts[1].length, 38);
        TextIs(url, parts[1]);
        ParamsMean(url, Runs(url, parts[1].start, parts[1].start + parts[1].length, [38]));
      }
    }
  }

  lemma WholeText(t: bytes, n: nat)
    requires n <= |t|
    ensures Text(t, Desc(0, n)) == t[..n]
  {
    assert t[0..n] == t[..n];
  }

  lemma TextIs(t: bytes, d: Desc)
    requires d.start + d.length <= |t|
    ensures Text(t, d) == t[d.start..d.start + d.length]
  {
  }

  /** The first line names the method, the URL and the version, as far as it goes. */
  lemma FirstLineMeans(line: bytes, req: HttpRequest)
    ensures var f := Fields(line, 32);
            var typed := if |f| > 0 then req.(kind := f[0]) else req;
            var located := if |f| > 1 then Located(f[1][..StrLen(f[1])], typed) else Some(typed);
            FirstLineOf(line, req)
            == if |f| > 2 && located.Some? then Some(located.value.(version := f[2])) else located
  {
    hide Runs, Fields, Text, StrLen, UrlOf, Located;
    var whole := Desc(0, |line|);
    WholeText(line, |line|);
    assert line[..|line|] == line;
    RunsOfPart(line, whole, 32);
    var f := Fields(line, 32);
    if |f| > 1 {
      UrlMeans(f[1], if |f| > 0 then req.(kind := f[0]) else req);
    }
  }
}
