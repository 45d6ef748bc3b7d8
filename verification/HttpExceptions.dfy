/**
 When the request parser ends by an exception: the URL's last segment, which the
 command is cut from, consists of question marks alone, and `at(0)` finds no field.
 */
module HttpExceptions {
  import opened Optional
  import opened Bytes
  import opened HttpParser
  import opened HttpRoundTrip

  // ---------------------------------------------------------------- runs

  /** There is no run just when every character is a delimiter. */
  lemma {:induction false} NoRuns(str: bytes, s: nat, i: nat, end: nat, d: byte)
    requires s <= i <= end <= |str|
    ensures RunsFrom(str, s, i, end, [d]) == [] <==> s == i && forall k :: i <= k < end ==> str[k] == d
    decreases end - i
  {
    if i < end {
      if str[i] == d {
        NoRuns(str, i + 1, i + 1, end, d);
      } else {
        NoRuns(str, s, i + 1, end, d);
      }
    }
  }

  /** Run `r` holds no delimiter, begins where the text or a delimiter lets it, and has
      nothing but delimiters behind it. */
  predicate IsLastRun(str: bytes, start: nat, end: nat, d: byte, r: Desc) {
    && start <= r.start < r.start + r.length <= end <= |str|
    && (forall k :: r.start <= k < r.start + r.length ==> str[k] != d)
    && (r.start == start || str[r.start - 1] == d)
    && (forall k :: r.start + r.length <= k < end ==> str[k] == d)
  }

  lemma {:induction false} LastRunIs(str: bytes, start: nat, s: nat, i: nat, end: nat, d: byte)
    requires start <= s <= i <= end <= |str| && (s == start || str[s - 1] == d)
    requires forall k :: s <= k < i ==> str[k] != d
    ensures var runs := RunsFrom(str, s, i, end, [d]);
            runs != [] ==> IsLastRun(str, start, end, d, runs[|runs| - 1])
    decreases end - i
  {
    hide IsLastRun, RunsFrom;
    RunsTurn(str, s, i, end, d);
    if i == end {
      ClosingRun(str, start, s, i, end, d);
    } else if str[i] == d {
      LastRunIs(str, start, i + 1, i + 1, end, d);
      NoRuns(str, i + 1, i + 1, end, d);
      if RunsFrom(str, i + 1, i + 1, end, [d]) == [] {
        ClosingRun(str, start, s, i, end, d);
      }
    } else {
      LastRunIs(str, start, s, i + 1, end, d);
    }
  }

  /** One turn of the splitting loop, as to the last run. */
  lemma RunsTurn(str: bytes, s: nat, i: nat, end: nat, d: byte)
    requires s <= i <= end <= |str|
    ensures var runs := RunsFrom(str, s, i, end, [d]);
            if i < end && str[i] != d then runs == RunsFrom(str, s, i + 1, end, [d])
            else
              var rest := if i == end then [] else RunsFrom(str, i + 1, i + 1, end, [d]);
              if rest == [] then runs == if i > s then [Desc(s, i - s)] else []
              else runs != [] && runs[|runs| - 1] == rest[|rest| - 1]
  {
  }

  /** The run that ends where nothing but delimiters follow. */
  lemma ClosingRun(str: bytes, start: nat, s: nat, i: nat, end: nat, d: byte)
    requires start <= s <= i <= end <= |str| && (s == start || str[s - 1] == d)
    requires (forall k :: s <= k < i ==> str[k] != d) && (forall k :: i <= k < end ==> str[k] == d)
    ensures i > s ==> IsLastRun(str, start, end, d, Desc(s, i - s))
  {
  }

  /** There is one last run. */
  lemma LastRunIsUnique(str: bytes, start: nat, end: nat, d: byte, x: Desc, y: Desc)
    requires IsLastRun(str, start, end, d, x) && IsLastRun(str, start, end, d, y)
    ensures x == y
  {
    assert str[x.start + x.length - 1] != d && str[y.start + y.length - 1] != d;
    assert x.start + x.length == y.start + y.length;
    assert x.start > start ==> str[x.start - 1] == d;
    assert y.start > start ==> str[y.start - 1] == d;
  }

  // ---------------------------------------------------------------- the URL

  /** Behind its slashes the URL ends in question marks alone, up to slashes at the very
      end; `n` is where the URL ends. */
  ghost predicate EndsInQuestions(url: bytes, n: nat) {
    exists r :: IsLastRun(url, 0, n, SLASH, r) && AllQuestions(url, r)
  }

  predicate AllQuestions(url: bytes, r: Desc) {
    r.start + r.length <= |url| && forall k :: r.start <= k < r.start + r.length ==> url[k] == QUESTION
  }

  /** `at(0)` throws exactly when the last segment is question marks alone. */
  lemma UrlThrowsOnSegment(url: bytes, req: HttpRequest)
    ensures var segments := Runs(url, 0, StrLen(url), [SLASH]);
            UrlOf(url, req).None? <==> segments != [] && AllQuestions(url, segments[|segments| - 1])
  {
    hide RunsFrom, ParamsOf, Text, StrLen;
    var segments := Runs(url, 0, StrLen(url), [SLASH]);
    if segments != [] {
      var last := segments[|segments| - 1];
      NoRuns(url, last.start, last.start, last.start + last.length, QUESTION);
    }
  }

  lemma EndsInQuestionsIsSegment(url: bytes, n: nat)
    requires n <= |url|
    ensures var segments := Runs(url, 0, n, [SLASH]);
            EndsInQuestions(url, n) <==> segments != [] && AllQuestions(url, segments[|segments| - 1])
  {
    hide RunsFrom, AllQuestions;
    var segments := Runs(url, 0, n, [SLASH]);
    LastRunIs(url, 0, 0, 0, n, SLASH);
    NoRuns(url, 0, 0, n, SLASH);
    if segments == [] {
      forall r ensures !IsLastRun(url, 0, n, SLASH, r) {
        if r.start < n && r.length > 0 {
          assert url[r.start] == SLASH;
        }
      }
    } else {
      var last := segments[|segments| - 1];
      if EndsInQuestions(url, n) {
        var r :| IsLastRun(url, 0, n, SLASH, r) && AllQuestions(url, r);
        LastRunIsUnique(url, 0, n, SLASH, r, last);
      }
    }
  }

  /** The URL parser throws exactly on such URLs. */
  lemma UrlThrowsExactly(url: bytes, req: HttpRequest)
    ensures UrlOf(url, req).None? <==> EndsInQuestions(url, StrLen(url))
  {
    hide UrlOf, EndsInQuestions, Runs, AllQuestions;
    UrlThrowsOnSegment(url, req);
    EndsInQuestionsIsSegment(url, StrLen(url));
  }

  // ---------------------------------------------------------------- the message

  /** The first line names such a URL. */
  ghost predicate AsksForNothing(line: bytes) {
    var fields := Runs(line, 0, |line|, [SPACE]);
    |fields| > 1 && var url := Text(line, fields[1]); EndsInQuestions(url, StrLen(url))
  }

  lemma FirstLineThrowsExactly(line: bytes, req: HttpRequest)
    ensures FirstLineOf(line, req).None? <==> AsksForNothing(line)
  {
    hide Runs, UrlOf, EndsInQuestions;
    var fields := Runs(line, 0, |line|, [SPACE]);
    if |fields| > 1 {
      UrlThrowsExactly(Text(line, fields[1]), req.(kind := Text(line, fields[0])));
    }
  }

  /** Header lines do not throw. */
  lemma {:induction false} HeadersDoNotThrow(doc: bytes, lineStart: nat, req: HttpRequest)
    requires lineStart <= |doc|
    ensures ParseLines(doc, lineStart, false, req).Parsed?
    decreases |doc| - lineStart
  {
    hide LineEnd, HeaderOf;
    var e := LineEnd(doc, lineStart);
    if lineStart < e < |doc| {
      HeadersDoNotThrow(doc, e + 2, HeaderOf(doc[lineStart..e], req));
    }
  }

  /** The parser throws if and only if the message has a complete, non-empty first line
      whose URL ends in question marks alone. */
  lemma MessageThrowsExactly(doc: bytes)
    ensures ParseMessage(doc).Threw? <==> var e := LineEnd(doc, 0); 0 < e < |doc| && AsksForNothing(doc[..e])
  {
    hide LineEnd, FirstLineOf, AsksForNothing;
    var e := LineEnd(doc, 0);
    if 0 < e < |doc| {
      assert doc[0..e] == doc[..e];
      var read := FirstLineOf(doc[..e], BLANK);
      FirstLineThrowsExactly(doc[..e], BLANK);
      if read.Some? {
        HeadersDoNotThrow(doc, e + 2, read.value);
      }
    }
  }

  /** "GET", "/?" and "HTTP/1.1". */
  const GET: bytes := [71, 69, 84]
  const QUESTION_URL: bytes := [SLASH, QUESTION]
  const HTTP11: bytes := [72, 84, 84, 80, 47, 49, 46, 49]

  /** "GET /? HTTP/1.1" and a line break throw. */
  lemma QuestionMarkThrows()
    ensures ParseMessage(JoinBy([GET, QUESTION_URL, HTTP11], SPACE) + CRLF) == Threw
  {
    hide LineEnd, JoinBy, Runs, ParseLines, EndsInQuestions;
    var fields := [GET, QUESTION_URL, HTTP11];
    var line := JoinBy(fields, SPACE);
    var doc := line + CRLF;
    QuestionLine(line);
    assert doc[0..] == line + CRLF + [];
    LineEndIs(doc, 0, line, []);
    assert doc[..|line|] == line && line[0..|line|] == line;
    RunsOfJoin(line, 0, |line|, fields, SPACE);
    var runs := Runs(line, 0, |line|, [SPACE]);
    assert Texts(line, runs)[1] == QUESTION_URL;
    QuestionUrl();
    MessageThrowsExactly(doc);
  }

  lemma QuestionLine(line: bytes)
    requires line == JoinBy([GET, QUESTION_URL, HTTP11], SPACE)
    ensures line != [] && NoBreak(line)
  {
    var rest := JoinBy([QUESTION_URL, HTTP11], SPACE);
    assert [GET, QUESTION_URL, HTTP11][1..] == [QUESTION_URL, HTTP11] && [QUESTION_URL, HTTP11][1..] == [HTTP11];
    assert JoinBy([HTTP11], SPACE) == HTTP11;
    assert rest == QUESTION_URL + [SPACE] + JoinBy([HTTP11], SPACE);
    assert line == GET + [SPACE] + rest;
    assert line == GET + [SPACE] + (QUESTION_URL + [SPACE] + HTTP11);
    assert CR !in GET && CR !in QUESTION_URL && CR !in HTTP11;
    assert CR !in line;
    forall k | 0 <= k < |line| ensures !At(line, k, CRLF) {
      BreakChars(line, k);
    }
  }

  lemma QuestionUrl()
    ensures EndsInQuestions(QUESTION_URL, StrLen(QUESTION_URL))
  {
    StrLenWhole(QUESTION_URL);
    assert IsLastRun(QUESTION_URL, 0, 2, SLASH, Desc(1, 1)) && AllQuestions(QUESTION_URL, Desc(1, 1));
  }
}
