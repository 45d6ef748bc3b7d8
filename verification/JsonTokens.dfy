/**
 The tokens of the reader, with their characters written out: which character begins
 which token, and where strings, numbers and comments end.
 */
module JsonTokens {
  import opened Optional
  import opened Bytes
  import opened JsonValue
  import opened JsonGrammar
  import opened JsonSpelling

  // ---------------------------------------------------------------- marks and words

  /** One character makes a mark, and a zero byte ends the document. */
  lemma MarksAre(doc: bytes, f: Features, start: nat)
    requires start < |doc|
    ensures var t, c := TokenAt(doc, f, start), doc[start];
            && (t.kind.ObjectBegin? <==> c == 123) && (t.kind.ObjectEnd? <==> c == 125)
            && (t.kind.ArrayBegin? <==> c == 91) && (t.kind.ArrayEnd? <==> c == 93)
            && (t.kind.ArraySeparator? <==> c == 44) && (t.kind.MemberSeparator? <==> c == 58)
            && (t.kind.EndOfStream? <==> c == 0)
            && (c in {123, 125, 91, 93, 44, 58, 0} ==> t.end == start + 1)
  {
    hide ScanString, ScanComment, NumberEnd, MatchText;
  }

  /** "true", "false" and "null". */
  lemma WordsAre(doc: bytes, f: Features, start: nat)
    requires start < |doc|
    ensures var t := TokenAt(doc, f, start);
            && (t.kind.TrueToken? <==> At(doc, start, [116, 114, 117, 101]))
            && (t.kind.FalseToken? <==> At(doc, start, [102, 97, 108, 115, 101]))
            && (t.kind.NullToken? <==> At(doc, start, [110, 117, 108, 108]))
            && (t.kind.TrueToken? || t.kind.NullToken? ==> t.end == start + 4)
            && (t.kind.FalseToken? ==> t.end == start + 5)
  {
    hide ScanString, ScanComment, NumberEnd, At;
    WordAt(doc, start, 116, RUE);
    WordAt(doc, start, 102, ALSE);
    WordAt(doc, start, 110, ULL);
    assert [116] + RUE == [116, 114, 117, 101] && [110] + ULL == [110, 117, 108, 108];
    assert [102] + ALSE == [102, 97, 108, 115, 101];
  }

  /** With special floats, "NaN", "Infinity" and "-Infinity". */
  lemma SpecialsAre(doc: bytes, f: Features, start: nat)
    requires start < |doc|
    ensures var t := TokenAt(doc, f, start);
            && (t.kind.NaNToken? <==> f.allowSpecialFloats && At(doc, start, [78, 97, 78]))
            && (t.kind.PosInfToken? <==>
                  f.allowSpecialFloats && At(doc, start, [73, 110, 102, 105, 110, 105, 116, 121]))
            && (t.kind.NaNToken? ==> t.end == start + 3) && (t.kind.PosInfToken? ==> t.end == start + 8)
  {
    hide ScanString, ScanComment, NumberEnd, At;
    WordAt(doc, start, 78, AN);
    WordAt(doc, start, 73, NFINITY);
    assert [78] + AN == [78, 97, 78] && [73] + NFINITY == [73, 110, 102, 105, 110, 105, 116, 121];
  }

  lemma MinusInfinityIs(doc: bytes, f: Features, start: nat)
    requires start < |doc|
    ensures var t := TokenAt(doc, f, start);
            && (t.kind.NegInfToken? <==>
                  f.allowSpecialFloats && At(doc, start, [45, 73, 110, 102, 105, 110, 105, 116, 121]))
            && (t.kind.NegInfToken? ==> t.end == start + 9)
  {
    hide ScanString, ScanComment, NumberEnd, At;
    WordAt(doc, start, 45, [73] + NFINITY);
    assert [45] + ([73] + NFINITY) == [45, 73, 110, 102, 105, 110, 105, 116, 121];
    if start + 1 < |doc| {
      WordAt(doc, start + 1, 73, NFINITY);
    } else {
      NotAtEnd(doc);
    }
  }

  lemma NotAtEnd(doc: bytes)
    ensures !At(doc, |doc|, [73] + NFINITY)
  {
  }

  /** A word is its first letter and the rest. */
  lemma WordAt(doc: bytes, start: nat, c: byte, rest: bytes)
    requires start < |doc|
    ensures At(doc, start, [c] + rest) <==> doc[start] == c && At(doc, start + 1, rest)
  {
    var word := [c] + rest;
    if start + |word| <= |doc| {
      var part := doc[start..start + |word|];
      assert part == [doc[start]] + doc[start + 1..start + |word|];
      assert part[1..] == doc[start + 1..start + |word|] && word[1..] == rest;
    }
  }

  // ---------------------------------------------------------------- strings

  /** From `pos` to `end` no quote stands outside an escape, and no escape is cut. */
  predicate Inside(doc: bytes, pos: nat, end: nat, quote: byte)
    requires pos <= end <= |doc|
    decreases end - pos
  {
    || pos == end
    || (doc[pos] == 92 && pos + 2 <= end && Inside(doc, pos + 2, end, quote))
    || (doc[pos] != 92 && doc[pos] != quote && Inside(doc, pos + 1, end, quote))
  }

  /** The first quote outside an escape stands at `end`. */
  predicate ClosesAt(doc: bytes, pos: nat, end: nat, quote: byte) {
    pos <= end < |doc| && doc[end] == quote && Inside(doc, pos, end, quote)
  }

  lemma {:induction false} StringEnds(doc: bytes, pos: nat, quote: byte, e: nat)
    requires pos <= |doc| && quote != 92
    ensures ClosesAt(doc, pos, e, quote) <==> ScanString(doc, pos, quote) == Scan(true, e + 1)
    decreases |doc| - pos
  {
    if pos < |doc| {
      if doc[pos] == 92 {
        StringEnds(doc, if pos + 1 < |doc| then pos + 2 else pos + 1, quote, e);
      } else if doc[pos] != quote {
        StringEnds(doc, pos + 1, quote, e);
      }
    }
  }

  /** A string runs from a quote to the next one of its kind outside an escape; single
      quotes are for settings that allow them. */
  lemma StringsAre(doc: bytes, f: Features, start: nat, e: nat)
    requires start < |doc|
    ensures var c := doc[start];
            TokenAt(doc, f, start) == Token(StringToken, start, e + 1)
            <==> (c == 34 || (c == 39 && f.allowSingleQuotes)) && ClosesAt(doc, start + 1, e, c)
  {
    hide ScanString, ScanComment, NumberEnd, MatchText, ClosesAt;
    if doc[start] != 92 {
      StringEnds(doc, start + 1, doc[start], e);
    }
  }

  // ---------------------------------------------------------------- numbers

  predicate DigitRun(doc: bytes, from: nat, end: nat) {
    && from <= end <= |doc| && (forall k :: from <= k < end ==> 48 <= doc[k] <= 57)
    && (end < |doc| ==> !(48 <= doc[end] <= 57))
  }

  /** Digits up to `a`, then maybe a dot and digits up to `b`, then maybe an 'e' or 'E', a
      sign, and digits up to `end`; each as many as there are. */
  predicate NumberShape(doc: bytes, start: nat, a: nat, b: nat, end: nat) {
    && DigitRun(doc, start + 1, a)
    && (if a < |doc| && doc[a] == 46 then DigitRun(doc, a + 1, b) else b == a)
    && if b < |doc| && (doc[b] == 101 || doc[b] == 69) then
         DigitRun(doc, if b + 1 < |doc| && (doc[b + 1] == 43 || doc[b + 1] == 45) then b + 2 else b + 1, end)
       else end == b
  }

  lemma {:induction false} RunEnds(doc: bytes, from: nat)
    requires from <= |doc|
    ensures DigitRun(doc, from, DigitsEnd(doc, from))
    decreases |doc| - from
  {
    if from < |doc| && IsDigit(doc[from]) {
      RunEnds(doc, from + 1);
    }
  }

  /** A number begins with a digit, or with a minus that no 'I' follows, and is as long as
      its shape goes. */
  lemma NumbersAre(doc: bytes, f: Features, start: nat)
    requires start < |doc|
    ensures var t, c := TokenAt(doc, f, start), doc[start];
            && (t.kind.NumberToken? <==>
                  48 <= c <= 57 || (c == 45 && !(start + 1 < |doc| && doc[start + 1] == 73)))
            && (t.kind.NumberToken? ==> exists a, b :: NumberShape(doc, start, a, b, t.end))
  {
    hide ScanString, ScanComment, MatchText, NumberEnd;
    if TokenAt(doc, f, start).kind.NumberToken? {
      var a, b := NumberEnds(doc, start);
    }
  }

  lemma NumberEnds(doc: bytes, start: nat) returns (a: nat, b: nat)
    requires start < |doc|
    ensures NumberShape(doc, start, a, b, NumberEnd(doc, start + 1))
  {
    hide DigitsEnd, DigitRun;
    a := DigitsEnd(doc, start + 1);
    RunEnds(doc, start + 1);
    b := FractionEnd(doc, a);
    if IsByteAt(doc, a, 46) {
      RunEnds(doc, a + 1);
    }
    if IsByteAt(doc, b, 101) || IsByteAt(doc, b, 69) {
      RunEnds(doc, if IsByteAt(doc, b + 1, 43) || IsByteAt(doc, b + 1, 45) then b + 2 else b + 1);
    }
  }

  // ---------------------------------------------------------------- comments

  /** The first star and slash from `pos` on stand at `k`. */
  predicate FirstClose(doc: bytes, pos: nat, k: nat) {
    && pos <= k < |doc| - 1 && doc[k] == 42 && doc[k + 1] == 47
    && forall j :: pos <= j < k ==> !(doc[j] == 42 && doc[j + 1] == 47)
  }

  predicate NeverCloses(doc: bytes, pos: nat) {
    forall j :: pos <= j < |doc| - 1 ==> !(doc[j] == 42 && doc[j + 1] == 47)
  }

  /** A comment of stars ends behind the first star and slash; failing that a slash at the
      very end of the document closes it. */
  lemma {:induction false} StarCommentEnds(doc: bytes, pos: nat)
    requires pos <= |doc|
    ensures forall k: nat :: FirstClose(doc, pos, k) ==> CStyleEnd(doc, pos) == Scan(true, k + 2)
    ensures NeverCloses(doc, pos) ==>
      CStyleEnd(doc, pos) == Scan(pos < |doc| && doc[|doc| - 1] == 47, |doc|)
    decreases |doc| - pos
  {
    if pos + 1 < |doc| && !(doc[pos] == 42 && doc[pos + 1] == 47) {
      StarCommentEnds(doc, pos + 1);
      forall k: nat | FirstClose(doc, pos, k) ensures FirstClose(doc, pos + 1, k) {
      }
    }
  }

  /** No line ends from `pos` to `k`. */
  predicate OneLine(doc: bytes, pos: nat, k: nat) {
    pos <= k <= |doc| && forall j :: pos <= j < k ==> doc[j] != 10 && doc[j] != 13
  }

  /** A comment of slashes ends behind its line: a line feed, a carriage return, or both. */
  lemma {:induction false} LineCommentEnds(doc: bytes, pos: nat, k: nat)
    requires OneLine(doc, pos, k) && (k < |doc| ==> doc[k] == 10 || doc[k] == 13)
    ensures CppStyleEnd(doc, pos)
         == if k == |doc| then k else if doc[k] == 13 && k + 1 < |doc| && doc[k + 1] == 10 then k + 2 else k + 1
    decreases k - pos
  {
    if pos < k {
      LineCommentEnds(doc, pos + 1, k);
    }
  }

  /** A comment is a slash, or a quote where quotes are no strings, and a star or a slash. */
  lemma CommentsAre(doc: bytes, f: Features, start: nat)
    requires start < |doc|
    ensures var t, c := TokenAt(doc, f, start), doc[start];
            var second := if start + 1 < |doc| then doc[start + 1] else 0;
            t.kind.Comment? <==>
              && (c == 47 || (c == 39 && !f.allowSingleQuotes))
              && (second == 47 || (second == 42 && CStyleEnd(doc, start + 2).ok))
    ensures var t := TokenAt(doc, f, start);
            t.kind.Comment? ==>
              start + 1 < |doc| && t.end == if doc[start + 1] == 42 then CStyleEnd(doc, start + 2).end
                                            else CppStyleEnd(doc, start + 2)
  {
    hide ScanString, NumberEnd, MatchText, CStyleEnd, CppStyleEnd;
  }

  /** Everything but white space and what may begin a token is an error. */
  lemma ErrorsAre(doc: bytes, f: Features, pos: nat)
    requires pos < |doc| && doc[pos] !in {32, 9, 10, 13} && !(48 <= doc[pos] <= 57)
    requires doc[pos] !in {123, 125, 91, 93, 44, 58, 0, 34, 39, 47, 45, 116, 102, 110, 78, 73}
    ensures Lex(doc, f, pos) == Token(ErrorToken, pos, pos + 1)
  {
  }

  /** A collected comment has line feeds for its line breaks: one for a carriage return, with
      or without a line feed behind it, and everything else as it was. */
  lemma {:induction false} BreaksAreFeeds(line: bytes, rest: bytes)
    requires forall k :: 0 <= k < |line| ==> line[k] != 13
    ensures NormalizeEol(line) == line
    ensures NormalizeEol(line + [13, 10] + rest) == line + [10] + NormalizeEol(rest)
    ensures rest == [] || rest[0] != 10 ==> NormalizeEol(line + [13] + rest) == line + [10] + NormalizeEol(rest)
  {
    var two, one := line + [13, 10] + rest, line + [13] + rest;
    if line == [] {
      assert two[2..] == rest && one[1..] == rest;
    } else {
      BreaksAreFeeds(line[1..], rest);
      assert two[1..] == line[1..] + [13, 10] + rest && one[1..] == line[1..] + [13] + rest;
      assert [line[0]] + line[1..] == line;
      assert [line[0]] + (line[1..] + [10] + NormalizeEol(rest)) == line + [10] + NormalizeEol(rest);
    }
  }

  // ---------------------------------------------------------------- what stands between tokens

  /** White space and, where they are allowed, comments before a value do not matter. */
  lemma BlanksBeforeValue(inp: Input, v: Value, pos: nat)
    requires pos < |inp.doc| && inp.doc[pos] in {32, 9, 10, 13}
    ensures Spells(inp, v, pos) == Spells(inp, v, pos + 1)
  {
    hide Spells, NextToken;
    SkipsBlank(inp.doc, inp.features, pos);
    SameToken(inp, v, pos, pos + 1);
  }

  /** The token a value begins with says where the rest of it is to be looked for. */
  lemma SameToken(inp: Input, v: Value, p: nat, q: nat)
    requires p <= |inp.doc| && q <= |inp.doc|
    requires NextToken(inp.doc, inp.features, p) == NextToken(inp.doc, inp.features, q)
    ensures Spells(inp, v, p) == Spells(inp, v, q)
  {
    hide NextToken, SpellsItems, SpellsMembers, ScalarEnd, SkipSpaces;
  }

  lemma SkipsBlank(doc: bytes, f: Features, pos: nat)
    requires pos < |doc| && IsSpace(doc[pos])
    ensures Lex(doc, f, pos) == Lex(doc, f, pos + 1)
    ensures LexPastComments(doc, f, pos) == LexPastComments(doc, f, pos + 1)
    ensures NextToken(doc, f, pos) == NextToken(doc, f, pos + 1)
  {
    hide TokenAt;
  }

  lemma CommentBeforeValue(inp: Input, v: Value, pos: nat)
    requires pos <= |inp.doc| && inp.features.allowComments && Lex(inp.doc, inp.features, pos).kind.Comment?
    ensures Spells(inp, v, pos) == Spells(inp, v, Lex(inp.doc, inp.features, pos).end)
  {
    hide Spells, Lex, LexPastComments;
    PastOneComment(inp.doc, inp.features, pos);
    SameToken(inp, v, pos, Lex(inp.doc, inp.features, pos).end);
  }

  /** Where comments are not allowed no value begins with one. */
  lemma NoValueBehindComment(inp: Input, v: Value, pos: nat)
    requires pos <= |inp.doc| && !inp.features.allowComments && Lex(inp.doc, inp.features, pos).kind.Comment?
    ensures Spells(inp, v, pos) == None
  {
    hide Lex, SpellsItems, SpellsMembers, StringText, NumberValue;
  }

  /** Skipping to the end of a container stops right behind a closing token, or at the end. */
  lemma {:induction false} RecoverStops(doc: bytes, f: Features, pos: nat, until: Kind) returns (p: nat)
    requires pos <= |doc|
    ensures pos <= p <= |doc|
    ensures var t := Lex(doc, f, p);
            (t.kind == until || t.kind.EndOfStream?) && Recover(doc, f, pos, until) == t.end
    decreases |doc| - pos
  {
    hide Lex;
    var t := Lex(doc, f, pos);
    if t.kind == until || t.kind.EndOfStream? {
      p := pos;
    } else {
      p := RecoverStops(doc, f, t.end, until);
    }
  }
}
