/**
 What collecting comments does to reading: nothing, but that a comment opened by a quote
 can make the reader throw.
 */
module JsonComments {
  import opened Optional
  import opened Bytes
  import opened JsonText
  import opened JsonNumber
  import opened JsonValue
  import opened JsonGrammar
  import opened JsonDepth

  // ---------------------------------------------------------------- a quote opens the first comment

  /** The comments collected before the first value start with a quote. */
  predicate Quoted(notes: Notes) {
    notes.lastEnd == None && |notes.before| >= 2 && notes.before[0] == 39
  }

  lemma {:induction false} StaysQuoted(inp: Input, pos: nat, notes: Notes)
    requires pos <= |inp.doc| && Quoted(notes)
    ensures NotesPast(inp, pos, notes).Some? && Quoted(NotesPast(inp, pos, notes).value)
    decreases |inp.doc| - pos
  {
    hide Lex, NormalizeEol, Rejected, HasNewLine;
    var t := Lex(inp.doc, inp.features, pos);
    var n := Noted(inp, t, notes);
    if t.kind.Comment? {
      StaysQuoted(inp, t.end, n.value);
    }
  }

  lemma QuotedIsRejected(f: Features, notes: Notes)
    requires Collects(f) && Quoted(notes)
    ensures !Accepted(f, notes)
  {
  }

  /** The first token is a comment that a quote opens. */
  predicate LeadsWithQuote(inp: Input) {
    var t := Lex(inp.doc, inp.features, 0);
    t.kind.Comment? && inp.doc[t.start] == 39
  }

  lemma FirstCommentIsQuoted(inp: Input)
    requires Collects(inp.features) && LeadsWithQuote(inp)
    ensures var t := Lex(inp.doc, inp.features, 0);
            var n := Noted(inp, t, NO_NOTES); n.Some? && Quoted(n.value)
  {
    hide Lex, Rejected, HasNewLine;
    var t := Lex(inp.doc, inp.features, 0);
    assert OpensComment(inp.doc, inp.features, t);
    var comment := inp.doc[t.start..t.end];
    assert comment[0] == 39 && comment[1] == inp.doc[t.start + 1];
    assert NormalizeEol(comment) == [comment[0]] + NormalizeEol(comment[1..]);
    assert comment[1..][0] == comment[1];
    assert [] + NormalizeEol(comment) == NormalizeEol(comment);
  }

  /** Such a text throws. */
  lemma LeadingQuoteThrows(inp: Input, root: Node)
    requires Collects(inp.features) && LeadsWithQuote(inp)
    ensures ParseDocument(inp, root).Threw?
  {
    hide Lex, Noted, Accepted, Quoted, ParseMembers, ParseItems, ParseScalar;
    FirstCommentIsQuoted(inp);
    var t := Lex(inp.doc, inp.features, 0);
    var n := Noted(inp, t, NO_NOTES).value;
    StaysQuoted(inp, t.end, n);
    QuotedIsRejected(inp.features, NotesPast(inp, t.end, n).value);
  }

  /** No quote behind the first token's start opens a comment. */
  predicate QuotesLead(inp: Input) {
    var t := Lex(inp.doc, inp.features, 0);
    forall k :: t.start < k < |inp.doc| - 1 && inp.doc[k] == 39 ==> inp.doc[k + 1] != SLASH && inp.doc[k + 1] != STAR
  }

  /** An unfinished comment reaches to the end. */
  lemma {:induction false} UnfinishedComment(doc: bytes, pos: nat)
    requires pos <= |doc| && !CStyleEnd(doc, pos).ok
    ensures CStyleEnd(doc, pos).end == |doc|
    decreases |doc| - pos
  {
    if pos + 1 < |doc| {
      UnfinishedComment(doc, pos + 1);
    }
  }

  lemma UnfinishedQuote(inp: Input)
    requires !inp.features.allowSingleQuotes
    requires var t := Lex(inp.doc, inp.features, 0);
             && !t.kind.Comment? && t.start + 1 < |inp.doc| && inp.doc[t.start] == 39
             && (inp.doc[t.start + 1] == SLASH || inp.doc[t.start + 1] == STAR)
    ensures Lex(inp.doc, inp.features, 0).kind.ErrorToken? && Lex(inp.doc, inp.features, 0).end == |inp.doc|
  {
    hide CStyleEnd, CppStyleEnd;
    var p := SkipSpaces(inp.doc, 0);
    if !CStyleEnd(inp.doc, p + 2).ok {
      UnfinishedComment(inp.doc, p + 2);
    }
  }

  /** Nothing but an unfinished comment is an error and no exception. */
  lemma UnfinishedDoesNotThrow(inp: Input, root: Node)
    requires inp.features.stackLimit > 0
    requires Lex(inp.doc, inp.features, 0).kind.ErrorToken? && Lex(inp.doc, inp.features, 0).end == |inp.doc|
    ensures ParseDocument(inp, root).Finished?
  {
    hide TokenAt, ParseMembers, ParseItems;
    assert Lex(inp.doc, inp.features, |inp.doc|).kind.EndOfStream?;
  }

  /** A shallow text in which no quote but the first character of the first token can open
      a comment throws exactly if the first token is such a comment. */
  lemma LeadingQuoteExactly(inp: Input, root: Node)
    requires Collects(inp.features) && !inp.features.allowSingleQuotes && QuotesLead(inp)
    requires ShortKeys(inp) && Opens(inp.doc, 0) < inp.features.stackLimit
    ensures ParseDocument(inp, root).Threw? <==> LeadsWithQuote(inp)
  {
    hide TokenAt, ParseDocument, ShortKeys, Opens;
    var t := Lex(inp.doc, inp.features, 0);
    if LeadsWithQuote(inp) {
      LeadingQuoteThrows(inp, root);
    } else if t.start + 1 < |inp.doc| && inp.doc[t.start] == 39
              && (inp.doc[t.start + 1] == SLASH || inp.doc[t.start + 1] == STAR) {
      UnfinishedQuote(inp);
      UnfinishedDoesNotThrow(inp, root);
    } else {
      StartIsFirst(inp);
      assert NoQuotedComment(inp.doc);
      ShallowTextsDoNotThrow(inp, root);
    }
  }

  lemma StartIsFirst(inp: Input)
    ensures var t := Lex(inp.doc, inp.features, 0);
            t.start == SkipSpaces(inp.doc, 0) && forall k :: 0 <= k < t.start ==> inp.doc[k] != 39
  {
    hide TokenAt;
  }

  /** An empty object behind a comment of a quote, two stars and a slash. */
  const QUOTED_COMMENT: bytes := [39, STAR, STAR, SLASH, LBRACE, RBRACE]

  lemma QuotedCommentThrows(inp: Input, root: Node)
    requires inp.doc == QUOTED_COMMENT && inp.features == DEFAULT_FEATURES
    ensures Lex(inp.doc, inp.features, 0) == Token(Comment, 0, 4)
    ensures ParseDocument(inp, root).Threw?
  {
    hide ParseDocument;
    assert CStyleEnd(inp.doc, 2) == Scan(true, 4);
    assert SkipSpaces(inp.doc, 0) == 0;
    LeadingQuoteThrows(inp, root);
  }

  // ---------------------------------------------------------------- collecting or not

  function Off(f: Features): Features {
    f.(collectComments := false)
  }

  function Uncollected(inp: Input): Input {
    inp.(features := Off(inp.features))
  }

  lemma LexSame(doc: bytes, f: Features, pos: nat)
    requires pos <= |doc|
    ensures Lex(doc, Off(f), pos) == Lex(doc, f, pos)
  {
    hide SkipSpaces, ScanString, ScanComment, NumberEnd, MatchText;
  }

  lemma {:induction false} LexPastSame(doc: bytes, f: Features, pos: nat)
    requires pos <= |doc|
    ensures LexPastComments(doc, Off(f), pos) == LexPastComments(doc, f, pos)
    decreases |doc| - pos
  {
    hide Lex;
    LexSame(doc, f, pos);
    var t := Lex(doc, f, pos);
    if t.kind.Comment? {
      LexPastSame(doc, f, t.end);
    }
  }

  lemma NextSame(doc: bytes, f: Features, pos: nat)
    requires pos <= |doc|
    ensures NextToken(doc, Off(f), pos) == NextToken(doc, f, pos)
  {
    hide Lex, LexPastComments;
    LexSame(doc, f, pos);
    LexPastSame(doc, f, pos);
  }

  lemma {:induction false} RecoverSame(doc: bytes, f: Features, pos: nat, until: Kind)
    requires pos <= |doc|
    ensures Recover(doc, Off(f), pos, until) == Recover(doc, f, pos, until)
    decreases |doc| - pos
  {
    hide Lex;
    LexSame(doc, f, pos);
    var t := Lex(doc, f, pos);
    if t.kind != until && !t.kind.EndOfStream? {
      RecoverSame(doc, f, t.end, until);
    }
  }

  /** Nothing is noted. */
  lemma {:induction false} NothingPast(inp: Input, pos: nat, notes: Notes)
    requires pos <= |inp.doc| && !Collects(inp.features)
    ensures NotesPast(inp, pos, notes) == NotesNext(inp, pos, notes) == Some(notes)
    decreases |inp.doc| - pos
  {
    hide Lex;
    var t := Lex(inp.doc, inp.features, pos);
    if t.kind.Comment? {
      NothingPast(inp, t.end, notes);
    }
  }

  lemma {:induction false} NothingRecovered(inp: Input, pos: nat, until: Kind, notes: Notes)
    requires pos <= |inp.doc| && !Collects(inp.features)
    ensures NotesRecover(inp, pos, until, notes) == Some(notes)
    decreases |inp.doc| - pos
  {
    hide Lex;
    var t := Lex(inp.doc, inp.features, pos);
    if t.kind != until && !t.kind.EndOfStream? {
      NothingRecovered(inp, t.end, until, notes);
    }
  }

  /** Without collecting the reading is the same, as far as it went. */
  predicate SameReading(r: Parsed, q: Parsed) {
    r.Parsed? ==> q == r.(notes := NO_NOTES)
  }

  lemma FailPastSame(inp: Input, node: Node, errors: seq<ReadError>, pos: nat, until: Kind, notes: Notes)
    requires pos <= |inp.doc|
    ensures SameReading(FailPast(inp, node, errors, pos, until, notes),
                        FailPast(Uncollected(inp), node, errors, pos, until, NO_NOTES))
  {
    hide NotesRecover, Recover;
    RecoverSame(inp.doc, inp.features, pos, until);
    NothingRecovered(Uncollected(inp), pos, until, NO_NOTES);
  }

  lemma NameSame(inp: Input, t: Token)
    requires t.start <= t.end <= |inp.doc| && (t.kind.StringToken? ==> t.end >= t.start + 2)
    ensures NameOf(Uncollected(inp), t) == NameOf(inp, t)
  {
    hide StringText, NumeralOf, KeyText;
    assert forall v :: KeyText(Uncollected(inp), v) == KeyText(inp, v) by {
      forall v ensures KeyText(Uncollected(inp), v) == KeyText(inp, v) {
        KeySame(inp, v);
      }
    }
  }

  lemma KeySame(inp: Input, v: Value)
    ensures KeyText(Uncollected(inp), v) == KeyText(inp, v)
  {
  }

  lemma EndSame(inp: Input, r: Parsed)
    requires r.Parsed?
    ensures SameReading(ValueEnd(inp, r), ValueEnd(Uncollected(inp), r.(notes := NO_NOTES)))
  {
  }

  lemma NumberSame(inp: Input, text: bytes)
    ensures NumberValue(Uncollected(inp), text) == NumberValue(inp, text)
  {
    hide NumeralOf;
  }

  lemma LeafSame(inp: Input, t: Token, notes: Notes)
    ensures forall v :: SameReading(LeafRead(inp, t, v, notes), LeafRead(Uncollected(inp), t, v, NO_NOTES))
  {
    hide ValueEnd;
    forall v ensures SameReading(LeafRead(inp, t, v, notes), LeafRead(Uncollected(inp), t, v, NO_NOTES)) {
      EndSame(inp, Parsed(true, LeafAt(t, v), t.end, [], notes));
    }
  }

  lemma ScalarSame(inp: Input, t: Token, notes: Notes, slot: Node)
    requires t.start <= t.end <= |inp.doc| && (t.kind.StringToken? ==> t.end >= t.start + 2)
    ensures SameReading(ParseScalar(inp, t, notes, slot), ParseScalar(Uncollected(inp), t, NO_NOTES, slot))
  {
    hide StringText, NumberValue, ValueEnd, LeafRead;
    LeafSame(inp, t, notes);
    NumberSame(inp, Text(inp.doc, t));
    EndSame(inp, Fail(slot, ErrorAt(NotANumber, t), t.end, notes));
    if t.kind.StringToken? && StringText(inp.doc, t).Malformed? {
      EndSame(inp, Fail(slot, ErrorAt(StringText(inp.doc, t).error, t), t.end, notes));
    }
    EndSame(inp, Parsed(true, Node(t.start - 1, t.start, Leaf(Null)), t.start, [], notes));
  }

  lemma {:induction false} ValueSame(inp: Input, pos: nat, notes: Notes, depth: nat, slot: Node)
    requires pos <= |inp.doc|
    ensures SameReading(ParseValue(inp, pos, notes, depth, slot),
        ParseValue(Uncollected(inp), pos, NO_NOTES, depth, slot))
    decreases |inp.doc| - pos, 0
  {
    hide NextToken, NotesNext, NotesPast, Accepted, ParseMembers, ParseItems, ParseScalar;
    var off := Uncollected(inp);
    NextSame(inp.doc, inp.features, pos);
    NothingPast(off, pos, NO_NOTES);
    NothingCleared(off.features);
    var t, n := NextToken(inp.doc, inp.features, pos), NotesNext(inp, pos, notes);
    if depth <= inp.features.stackLimit && n.Some? {
      var cleared := Cleared(inp.features, n.value);
      if t.kind.ObjectBegin? {
        MembersSame(inp, t.end, cleared, depth, Node(t.start, slot.limit, Fields([])), []);
      } else if t.kind.ArrayBegin? {
        ItemsSame(inp, t.end, cleared, depth, Node(t.start, slot.limit, Items([])));
      } else {
        ScalarSame(inp, t, cleared, slot);
      }
    }
  }

  lemma NothingCleared(f: Features)
    ensures Accepted(f, NO_NOTES) && Cleared(f, NO_NOTES) == NO_NOTES
  {
  }

  lemma {:induction false} MembersSame(inp: Input, pos: nat, notes: Notes, depth: nat, node: Node, name: bytes)
    requires pos <= |inp.doc| && node.body.Fields?
    ensures SameReading(ParseMembers(inp, pos, notes, depth, node, name),
                        ParseMembers(Uncollected(inp), pos, NO_NOTES, depth, node, name))
    decreases |inp.doc| - pos, 1
  {
    hide LexPastComments, NotesPast, NotesNext, NameOf, FailPast, Lookup, ParseMember;
    var off := Uncollected(inp);
    LexPastSame(inp.doc, inp.features, pos);
    NothingPast(off, pos, NO_NOTES);
    var t, n := LexPastComments(inp.doc, inp.features, pos), NotesPast(inp, pos, notes);
    NameSame(inp, t);
    if n.Some? {
      match NameOf(inp, t) {
        case NoName => FailPastSame(inp, node, [ErrorAt(MissingBraceOrName, t)], t.end, ObjectEnd, n.value);
        case BadName(e) => FailPastSame(inp, node, [ErrorAt(e, t)], t.end, ObjectEnd, n.value);
        case Named(key) =>
          FailPastSame(inp, node, [ErrorAt(DuplicateKey(key), t)], t.end, ObjectEnd, n.value);
          NamedMoves(inp, t);
          MemberSame(inp, t.end, n.value, depth, node, key);
      }
    }
  }

  lemma NamedMoves(inp: Input, t: Token)
    requires t.start <= t.end <= |inp.doc| && (t.kind.StringToken? ==> t.end >= t.start + 2)
    requires NameOf(inp, t).Named? && (t.start == t.end ==> t.kind.EndOfStream?)
    ensures t.start < t.end
  {
  }

  lemma {:induction false} MemberSame(inp: Input, pos: nat, notes: Notes, depth: nat, node: Node, key: bytes)
    requires pos <= |inp.doc| && node.body.Fields?
    ensures SameReading(ParseMember(inp, pos, notes, depth, node, key),
                        ParseMember(Uncollected(inp), pos, NO_NOTES, depth, node, key))
    decreases |inp.doc| - pos, 2
  {
    hide Lex, FailPast, Lookup, Put, ParseValue, ParseAfterMember, OnSameLine, NormalizeEol, Rejected;
    LexSame(inp.doc, inp.features, pos);
    var colon := Lex(inp.doc, inp.features, pos);
    var n := Noted(inp, colon, notes);
    if n.Some? {
      FailPastSame(inp, node, [ErrorAt(MissingColon, colon)], colon.end, ObjectEnd, n.value);
      if colon.kind.MemberSeparator? {
        var known := Lookup(node.body.fields, key);
        var slot := if known.Some? then known.value else NULL_NODE;
        ValueSame(inp, colon.end, n.value, depth + 1, slot);
        var r := ParseValue(inp, colon.end, n.value, depth + 1, slot);
        if r.Parsed? {
          var node' := node.(body := Fields(Put(node.body.fields, key, r.node)));
          FailPastSame(inp, node', r.errors, r.pos, ObjectEnd, r.notes);
          AfterMemberSame(inp, r.pos, r.notes, depth, node', key);
        }
      }
    }
  }

  lemma {:induction false} AfterMemberSame(inp: Input, pos: nat, notes: Notes, depth: nat, node: Node, name: bytes)
    requires pos <= |inp.doc| && node.body.Fields?
    ensures SameReading(ParseAfterMember(inp, pos, notes, depth, node, name),
                        ParseAfterMember(Uncollected(inp), pos, NO_NOTES, depth, node, name))
    decreases |inp.doc| - pos, 2
  {
    hide Lex, LexPastComments, NotesPast, NotesNext, FailPast, ParseMembers, OnSameLine, NormalizeEol, Rejected;
    LexSame(inp.doc, inp.features, pos);
    var after := Lex(inp.doc, inp.features, pos);
    var n := Noted(inp, after, notes);
    if n.Some? {
      FailPastSame(inp, node, [ErrorAt(MissingCommaOrBrace, after)], after.end, ObjectEnd, n.value);
      if after.kind.ObjectEnd? || after.kind.ArraySeparator? || after.kind.Comment? {
        LexPastSame(inp.doc, inp.features, after.end);
        NothingPast(Uncollected(inp), after.end, NO_NOTES);
        var comma := if after.kind.Comment? then LexPastComments(inp.doc, inp.features, after.end) else after;
        var m := if after.kind.Comment? then NotesPast(inp, after.end, n.value) else n;
        if m.Some? {
          MembersSame(inp, comma.end, m.value, depth, node, name);
        }
      }
    }
  }

  lemma {:induction false} ItemsSame(inp: Input, pos: nat, notes: Notes, depth: nat, node: Node)
    requires pos <= |inp.doc| && node.body.Items?
    ensures SameReading(ParseItems(inp, pos, notes, depth, node),
                        ParseItems(Uncollected(inp), pos, NO_NOTES, depth, node))
    decreases |inp.doc| - pos, 2
  {
    hide SkipSpaces, ParseElements;
    ElementsSame(inp, SkipSpaces(inp.doc, pos), notes, depth, node);
  }

  lemma {:induction false} ElementsSame(inp: Input, pos: nat, notes: Notes, depth: nat, node: Node)
    requires pos <= |inp.doc| && node.body.Items?
    ensures SameReading(ParseElements(inp, pos, notes, depth, node),
                        ParseElements(Uncollected(inp), pos, NO_NOTES, depth, node))
    decreases |inp.doc| - pos, 1
  {
    hide FailPast, ParseValue, ParseAfterElement;
    ValueSame(inp, pos, notes, depth + 1, NULL_NODE);
    var r := ParseValue(inp, pos, notes, depth + 1, NULL_NODE);
    if r.Parsed? {
      var node' := node.(body := Items(node.body.items + [r.node]));
      FailPastSame(inp, node', r.errors, r.pos, ArrayEnd, r.notes);
      if r.ok {
        AfterElementSame(inp, r.pos, r.notes, depth, node');
      }
    }
  }

  lemma {:induction false} AfterElementSame(inp: Input, pos: nat, notes: Notes, depth: nat, node: Node)
    requires pos <= |inp.doc| && node.body.Items?
    ensures SameReading(ParseAfterElement(inp, pos, notes, depth, node),
                        ParseAfterElement(Uncollected(inp), pos, NO_NOTES, depth, node))
    decreases |inp.doc| - pos, 0
  {
    hide LexPastComments, NotesPast, NotesNext, FailPast, ParseElements;
    LexPastSame(inp.doc, inp.features, pos);
    NothingPast(Uncollected(inp), pos, NO_NOTES);
    var t, n := LexPastComments(inp.doc, inp.features, pos), NotesPast(inp, pos, notes);
    if n.Some? {
      FailPastSame(inp, node, [ErrorAt(MissingCommaOrBracket, t)], t.end, ArrayEnd, n.value);
      if t.kind.ArraySeparator? {
        ElementsSame(inp, t.end, n.value, depth, node);
      }
    }
  }

  /** Whatever the text, collecting its comments changes neither the root nor the errors;
      all it can do is throw. */
  lemma CollectingOnlyThrows(inp: Input, root: Node)
    requires ParseDocument(inp, root).Finished?
    ensures ParseDocument(Uncollected(inp), root) == ParseDocument(inp, root)
  {
    hide NextToken, NotesNext, NotesPast, ParseValue, Rejected;
    ValueSame(inp, 0, NO_NOTES, 1, root);
    var r := ParseValue(inp, 0, NO_NOTES, 1, root);
    NextSame(inp.doc, inp.features, r.pos);
    NothingPast(Uncollected(inp), r.pos, NO_NOTES);
  }
}
