/**
 When the reader throws on any text at all: only if at least as many brackets and braces
 open in it as the stack may hold nodes, or a quote opens a comment in it, or it is long
 enough for an oversized key or string.
 */
module JsonDepth {
  import opened Optional
  import opened Bytes
  import opened JsonText
  import opened JsonNumber
  import opened JsonValue
  import opened JsonGrammar

  // ---------------------------------------------------------------- brackets

  predicate IsOpening(b: byte) {
    b == LBRACKET || b == LBRACE
  }

  /** How many opening brackets and braces stand from `pos` on, in strings and comments too. */
  function Opens(doc: bytes, pos: nat): nat
    requires pos <= |doc|
    decreases |doc| - pos
  {
    if pos == |doc| then 0 else (if IsOpening(doc[pos]) then 1 else 0) + Opens(doc, pos + 1)
  }

  lemma {:induction false} OpensLater(doc: bytes, from: nat, pos: nat)
    requires from <= pos <= |doc|
    ensures Opens(doc, pos) <= Opens(doc, from)
    ensures from < pos && IsOpening(doc[pos - 1]) ==> Opens(doc, pos) < Opens(doc, from)
    decreases pos - from
  {
    if from < pos {
      OpensLater(doc, from + 1, pos);
    }
  }

  /** A part of a text opens no more than the text. */
  lemma {:induction false} OpensOfPart(doc: bytes, from: nat, end: nat, pos: nat)
    requires from <= pos <= end <= |doc|
    ensures Opens(doc[from..end], pos - from) <= Opens(doc, pos)
    decreases end - pos
  {
    if pos < end {
      assert doc[from..end][pos - from] == doc[pos];
      OpensOfPart(doc, from, end, pos + 1);
    }
  }

  lemma OpeningToken(doc: bytes, f: Features, pos: nat)
    requires pos <= |doc|
    ensures var t := Lex(doc, f, pos);
            t.kind.ArrayBegin? || t.kind.ObjectBegin? ==> t.end == t.start + 1 && IsOpening(doc[t.start])
  {
    hide SkipSpaces, ScanString, ScanComment, NumberEnd, MatchText;
  }

  lemma {:induction false} OpeningPastComments(doc: bytes, f: Features, pos: nat)
    requires pos <= |doc|
    ensures var t := LexPastComments(doc, f, pos);
            t.kind.ArrayBegin? || t.kind.ObjectBegin? ==> t.end == t.start + 1 && IsOpening(doc[t.start])
    decreases |doc| - pos
  {
    hide Lex;
    OpeningToken(doc, f, pos);
    var t := Lex(doc, f, pos);
    if t.kind.Comment? {
      OpeningPastComments(doc, f, t.end);
    }
  }

  /** Behind an opening token there is one opening less. */
  lemma OpeningCounts(doc: bytes, f: Features, pos: nat)
    requires pos <= |doc|
    ensures var t := NextToken(doc, f, pos);
            t.kind.ArrayBegin? || t.kind.ObjectBegin? ==> Opens(doc, t.end) < Opens(doc, pos)
  {
    hide Lex, LexPastComments, Opens;
    OpeningToken(doc, f, pos);
    OpeningPastComments(doc, f, pos);
    OpensLater(doc, pos, NextToken(doc, f, pos).end);
  }

  // ---------------------------------------------------------------- keys

  lemma {:induction false} UnescapeShrinks(t: bytes)
    ensures UnescapeText(t).Unescaped? ==> |UnescapeText(t).text| <= |t|
    decreases |t|
  {
    hide UnicodeEscape;
    if t == [] || t[0] == QUOTE {
    } else if t[0] != BACKSLASH {
      UnescapeShrinks(t[1..]);
    } else if |t| > 1 && SimpleEscape(t[1]) != 0 {
      UnescapeShrinks(t[2..]);
    } else if |t| > 1 && t[1] == 117 && UnicodeCodePoint(t[2..]).CodePoint? {
      UnescapeShrinks(t[2 + UnicodeCodePoint(t[2..]).used..]);
    }
  }

  /** No key of a text below 2^30 bytes is too long, if numbers used as keys are not. */
  ghost predicate ShortKeys(inp: Input) {
    && |inp.doc| < MAX_KEY
    && (inp.features.allowNumericKeys ==> forall d :: |inp.showDouble(d)| < MAX_KEY)
  }

  lemma KeyIsShort(inp: Input, t: Token)
    requires ShortKeys(inp) && t.start <= t.end <= |inp.doc| && (t.kind.StringToken? ==> t.end >= t.start + 2)
    ensures NameOf(inp, t).Named? ==>
      |NameOf(inp, t).text| < MAX_KEY && (t.kind.StringToken? || t.kind.NumberToken?)
  {
    hide UnescapeText, NumeralOf, Digits;
    if t.kind.StringToken? {
      UnescapeShrinks(inp.doc[t.start + 1..t.end - 1]);
    } else if t.kind.NumberToken? {
      NumberIsShort(Text(inp.doc, t));
    }
  }

  lemma NumberIsShort(text: bytes)
    ensures match NumeralOf(text, MAX_INT64)
            case Signed(i) => |IntText(i)| <= 21
            case Unsigned(u) => |Digits(u)| <= 20
            case ByDouble => true
  {
    hide Digits;
    if IsInteger(text) {
      var i := Amount(text);
      DigitsFit(if i < 0 then -i else i);
    }
  }

  // ---------------------------------------------------------------- comments

  /** No quote opens a comment. */
  predicate NoQuotedComment(doc: bytes) {
    forall k :: 0 <= k < |doc| - 1 && doc[k] == 39 ==> doc[k + 1] != SLASH && doc[k + 1] != STAR
  }

  /** Every comment the reader collects starts with a slash. */
  predicate SlashComments(inp: Input) {
    Collects(inp.features) && !inp.features.allowSingleQuotes ==> NoQuotedComment(inp.doc)
  }

  /** The collected comments start with a slash and are not just a line break. */
  predicate Settable(notes: Notes) {
    notes.before == [] || (|notes.before| >= 2 && notes.before[0] == SLASH)
  }

  lemma SettableIsAccepted(f: Features, notes: Notes)
    requires Settable(notes)
    ensures Accepted(f, notes) && Settable(Cleared(f, notes))
  {
  }

  lemma CommentIsSettable(comment: bytes)
    requires |comment| >= 2 && comment[0] == SLASH && (comment[1] == STAR || comment[1] == SLASH)
    ensures |NormalizeEol(comment)| >= 2 && NormalizeEol(comment)[0] == SLASH && !Rejected(NormalizeEol(comment))
  {
    assert NormalizeEol(comment) == [SLASH] + NormalizeEol(comment[1..]);
    assert comment[1..][0] == comment[1];
  }

  lemma NotedIsSettable(inp: Input, pos: nat, notes: Notes)
    requires SlashComments(inp) && Settable(notes) && pos <= |inp.doc|
    ensures var n := Noted(inp, Lex(inp.doc, inp.features, pos), notes); n.Some? && Settable(n.value)
  {
    hide Lex, NormalizeEol, Rejected, OnSameLine;
    var t := Lex(inp.doc, inp.features, pos);
    if t.kind.Comment? && Collects(inp.features) {
      assert inp.doc[t.start] == SLASH by {
        assert OpensComment(inp.doc, inp.features, t);
      }
      var comment := inp.doc[t.start..t.end];
      assert comment[0] == SLASH && comment[1] == inp.doc[t.start + 1];
      CommentIsSettable(comment);
    }
  }

  lemma {:induction false} NotesPastSettable(inp: Input, pos: nat, notes: Notes)
    requires SlashComments(inp) && Settable(notes) && pos <= |inp.doc|
    ensures NotesPast(inp, pos, notes).Some? && Settable(NotesPast(inp, pos, notes).value)
    decreases |inp.doc| - pos
  {
    hide Lex, Noted, Settable, SlashComments;
    NotedIsSettable(inp, pos, notes);
    var t := Lex(inp.doc, inp.features, pos);
    if t.kind.Comment? {
      NotesPastSettable(inp, t.end, Noted(inp, t, notes).value);
    }
  }

  lemma NotesNextSettable(inp: Input, pos: nat, notes: Notes)
    requires SlashComments(inp) && Settable(notes) && pos <= |inp.doc|
    ensures NotesNext(inp, pos, notes).Some? && Settable(NotesNext(inp, pos, notes).value)
  {
    hide Lex, Noted, NotesPast, Settable, SlashComments;
    NotedIsSettable(inp, pos, notes);
    NotesPastSettable(inp, pos, notes);
  }

  lemma {:induction false} RecoverSettable(inp: Input, pos: nat, until: Kind, notes: Notes)
    requires SlashComments(inp) && Settable(notes) && pos <= |inp.doc|
    ensures NotesRecover(inp, pos, until, notes).Some? && Settable(NotesRecover(inp, pos, until, notes).value)
    decreases |inp.doc| - pos
  {
    hide Lex, Noted, Settable, SlashComments;
    NotedIsSettable(inp, pos, notes);
    var t := Lex(inp.doc, inp.features, pos);
    if t.kind != until && !t.kind.EndOfStream? {
      RecoverSettable(inp, t.end, until, Noted(inp, t, notes).value);
    }
  }

  lemma FailPastSettable(inp: Input, node: Node, errors: seq<ReadError>, pos: nat, until: Kind, notes: Notes)
    requires SlashComments(inp) && Settable(notes) && pos <= |inp.doc|
    ensures var r := FailPast(inp, node, errors, pos, until, notes); r.Parsed? && Settable(r.notes)
  {
    hide NotesRecover, Settable, SlashComments;
    RecoverSettable(inp, pos, until, notes);
  }

  // ---------------------------------------------------------------- what it takes to throw

  /** Neither a key or a string nor a comment of the text makes the reader throw. */
  ghost predicate Harmless(inp: Input) {
    ShortKeys(inp) && SlashComments(inp)
  }

  /** Enough brackets open from `pos` on to fill the stack. */
  predicate Overflows(inp: Input, pos: nat, depth: nat)
    requires pos <= |inp.doc|
  {
    depth + Opens(inp.doc, pos) > inp.features.stackLimit
  }

  lemma OverflowsEarlier(inp: Input, from: nat, pos: nat, depth: nat)
    requires from <= pos <= |inp.doc| && Overflows(inp, pos, depth)
    ensures Overflows(inp, from, depth)
  {
    OpensLater(inp.doc, from, pos);
  }

  /** The reader threw for want of stack, or it has nothing but settable comments. */
  predicate FullOrFine(inp: Input, r: Parsed, pos: nat, depth: nat)
    requires pos <= |inp.doc|
  {
    if r.Thrown? then Overflows(inp, pos, depth) else Settable(r.notes)
  }

  lemma ScalarIsFine(inp: Input, t: Token, notes: Notes, slot: Node)
    requires Harmless(inp) && Settable(notes) && t.start <= t.end <= |inp.doc|
    requires t.kind.StringToken? ==> t.end >= t.start + 2
    ensures var r := ParseScalar(inp, t, notes, slot); r.Parsed? && Settable(r.notes)
  {
    hide UnescapeText, NumberValue, SlashComments;
    if t.kind.StringToken? {
      UnescapeShrinks(inp.doc[t.start + 1..t.end - 1]);
    }
  }

  lemma {:induction false} ValueThrows(inp: Input, pos: nat, notes: Notes, depth: nat, slot: Node)
    requires Harmless(inp) && Settable(notes) && pos <= |inp.doc|
    ensures FullOrFine(inp, ParseValue(inp, pos, notes, depth, slot), pos, depth)
    decreases |inp.doc| - pos, 0
  {
    hide ShortKeys, SlashComments, NextToken, NotesNext, Accepted, ParseMembers, ParseItems, ParseScalar, Opens;
    if depth <= inp.features.stackLimit {
      OpeningCounts(inp.doc, inp.features, pos);
      NotesNextSettable(inp, pos, notes);
      var t, n := NextToken(inp.doc, inp.features, pos), NotesNext(inp, pos, notes).value;
      SettableIsAccepted(inp.features, n);
      var cleared := Cleared(inp.features, n);
      if t.kind.ObjectBegin? {
        MembersThrow(inp, t.end, cleared, depth, Node(t.start, slot.limit, Fields([])), []);
      } else if t.kind.ArrayBegin? {
        ItemsThrow(inp, t.end, cleared, depth, Node(t.start, slot.limit, Items([])));
      } else {
        ScalarIsFine(inp, t, cleared, slot);
      }
    }
  }

  lemma {:induction false} MembersThrow(inp: Input, pos: nat, notes: Notes, depth: nat, node: Node, name: bytes)
    requires Harmless(inp) && Settable(notes) && pos <= |inp.doc| && node.body.Fields?
    ensures FullOrFine(inp, ParseMembers(inp, pos, notes, depth, node, name), pos, depth + 1)
    decreases |inp.doc| - pos, 1
  {
    hide ShortKeys, SlashComments, LexPastComments, NotesPast, NameOf, FailPast, Lookup, ParseMember, Overflows,
      Settable;
    var t := LexPastComments(inp.doc, inp.features, pos);
    NotesPastSettable(inp, pos, notes);
    var n := NotesPast(inp, pos, notes).value;
    KeyIsShort(inp, t);
    if t.kind.ObjectEnd? && name == [] {
    } else if NameOf(inp, t).Named? {
      var key := NameOf(inp, t).text;
      FailPastSettable(inp, node, [ErrorAt(DuplicateKey(key), t)], t.end, ObjectEnd, n);
      MemberThrows(inp, t.end, n, depth, node, key);
      Earlier(inp, ParseMember(inp, t.end, n, depth, node, key), pos, t.end, depth + 1);
    } else {
      FailPastSettable(inp, node, [ErrorAt(MissingBraceOrName, t)], t.end, ObjectEnd, n);
      if NameOf(inp, t).BadName? {
        FailPastSettable(inp, node, [ErrorAt(NameOf(inp, t).error, t)], t.end, ObjectEnd, n);
      }
    }
  }

  lemma Earlier(inp: Input, r: Parsed, from: nat, pos: nat, depth: nat)
    requires from <= pos <= |inp.doc| && FullOrFine(inp, r, pos, depth)
    ensures FullOrFine(inp, r, from, depth)
  {
    hide Overflows, Settable;
    if r.Thrown? {
      OverflowsEarlier(inp, from, pos, depth);
    }
  }

  lemma {:induction false} MemberThrows(inp: Input, pos: nat, notes: Notes, depth: nat, node: Node, key: bytes)
    requires Harmless(inp) && Settable(notes) && pos <= |inp.doc| && node.body.Fields?
    ensures FullOrFine(inp, ParseMember(inp, pos, notes, depth, node, key), pos, depth + 1)
    decreases |inp.doc| - pos, 2
  {
    hide ShortKeys, SlashComments, Lex, Noted, FailPast, Lookup, Put, ParseValue, ParseAfterMember, Overflows, Settable;
    var colon := Lex(inp.doc, inp.features, pos);
    NotedIsSettable(inp, pos, notes);
    var n := Noted(inp, colon, notes).value;
    FailPastSettable(inp, node, [ErrorAt(MissingColon, colon)], colon.end, ObjectEnd, n);
    if colon.kind.MemberSeparator? {
      var known := Lookup(node.body.fields, key);
      var slot := if known.Some? then known.value else NULL_NODE;
      var r := ParseValue(inp, colon.end, n, depth + 1, slot);
      ValueThrows(inp, colon.end, n, depth + 1, slot);
      Earlier(inp, r, pos, colon.end, depth + 1);
      if r.Parsed? {
        var node' := node.(body := Fields(Put(node.body.fields, key, r.node)));
        if r.ok {
          AfterMemberThrows(inp, r.pos, r.notes, depth, node', key);
          Earlier(inp, ParseAfterMember(inp, r.pos, r.notes, depth, node', key), pos, r.pos, depth + 1);
        } else {
          FailPastSettable(inp, node', r.errors, r.pos, ObjectEnd, r.notes);
        }
      }
    }
  }

  lemma {:induction false} AfterMemberThrows(inp: Input, pos: nat, notes: Notes, depth: nat, node: Node, name: bytes)
    requires Harmless(inp) && Settable(notes) && pos <= |inp.doc| && node.body.Fields?
    ensures FullOrFine(inp, ParseAfterMember(inp, pos, notes, depth, node, name), pos, depth + 1)
    decreases |inp.doc| - pos, 2
  {
    hide ShortKeys, SlashComments, Lex, LexPastComments, Noted, NotesPast, FailPast, ParseMembers, Overflows, Settable;
    var after := Lex(inp.doc, inp.features, pos);
    NotedIsSettable(inp, pos, notes);
    var n := Noted(inp, after, notes).value;
    FailPastSettable(inp, node, [ErrorAt(MissingCommaOrBrace, after)], after.end, ObjectEnd, n);
    if after.kind.ObjectEnd? || after.kind.ArraySeparator? || after.kind.Comment? {
      NotesPastSettable(inp, after.end, n);
      var comma := if after.kind.Comment? then LexPastComments(inp.doc, inp.features, after.end) else after;
      var m := if after.kind.Comment? then NotesPast(inp, after.end, n).value else n;
      if !comma.kind.ObjectEnd? {
        MembersThrow(inp, comma.end, m, depth, node, name);
        Earlier(inp, ParseMembers(inp, comma.end, m, depth, node, name), pos, comma.end, depth + 1);
      }
    }
  }

  lemma {:induction false} ItemsThrow(inp: Input, pos: nat, notes: Notes, depth: nat, node: Node)
    requires Harmless(inp) && Settable(notes) && pos <= |inp.doc| && node.body.Items?
    ensures FullOrFine(inp, ParseItems(inp, pos, notes, depth, node), pos, depth + 1)
    decreases |inp.doc| - pos, 2
  {
    hide ShortKeys, SlashComments, SkipSpaces, ParseElements, Overflows, Settable;
    var p := SkipSpaces(inp.doc, pos);
    ElementsThrow(inp, p, notes, depth, node);
    Earlier(inp, ParseElements(inp, p, notes, depth, node), pos, p, depth + 1);
  }

  lemma {:induction false} ElementsThrow(inp: Input, pos: nat, notes: Notes, depth: nat, node: Node)
    requires Harmless(inp) && Settable(notes) && pos <= |inp.doc| && node.body.Items?
    ensures FullOrFine(inp, ParseElements(inp, pos, notes, depth, node), pos, depth + 1)
    decreases |inp.doc| - pos, 1
  {
    hide ShortKeys, SlashComments, FailPast, ParseValue, ParseAfterElement, Overflows, Settable;
    var r := ParseValue(inp, pos, notes, depth + 1, NULL_NODE);
    ValueThrows(inp, pos, notes, depth + 1, NULL_NODE);
    if r.Parsed? {
      var node' := node.(body := Items(node.body.items + [r.node]));
      if r.ok {
        AfterElementThrows(inp, r.pos, r.notes, depth, node');
        Earlier(inp, ParseAfterElement(inp, r.pos, r.notes, depth, node'), pos, r.pos, depth + 1);
      } else {
        FailPastSettable(inp, node', r.errors, r.pos, ArrayEnd, r.notes);
      }
    }
  }

  lemma {:induction false} AfterElementThrows(inp: Input, pos: nat, notes: Notes, depth: nat, node: Node)
    requires Harmless(inp) && Settable(notes) && pos <= |inp.doc| && node.body.Items?
    ensures FullOrFine(inp, ParseAfterElement(inp, pos, notes, depth, node), pos, depth + 1)
    decreases |inp.doc| - pos, 0
  {
    hide ShortKeys, SlashComments, LexPastComments, NotesPast, FailPast, ParseElements, Overflows, Settable;
    var t := LexPastComments(inp.doc, inp.features, pos);
    NotesPastSettable(inp, pos, notes);
    var n := NotesPast(inp, pos, notes).value;
    FailPastSettable(inp, node, [ErrorAt(MissingCommaOrBracket, t)], t.end, ArrayEnd, n);
    if t.kind.ArraySeparator? {
      ElementsThrow(inp, t.end, n, depth, node);
      Earlier(inp, ParseElements(inp, t.end, n, depth, node), pos, t.end, depth + 1);
    }
  }

  /** Whatever the text, the reader does not throw while fewer brackets and braces open in
      it than the stack may hold nodes, no quote opens a comment, and no key or string
      can be too long. */
  lemma ShallowTextsDoNotThrow(inp: Input, root: Node)
    requires Harmless(inp) && Opens(inp.doc, 0) < inp.features.stackLimit
    ensures ParseDocument(inp, root).Finished?
  {
    hide ParseValue, NextToken, NotesNext, Accepted, ShortKeys, SlashComments;
    ValueThrows(inp, 0, NO_NOTES, 1, root);
    var r := ParseValue(inp, 0, NO_NOTES, 1, root);
    if r.Parsed? {
      NotesNextSettable(inp, r.pos, r.notes);
      SettableIsAccepted(inp.features, NotesNext(inp, r.pos, r.notes).value);
    }
  }

  // ---------------------------------------------------------------- the bound is sharp

  /** `n` opening brackets. */
  function Brackets(n: nat): (t: bytes)
    ensures |t| == n && forall k :: 0 <= k < n ==> t[k] == LBRACKET
  {
    if n == 0 then [] else [LBRACKET] + Brackets(n - 1)
  }

  lemma BracketsLex(doc: bytes, f: Features, pos: nat)
    requires pos < |doc| && doc[pos] == LBRACKET
    ensures NextToken(doc, f, pos) == Token(ArrayBegin, pos, pos + 1)
    ensures SkipSpaces(doc, pos) == pos
  {
  }

  lemma {:induction false} BracketsThrow(inp: Input, pos: nat, notes: Notes, depth: nat, slot: Node)
    requires pos <= |inp.doc| && (forall k :: pos <= k < |inp.doc| ==> inp.doc[k] == LBRACKET)
    ensures depth + (|inp.doc| - pos) > inp.features.stackLimit ==> ParseValue(inp, pos, notes, depth, slot).Thrown?
    decreases |inp.doc| - pos
  {
    hide NextToken, NotesNext, ParseElements, ParseScalar, ParseAfterElement;
    var n := NotesNext(inp, pos, notes);
    if depth <= inp.features.stackLimit && pos < |inp.doc| && n.Some? && Accepted(inp.features, n.value) {
      var cleared := Cleared(inp.features, n.value);
      BracketsLex(inp.doc, inp.features, pos);
      var node := Node(pos, slot.limit, Items([]));
      if pos + 1 < |inp.doc| {
        BracketsLex(inp.doc, inp.features, pos + 1);
      }
      BracketsThrow(inp, pos + 1, cleared, depth + 1, NULL_NODE);
      ElementsThrowWith(inp, pos + 1, cleared, depth, node);
    }
  }

  lemma ElementsThrowWith(inp: Input, pos: nat, notes: Notes, depth: nat, node: Node)
    requires pos <= |inp.doc| && node.body.Items?
    ensures ParseValue(inp, pos, notes, depth + 1, NULL_NODE).Thrown? ==>
      ParseElements(inp, pos, notes, depth, node).Thrown?
  {
    hide ParseValue, ParseAfterElement, FailPast;
  }

  /** Brackets alone, fewer than 2^30, throw if and only if they are as many as the stack
      may hold nodes. */
  lemma BracketsThrowExactly(inp: Input, n: nat, root: Node)
    requires inp.doc == Brackets(n) && ShortKeys(inp)
    ensures ParseDocument(inp, root).Threw? <==> n >= inp.features.stackLimit
  {
    hide ParseValue, NextToken, ShortKeys;
    BracketsThrow(inp, 0, NO_NOTES, 1, root);
    OpensOfBrackets(inp.doc, 0);
    if n < inp.features.stackLimit {
      ShallowTextsDoNotThrow(inp, root);
    }
  }

  lemma {:induction false} OpensOfBrackets(doc: bytes, pos: nat)
    requires pos <= |doc| && forall k :: pos <= k < |doc| ==> doc[k] == LBRACKET
    ensures Opens(doc, pos) == |doc| - pos
    decreases |doc| - pos
  {
    if pos < |doc| {
      OpensOfBrackets(doc, pos + 1);
    }
  }
}
