/**
 Documents that show what the reader does beyond JSON: it takes an object with a comma behind
 its last member and one with a number where a comma should be, and whether it throws over a
 comment can depend on a line break.
 */
module JsonQuirks {
  import opened Optional
  import opened Bytes
  import opened JsonText
  import opened JsonNumber
  import opened JsonValue
  import opened JsonMembers
  import opened JsonGrammar
  import opened JsonLayout
  import opened JsonSpelling
  import opened JsonTokens
  import JsonDepth

  lemma MarkAt(doc: bytes, f: Features, pos: nat, kind: Kind)
    requires pos < |doc| && !IsSpace(doc[pos]) && TokenAt(doc, f, pos) == Token(kind, pos, pos + 1) && !kind.Comment?
    ensures Lex(doc, f, pos) == LexPastComments(doc, f, pos) == NextToken(doc, f, pos) == Token(kind, pos, pos + 1)
  {
    hide TokenAt;
  }

  /** One digit that no digit, dot or exponent follows is a number. */
  lemma DigitAt(inp: Input, pos: nat, d: nat)
    requires pos + 1 < |inp.doc| && d < 10 && inp.doc[pos] == 48 + d && inp.doc[pos + 1] in {44, 47, 125}
    ensures Spells(inp, Int(d), pos) == Some(pos + 1)
  {
    var doc, f := inp.doc, inp.features;
    assert NumberEnd(doc, pos + 1) == pos + 1;
    MarkAt(doc, f, pos, NumberToken);
    assert Text(doc, Token(NumberToken, pos, pos + 1)) == [48 + d] == IntText(d);
    IntegerRoundTrip(d);
    hide TokenAt, NextToken, NumberValue;
    assert NumberValue(inp, [48 + d]) == Some(Int(d)) by {
      DigitValue(inp, d);
    }
  }

  lemma DigitValue(inp: Input, d: nat)
    requires d < 10
    ensures NumberValue(inp, [48 + d]) == Some(Int(d))
  {
    assert IntText(d) == [48 + d];
    IntegerRoundTrip(d);
  }

  /** A name of letters between quotes. */
  lemma NameAt(inp: Input, pos: nat, name: bytes)
    requires pos + |name| + 1 < |inp.doc| && inp.doc[pos] == 34 == inp.doc[pos + |name| + 1]
    requires |name| <= 1 && forall k :: 0 <= k < |name| ==> 97 <= name[k] <= 122 && inp.doc[pos + 1 + k] == name[k]
    ensures var t := Token(StringToken, pos, pos + |name| + 2);
            LexPastComments(inp.doc, inp.features, pos) == t && NameOf(inp, t) == Named(name)
  {
    var doc, e := inp.doc, pos + |name| + 1;
    if |name| == 1 {
      assert doc[pos + 1] == name[0] && ScanString(doc, e, 34) == Scan(true, e + 1);
    }
    assert ScanString(doc, pos + 1, 34) == Scan(true, e + 1);
    assert doc[pos + 1..e] == name;
    NameIsText(name);
    hide ScanString, TokenAt, UnescapeText;
    assert TokenAt(doc, inp.features, pos) == Token(StringToken, pos, e + 1) by {
      StringAt(doc, inp.features, pos, e + 1);
    }
  }

  lemma StringAt(doc: bytes, f: Features, pos: nat, end: nat)
    requires pos < |doc| && doc[pos] == 34 && ScanString(doc, pos + 1, 34) == Scan(true, end)
    ensures TokenAt(doc, f, pos) == Token(StringToken, pos, end)
  {
    hide ScanString;
  }

  lemma NameIsText(name: bytes)
    requires |name| <= 1 && forall k :: 0 <= k < |name| ==> 97 <= name[k] <= 122
    ensures UnescapeText(name) == Unescaped(name)
  {
    if |name| == 1 {
      UnescapePlain(name[0], []);
      assert [name[0]] + [] == name;
    }
  }

  /** A member from its name on: the name, a colon and a digit. */
  lemma MemberAt(inp: Input, pos: nat, name: bytes, d: nat, rest: seq<Member>, before: bytes)
    requires pos + |name| + 4 < |inp.doc| && inp.doc[pos] == 34 == inp.doc[pos + |name| + 1]
    requires |name| <= 1 && forall k :: 0 <= k < |name| ==> 97 <= name[k] <= 122 && inp.doc[pos + 1 + k] == name[k]
    requires inp.doc[pos + |name| + 2] == 58 && d < 10 && inp.doc[pos + |name| + 3] == 48 + d
    requires inp.doc[pos + |name| + 4] in {44, 47, 125}
    ensures SpellsMembers(inp, [Member(name, Int(d))] + rest, pos, before)
        == SpellsRest(inp, rest, pos + |name| + 4, name)
  {
    hide LexPastComments, NameOf, Spells, SpellsRest;
    NameAt(inp, pos, name);
    MarkAt(inp.doc, inp.features, pos + |name| + 2, MemberSeparator);
    DigitAt(inp, pos + |name| + 3, d);
    assert ([Member(name, Int(d))] + rest)[1..] == rest;
    hide Lex;
  }

  lemma ObjectAt(inp: Input, members: seq<Member>)
    requires inp.doc != [] && inp.doc[0] == 123
    ensures Spells(inp, Object(members), 0) == SpellsMembers(inp, members, 1, [])
  {
    MarkAt(inp.doc, inp.features, 0, ObjectBegin);
    hide NextToken, SpellsMembers;
  }

  /** A document of the default settings that spells a value is read as that value, if it
      is harmless and flat. */
  lemma IsRead(inp: Input, root: Node, v: Value)
    requires inp.features == DEFAULT_FEATURES && Spells(inp, v, 0).Some?
    requires |inp.doc| < 1000 && forall k :: 0 <= k < |inp.doc| ==> inp.doc[k] != 39
    ensures var o := ParseDocument(inp, root); o.Finished? && o.ok && ValueOf(o.root) == Norm(v)
  {
    hide ParseDocument, Spells, JsonDepth.Opens;
    FewOpen(inp.doc, 0);
    JsonDepth.ShallowTextsDoNotThrow(inp, root);
    AcceptsExactly(inp, root);
    assert Document(inp, v);
  }

  lemma {:induction false} FewOpen(doc: bytes, pos: nat)
    requires pos <= |doc|
    ensures JsonDepth.Opens(doc, pos) <= |doc| - pos
    decreases |doc| - pos
  {
    if pos < |doc| {
      FewOpen(doc, pos + 1);
    }
  }

  // ---------------------------------------------------------------- a comma too many

  /** `{"":1,}`: behind a member of the empty name the comma may stand alone. */
  const TRAILING: bytes := [123, 34, 34, 58, 49, 44, 125]

  lemma TrailingComma(inp: Input, root: Node)
    requires inp.doc == TRAILING && inp.features == DEFAULT_FEATURES
    ensures var o := ParseDocument(inp, root);
            o.Finished? && o.ok && ValueOf(o.root) == Object([Member([], Int(1))])
  {
    hide ParseDocument, Spells, SpellsMembers, SpellsRest, Norm;
    var members := [Member([], Int(1))];
    assert members == [Member([], Int(1))] + [];
    ObjectAt(inp, members);
    MemberAt(inp, 1, [], 1, [], []);
    CommaThenBrace(inp);
    IsRead(inp, root, Object(members));
    OneIsNormal(members[0]);
  }

  lemma CommaThenBrace(inp: Input)
    requires inp.doc == TRAILING
    ensures SpellsRest(inp, [], 5, []) == Some(7)
  {
    MarkAt(inp.doc, inp.features, 5, ArraySeparator);
    MarkAt(inp.doc, inp.features, 6, ObjectEnd);
    hide Lex, LexPastComments;
  }

  lemma OneIsNormal(m: Member)
    requires m.value.Int?
    ensures Norm(Object([m])) == Object([m])
  {
    assert [m][1..] == [];
    assert NormMembers([m]) == [m];
    assert SetMember([], m.name, m.value) == [m];
    assert BindAll([], [m]) == BindAll([m], []) == [m];
  }

  // ---------------------------------------------------------------- a comment for a comma

  /** An object of "a" and "b" with a comment and the number 5 between its members. */
  const COMMENTED: bytes := [123, 34, 97, 34, 58, 49, 47, 42, 42, 47, 53, 34, 98, 34, 58, 50, 125]

  lemma CommentForComma(inp: Input, root: Node)
    requires inp.doc == COMMENTED && inp.features == DEFAULT_FEATURES
    ensures var o := ParseDocument(inp, root);
            o.Finished? && o.ok && ValueOf(o.root) == Object([Member([97], Int(1)), Member([98], Int(2))])
  {
    hide ParseDocument, Spells, SpellsMembers, SpellsRest, Norm, NormMembers, COMMENTED;
    assert NameLess([97], [98]);
    hide NameLess;
    CommentedBytes();
    var a, b := Member([97], Int(1)), Member([98], Int(2));
    assert [a, b] == [a] + [b] && [b] == [b] + [];
    ObjectAt(inp, [a, b]);
    MemberAt(inp, 1, [97], 1, [b], []);
    CommentThenFive(inp, [b]);
    MemberAt(inp, 11, [98], 2, [], [97]);
    BraceEnds(inp);
    IsRead(inp, root, Object([a, b]));
    TwoAreNormal(a, b);
  }

  lemma CommentedBytes()
    ensures |COMMENTED| == 17 && COMMENTED[0] == 123 && (forall k :: 0 <= k < 17 ==> COMMENTED[k] != 39)
    ensures COMMENTED[1] == COMMENTED[3] == COMMENTED[11] == COMMENTED[13] == 34
    ensures COMMENTED[2] == 97 && COMMENTED[4] == 58 && COMMENTED[5] == 49 && COMMENTED[6] == 47
    ensures COMMENTED[12] == 98 && COMMENTED[14] == 58 && COMMENTED[15] == 50 && COMMENTED[16] == 125
  {
  }

  /** The comment lets the 5 pass. */
  lemma CommentThenFive(inp: Input, members: seq<Member>)
    requires inp.doc == COMMENTED && members != []
    ensures SpellsRest(inp, members, 6, [97]) == SpellsMembers(inp, members, 11, [97])
  {
    CommentAndFive(inp.doc, inp.features);
    hide Lex, LexPastComments, SpellsMembers;
  }

  lemma CommentAndFive(doc: bytes, f: Features)
    requires doc == COMMENTED
    ensures Lex(doc, f, 6) == Token(Comment, 6, 10)
    ensures LexPastComments(doc, f, 6) == Token(NumberToken, 10, 11)
  {
    assert CStyleEnd(doc, 8) == Scan(true, 10);
    assert NumberEnd(doc, 11) == 11;
    MarkAt(doc, f, 10, NumberToken);
    PastOneComment(doc, f, 6);
    hide LexPastComments;
  }

  lemma BraceEnds(inp: Input)
    requires inp.doc == COMMENTED
    ensures SpellsRest(inp, [], 16, [98]) == Some(17)
  {
    MarkAt(inp.doc, inp.features, 16, ObjectEnd);
    hide Lex, LexPastComments;
  }

  lemma TwoAreNormal(a: Member, b: Member)
    requires a.value.Int? && b.value.Int? && NameLess(a.name, b.name)
    ensures Norm(Object([a, b])) == Object([a, b])
  {
    hide NameLess;
    assert [a, b][1..] == [b] && [b][1..] == [];
    assert NormMembers([b]) == [b];
    assert NormMembers([a, b]) == [a, b];
    OrderedIsBound([a, b]);
  }

  // ---------------------------------------------------------------- comments behind a value

  /** `1`, a comment and a comment that a quote opens: on the line of the value, and on the
      next one. */
  const SAME_LINE: bytes := [49, 47, 42, 42, 47, 39, 42, 42, 47]
  const NEXT_LINE: bytes := [49, 10, 47, 42, 42, 47, 39, 42, 42, 47]

  lemma OneIsRead(inp: Input, root: Node)
    requires inp.features == DEFAULT_FEATURES && |inp.doc| > 1 && inp.doc[0] == 49
    requires !IsDigit(inp.doc[1]) && inp.doc[1] !in {46, 69, 101}
    ensures ParseValue(inp, 0, NO_NOTES, 1, root)
         == Parsed(true, Node(0, 1, Leaf(Int(1))), 1, [], Notes(Some(1), []))
  {
    assert NumberEnd(inp.doc, 1) == 1;
    MarkAt(inp.doc, inp.features, 0, NumberToken);
    assert Text(inp.doc, Token(NumberToken, 0, 1)) == [48 + 1];
    DigitValue(inp, 1);
    hide TokenAt, NumberValue, LexPastComments, NextToken;
    assert NotesNext(inp, 0, NO_NOTES) == Some(NO_NOTES) by {
      hide Lex;
    }
    hide NotesNext;
  }

  /** Four or five characters make a comment. */
  lemma CommentAt(doc: bytes, f: Features, pos: nat, start: nat)
    requires pos <= start && start + 4 <= |doc| && SkipSpaces(doc, pos) == start && !f.allowSingleQuotes
    requires doc[start] == 47 || doc[start] == 39
    requires doc[start + 1] == 42 && doc[start + 2] == 42 && doc[start + 3] == 47
    ensures Lex(doc, f, pos) == Token(Comment, start, start + 4)
  {
    assert CStyleEnd(doc, start + 2) == Scan(true, start + 4);
    hide CStyleEnd;
  }

  lemma NothingLeft(doc: bytes, f: Features)
    ensures Lex(doc, f, |doc|) == Token(EndOfStream, |doc|, |doc|)
  {
  }

  /** On the line of the value each comment is set at once, so the second makes the reader
      throw; */
  lemma SameLineThrows(inp: Input, root: Node)
    requires inp.doc == SAME_LINE && inp.features == DEFAULT_FEATURES
    ensures ParseDocument(inp, root).Threw?
  {
    var n := Notes(Some(1), []);
    OneIsRead(inp, root);
    SameLineNotes(inp, n);
    hide NextToken, NotesNext, ParseValue;
  }

  /** A comment that is noted is passed; what is no comment is not. */
  lemma NotedOne(inp: Input, pos: nat, t: Token, notes: Notes)
    requires pos <= |inp.doc| && Lex(inp.doc, inp.features, pos) == t && t.kind.Comment?
    ensures NotesPast(inp, pos, notes)
         == match Noted(inp, t, notes) case None => None case Some(n) => NotesPast(inp, t.end, n)
  {
    hide Lex, Noted;
  }

  lemma NotedNone(inp: Input, pos: nat, notes: Notes)
    requires pos <= |inp.doc| && !Lex(inp.doc, inp.features, pos).kind.Comment?
    ensures NotesPast(inp, pos, notes) == Some(notes)
  {
    hide Lex;
  }

  /** A comment on a line of its own, or before any value, waits. */
  lemma Waits(inp: Input, t: Token, notes: Notes, comment: bytes)
    requires t.kind.Comment? && t.start + 2 <= t.end <= |inp.doc| && inp.features == DEFAULT_FEATURES
    requires !OnSameLine(inp.doc, t, notes) && NormalizeEol(inp.doc[t.start..t.end]) == comment
    ensures Noted(inp, t, notes) == Some(notes.(before := notes.before + comment))
  {
    hide NormalizeEol, OnSameLine;
  }

  lemma SameLineNotes(inp: Input, n: Notes)
    requires inp.doc == SAME_LINE && inp.features == DEFAULT_FEATURES && n == Notes(Some(1), [])
    ensures NotesNext(inp, 1, n) == None
  {
    CommentAt(inp.doc, inp.features, 1, 1);
    CommentAt(inp.doc, inp.features, 5, 5);
    SetAtOnce(inp, n);
    hide Lex, Noted, NotesPast, SAME_LINE;
    NotedOne(inp, 1, Token(Comment, 1, 5), n);
    NotedOne(inp, 5, Token(Comment, 5, 9), n);
  }

  lemma SetAtOnce(inp: Input, n: Notes)
    requires inp.doc == SAME_LINE && inp.features == DEFAULT_FEATURES && n == Notes(Some(1), [])
    ensures Noted(inp, Token(Comment, 1, 5), n) == Some(n) && Noted(inp, Token(Comment, 5, 9), n) == None
  {
    SameLineBytes(inp);
    Slashed(inp.doc, 1);
    Quoted4(inp.doc, 5);
    hide NormalizeEol, Rejected, HasNewLine, Noted, SAME_LINE;
    IsSet(inp, Token(Comment, 1, 5), n, [47, 42, 42, 47]);
    IsSet(inp, Token(Comment, 5, 9), n, [39, 42, 42, 47]);
  }

  lemma SameLineBytes(inp: Input)
    requires inp.doc == SAME_LINE
    ensures |inp.doc| == 9 && inp.doc[1..5] == [47, 42, 42, 47] && inp.doc[5..9] == [39, 42, 42, 47]
    ensures !HasNewLine(inp.doc, 1, 5) && !HasNewLine(inp.doc, 1, 1) && !HasNewLine(inp.doc, 5, 9)
  {
  }

  /** A comment on the line of the value before it is set. */
  lemma IsSet(inp: Input, t: Token, notes: Notes, comment: bytes)
    requires t.kind.Comment? && t.start + 2 <= t.end <= |inp.doc| && inp.features == DEFAULT_FEATURES
    requires OnSameLine(inp.doc, t, notes) && NormalizeEol(inp.doc[t.start..t.end]) == comment
    ensures Noted(inp, t, notes) == if Rejected(comment) then None else Some(notes)
  {
    hide NormalizeEol, OnSameLine, Rejected;
  }

  lemma Slashed(doc: bytes, start: nat)
    requires start + 4 <= |doc| && doc[start..start + 4] == [47, 42, 42, 47]
    ensures NormalizeEol(doc[start..start + 4]) == [47, 42, 42, 47] && !Rejected([47, 42, 42, 47])
  {
    BreaksAreFeeds([47, 42, 42, 47], []);
  }

  lemma Quoted4(doc: bytes, start: nat)
    requires start + 4 <= |doc| && doc[start..start + 4] == [39, 42, 42, 47]
    ensures NormalizeEol(doc[start..start + 4]) == [39, 42, 42, 47] && Rejected([39, 42, 42, 47])
  {
    BreaksAreFeeds([39, 42, 42, 47], []);
  }

  /** on the next line they wait together, and together they begin with a slash. */
  lemma NextLineIsRead(inp: Input, root: Node)
    requires inp.doc == NEXT_LINE && inp.features == DEFAULT_FEATURES
    ensures var o := ParseDocument(inp, root); o.Finished? && o.ok && ValueOf(o.root) == Int(1)
  {
    var n := Notes(Some(1), []);
    OneIsRead(inp, root);
    var m := NextLineNotes(inp, n);
    hide NextToken, NotesNext, ParseValue, Rejected;
  }

  lemma NextLineNotes(inp: Input, n: Notes) returns (m: Notes)
    requires inp.doc == NEXT_LINE && inp.features == DEFAULT_FEATURES && n == Notes(Some(1), [])
    ensures NotesNext(inp, 1, n) == Some(m) && m.before == [47, 42, 42, 47, 39, 42, 42, 47] && !Rejected(m.before)
  {
    var one := n.(before := [47, 42, 42, 47]);
    m := n.(before := [47, 42, 42, 47, 39, 42, 42, 47]);
    NextLineTokens(inp);
    WaitsFirst(inp, n, one);
    WaitsSecond(inp, one, m);
    hide Lex, Noted, NotesPast, Rejected, NEXT_LINE;
    NotedOne(inp, 1, Token(Comment, 2, 6), n);
    NotedOne(inp, 6, Token(Comment, 6, 10), one);
    NotedNone(inp, 10, m);
  }

  lemma NextLineTokens(inp: Input)
    requires inp.doc == NEXT_LINE && inp.features == DEFAULT_FEATURES
    ensures |inp.doc| == 10
    ensures Lex(inp.doc, inp.features, 1) == Token(Comment, 2, 6)
    ensures Lex(inp.doc, inp.features, 6) == Token(Comment, 6, 10)
    ensures Lex(inp.doc, inp.features, 10) == Token(EndOfStream, 10, 10)
  {
    CommentAt(inp.doc, inp.features, 1, 2);
    CommentAt(inp.doc, inp.features, 6, 6);
    NothingLeft(inp.doc, inp.features);
    hide Lex;
  }

  lemma WaitsFirst(inp: Input, n: Notes, one: Notes)
    requires inp.doc == NEXT_LINE && inp.features == DEFAULT_FEATURES && n == Notes(Some(1), [])
    requires one == n.(before := [47, 42, 42, 47])
    ensures Noted(inp, Token(Comment, 2, 6), n) == Some(one)
  {
    assert inp.doc[2..6] == [47, 42, 42, 47];
    Slashed(inp.doc, 2);
    assert inp.doc[1] == 10;
    hide NormalizeEol, Rejected, Noted, NEXT_LINE;
    Waits(inp, Token(Comment, 2, 6), n, [47, 42, 42, 47]);
    assert n.before + [47, 42, 42, 47] == one.before;
  }

  lemma WaitsSecond(inp: Input, one: Notes, m: Notes)
    requires inp.doc == NEXT_LINE && inp.features == DEFAULT_FEATURES && one == Notes(Some(1), [47, 42, 42, 47])
    requires m == one.(before := [47, 42, 42, 47, 39, 42, 42, 47])
    ensures Noted(inp, Token(Comment, 6, 10), one) == Some(m) && !Rejected(m.before)
  {
    assert inp.doc[6..10] == [39, 42, 42, 47];
    Quoted4(inp.doc, 6);
    assert inp.doc[1] == 10;
    assert !Rejected(m.before);
    hide NormalizeEol, Rejected, Noted, NEXT_LINE;
    Waits(inp, Token(Comment, 6, 10), one, [39, 42, 42, 47]);
    assert one.before + [39, 42, 42, 47] == m.before;
  }

  /** What a comment begins with decides, unless it is but a line feed. */
  lemma RejectedBy(b: byte, rest: bytes)
    requires rest != [] || b != 10
    ensures Rejected([b] + rest) <==> b != 0 && b != 47
    ensures Rejected([]) && Rejected([10])
  {
    var c := [b] + rest;
    if rest != [] {
      assert c[..|c| - 1][0] == b;
    }
  }

  // ---------------------------------------------------------------- comments before values

  /** A comment, a bracket, a comment that a quote opens, and a value. */
  const TWO_COMMENTS: bytes := [47, 42, 42, 47, 91, 39, 42, 42, 47, 49, 93]

  /** The array takes the first comment; the second stands alone before its element, so the
      reader throws. */
  lemma SecondCommentThrows(inp: Input, root: Node)
    requires inp.doc == TWO_COMMENTS && inp.features == DEFAULT_FEATURES
    ensures ParseDocument(inp, root).Threw?
  {
    FirstIsTaken(inp);
    SecondIsRejected(inp);
    assert SkipSpaces(inp.doc, 5) == 5 && !IsByteAt(inp.doc, 5, 93) && |inp.doc| == 11;
    hide NextToken, NotesNext, Cleared, Rejected, TWO_COMMENTS, SkipSpaces;
    var node := Node(4, root.limit, Items([]));
    ElementThrows(inp, node);
    hide ParseItems;
    assert ParseValue(inp, 0, NO_NOTES, 1, root).Thrown?;
  }

  lemma ElementThrows(inp: Input, node: Node)
    requires |inp.doc| == 11 && inp.features == DEFAULT_FEATURES && node.body == Items([])
    requires NotesNext(inp, 5, NO_NOTES).Some? && Rejected(NotesNext(inp, 5, NO_NOTES).value.before)
    requires NotesNext(inp, 5, NO_NOTES).value.before != []
    requires SkipSpaces(inp.doc, 5) == 5 && !IsByteAt(inp.doc, 5, 93)
    ensures ParseItems(inp, 5, NO_NOTES, 1, node).Thrown?
  {
    hide NextToken, NotesNext, Cleared, Rejected, SkipSpaces;
    assert ParseValue(inp, 5, NO_NOTES, 2, NULL_NODE).Thrown?;
    hide ParseValue;
    assert ParseElements(inp, 5, NO_NOTES, 1, node).Thrown?;
    hide ParseElements;
  }

  lemma FirstIsTaken(inp: Input)
    requires inp.doc == TWO_COMMENTS && inp.features == DEFAULT_FEATURES
    ensures NextToken(inp.doc, inp.features, 0) == Token(ArrayBegin, 4, 5)
    ensures var n := NotesNext(inp, 0, NO_NOTES);
            && n == Some(Notes(None, [47, 42, 42, 47])) && !Rejected(n.value.before)
            && Cleared(inp.features, n.value) == NO_NOTES
  {
    var n := Notes(None, [47, 42, 42, 47]);
    CommentAt(inp.doc, inp.features, 0, 0);
    MarkAt(inp.doc, inp.features, 4, ArrayBegin);
    PastOneComment(inp.doc, inp.features, 0);
    Slashed(inp.doc, 0);
    hide Lex, Noted, NotesPast, NormalizeEol, Rejected, LexPastComments, TWO_COMMENTS;
    Waits(inp, Token(Comment, 0, 4), NO_NOTES, [47, 42, 42, 47]);
    assert NO_NOTES.before + [47, 42, 42, 47] == n.before;
    NotedOne(inp, 0, Token(Comment, 0, 4), NO_NOTES);
    NotedNone(inp, 4, n);
  }

  lemma SecondIsRejected(inp: Input)
    requires inp.doc == TWO_COMMENTS && inp.features == DEFAULT_FEATURES
    ensures var n := NotesNext(inp, 5, NO_NOTES); n == Some(Notes(None, [39, 42, 42, 47])) && Rejected(n.value.before)
  {
    var n := Notes(None, [39, 42, 42, 47]);
    CommentAt(inp.doc, inp.features, 5, 5);
    Quoted4(inp.doc, 5);
    OneBefore(inp);
    hide Lex, Noted, NotesPast, NormalizeEol, Rejected, LexPastComments, TWO_COMMENTS;
    Waits(inp, Token(Comment, 5, 9), NO_NOTES, [39, 42, 42, 47]);
    assert NO_NOTES.before + [39, 42, 42, 47] == n.before;
    NotedOne(inp, 5, Token(Comment, 5, 9), NO_NOTES);
    NotedNone(inp, 9, n);
  }

  lemma OneBefore(inp: Input)
    requires inp.doc == TWO_COMMENTS
    ensures Lex(inp.doc, inp.features, 9) == Token(NumberToken, 9, 10)
  {
    assert NumberEnd(inp.doc, 10) == 10;
    MarkAt(inp.doc, inp.features, 9, NumberToken);
  }
}
