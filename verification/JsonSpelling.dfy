/**
 Which documents the reader accepts, and what it makes of them: exactly those that spell a
 value, as the rules below say, and then just that value.  The rules follow the value, not
 the reader.  They keep three things the reader does that JSON does not: behind a comment
 any token passes for the comma of an object, a comma may stand behind a member of the
 empty name, and with dropped nulls nothing at all is a null.
 */
module JsonSpelling {
  import opened Optional
  import opened Bytes
  import opened JsonText
  import opened JsonNumber
  import opened JsonValue
  import opened JsonMembers
  import opened JsonGrammar
  import opened JsonLayout
  import opened JsonRoundTrip

  // ---------------------------------------------------------------- the rules

  /** Where a scalar spelled by token `t` ends. */
  function ScalarEnd(inp: Input, v: Value, t: Token): (r: Option<nat>)
    requires t.start <= t.end <= |inp.doc| && (t.kind.StringToken? ==> t.end >= t.start + 2)
    ensures r.Some? ==> t.start <= r.value <= |inp.doc|
  {
    var spelled :=
      match v
      case Null => t.kind.NullToken?
      case Bool(b) => t.kind == if b then TrueToken else FalseToken
      case Str(s) => t.kind.StringToken? && StringText(inp.doc, t) == Unescaped(s)
      case Int(_) => t.kind.NumberToken? && NumberValue(inp, Text(inp.doc, t)) == Some(v)
      case UInt(_) => t.kind.NumberToken? && NumberValue(inp, Text(inp.doc, t)) == Some(v)
      case Real(d) =>
        || (t.kind.NumberToken? && NumberValue(inp, Text(inp.doc, t)) == Some(v))
        || (t.kind.NaNToken? && d == NaN) || (t.kind.PosInfToken? && d == PosInf)
          || (t.kind.NegInfToken? && d == NegInf)
      case _ => false;
    if spelled then Some(t.end)
    else if v.Null? && inp.features.allowDroppedNullPlaceholders && t.kind.IsDelimiter() then Some(t.start)
    else None
  }

  /** Where the text of `v` ends that starts at `pos`; `None` if `v` is not spelled there. */
  function Spells(inp: Input, v: Value, pos: nat): (r: Option<nat>)
    requires pos <= |inp.doc|
    ensures r.Some? ==> pos <= r.value <= |inp.doc|
    decreases v, 0
  {
    var t := NextToken(inp.doc, inp.features, pos);
    match v
    case Array(items) =>
      if !t.kind.ArrayBegin? then None else
      var p := SkipSpaces(inp.doc, t.end);
      if items == [] then if IsByteAt(inp.doc, p, 93) then Some(p + 1) else None
      else if IsByteAt(inp.doc, p, 93) then None else SpellsItems(inp, items, p)
    case Object(members) => if t.kind.ObjectBegin? then SpellsMembers(inp, members, t.end, []) else None
    case _ => ScalarEnd(inp, v, t)
  }

  /** Elements with commas between them and a bracket behind the last. */
  function SpellsItems(inp: Input, items: seq<Value>, pos: nat): (r: Option<nat>)
    requires pos <= |inp.doc| && items != []
    ensures r.Some? ==> pos <= r.value <= |inp.doc|
    decreases items, 1
  {
    match Spells(inp, items[0], pos)
    case None => None
    case Some(e) =>
      var t := LexPastComments(inp.doc, inp.features, e);
      if |items| == 1 then if t.kind.ArrayEnd? then Some(t.end) else None
      else if t.kind.ArraySeparator? then SpellsItems(inp, items[1..], t.end)
      else None
  }

  /** Members from a name on; `name` is that of the member before. */
  function SpellsMembers(inp: Input, members: seq<Member>, pos: nat, name: bytes): (r: Option<nat>)
    requires pos <= |inp.doc|
    ensures r.Some? ==> pos <= r.value <= |inp.doc|
    decreases members, 1
  {
    var t := LexPastComments(inp.doc, inp.features, pos);
    if members == [] then if t.kind.ObjectEnd? && name == [] then Some(t.end) else None
    else if NameOf(inp, t) != Named(members[0].name) then None
    else
      var colon := Lex(inp.doc, inp.features, t.end);
      if !colon.kind.MemberSeparator? then None else
      match Spells(inp, members[0].value, colon.end)
      case None => None
      case Some(e) => SpellsRest(inp, members[1..], e, members[0].name)
  }

  /** What follows a member: the closing brace, or a comma and more members. */
  function SpellsRest(inp: Input, members: seq<Member>, pos: nat, name: bytes): (r: Option<nat>)
    requires pos <= |inp.doc|
    ensures r.Some? ==> pos <= r.value <= |inp.doc|
    decreases members, 2
  {
    var t := Lex(inp.doc, inp.features, pos);
    var u := LexPastComments(inp.doc, inp.features, pos);
    if u.kind.ObjectEnd? then if members == [] then Some(u.end) else None
    else if t.kind.Comment? || u.kind.ArraySeparator? then SpellsMembers(inp, members, u.end, name)
    else None
  }

  /** What may stand behind the root value. */
  predicate EndsWell(inp: Input, pos: nat)
    requires pos <= |inp.doc|
  {
    var t := NextToken(inp.doc, inp.features, pos);
    inp.features.failIfExtra ==> t.kind.EndOfStream? || (!inp.features.strictRoot && t.kind.ErrorToken?)
  }

  /** The document spells `v`, as far as these settings take it. */
  predicate Document(inp: Input, v: Value) {
    && Spells(inp, v, 0).Some? && EndsWell(inp, Spells(inp, v, 0).value)
    && Admissible(inp.features, v)
    && (inp.features.strictRoot ==> v.Array? || v.Object?)
  }

  // ---------------------------------------------------------------- one step of the reader

  /** The notes when a value begins. */
  function Begun(inp: Input, pos: nat, notes: Notes): Notes
    requires pos <= |inp.doc| && NotesNext(inp, pos, notes).Some?
  {
    Cleared(inp.features, NotesNext(inp, pos, notes).value)
  }

  /** Reading failed, with these errors alone. */
  predicate Fails(r: Parsed, errors: seq<ReadError>) {
    r.Parsed? && !r.ok && r.errors == errors
  }

  lemma ValueStep(inp: Input, pos: nat, notes: Notes, depth: nat, slot: Node)
    requires pos <= |inp.doc| && ParseValue(inp, pos, notes, depth, slot).Parsed?
    ensures NotesNext(inp, pos, notes).Some?
    ensures var t, n := NextToken(inp.doc, inp.features, pos), Begun(inp, pos, notes);
            ParseValue(inp, pos, notes, depth, slot)
            == if t.kind.ObjectBegin? then
                 Close(inp, ParseMembers(inp, t.end, n, depth, Node(t.start, slot.limit, Fields([])), []))
               else if t.kind.ArrayBegin? then
                 Close(inp, ParseItems(inp, t.end, n, depth, Node(t.start, slot.limit, Items([]))))
               else ParseScalar(inp, t, n, slot)
  {
    hide NextToken, NotesNext, ParseScalar, ParseMembers, ParseItems, Close, Accepted, Cleared;
  }

  lemma CloseFacts(inp: Input, r: Parsed)
    requires Close(inp, r).Parsed?
    ensures r.Parsed? && Close(inp, r).ok == r.ok && Close(inp, r).pos == r.pos
    ensures Close(inp, r).node == r.node.(limit := r.pos)
  {
  }

  lemma ElementsStep(inp: Input, pos: nat, notes: Notes, depth: nat, node: Node)
    requires pos <= |inp.doc| && node.body.Items? && ParseElements(inp, pos, notes, depth, node).Parsed?
    ensures var r := ParseValue(inp, pos, notes, depth + 1, NULL_NODE);
            && r.Parsed?
            && var node' := node.(body := Items(node.body.items + [r.node]));
               if r.ok then
                 ParseElements(inp, pos, notes, depth, node) == ParseAfterElement(inp, r.pos, r.notes, depth, node')
               else Fails(ParseElements(inp, pos, notes, depth, node), r.errors)
  {
    hide ParseValue, ParseAfterElement, NotesRecover, Recover;
  }

  lemma AfterElementStep(inp: Input, pos: nat, notes: Notes, depth: nat, node: Node)
    requires pos <= |inp.doc| && node.body.Items? && ParseAfterElement(inp, pos, notes, depth, node).Parsed?
    ensures NotesPast(inp, pos, notes).Some?
    ensures var t, n := LexPastComments(inp.doc, inp.features, pos), NotesPast(inp, pos, notes).value;
            var r := ParseAfterElement(inp, pos, notes, depth, node);
            if t.kind.ArrayEnd? then r == Parsed(true, node, t.end, [], n)
            else if t.kind.ArraySeparator? then r == ParseElements(inp, t.end, n, depth, node)
            else Fails(r, [ReadError(MissingCommaOrBracket, t.start, t.end)])
  {
    hide LexPastComments, NotesPast, ParseElements, NotesRecover, Recover;
  }

  lemma MembersStep(inp: Input, pos: nat, notes: Notes, depth: nat, node: Node, name: bytes)
    requires pos <= |inp.doc| && node.body.Fields? && ParseMembers(inp, pos, notes, depth, node, name).Parsed?
    ensures NotesPast(inp, pos, notes).Some?
    ensures var t, n := LexPastComments(inp.doc, inp.features, pos), NotesPast(inp, pos, notes).value;
            var r, key := ParseMembers(inp, pos, notes, depth, node, name), NameOf(inp, t);
            if t.kind.ObjectEnd? && name == [] then r == Parsed(true, node, t.end, [], n) && key == NoName
            else if key.Named? && !(inp.features.rejectDupKeys && Lookup(node.body.fields, key.text).Some?) then
              r == ParseMember(inp, t.end, n, depth, node, key.text)
            else
              Fails(r, [ReadError(match key
                                  case Named(text) => DuplicateKey(text)
                                  case BadName(e) => e
                                  case NoName => MissingBraceOrName, t.start, t.end)])
  {
    hide LexPastComments, NotesPast, ParseMember, NotesRecover, Recover, Lookup, StringText, NumberValue, KeyText;
  }

  lemma MemberStep(inp: Input, pos: nat, notes: Notes, depth: nat, node: Node, key: bytes)
    requires pos <= |inp.doc| && node.body.Fields? && ParseMember(inp, pos, notes, depth, node, key).Parsed?
    ensures var colon := Lex(inp.doc, inp.features, pos);
            && Noted(inp, colon, notes).Some?
            && var n, all := Noted(inp, colon, notes).value, ParseMember(inp, pos, notes, depth, node, key);
               if !colon.kind.MemberSeparator? then Fails(all, [ReadError(MissingColon, colon.start, colon.end)])
               else
                 var r := ParseValue(inp, colon.end, n, depth + 1, SlotOf(node.body.fields, key));
                 && r.Parsed?
                 && var node' := node.(body := Fields(Put(node.body.fields, key, r.node)));
                    if r.ok then all == ParseAfterMember(inp, r.pos, r.notes, depth, node', key)
                    else Fails(all, r.errors)
  {
    hide Lex, Noted, ParseValue, ParseAfterMember, NotesRecover, Recover, Put, Lookup;
  }

  lemma AfterMemberStep(inp: Input, pos: nat, notes: Notes, depth: nat, node: Node, name: bytes) returns (m: Notes)
    requires pos <= |inp.doc| && node.body.Fields? && ParseAfterMember(inp, pos, notes, depth, node, name).Parsed?
    ensures var t, u := Lex(inp.doc, inp.features, pos), LexPastComments(inp.doc, inp.features, pos);
            var r := ParseAfterMember(inp, pos, notes, depth, node, name);
            if u.kind.ObjectEnd? then r == Parsed(true, node, u.end, [], m)
            else if t.kind.Comment? || u.kind.ArraySeparator? then r == ParseMembers(inp, u.end, m, depth, node, name)
            else Fails(r, [ReadError(MissingCommaOrBrace, u.start, u.end)])
  {
    hide Lex, Noted, NotesPast, ParseMembers, NotesRecover, Recover;
    var t := Lex(inp.doc, inp.features, pos);
    var n := Noted(inp, t, notes);
    if t.kind.Comment? {
      PastOneComment(inp.doc, inp.features, pos);
      m := NotesPast(inp, t.end, n.value).value;
    } else {
      NoComment(inp.doc, inp.features, pos);
      m := n.value;
    }
    hide LexPastComments;
  }

  lemma PastOneComment(doc: bytes, f: Features, pos: nat)
    requires pos <= |doc| && Lex(doc, f, pos).kind.Comment?
    ensures LexPastComments(doc, f, pos) == LexPastComments(doc, f, Lex(doc, f, pos).end)
  {
    hide Lex;
  }

  lemma NoComment(doc: bytes, f: Features, pos: nat)
    requires pos <= |doc| && !Lex(doc, f, pos).kind.Comment?
    ensures LexPastComments(doc, f, pos) == Lex(doc, f, pos)
  {
    hide Lex;
  }

  // ---------------------------------------------------------------- scalars

  /** A scalar that is read is spelled, and the only one that is. */
  lemma ScalarIsSpelled(inp: Input, t: Token, notes: Notes, slot: Node)
    requires t.start <= t.end <= |inp.doc| && (t.kind.StringToken? ==> t.end >= t.start + 2)
    requires ParseScalar(inp, t, notes, slot).Parsed? && ParseScalar(inp, t, notes, slot).ok
    ensures var r := ParseScalar(inp, t, notes, slot);
            && r.node.body.Leaf? && !r.node.body.value.Array? && !r.node.body.value.Object?
            && ScalarEnd(inp, r.node.body.value, t) == Some(r.pos)
            && Norm(r.node.body.value) == r.node.body.value && Distinct(r.node.body.value)
  {
    hide StringText, NumberValue;
    if t.kind.NumberToken? {
      NumbersAreNormal(inp, Text(inp.doc, t));
    }
  }

  lemma NumbersAreNormal(inp: Input, text: bytes)
    ensures var v := NumberValue(inp, text);
            v.Some? ==> (v.value.Int? || v.value.UInt? || v.value.Real?) && Norm(v.value) == v.value
  {
  }

  lemma SpelledScalarIsRead(inp: Input, t: Token, notes: Notes, slot: Node, v: Value)
    requires t.start <= t.end <= |inp.doc| && (t.kind.StringToken? ==> t.end >= t.start + 2)
    requires ParseScalar(inp, t, notes, slot).Parsed? && ScalarEnd(inp, v, t).Some?
    ensures var r := ParseScalar(inp, t, notes, slot);
            r.ok && Some(r.pos) == ScalarEnd(inp, v, t) && r.node.body == Leaf(v) && Norm(v) == v
  {
    hide StringText, NumberValue;
    if t.kind.NumberToken? {
      NumbersAreNormal(inp, Text(inp.doc, t));
    }
  }

  /** A token that spells no scalar fails with one error, at the token. */
  lemma NoScalarFails(inp: Input, t: Token, notes: Notes, slot: Node)
    requires t.start <= t.end <= |inp.doc| && (t.kind.StringToken? ==> t.end >= t.start + 2)
    requires ParseScalar(inp, t, notes, slot).Parsed? && forall v :: ScalarEnd(inp, v, t) == None
    ensures Fails(ParseScalar(inp, t, notes, slot), [ReadError(
      if t.kind.NumberToken? then NotANumber
      else if t.kind.StringToken? && StringText(inp.doc, t).Malformed? then StringText(inp.doc, t).error
      else ValueExpected, t.start, t.end)])
  {
    var r := ParseScalar(inp, t, notes, slot);
    if r.ok {
      ScalarIsSpelled(inp, t, notes, slot);
    }
    hide StringText, NumberValue, ScalarEnd;
  }

  /** A value that is read ranges from its first token to the cursor behind it. */
  lemma RangeIs(inp: Input, pos: nat, notes: Notes, depth: nat, slot: Node)
    requires pos <= |inp.doc| && !inp.features.allowDroppedNullPlaceholders
    requires ParseValue(inp, pos, notes, depth, slot).Parsed? && ParseValue(inp, pos, notes, depth, slot).ok
    ensures var r := ParseValue(inp, pos, notes, depth, slot);
            r.node.start == NextToken(inp.doc, inp.features, pos).start && r.node.limit == r.pos
  {
    hide NextToken, NotesNext, ParseValue, ParseMembers, ParseItems, ParseScalar;
    ValueStep(inp, pos, notes, depth, slot);
    var t, n := NextToken(inp.doc, inp.features, pos), Begun(inp, pos, notes);
    hide Begun, Close;
    if t.kind.ObjectBegin? {
      var node := Node(t.start, slot.limit, Fields([]));
      CloseFacts(inp, ParseMembers(inp, t.end, n, depth, node, []));
      MembersKeepStart(inp, t.end, n, depth, node, []);
    } else if t.kind.ArrayBegin? {
      var node := Node(t.start, slot.limit, Items([]));
      CloseFacts(inp, ParseItems(inp, t.end, n, depth, node));
      ItemsKeepStart(inp, t.end, n, depth, node);
    } else {
      ScalarRange(inp, t, n, slot);
    }
  }

  lemma ScalarRange(inp: Input, t: Token, notes: Notes, slot: Node)
    requires t.start <= t.end <= |inp.doc| && (t.kind.StringToken? ==> t.end >= t.start + 2)
    requires !inp.features.allowDroppedNullPlaceholders
    requires ParseScalar(inp, t, notes, slot).Parsed? && ParseScalar(inp, t, notes, slot).ok
    ensures var r := ParseScalar(inp, t, notes, slot); r.node.start == t.start && r.node.limit == t.end == r.pos
  {
    hide StringText, NumberValue;
  }

  lemma {:induction false} ItemsKeepStart(inp: Input, pos: nat, notes: Notes, depth: nat, node: Node)
    requires pos <= |inp.doc| && node.body.Items? && ParseItems(inp, pos, notes, depth, node).Parsed?
    requires ParseItems(inp, pos, notes, depth, node).ok
    ensures ParseItems(inp, pos, notes, depth, node).node.start == node.start
  {
    hide SkipSpaces, ParseElements;
    var p := SkipSpaces(inp.doc, pos);
    if !IsByteAt(inp.doc, p, RBRACKET) {
      ElementsKeepStart(inp, p, notes, depth, node);
    }
  }

  lemma {:induction false} ElementsKeepStart(inp: Input, pos: nat, notes: Notes, depth: nat, node: Node)
    requires pos <= |inp.doc| && node.body.Items? && ParseElements(inp, pos, notes, depth, node).Parsed?
    requires ParseElements(inp, pos, notes, depth, node).ok
    ensures ParseElements(inp, pos, notes, depth, node).node.start == node.start
    decreases |inp.doc| - pos
  {
    hide ParseValue, ParseElements, ParseAfterElement, LexPastComments, NotesPast;
    ElementsStep(inp, pos, notes, depth, node);
    var r := ParseValue(inp, pos, notes, depth + 1, NULL_NODE);
    var node' := node.(body := Items(node.body.items + [r.node]));
    AfterElementStep(inp, r.pos, r.notes, depth, node');
    var t := LexPastComments(inp.doc, inp.features, r.pos);
    if t.kind.ArraySeparator? {
      ElementsKeepStart(inp, t.end, NotesPast(inp, r.pos, r.notes).value, depth, node');
    }
  }

  lemma {:induction false} MembersKeepStart(inp: Input, pos: nat, notes: Notes, depth: nat, node: Node, name: bytes)
    requires pos <= |inp.doc| && node.body.Fields? && ParseMembers(inp, pos, notes, depth, node, name).Parsed?
    requires ParseMembers(inp, pos, notes, depth, node, name).ok
    ensures ParseMembers(inp, pos, notes, depth, node, name).node.start == node.start
    decreases |inp.doc| - pos
  {
    hide ParseMembers, ParseMember, ParseValue, ParseAfterMember, LexPastComments, NotesPast, NameOf, Lookup, Lex,
      Noted,
      Put;
    MembersStep(inp, pos, notes, depth, node, name);
    var t, n := LexPastComments(inp.doc, inp.features, pos), NotesPast(inp, pos, notes).value;
    if !(t.kind.ObjectEnd? && name == []) {
      NamesHaveText(inp, t);
      var key := NameOf(inp, t).text;
      MemberStep(inp, t.end, n, depth, node, key);
      var colon := Lex(inp.doc, inp.features, t.end);
      var r := ParseValue(inp, colon.end, Noted(inp, colon, n).value, depth + 1, SlotOf(node.body.fields, key));
      var node' := node.(body := Fields(Put(node.body.fields, key, r.node)));
      var m := AfterMemberStep(inp, r.pos, r.notes, depth, node', key);
      var u := LexPastComments(inp.doc, inp.features, r.pos);
      if !u.kind.ObjectEnd? {
        MembersKeepStart(inp, u.end, m, depth, node', key);
      }
    }
  }

  /** A number may stand for a name where that is allowed: an integer for its shortest text. */
  lemma NumericNames(inp: Input, t: Token)
    requires t.start <= t.end <= |inp.doc| && t.kind.NumberToken? && IsInteger(Text(inp.doc, t))
    ensures NameOf(inp, t)
         == if inp.features.allowNumericKeys then Named(IntText(Amount(Text(inp.doc, t)))) else NoName
  {
    hide Digits;
  }

  /** A name of 2^30 bytes, or a string of 2^31 - 5, makes the reader throw. */
  lemma LongNamesThrow(inp: Input, pos: nat, notes: Notes, depth: nat, node: Node, name: bytes)
    requires pos <= |inp.doc| && node.body.Fields?
    requires var key := NameOf(inp, LexPastComments(inp.doc, inp.features, pos)); key.Named? && |key.text| >= 1073741824
    ensures ParseMembers(inp, pos, notes, depth, node, name).Thrown?
  {
    hide LexPastComments, NotesPast, StringText, NumberValue, KeyText;
  }

  lemma LongStringsThrow(inp: Input, t: Token, notes: Notes, slot: Node)
    requires t.start + 2 <= t.end <= |inp.doc| && t.kind.StringToken? && StringText(inp.doc, t).Unescaped?
    ensures ParseScalar(inp, t, notes, slot).Thrown? <==> |StringText(inp.doc, t).text| >= 2147483643
  {
    hide StringText;
  }

  /** A name below that length does not. */
  lemma ShortNamesGoOn(inp: Input, pos: nat, notes: Notes, depth: nat, node: Node, name: bytes)
    requires pos <= |inp.doc| && node.body.Fields? && NotesPast(inp, pos, notes).Some?
    requires !inp.features.rejectDupKeys
    requires var key := NameOf(inp, LexPastComments(inp.doc, inp.features, pos)); key.Named? && |key.text| < 1073741824
    ensures var t := LexPastComments(inp.doc, inp.features, pos);
            ParseMembers(inp, pos, notes, depth, node, name)
            == ParseMember(inp, t.end, NotesPast(inp, pos, notes).value, depth, node, NameOf(inp, t).text)
  {
    hide LexPastComments, NotesPast, StringText, NumberValue, KeyText, ParseMember;
  }

  // ---------------------------------------------------------------- what is read is spelled

  /** A value that is read is spelled where it was read, and is the value built. */
  lemma {:induction false} ReadIsSpelled(inp: Input, pos: nat, notes: Notes, depth: nat, slot: Node) returns (v: Value)
    requires pos <= |inp.doc|
    requires ParseValue(inp, pos, notes, depth, slot).Parsed? && ParseValue(inp, pos, notes, depth, slot).ok
    ensures var r := ParseValue(inp, pos, notes, depth, slot);
            && Spells(inp, v, pos) == Some(r.pos) && ValueOf(r.node) == Norm(v) && Admissible(inp.features, v)
            && (r.node.body.Leaf? <==> !v.Array? && !v.Object?)
    decreases |inp.doc| - pos, 0
  {
    hide NextToken, NotesNext, ParseValue, ParseMembers, ParseItems, ParseScalar, ScalarEnd, Norm, Distinct;
    ValueStep(inp, pos, notes, depth, slot);
    var t, n := NextToken(inp.doc, inp.features, pos), Begun(inp, pos, notes);
    hide Begun, Close, SpellsItems, SpellsMembers, SkipSpaces;
    if t.kind.ObjectBegin? {
      var node := Node(t.start, slot.limit, Fields([]));
      var inner := ParseMembers(inp, t.end, n, depth, node, []);
      CloseFacts(inp, inner);
      var members := MembersAreSpelled(inp, t.end, n, depth, node, []);
      v := Object(members);
      ObjectIs(inp.features, inner.node, inner.node.(limit := inner.pos), members);
    } else if t.kind.ArrayBegin? {
      var node := Node(t.start, slot.limit, Items([]));
      var inner := ParseItems(inp, t.end, n, depth, node);
      CloseFacts(inp, inner);
      var items := ItemsAreSpelled(inp, t.end, n, depth, node);
      v := Array(items);
      ArrayIs(inp.features, inner.node, inner.node.(limit := inner.pos), items);
    } else {
      ScalarIsSpelled(inp, t, n, slot);
      v := ParseScalar(inp, t, n, slot).node.body.value;
      ScalarSpells(inp, v, pos);
    }
  }

  lemma ScalarSpells(inp: Input, v: Value, pos: nat)
    requires pos <= |inp.doc| && !v.Array? && !v.Object?
    ensures Spells(inp, v, pos) == ScalarEnd(inp, v, NextToken(inp.doc, inp.features, pos))
  {
    hide ScalarEnd, NextToken;
  }

  /** Members bound in an empty object. */
  lemma ObjectIs(f: Features, from: Node, node: Node, members: seq<Member>)
    requires from.body.Fields? && node.body == from.body && Unbound(f, [], members) && AdmissibleMembers(f, members)
    requires MembersOf(from.body.fields) == BindAll([], NormMembers(members))
    ensures ValueOf(node) == Norm(Object(members)) && Admissible(f, Object(members))
  {
  }

  lemma ArrayIs(f: Features, from: Node, node: Node, items: seq<Value>)
    requires from.body.Items? && node.body == from.body && AdmissibleItems(f, items)
    requires ValuesOf(from.body.items) == NormItems(items)
    ensures ValueOf(node) == Norm(Array(items)) && Admissible(f, Array(items))
  {
  }

  lemma {:induction false} ItemsAreSpelled(inp: Input, pos: nat, notes: Notes, depth: nat, node: Node)
    returns (items: seq<Value>)
    requires pos <= |inp.doc| && node.body == Items([])
    requires ParseItems(inp, pos, notes, depth, node).Parsed? && ParseItems(inp, pos, notes, depth, node).ok
    ensures var r, p := ParseItems(inp, pos, notes, depth, node), SkipSpaces(inp.doc, pos);
            && r.node.body.Items? && ValuesOf(r.node.body.items) == NormItems(items)
            && AdmissibleItems(inp.features, items)
            && (items == [] ==> IsByteAt(inp.doc, p, 93) && r.pos == p + 1)
            && (items != [] ==> !IsByteAt(inp.doc, p, 93) && SpellsItems(inp, items, p) == Some(r.pos))
    decreases |inp.doc| - pos, 2
  {
    hide SkipSpaces, ParseElements, SpellsItems;
    var p := SkipSpaces(inp.doc, pos);
    if IsByteAt(inp.doc, p, 93) {
      items := [];
    } else {
      items := ElementsAreSpelled(inp, p, notes, depth, node);
      assert [] + NormItems(items) == NormItems(items);
    }
  }

  lemma {:induction false} ElementsAreSpelled(inp: Input, pos: nat, notes: Notes, depth: nat, node: Node)
    returns (items: seq<Value>)
    requires pos <= |inp.doc| && node.body.Items?
    requires ParseElements(inp, pos, notes, depth, node).Parsed? && ParseElements(inp, pos, notes, depth, node).ok
    ensures var r := ParseElements(inp, pos, notes, depth, node);
            && items != [] && SpellsItems(inp, items, pos) == Some(r.pos) && AdmissibleItems(inp.features, items)
            && r.node.body.Items? && ValuesOf(r.node.body.items) == ValuesOf(node.body.items) + NormItems(items)
    decreases |inp.doc| - pos, 1
  {
    hide ParseValue, ParseElements, ParseAfterElement, Spells, Norm, LexPastComments, NotesPast, Admissible;
    ElementsStep(inp, pos, notes, depth, node);
    var r := ParseValue(inp, pos, notes, depth + 1, NULL_NODE);
    var v := ReadIsSpelled(inp, pos, notes, depth + 1, NULL_NODE);
    var node' := node.(body := Items(node.body.items + [r.node]));
    ValuesOfAppend(node.body.items, r.node);
    AfterElementStep(inp, r.pos, r.notes, depth, node');
    var t, n := LexPastComments(inp.doc, inp.features, r.pos), NotesPast(inp, r.pos, r.notes).value;
    var rest: seq<Value> := [];
    if t.kind.ArraySeparator? {
      rest := ElementsAreSpelled(inp, t.end, n, depth, node');
    }
    items := [v] + rest;
    assert items[1..] == rest;
    Regrouped(ValuesOf(node.body.items), Norm(v), NormItems(rest));
    MoreItems(inp.features, v, rest);
  }

  lemma Regrouped<T>(a: seq<T>, x: T, b: seq<T>)
    ensures a + [x] + b == a + ([x] + b)
  {
  }

  lemma MoreItems(f: Features, v: Value, rest: seq<Value>)
    requires Admissible(f, v) && AdmissibleItems(f, rest)
    ensures AdmissibleItems(f, [v] + rest)
    ensures NormItems([v] + rest) == [Norm(v)] + NormItems(rest)
  {
    hide Norm, Admissible;
    assert ([v] + rest)[1..] == rest;
  }

  lemma {:induction false} MembersAreSpelled(inp: Input, pos: nat, notes: Notes, depth: nat, node: Node, name: bytes)
    returns (members: seq<Member>)
    requires pos <= |inp.doc| && node.body.Fields?
    requires ParseMembers(inp, pos, notes, depth, node, name).Parsed?
        && ParseMembers(inp, pos, notes, depth, node, name).ok
    ensures var r := ParseMembers(inp, pos, notes, depth, node, name);
            && SpellsMembers(inp, members, pos, name) == Some(r.pos) && Bound(inp.features, node, r.node, members)
    decreases |inp.doc| - pos, 1
  {
    hide ParseMembers, ParseMember, LexPastComments, NotesPast, NameOf, Lookup, Bound, SpellsRest, Spells, Lex;
    MembersStep(inp, pos, notes, depth, node, name);
    var t, n := LexPastComments(inp.doc, inp.features, pos), NotesPast(inp, pos, notes).value;
    if t.kind.ObjectEnd? && name == [] {
      members := [];
      NothingBound(inp.features, node);
    } else {
      NamesHaveText(inp, t);
      members := MemberIsSpelled(inp, t.end, n, depth, node, NameOf(inp, t).text);
    }
  }

  lemma NamesHaveText(inp: Input, t: Token)
    requires t.start <= t.end <= |inp.doc| && (t.kind.StringToken? ==> t.end >= t.start + 2)
    requires t.kind.NumberToken? ==> t.start < t.end
    requires NameOf(inp, t).Named?
    ensures t.start < t.end
  {
  }

  /** The members were bound on top of what `node` held, none twice where that matters. */
  ghost predicate Bound(f: Features, node: Node, result: Node, members: seq<Member>)
    requires node.body.Fields?
  {
    && result.body.Fields?
    && MembersOf(result.body.fields) == BindAll(MembersOf(node.body.fields), NormMembers(members))
    && Unbound(f, node.body.fields, members) && AdmissibleMembers(f, members)
  }

  lemma NothingBound(f: Features, node: Node)
    requires node.body.Fields?
    ensures Bound(f, node, node, [])
  {
  }

  /** One more member in front. */
  lemma OneMoreBound(f: Features, node: Node, result: Node, key: bytes, child: Node, v: Value, rest: seq<Member>)
    requires node.body.Fields? && ValueOf(child) == Norm(v) && Admissible(f, v)
    requires f.rejectDupKeys ==> Lookup(node.body.fields, key) == None
    requires Bound(f, node.(body := Fields(Put(node.body.fields, key, child))), result, rest)
    ensures Bound(f, node, result, [Member(key, v)] + rest)
  {
    hide Put, Lookup, Norm, Admissible, BindAll;
    var fields, members := node.body.fields, [Member(key, v)] + rest;
    PutBinds(fields, key, child);
    assert members[1..] == rest;
    BindOne(MembersOf(fields), Member(key, Norm(v)), NormMembers(rest));
    UnboundMore(f, fields, key, child, v, rest);
  }

  lemma BindOne(bound: seq<Member>, m: Member, rest: seq<Member>)
    ensures BindAll(bound, [m] + rest) == BindAll(SetMember(bound, m.name, m.value), rest)
  {
    assert ([m] + rest)[1..] == rest;
  }

  lemma {:induction false} PutFinds(fields: seq<Field>, name: bytes, node: Node)
    ensures Lookup(Put(fields, name, node), name) == Some(node)
  {
    if fields != [] && !NameLess(name, fields[0].name) && fields[0].name != name {
      PutFinds(fields[1..], name, node);
      assert ([fields[0]] + Put(fields[1..], name, node))[1..] == Put(fields[1..], name, node);
    }
  }

  lemma UnboundMore(f: Features, fields: seq<Field>, key: bytes, child: Node, v: Value, rest: seq<Member>)
    requires f.rejectDupKeys ==> Lookup(fields, key) == None
    requires Unbound(f, Put(fields, key, child), rest)
    ensures Unbound(f, fields, [Member(key, v)] + rest)
  {
    hide Put, Lookup;
    var members := [Member(key, v)] + rest;
    if f.rejectDupKeys {
      PutFinds(fields, key, child);
      forall k | 0 <= k < |rest| ensures rest[k].name != key && Lookup(fields, rest[k].name) == None {
        if rest[k].name != key {
          PutFindsOthers(fields, key, child, rest[k].name);
        }
      }
      assert forall k :: 0 < k < |members| ==> members[k] == rest[k - 1];
    }
  }

  lemma {:induction false} MemberIsSpelled(inp: Input, pos: nat, notes: Notes, depth: nat, node: Node, key: bytes)
    returns (members: seq<Member>)
    requires pos <= |inp.doc| && node.body.Fields?
    requires inp.features.rejectDupKeys ==> Lookup(node.body.fields, key) == None
    requires ParseMember(inp, pos, notes, depth, node, key).Parsed? && ParseMember(inp, pos, notes, depth, node, key).ok
    ensures var r, colon := ParseMember(inp, pos, notes, depth, node, key), Lex(inp.doc, inp.features, pos);
            && members != [] && members[0].name == key && colon.kind.MemberSeparator?
            && Bound(inp.features, node, r.node, members)
            && var e := Spells(inp, members[0].value, colon.end);
               e.Some? && SpellsRest(inp, members[1..], e.value, key) == Some(r.pos)
    decreases |inp.doc| - pos, 2
  {
    hide ParseMember, ParseValue, ParseAfterMember, Lex, Noted, Lookup, Put, Bound, SpellsRest, Spells, Admissible,
      Norm;
    MemberStep(inp, pos, notes, depth, node, key);
    var colon := Lex(inp.doc, inp.features, pos);
    var n, slot := Noted(inp, colon, notes).value, SlotOf(node.body.fields, key);
    var v := ReadIsSpelled(inp, colon.end, n, depth + 1, slot);
    var r := ParseValue(inp, colon.end, n, depth + 1, slot);
    var node' := node.(body := Fields(Put(node.body.fields, key, r.node)));
    var rest := RestIsSpelled(inp, r.pos, r.notes, depth, node', key);
    members := [Member(key, v)] + rest;
    assert members[1..] == rest;
    OneMoreBound(inp.features, node, ParseMember(inp, pos, notes, depth, node, key).node, key, r.node, v, rest);
  }

  lemma {:induction false} RestIsSpelled(inp: Input, pos: nat, notes: Notes, depth: nat, node: Node, name: bytes)
    returns (members: seq<Member>)
    requires pos <= |inp.doc| && node.body.Fields?
    requires ParseAfterMember(inp, pos, notes, depth, node, name).Parsed?
        && ParseAfterMember(inp, pos, notes, depth, node, name).ok
    ensures var r := ParseAfterMember(inp, pos, notes, depth, node, name);
            && SpellsRest(inp, members, pos, name) == Some(r.pos) && Bound(inp.features, node, r.node, members)
    decreases |inp.doc| - pos, 2
  {
    hide ParseAfterMember, ParseMembers, LexPastComments, Lex, Bound, SpellsMembers;
    var m := AfterMemberStep(inp, pos, notes, depth, node, name);
    var u := LexPastComments(inp.doc, inp.features, pos);
    if u.kind.ObjectEnd? {
      members := [];
      NothingBound(inp.features, node);
    } else {
      members := MembersAreSpelled(inp, u.end, m, depth, node, name);
    }
  }

  // ---------------------------------------------------------------- what is spelled is read

  /** Unless the reader throws, a value that is spelled is read as that value. */
  lemma {:induction false} SpelledIsRead(inp: Input, v: Value, pos: nat, notes: Notes, depth: nat, slot: Node)
    requires pos <= |inp.doc| && Spells(inp, v, pos).Some? && Admissible(inp.features, v)
    requires ParseValue(inp, pos, notes, depth, slot).Parsed?
    ensures var r := ParseValue(inp, pos, notes, depth, slot);
            r.ok && Spells(inp, v, pos) == Some(r.pos) && ValueOf(r.node) == Norm(v)
    decreases v, 0
  {
    hide NextToken, NotesNext, ParseValue, ParseMembers, ParseItems, ParseScalar, ScalarEnd, Norm, Distinct,
      SpellsItems;
    ValueStep(inp, pos, notes, depth, slot);
    var t, n := NextToken(inp.doc, inp.features, pos), Begun(inp, pos, notes);
    hide Begun, Close, SpellsMembers, SkipSpaces;
    match v {
      case Object(members) =>
        var node := Node(t.start, slot.limit, Fields([]));
        var inner := ParseMembers(inp, t.end, n, depth, node, []);
        CloseFacts(inp, inner);
        NothingThere(inp.features, v);
        SpelledMembersAreRead(inp, members, t.end, n, depth, node, []);
        ObjectIs(inp.features, inner.node, inner.node.(limit := inner.pos), members);
      case Array(items) =>
        var node := Node(t.start, slot.limit, Items([]));
        var inner := ParseItems(inp, t.end, n, depth, node);
        CloseFacts(inp, inner);
        ItemsAdmissible(inp.features, v);
        SpelledItemsAreRead(inp, items, t.end, n, depth, node);
        ArrayIs(inp.features, inner.node, inner.node.(limit := inner.pos), items);
      case _ =>
        ScalarSpells(inp, v, pos);
        ScalarOpensNothing(inp, v, t);
        SpelledScalarIsRead(inp, t, n, slot, v);
        LeafIs(ParseScalar(inp, t, n, slot).node, v);
    }
  }

  lemma LeafIs(n: Node, v: Value)
    requires n.body == Leaf(v)
    ensures ValueOf(n) == v
  {
  }

  lemma ScalarOpensNothing(inp: Input, v: Value, t: Token)
    requires t.start <= t.end <= |inp.doc| && (t.kind.StringToken? ==> t.end >= t.start + 2)
    requires ScalarEnd(inp, v, t).Some? && !v.Array? && !v.Object?
    ensures !t.kind.ObjectBegin? && !t.kind.ArrayBegin?
  {
    hide StringText, NumberValue;
  }

  lemma NothingThere(f: Features, v: Value)
    requires v.Object? && Admissible(f, v)
    ensures Unbound(f, [], v.members) && AdmissibleMembers(f, v.members)
  {
  }

  lemma SpelledItemsAreRead(inp: Input, items: seq<Value>, pos: nat, notes: Notes, depth: nat, node: Node)
    requires pos <= |inp.doc| && node.body == Items([]) && AdmissibleItems(inp.features, items)
    requires ParseItems(inp, pos, notes, depth, node).Parsed?
    requires var p := SkipSpaces(inp.doc, pos);
             if items == [] then IsByteAt(inp.doc, p, 93)
             else !IsByteAt(inp.doc, p, 93) && SpellsItems(inp, items, p).Some?
    ensures var r, p := ParseItems(inp, pos, notes, depth, node), SkipSpaces(inp.doc, pos);
            && r.ok && r.node.body.Items? && ValuesOf(r.node.body.items) == NormItems(items)
            && r.pos == if items == [] then p + 1 else SpellsItems(inp, items, p).value
    decreases items, 2
  {
    hide SkipSpaces, ParseElements, SpellsItems, AdmissibleItems;
    var p := SkipSpaces(inp.doc, pos);
    if items != [] {
      SpelledElementsAreRead(inp, items, p, notes, depth, node);
      assert [] + NormItems(items) == NormItems(items);
    }
  }

  lemma {:induction false} SpelledElementsAreRead(inp: Input, items: seq<Value>, pos: nat, notes: Notes, depth: nat,
        node: Node)
    requires pos <= |inp.doc| && node.body.Items? && items != [] && AdmissibleItems(inp.features, items)
    requires ParseElements(inp, pos, notes, depth, node).Parsed? && SpellsItems(inp, items, pos).Some?
    ensures var r := ParseElements(inp, pos, notes, depth, node);
            && r.ok && SpellsItems(inp, items, pos) == Some(r.pos)
            && r.node.body.Items? && ValuesOf(r.node.body.items) == ValuesOf(node.body.items) + NormItems(items)
    decreases items, 1
  {
    hide ParseValue, ParseElements, ParseAfterElement, Spells, Norm, LexPastComments, NotesPast, Admissible;
    ElementsStep(inp, pos, notes, depth, node);
    var r := ParseValue(inp, pos, notes, depth + 1, NULL_NODE);
    SpelledIsRead(inp, items[0], pos, notes, depth + 1, NULL_NODE);
    var node' := node.(body := Items(node.body.items + [r.node]));
    ValuesOfAppend(node.body.items, r.node);
    AfterElementStep(inp, r.pos, r.notes, depth, node');
    var t, n := LexPastComments(inp.doc, inp.features, r.pos), NotesPast(inp, r.pos, r.notes).value;
    if |items| > 1 {
      SpelledElementsAreRead(inp, items[1..], t.end, n, depth, node');
      Regrouped(ValuesOf(node.body.items), Norm(items[0]), NormItems(items[1..]));
    } else {
      assert items[1..] == [];
    }
  }

  lemma {:induction false} SpelledMembersAreRead(inp: Input, members: seq<Member>, pos: nat, notes: Notes, depth: nat,
        node: Node, name: bytes)
    requires pos <= |inp.doc| && node.body.Fields? && ParseMembers(inp, pos, notes, depth, node, name).Parsed?
    requires SpellsMembers(inp, members, pos, name).Some?
    requires Unbound(inp.features, node.body.fields, members) && AdmissibleMembers(inp.features, members)
    ensures var r := ParseMembers(inp, pos, notes, depth, node, name);
            && r.ok && SpellsMembers(inp, members, pos, name) == Some(r.pos)
            && Bound(inp.features, node, r.node, members)
    decreases members, 1
  {
    hide ParseMembers, ParseMember, LexPastComments, NotesPast, Lookup, Bound, SpellsRest, Spells, Lex, Unbound;
    MembersStep(inp, pos, notes, depth, node, name);
    var t, n := LexPastComments(inp.doc, inp.features, pos), NotesPast(inp, pos, notes).value;
    if members == [] {
      NothingBound(inp.features, node);
    } else {
      NamesAreNoBraces(inp, t);
      UnboundHead(inp.features, node.body.fields, members);
      SpelledMemberIsRead(inp, members, t.end, n, depth, node);
    }
  }

  lemma NamesAreNoBraces(inp: Input, t: Token)
    requires t.start <= t.end <= |inp.doc| && (t.kind.StringToken? ==> t.end >= t.start + 2)
    requires NameOf(inp, t).Named?
    ensures !t.kind.ObjectEnd?
  {
  }

  lemma {:induction false} SpelledMemberIsRead(inp: Input, members: seq<Member>, pos: nat, notes: Notes, depth: nat,
        node: Node)
    requires pos <= |inp.doc| && node.body.Fields? && members != []
    requires ParseMember(inp, pos, notes, depth, node, members[0].name).Parsed?
    requires Unbound(inp.features, node.body.fields, members) && AdmissibleMembers(inp.features, members)
    requires var colon := Lex(inp.doc, inp.features, pos);
             && colon.kind.MemberSeparator?
             && var e := Spells(inp, members[0].value, colon.end);
                e.Some? && SpellsRest(inp, members[1..], e.value, members[0].name).Some?
    ensures var r, colon := ParseMember(inp, pos, notes, depth, node, members[0].name), Lex(inp.doc, inp.features, pos);
            && r.ok && Bound(inp.features, node, r.node, members)
            && SpellsRest(inp, members[1..], Spells(inp, members[0].value, colon.end).value, members[0].name)
               == Some(r.pos)
    decreases members, 0
  {
    hide ParseMember, ParseValue, ParseAfterMember, Lex, Noted, Lookup, Put, Bound, SpellsRest, Spells, Admissible,
      Norm,
      Unbound;
    var key := members[0].name;
    MemberStep(inp, pos, notes, depth, node, key);
    var colon := Lex(inp.doc, inp.features, pos);
    var n, slot := Noted(inp, colon, notes).value, SlotOf(node.body.fields, key);
    SpelledIsRead(inp, members[0].value, colon.end, n, depth + 1, slot);
    var r := ParseValue(inp, colon.end, n, depth + 1, slot);
    var node' := node.(body := Fields(Put(node.body.fields, key, r.node)));
    UnboundHead(inp.features, node.body.fields, members);
    UnboundGrows(inp.features, node.body.fields, members, r.node);
    SpelledRestIsRead(inp, members[1..], r.pos, r.notes, depth, node', key);
    var result := ParseMember(inp, pos, notes, depth, node, key).node;
    OneMoreBound(inp.features, node, result, key, r.node, members[0].value, members[1..]);
    assert [Member(key, members[0].value)] + members[1..] == members;
  }

  lemma {:induction false} SpelledRestIsRead(inp: Input, members: seq<Member>, pos: nat, notes: Notes, depth: nat,
        node: Node, name: bytes)
    requires pos <= |inp.doc| && node.body.Fields? && ParseAfterMember(inp, pos, notes, depth, node, name).Parsed?
    requires SpellsRest(inp, members, pos, name).Some?
    requires Unbound(inp.features, node.body.fields, members) && AdmissibleMembers(inp.features, members)
    ensures var r := ParseAfterMember(inp, pos, notes, depth, node, name);
            && r.ok && SpellsRest(inp, members, pos, name) == Some(r.pos) && Bound(inp.features, node, r.node, members)
    decreases members, 2
  {
    hide ParseAfterMember, ParseMembers, LexPastComments, Lex, Bound, SpellsMembers, Unbound, AdmissibleMembers;
    var m := AfterMemberStep(inp, pos, notes, depth, node, name);
    var u := LexPastComments(inp.doc, inp.features, pos);
    if u.kind.ObjectEnd? {
      NothingBound(inp.features, node);
    } else {
      SpelledMembersAreRead(inp, members, u.end, m, depth, node, name);
    }
  }

  // ---------------------------------------------------------------- documents

  /** The reader accepts a document exactly if the document spells a value, and then the
      root is that value. */
  lemma AcceptsExactly(inp: Input, root: Node)
    ensures var o := ParseDocument(inp, root);
            o.Finished? ==>
              && (o.ok <==> exists v :: Document(inp, v))
              && forall v :: Document(inp, v) ==> ValueOf(o.root) == Norm(v)
  {
    hide ParseValue, Spells, Admissible, EndsWell;
    var o := ParseDocument(inp, root);
    if o.Finished? {
      RootStep(inp, root);
      if o.ok {
        var v := ReadIsSpelled(inp, 0, NO_NOTES, 1, root);
        assert Document(inp, v);
      }
      forall v | Document(inp, v) ensures o.ok && ValueOf(o.root) == Norm(v) {
        SpelledIsRead(inp, v, 0, NO_NOTES, 1, root);
        RootKind(inp, v, 0, NO_NOTES, 1, root);
      }
    }
  }

  /** A container is read as a container. */
  lemma RootKind(inp: Input, v: Value, pos: nat, notes: Notes, depth: nat, slot: Node)
    requires pos <= |inp.doc| && ParseValue(inp, pos, notes, depth, slot).Parsed?
    requires ParseValue(inp, pos, notes, depth, slot).ok
    requires ValueOf(ParseValue(inp, pos, notes, depth, slot).node) == Norm(v)
    ensures ParseValue(inp, pos, notes, depth, slot).node.body.Leaf? ==> !v.Array? && !v.Object?
  {
    hide ParseValue, Spells;
    var w := ReadIsSpelled(inp, pos, notes, depth, slot);
    NormKeepsKind(v);
    NormKeepsKind(w);
  }

  lemma NormKeepsKind(v: Value)
    ensures Norm(v).Array? == v.Array? && Norm(v).Object? == v.Object?
  {
  }

  /** What the end of a document comes to. */
  lemma RootStep(inp: Input, root: Node)
    requires ParseDocument(inp, root).Finished?
    ensures var o, r := ParseDocument(inp, root), ParseValue(inp, 0, NO_NOTES, 1, root);
            && r.Parsed?
            && (o.ok <==> r.ok && EndsWell(inp, r.pos) && !(inp.features.strictRoot && r.node.body.Leaf?))
            && o.root == r.node
            && var t := NextToken(inp.doc, inp.features, r.pos);
               o.errors == r.errors
                 + (if !EndsWell(inp, r.pos) then [ReadError(ExtraAfterValue, t.start, t.end)]
                    else if inp.features.strictRoot && r.node.body.Leaf? then
                      [ReadError(ArrayOrObjectRequired, 0, |inp.doc|)]
                    else [])
  {
    hide ParseValue, NextToken, NotesNext;
  }
}
