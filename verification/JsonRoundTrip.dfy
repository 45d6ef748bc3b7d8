/**
 Reading back what was written.  Any text that lays out the tokens of a value
 parses to that value, for every setting of the reader; it fails, by exception,
 exactly when the value is nested more deeply than the stack limit.
 */
module JsonRoundTrip {
  import opened Optional
  import opened Bytes
  import opened JsonText
  import opened JsonNumber
  import opened JsonValue
  import opened JsonMembers
  import opened JsonGrammar
  import opened JsonLayout

  lemma NotAComment(inp: Input, pos: nat, notes: Notes)
    requires pos <= |inp.doc| && !Lex(inp.doc, inp.features, pos).kind.Comment?
    ensures var t := Lex(inp.doc, inp.features, pos);
            && NextToken(inp.doc, inp.features, pos) == LexPastComments(inp.doc, inp.features, pos) == t
            && Noted(inp, t, notes) == NotesPast(inp, pos, notes) == NotesNext(inp, pos, notes) == Some(notes)
  {
    hide Lex;
  }

  lemma {:induction false} TokenHead(v: Value)
    requires Printable(v)
    ensures var t := Tokens(v)[0]; t != [] && !IsSpace(t[0]) && t[0] != RBRACKET
  {
    match v {
      case Int(i) => DigitsAreDigits(if i < 0 then -i else i);
      case UInt(u) => DigitsAreDigits(u);
      case _ =>
    }
  }

  // ---------------------------------------------------------------- the ordered map

  /** Binding a field binds the member it stands for. */
  lemma {:induction false} PutBinds(fields: seq<Field>, name: bytes, node: Node)
    ensures MembersOf(Put(fields, name, node)) == SetMember(MembersOf(fields), name, ValueOf(node))
  {
    if fields == [] || NameLess(name, fields[0].name) {
      assert ([Field(name, node)] + fields)[1..] == fields;
    } else if fields[0].name == name {
      assert ([Field(name, node)] + fields[1..])[1..] == fields[1..];
      assert MembersOf(fields)[1..] == MembersOf(fields[1..]);
    } else {
      PutBinds(fields[1..], name, node);
      assert ([fields[0]] + Put(fields[1..], name, node))[1..] == Put(fields[1..], name, node);
      assert MembersOf(fields)[1..] == MembersOf(fields[1..]);
    }
  }

  lemma {:induction false} PutFindsOthers(fields: seq<Field>, name: bytes, node: Node, other: bytes)
    requires other != name
    ensures Lookup(Put(fields, name, node), other) == Lookup(fields, other)
  {
    if fields == [] || NameLess(name, fields[0].name) {
      assert ([Field(name, node)] + fields)[1..] == fields;
    } else if fields[0].name == name {
      assert ([Field(name, node)] + fields[1..])[1..] == fields[1..];
    } else {
      PutFindsOthers(fields[1..], name, node, other);
      assert ([fields[0]] + Put(fields[1..], name, node))[1..] == Put(fields[1..], name, node);
    }
  }

  lemma {:induction false} ValuesOfAppend(items: seq<Node>, n: Node)
    ensures ValuesOf(items + [n]) == ValuesOf(items) + [ValueOf(n)]
  {
    if items == [] {
      assert items + [n] == [n];
    } else {
      ValuesOfAppend(items[1..], n);
      assert (items + [n])[1..] == items[1..] + [n];
    }
  }

  // ---------------------------------------------------------------- the layout, cut up

  /** `head` stands in `tokens` from the `k`-th on. */
  predicate Begins(head: seq<bytes>, tokens: seq<bytes>, k: nat) {
    k + |head| <= |tokens| && tokens[k..k + |head|] == head
  }

  lemma BeginsHead(head: seq<bytes>, tokens: seq<bytes>, k: nat)
    requires Begins(head, tokens, k) && head != []
    ensures k < |tokens| && tokens[k] == head[0]
  {
    assert tokens[k] == tokens[k..k + |head|][0];
  }

  lemma BeginsSplit(a: seq<bytes>, b: seq<bytes>, tokens: seq<bytes>, k: nat)
    requires Begins(a + b, tokens, k)
    ensures Begins(a, tokens, k) && Begins(b, tokens, k + |a|)
  {
    assert tokens[k..k + |a|] == tokens[k..k + |a + b|][..|a|];
    assert tokens[k + |a|..k + |a| + |b|] == tokens[k..k + |a + b|][|a|..];
  }

  lemma ThreeParts(head: bytes, middle: seq<bytes>, last: seq<bytes>, tokens: seq<bytes>, k: nat)
    requires last != [] && Begins([head] + (middle + last), tokens, k)
    ensures k < |tokens| && tokens[k] == head && Begins(middle, tokens, k + 1)
    ensures var m := k + 1 + |middle|;
            Begins(last, tokens, m) && m < |tokens| && tokens[m] == last[0]
  {
    hide Begins;
    BeginsSplit([head], middle + last, tokens, k);
    BeginsHead([head], tokens, k);
    BeginsSplit(middle, last, tokens, k + 1);
    BeginsHead(last, tokens, k + 1 + |middle|);
  }

  // ---------------------------------------------------------------- values

  /** The reader succeeded with a value equal to `v`, and stands after its tokens. */
  predicate Reads(doc: bytes, r: Parsed, v: Value, gaps: seq<bytes>, tokens: seq<bytes>, k: nat)
    requires Printable(v)
  {
    && r.Parsed? && r.ok && ValueOf(r.node) == Norm(v) && r.notes.before == []
    && (v.Array? || v.Object? ==> !r.node.body.Leaf?)
    && WovenAt(doc, r.pos, gaps, tokens, k + |Tokens(v)|)
  }

  /** What reading a value at its tokens gives: the value, or an exception when it
      needs more nodes than the stack may hold. */
  predicate ValueOutcome(inp: Input, r: Parsed, v: Value, depth: nat, gaps: seq<bytes>, tokens: seq<bytes>, k: nat)
    requires Printable(v)
  {
    if depth - 1 + Depth(v) <= inp.features.stackLimit then Reads(inp.doc, r, v, gaps, tokens, k) else r.Thrown?
  }

  /** `readValue` on a token that opens nothing. */
  lemma ScalarStep(inp: Input, pos: nat, notes: Notes, depth: nat, slot: Node, t: Token)
    requires pos <= |inp.doc| && depth <= inp.features.stackLimit && t == NextToken(inp.doc, inp.features, pos)
    requires !t.kind.ObjectBegin? && !t.kind.ArrayBegin?
    requires NotesNext(inp, pos, notes) == Some(notes) && notes.before == []
    ensures ParseValue(inp, pos, notes, depth, slot) == ParseScalar(inp, t, notes, slot)
  {
  }

  /** The kind of the token a scalar prints. */
  function ScalarKind(v: Value): Kind {
    match v
    case Null => NullToken
    case Bool(b) => if b then TrueToken else FalseToken
    case Str(_) => StringToken
    case _ => NumberToken
  }

  lemma {:induction false} ScalarLexes(doc: bytes, f: Features, v: Value, pos: nat, gaps: seq<bytes>,
        tokens: seq<bytes>, k: nat)
    requires Printable(v) && !v.Array? && !v.Object?
    requires WovenAt(doc, pos, gaps, tokens, k) && Begins(Tokens(v), tokens, k) && Follows(tokens, k + 1)
    ensures k < |tokens| && tokens[k] == Tokens(v)[0] && ReadsNext(doc, f, pos, gaps, tokens, k, ScalarKind(v))
    ensures v.Str? ==> StringText(doc, Lex(doc, f, pos)) == Unescaped(v.s)
  {
    BeginsHead(Tokens(v), tokens, k);
    hide Lex, StringText, UnescapeText, EscapeText, WellFormedUtf8, Digits, WovenAt, ReadsNext;
    match v {
      case Null => ReadsWord(doc, f, pos, gaps, tokens, k);
      case Bool(_) => ReadsWord(doc, f, pos, gaps, tokens, k);
      case Int(i) => ReadsNumber(doc, f, pos, gaps, tokens, k, i);
      case UInt(u) =>
        assert IntText(u) == Digits(u);
        ReadsNumber(doc, f, pos, gaps, tokens, k, u);
      case Str(s) =>
        ReadsString(doc, f, pos, gaps, tokens, k, s);
        StringRoundTrip(s);
    }
  }

  /** Decoding the token a scalar printed. */
  lemma {:induction false} ScalarDecodes(inp: Input, v: Value, t: Token, notes: Notes, slot: Node)
    requires Printable(v) && !v.Array? && !v.Object?
    requires t.start < t.end <= |inp.doc| && t.kind == ScalarKind(v) && Text(inp.doc, t) == Tokens(v)[0]
    requires v.Str? ==> t.end >= t.start + 2 && StringText(inp.doc, t) == Unescaped(v.s)
    ensures ParseScalar(inp, t, notes, slot) == LeafRead(inp, t, Norm(v), notes)
  {
    hide StringText, UnescapeText, EscapeText, WellFormedUtf8, Digits, Quoted;
    match v {
      case Int(i) => IntegerRoundTrip(i);
      case UInt(u) =>
        assert IntText(u) == Digits(u);
        IntegerRoundTrip(u);
      case _ =>
    }
  }

  lemma ScalarShape(v: Value)
    requires Printable(v) && !v.Array? && !v.Object?
    ensures |Tokens(v)| == 1 && forall start: int, limit: int :: ValueOf(Node(start, limit, Leaf(Norm(v)))) == Norm(v)
  {
  }

  lemma {:induction false} ScalarReads(inp: Input, v: Value, pos: nat, notes: Notes, depth: nat, slot: Node,
        gaps: seq<bytes>, tokens: seq<bytes>, k: nat)
    requires Printable(v) && !v.Array? && !v.Object? && depth <= inp.features.stackLimit
    requires WovenAt(inp.doc, pos, gaps, tokens, k) && Begins(Tokens(v), tokens, k) && Follows(tokens, k + |Tokens(v)|)
    requires notes.before == []
    ensures Reads(inp.doc, ParseValue(inp, pos, notes, depth, slot), v, gaps, tokens, k)
  {
    hide Lex, NextToken, LexPastComments, ParseValue, ParseScalar, StringText, Tokens, WovenAt, Begins, Follows,
      Printable;
    hide Norm, UnescapeText;
    var doc, f := inp.doc, inp.features;
    ScalarShape(v);
    ScalarLexes(doc, f, v, pos, gaps, tokens, k);
    NotAComment(inp, pos, notes);
    var t := Lex(doc, f, pos);
    ScalarStep(inp, pos, notes, depth, slot, t);
    ScalarDecodes(inp, v, t, notes, slot);
  }

  lemma {:induction false} ValueReads(inp: Input, v: Value, pos: nat, notes: Notes, depth: nat, slot: Node,
        gaps: seq<bytes>, tokens: seq<bytes>, k: nat)
    requires Admissible(inp.features, v)
    requires Printable(v) && depth >= 1
    requires WovenAt(inp.doc, pos, gaps, tokens, k) && Begins(Tokens(v), tokens, k) && Follows(tokens, k + |Tokens(v)|)
    requires notes.before == []
    ensures ValueOutcome(inp, ParseValue(inp, pos, notes, depth, slot), v, depth, gaps, tokens, k)
    decreases v, 0
  {
    if depth > inp.features.stackLimit {
    } else if v.Array? {
      ArrayReads(inp, v, pos, notes, depth, slot, gaps, tokens, k);
    } else if v.Object? {
      ObjectReads(inp, v, pos, notes, depth, slot, gaps, tokens, k);
    } else {
      ScalarReads(inp, v, pos, notes, depth, slot, gaps, tokens, k);
    }
  }

  // ---------------------------------------------------------------- arrays

  /** What reading elements into `node` gives; `k` is the token after them. */
  predicate ItemsOutcome(inp: Input, r: Parsed, items: seq<Value>, depth: nat, node: Node, gaps: seq<bytes>,
        tokens: seq<bytes>, k: nat)
    requires node.body.Items?
  {
    if depth + ItemsDepth(items) <= inp.features.stackLimit then
      && r.Parsed? && r.ok && r.node.body.Items? && r.notes.before == []
      && ValuesOf(r.node.body.items) == ValuesOf(node.body.items) + NormItems(items)
      && WovenAt(inp.doc, r.pos, gaps, tokens, k)
    else r.Thrown?
  }

  lemma ArrayStep(inp: Input, pos: nat, notes: Notes, depth: nat, slot: Node, t: Token)
    requires pos <= |inp.doc| && depth <= inp.features.stackLimit && t == NextToken(inp.doc, inp.features, pos)
    requires t.kind.ArrayBegin?
    requires NotesNext(inp, pos, notes) == Some(notes) && notes.before == []
    ensures ParseValue(inp, pos, notes, depth, slot)
         == Close(inp, ParseItems(inp, t.end, notes, depth, Node(t.start, slot.limit, Items([]))))
  {
  }

  lemma ArrayClose(inp: Input, r: Parsed, v: Value, depth: nat, node: Node, gaps: seq<bytes>, tokens: seq<bytes>,
        k: nat)
    requires Printable(v) && v.Array? && depth >= 1 && node.body == Items([])
    requires ItemsOutcome(inp, r, v.items, depth, node, gaps, tokens, k + |Tokens(v)|)
    ensures ValueOutcome(inp, Close(inp, r), v, depth, gaps, tokens, k)
  {
    hide Tokens, WovenAt;
  }

  lemma ArraySplit(v: Value, tokens: seq<bytes>, k: nat)
    requires Printable(v) && v.Array? && Begins(Tokens(v), tokens, k)
    ensures PrintableItems(v.items) && k < |tokens| && tokens[k] == [LBRACKET]
    ensures Begins(ArrayTail(v.items), tokens, k + 1) && |Tokens(v)| == 1 + |ArrayTail(v.items)|
  {
    assert Tokens(v) == [[LBRACKET]] + ArrayTail(v.items);
    BeginsSplit([[LBRACKET]], ArrayTail(v.items), tokens, k);
    BeginsHead([[LBRACKET]], tokens, k);
  }

  lemma {:induction false} ArrayReads(inp: Input, v: Value, pos: nat, notes: Notes, depth: nat, slot: Node,
        gaps: seq<bytes>, tokens: seq<bytes>, k: nat)
    requires Admissible(inp.features, v)
    requires Printable(v) && v.Array? && 1 <= depth <= inp.features.stackLimit
    requires WovenAt(inp.doc, pos, gaps, tokens, k) && Begins(Tokens(v), tokens, k)
    requires notes.before == []
    ensures ValueOutcome(inp, ParseValue(inp, pos, notes, depth, slot), v, depth, gaps, tokens, k)
    decreases v.items, 2
  {
    hide Lex, NextToken, LexPastComments, ParseValue, ParseItems, Close, ItemsOutcome, ValueOutcome;
    hide ArrayTail, Begins, WovenAt, Printable, PrintableItems, Tokens, Admissible;
    var doc, f := inp.doc, inp.features;
    ArraySplit(v, tokens, k);
    ItemsAdmissible(f, v);
    ReadsMark(doc, f, pos, gaps, tokens, k, LBRACKET);
    NotAComment(inp, pos, notes);
    var t := Lex(doc, f, pos);
    var node := Node(t.start, slot.limit, Items([]));
    ArrayStep(inp, pos, notes, depth, slot, t);
    ArrayBodyReads(inp, v.items, t.end, notes, depth, node, gaps, tokens, k + 1);
    ArrayClose(inp, ParseItems(inp, t.end, notes, depth, node), v, depth, node, gaps, tokens, k);
  }

  /** `readArray` when an element follows the bracket. */
  lemma ItemsStep(inp: Input, pos: nat, notes: Notes, depth: nat, node: Node)
    requires pos <= |inp.doc| && node.body.Items? && !IsByteAt(inp.doc, SkipSpaces(inp.doc, pos), RBRACKET)
    ensures ParseItems(inp, pos, notes, depth, node) == ParseElements(inp, SkipSpaces(inp.doc, pos), notes, depth, node)
  {
  }

  lemma UntrimOutcome(inp: Input, r: Parsed, items: seq<Value>, depth: nat, node: Node, gaps: seq<bytes>,
        tokens: seq<bytes>, k: nat, later: nat)
    requires node.body.Items? && Gaps(gaps, |tokens|) && k < later <= |tokens|
    requires ItemsOutcome(inp, r, items, depth, node, gaps[k := []], tokens, later)
    ensures ItemsOutcome(inp, r, items, depth, node, gaps, tokens, later)
  {
    if r.Parsed? {
      UntrimGap(inp.doc, r.pos, gaps, tokens, k, later);
    }
  }

  lemma {:induction false} EmptyItemsRead(inp: Input, pos: nat, notes: Notes, depth: nat, node: Node, gaps: seq<bytes>,
        tokens: seq<bytes>, k: nat)
    requires node.body == Items([]) && depth <= inp.features.stackLimit
    requires WovenAt(inp.doc, pos, gaps, tokens, k) && Begins([[RBRACKET]], tokens, k)
    requires notes.before == []
    ensures ItemsOutcome(inp, ParseItems(inp, pos, notes, depth, node), [], depth, node, gaps, tokens, k + 1)
  {
    BeginsHead([[RBRACKET]], tokens, k);
    hide SkipSpaces, WovenAt;
    FirstToken(inp.doc, pos, gaps, tokens, k);
  }

  lemma ItemsHead(items: seq<Value>, gaps: seq<bytes>, tokens: seq<bytes>, k: nat)
    requires items != [] && PrintableItems(items) && Begins(ItemsTokens(items), tokens, k)
    ensures k < k + |ItemsTokens(items)| <= |tokens|
    ensures tokens[k] != [] && !IsSpace(tokens[k][0]) && tokens[k][0] != RBRACKET
  {
    BeginsHead(ItemsTokens(items), tokens, k);
    TokenHead(items[0]);
  }

  lemma WovenGaps(doc: bytes, pos: nat, gaps: seq<bytes>, tokens: seq<bytes>, k: nat)
    requires WovenAt(doc, pos, gaps, tokens, k)
    ensures Gaps(gaps, |tokens|) && |gaps| == |tokens| + 1 && k <= |tokens| && pos <= |doc|
  {
  }

  /** After the bracket: an empty array, or the elements. */
  lemma {:induction false} ArrayBodyReads(inp: Input, items: seq<Value>, pos: nat, notes: Notes, depth: nat, node: Node,
        gaps: seq<bytes>, tokens: seq<bytes>, k: nat)
    requires AdmissibleItems(inp.features, items)
    requires PrintableItems(items) && node.body == Items([]) && 1 <= depth <= inp.features.stackLimit
    requires WovenAt(inp.doc, pos, gaps, tokens, k) && Begins(ArrayTail(items), tokens, k)
    requires notes.before == []
    ensures ItemsOutcome(inp, ParseItems(inp, pos, notes, depth, node), items, depth, node, gaps, tokens,
        k + |ArrayTail(items)|)
    decreases items, 1
  {
    hide ParseItems, ParseElements, SkipSpaces, Begins, WovenAt, ItemsOutcome, Gaps, ItemsTokens, Tokens;
    if items == [] {
      EmptyItemsRead(inp, pos, notes, depth, node, gaps, tokens, k);
    } else {
      ItemsHead(items, gaps, tokens, k);
      WovenGaps(inp.doc, pos, gaps, tokens, k);
      TrimGap(inp.doc, pos, gaps, tokens, k);
      ItemsStep(inp, pos, notes, depth, node);
      var p := SkipSpaces(inp.doc, pos);
      ElementsRead(inp, items, p, notes, depth, node, gaps[k := []], tokens, k);
      UntrimOutcome(inp, ParseElements(inp, p, notes, depth, node), items, depth, node, gaps, tokens, k,
        k + |ItemsTokens(items)|);
    }
  }

  lemma ItemsDepthHead(items: seq<Value>)
    requires items != []
    ensures ItemsDepth(items) == Max(Depth(items[0]), ItemsDepth(items[1..]))
    ensures |items| == 1 ==> ItemsDepth(items) == Depth(items[0])
  {
  }

  lemma OutcomeFacts(inp: Input, r: Parsed, v: Value, depth: nat, gaps: seq<bytes>, tokens: seq<bytes>, k: nat)
    requires Printable(v) && ValueOutcome(inp, r, v, depth, gaps, tokens, k)
    ensures if depth - 1 + Depth(v) <= inp.features.stackLimit then
              && r.Parsed? && r.ok && ValueOf(r.node) == Norm(v) && r.notes.before == []
              && WovenAt(inp.doc, r.pos, gaps, tokens, k + |Tokens(v)|)
            else r.Thrown?
  {
  }

  lemma ItemsThrow(inp: Input, r: Parsed, items: seq<Value>, depth: nat, node: Node, gaps: seq<bytes>,
        tokens: seq<bytes>, k: nat)
    requires items != [] && node.body.Items? && r.Thrown? && depth + Depth(items[0]) > inp.features.stackLimit
    ensures ItemsOutcome(inp, r, items, depth, node, gaps, tokens, k)
  {
    ItemsDepthHead(items);
  }

  lemma ItemsSplit(items: seq<Value>, tokens: seq<bytes>, k: nat)
    requires items != [] && PrintableItems(items) && Begins(ItemsTokens(items), tokens, k)
    ensures Printable(items[0]) && Begins(Tokens(items[0]), tokens, k)
    ensures var m := k + |Tokens(items[0])|;
            && Begins(ElementTail(items), tokens, m) && Follows(tokens, m)
            && m + |ElementTail(items)| == k + |ItemsTokens(items)|
  {
    hide Tokens, Begins;
    BeginsSplit(Tokens(items[0]), ElementTail(items), tokens, k);
    BeginsHead(ElementTail(items), tokens, k + |Tokens(items[0])|);
  }

  /** One unfolding of the element loop. */
  lemma ElementsStep(inp: Input, pos: nat, notes: Notes, depth: nat, node: Node)
    requires pos <= |inp.doc| && node.body.Items?
    ensures var r := ParseValue(inp, pos, notes, depth + 1, NULL_NODE);
            && (r.Thrown? ==> ParseElements(inp, pos, notes, depth, node).Thrown?)
            && (r.Parsed? && r.ok ==>
                  ParseElements(inp, pos, notes, depth, node)
                  == ParseAfterElement(inp, r.pos, r.notes, depth, node.(body := Items(node.body.items + [r.node]))))
  {
    hide ParseValue, ParseAfterElement;
  }

  lemma {:induction false} ElementsRead(inp: Input, items: seq<Value>, pos: nat, notes: Notes, depth: nat, node: Node,
        gaps: seq<bytes>, tokens: seq<bytes>, k: nat)
    requires AdmissibleItems(inp.features, items)
    requires items != [] && PrintableItems(items) && node.body.Items? && depth >= 1
    requires WovenAt(inp.doc, pos, gaps, tokens, k) && Begins(ItemsTokens(items), tokens, k)
    requires notes.before == []
    ensures ItemsOutcome(inp, ParseElements(inp, pos, notes, depth, node), items, depth, node, gaps, tokens,
        k + |ItemsTokens(items)|)
    decreases items, 0
  {
    hide ParseValue, ParseElements, ParseAfterElement, WovenAt, Reads, ItemsOutcome, ValueOutcome;
    hide Depth, ItemsDepth, Begins, Follows, ItemsTokens, ElementTail, Tokens, Printable;
    var v := items[0];
    var m := k + |Tokens(v)|;
    WovenGaps(inp.doc, pos, gaps, tokens, k);
    ItemsSplit(items, tokens, k);
    ElementsStep(inp, pos, notes, depth, node);
    ValueReads(inp, v, pos, notes, depth + 1, NULL_NODE, gaps, tokens, k);
    var r := ParseValue(inp, pos, notes, depth + 1, NULL_NODE);
    OutcomeFacts(inp, r, v, depth + 1, gaps, tokens, k);
    if depth + Depth(v) <= inp.features.stackLimit {
      ElementRead(inp, items, r, depth, node, gaps, tokens, m);
    } else {
      ItemsThrow(inp, ParseElements(inp, pos, notes, depth, node), items, depth, node, gaps, tokens,
        k + |ItemsTokens(items)|);
    }
  }

  /** What follows an element, at a bracket or a comma. */
  lemma AfterElementStep(inp: Input, pos: nat, notes: Notes, depth: nat, node: Node)
    requires pos <= |inp.doc| && node.body.Items?
    ensures var t := Lex(inp.doc, inp.features, pos);
            && (t.kind.ArrayEnd? ==>
                  ParseAfterElement(inp, pos, notes, depth, node) == Parsed(true, node, t.end, [], notes))
            && (t.kind.ArraySeparator? ==>
                  ParseAfterElement(inp, pos, notes, depth, node) == ParseElements(inp, t.end, notes, depth, node))
  {
    hide Lex, ParseElements, Noted, NotesPast, FailPast;
    if !Lex(inp.doc, inp.features, pos).kind.Comment? {
      NotAComment(inp, pos, notes);
    }
  }

  /** Once an element is read and appended. */
  lemma {:induction false} ElementRead(inp: Input, items: seq<Value>, r: Parsed, depth: nat, node: Node,
      gaps: seq<bytes>, tokens: seq<bytes>, k: nat)
    requires AdmissibleItems(inp.features, items)
    requires items != [] && PrintableItems(items) && node.body.Items? && depth >= 1
    requires r.Parsed? && r.ok && ValueOf(r.node) == Norm(items[0]) && r.notes.before == []
    requires WovenAt(inp.doc, r.pos, gaps, tokens, k) && Begins(ElementTail(items), tokens, k)
    requires depth + Depth(items[0]) <= inp.features.stackLimit
    ensures var node' := node.(body := Items(node.body.items + [r.node]));
            ItemsOutcome(inp, ParseAfterElement(inp, r.pos, r.notes, depth, node'), items, depth, node, gaps, tokens,
                         k + |ElementTail(items)|)
    decreases items[1..], 5
  {
    hide Weave, ParseAfterElement, Norm, Depth, Begins, ItemsTokens;
    var node' := node.(body := Items(node.body.items + [r.node]));
    ValuesOfAppend(node.body.items, r.node);
    ItemsDepthHead(items);
    AfterElementReads(inp, items, r.pos, r.notes, depth, node', gaps, tokens, k);
    assert NormItems(items) == [Norm(items[0])] + NormItems(items[1..]);
  }

  lemma {:induction false} AfterElementReads(inp: Input, items: seq<Value>, pos: nat, notes: Notes, depth: nat,
        node: Node,
      gaps: seq<bytes>, tokens: seq<bytes>, k: nat)
    requires AdmissibleItems(inp.features, items)
    requires items != [] && PrintableItems(items) && node.body.Items? && 1 <= depth <= inp.features.stackLimit
    requires WovenAt(inp.doc, pos, gaps, tokens, k) && Begins(ElementTail(items), tokens, k)
    requires notes.before == []
    ensures ItemsOutcome(inp, ParseAfterElement(inp, pos, notes, depth, node), items[1..], depth, node, gaps, tokens,
                         k + |ElementTail(items)|)
    decreases items[1..], 4
  {
    hide Lex, ParseAfterElement, ParseElements, WovenAt, Begins, ItemsTokens, PrintableItems;
    var doc, f := inp.doc, inp.features;
    WovenGaps(doc, pos, gaps, tokens, k);
    ElementTailSplit(items, tokens, k);
    AfterElementStep(inp, pos, notes, depth, node);
    if |items| == 1 {
      ReadsMark(doc, f, pos, gaps, tokens, k, RBRACKET);
      NoElementMore(inp, ParseAfterElement(inp, pos, notes, depth, node), items, depth, node, gaps, tokens, k + 1);
    } else {
      ReadsMark(doc, f, pos, gaps, tokens, k, COMMA);
      ElementsRead(inp, items[1..], Lex(doc, f, pos).end, notes, depth, node, gaps, tokens, k + 1);
    }
  }

  lemma ElementTailSplit(items: seq<Value>, tokens: seq<bytes>, k: nat)
    requires items != [] && PrintableItems(items) && Begins(ElementTail(items), tokens, k)
    ensures k < |tokens| && tokens[k] == if |items| == 1 then [RBRACKET] else [COMMA]
    ensures |items| > 1 ==> PrintableItems(items[1..]) && Begins(ItemsTokens(items[1..]), tokens, k + 1)
  {
    hide Begins, ItemsTokens;
    BeginsHead(ElementTail(items), tokens, k);
    if |items| > 1 {
      BeginsSplit([[COMMA]], ItemsTokens(items[1..]), tokens, k);
    }
  }

  lemma NoElementMore(inp: Input, r: Parsed, items: seq<Value>, depth: nat, node: Node, gaps: seq<bytes>,
      tokens: seq<bytes>, k: nat)
    requires |items| == 1 && node.body.Items? && depth <= inp.features.stackLimit
    requires r.Parsed? && r.ok && r.node == node && r.notes.before == []
    requires WovenAt(inp.doc, r.pos, gaps, tokens, k)
    ensures ItemsOutcome(inp, r, items[1..], depth, node, gaps, tokens, k)
  {
    assert items[1..] == [];
  }

  // ---------------------------------------------------------------- objects

  /** Where repeated names are rejected, the names are distinct and not bound yet. */
  predicate Unbound(f: Features, fields: seq<Field>, members: seq<Member>) {
    f.rejectDupKeys ==>
      && DistinctNames(members)
      && forall k :: 0 <= k < |members| ==> Lookup(fields, members[k].name) == None
  }

  lemma UnboundHead(f: Features, fields: seq<Field>, members: seq<Member>)
    requires members != [] && Unbound(f, fields, members)
    ensures f.rejectDupKeys ==> Lookup(fields, members[0].name) == None
  {
  }

  lemma UnboundGrows(f: Features, fields: seq<Field>, members: seq<Member>, node: Node)
    requires members != [] && Unbound(f, fields, members)
    ensures Unbound(f, Put(fields, members[0].name, node), members[1..])
  {
    hide Put, Lookup;
    forall k | 0 <= k < |members[1..]| && f.rejectDupKeys
      ensures Lookup(Put(fields, members[0].name, node), members[1..][k].name) == None
    {
      assert members[1..][k] == members[k + 1];
      PutFindsOthers(fields, members[0].name, node, members[k + 1].name);
    }
  }

  /** Where repeated names are rejected, no object repeats one. */
  predicate Admissible(f: Features, v: Value) {
    f.rejectDupKeys ==> Distinct(v)
  }

  predicate AdmissibleItems(f: Features, items: seq<Value>) {
    forall k :: 0 <= k < |items| ==> Admissible(f, items[k])
  }

  predicate AdmissibleMembers(f: Features, members: seq<Member>) {
    forall k :: 0 <= k < |members| ==> Admissible(f, members[k].value)
  }

  /** What reading members into `node` gives; `k` is the token after them. */
  predicate MembersOutcome(inp: Input, r: Parsed, members: seq<Member>, depth: nat, node: Node, gaps: seq<bytes>,
        tokens: seq<bytes>, k: nat)
    requires node.body.Fields?
  {
    if depth + MembersDepth(members) <= inp.features.stackLimit then
      && r.Parsed? && r.ok && r.node.body.Fields? && r.notes.before == []
      && MembersOf(r.node.body.fields) == BindAll(MembersOf(node.body.fields), NormMembers(members))
      && WovenAt(inp.doc, r.pos, gaps, tokens, k)
    else r.Thrown?
  }

  lemma ObjectStep(inp: Input, pos: nat, notes: Notes, depth: nat, slot: Node, t: Token)
    requires pos <= |inp.doc| && depth <= inp.features.stackLimit && t == NextToken(inp.doc, inp.features, pos)
    requires t.kind.ObjectBegin?
    requires NotesNext(inp, pos, notes) == Some(notes) && notes.before == []
    ensures ParseValue(inp, pos, notes, depth, slot)
         == Close(inp, ParseMembers(inp, t.end, notes, depth, Node(t.start, slot.limit, Fields([])), []))
  {
  }

  lemma ObjectClose(inp: Input, r: Parsed, v: Value, depth: nat, node: Node, gaps: seq<bytes>, tokens: seq<bytes>,
        k: nat)
    requires Printable(v) && v.Object? && depth >= 1 && node.body == Fields([])
    requires MembersOutcome(inp, r, v.members, depth, node, gaps, tokens, k + |Tokens(v)|)
    ensures ValueOutcome(inp, Close(inp, r), v, depth, gaps, tokens, k)
  {
    hide Tokens, WovenAt;
  }

  lemma ObjectSplit(v: Value, tokens: seq<bytes>, k: nat)
    requires Printable(v) && v.Object? && Begins(Tokens(v), tokens, k)
    ensures PrintableMembers(v.members) && k < |tokens| && tokens[k] == [LBRACE]
    ensures Begins(ObjectTail(v.members), tokens, k + 1) && |Tokens(v)| == 1 + |ObjectTail(v.members)|
  {
    assert Tokens(v) == [[LBRACE]] + ObjectTail(v.members);
    BeginsSplit([[LBRACE]], ObjectTail(v.members), tokens, k);
    BeginsHead([[LBRACE]], tokens, k);
  }

  lemma NothingBound(f: Features, v: Value)
    requires Admissible(f, v) && v.Object?
    ensures Unbound(f, [], v.members) && AdmissibleMembers(f, v.members)
  {
  }

  lemma ItemsAdmissible(f: Features, v: Value)
    requires Admissible(f, v) && v.Array?
    ensures AdmissibleItems(f, v.items)
  {
  }

  lemma {:induction false} ObjectReads(inp: Input, v: Value, pos: nat, notes: Notes, depth: nat, slot: Node,
        gaps: seq<bytes>, tokens: seq<bytes>, k: nat)
    requires Admissible(inp.features, v)
    requires Printable(v) && v.Object? && 1 <= depth <= inp.features.stackLimit
    requires WovenAt(inp.doc, pos, gaps, tokens, k) && Begins(Tokens(v), tokens, k)
    requires notes.before == []
    ensures ValueOutcome(inp, ParseValue(inp, pos, notes, depth, slot), v, depth, gaps, tokens, k)
    decreases v.members, 4
  {
    hide Lex, NextToken, LexPastComments, ParseValue, ParseMembers, Close, MembersOutcome, ValueOutcome;
    hide Begins, WovenAt, Printable, PrintableMembers, Tokens, MembersTokens, Admissible, Unbound;
    var doc, f := inp.doc, inp.features;
    ObjectSplit(v, tokens, k);
    ReadsMark(doc, f, pos, gaps, tokens, k, LBRACE);
    NotAComment(inp, pos, notes);
    var t := Lex(doc, f, pos);
    var node := Node(t.start, slot.limit, Fields([]));
    ObjectStep(inp, pos, notes, depth, slot, t);
    if v.members == [] {
      EmptyMembersRead(inp, t.end, notes, depth, node, gaps, tokens, k + 1);
    } else {
      NothingBound(f, v);
      MembersRead(inp, v.members, t.end, notes, depth, node, [], gaps, tokens, k + 1);
    }
    ObjectClose(inp, ParseMembers(inp, t.end, notes, depth, node, []), v, depth, node, gaps, tokens, k);
  }

  lemma {:induction false} EmptyMembersRead(inp: Input, pos: nat, notes: Notes, depth: nat, node: Node,
        gaps: seq<bytes>, tokens: seq<bytes>, k: nat)
    requires node.body == Fields([]) && depth <= inp.features.stackLimit
    requires WovenAt(inp.doc, pos, gaps, tokens, k) && Begins([[RBRACE]], tokens, k)
    requires notes.before == []
    ensures MembersOutcome(inp, ParseMembers(inp, pos, notes, depth, node, []), [], depth, node, gaps, tokens, k + 1)
  {
    BeginsHead([[RBRACE]], tokens, k);
    hide Lex, LexPastComments, Weave;
    ReadsMark(inp.doc, inp.features, pos, gaps, tokens, k, RBRACE);
    NotAComment(inp, pos, notes);
  }

  lemma MembersDepthHead(members: seq<Member>)
    requires members != []
    ensures MembersDepth(members) == Max(Depth(members[0].value), MembersDepth(members[1..]))
    ensures |members| == 1 ==> MembersDepth(members) == Depth(members[0].value)
  {
  }

  lemma MembersSplit(members: seq<Member>, tokens: seq<bytes>, k: nat)
    requires members != [] && PrintableMembers(members) && Begins(MembersTokens(members), tokens, k)
    ensures WellFormedUtf8(members[0].name) && |members[0].name| < MAX_KEY
    ensures k < |tokens| && tokens[k] == Quoted(members[0].name) && Begins(MemberTail(members), tokens, k + 1)
    ensures |MembersTokens(members)| == 1 + |MemberTail(members)|
  {
    hide Quoted, MemberTail, WellFormedUtf8, Begins;
    var m := members[0];
    assert PrintableMember(m);
    BeginsSplit([Quoted(m.name)], MemberTail(members), tokens, k);
    BeginsHead([Quoted(m.name)], tokens, k);
  }

  /** One unfolding of the member loop, at a name that may be bound. */
  lemma MembersStep(inp: Input, pos: nat, notes: Notes, depth: nat, node: Node, name: bytes, t: Token, key: bytes)
    requires pos <= |inp.doc| && node.body.Fields? && t == LexPastComments(inp.doc, inp.features, pos)
    requires t.kind.StringToken? && StringText(inp.doc, t) == Unescaped(key) && |key| < MAX_KEY
    requires inp.features.rejectDupKeys ==> Lookup(node.body.fields, key) == None
    requires NotesPast(inp, pos, notes) == Some(notes)
    ensures ParseMembers(inp, pos, notes, depth, node, name) == ParseMember(inp, t.end, notes, depth, node, key)
  {
    hide StringText, LexPastComments, NotesPast, FailPast, Lookup, ParseMember;
  }

  lemma {:induction false} MembersRead(inp: Input, members: seq<Member>, pos: nat, notes: Notes, depth: nat, node: Node,
        name: bytes,
        gaps: seq<bytes>, tokens: seq<bytes>, k: nat)
    requires members != [] && PrintableMembers(members) && node.body.Fields?
    requires Unbound(inp.features, node.body.fields, members) && AdmissibleMembers(inp.features, members)
    requires depth >= 1 && WovenAt(inp.doc, pos, gaps, tokens, k) && Begins(MembersTokens(members), tokens, k)
    requires notes.before == []
    ensures MembersOutcome(inp, ParseMembers(inp, pos, notes, depth, node, name), members, depth, node, gaps, tokens,
        k + |MembersTokens(members)|)
    decreases members, 3
  {
    hide Lex, LexPastComments, WellFormedUtf8, UnescapeText, EscapeText, Lookup, StringText;
    hide ParseMember, ParseMembers, Begins, WovenAt, MembersOutcome, MembersTokens, MemberTail, Quoted,
      PrintableMembers;
    var doc, f := inp.doc, inp.features;
    var m := members[0];
    MembersSplit(members, tokens, k);
    WovenGaps(doc, pos, gaps, tokens, k);
    ReadsString(doc, f, pos, gaps, tokens, k, m.name);
    StringRoundTrip(m.name);
    NotAComment(inp, pos, notes);
    UnboundHead(f, node.body.fields, members);
    var t := Lex(doc, f, pos);
    MembersStep(inp, pos, notes, depth, node, name, t, m.name);
    MemberReads(inp, members, t.end, notes, depth, node, gaps, tokens, k + 1);
  }

  /** The value a name is bound to, or a fresh null. */
  function SlotOf(fields: seq<Field>, key: bytes): Node {
    var known := Lookup(fields, key);
    if known.Some? then known.value else NULL_NODE
  }

  /** One unfolding of a member, from its colon on. */
  lemma MemberStep(inp: Input, pos: nat, notes: Notes, depth: nat, node: Node, key: bytes)
    requires pos <= |inp.doc| && node.body.Fields?
    requires Lex(inp.doc, inp.features, pos).kind.MemberSeparator?
    ensures var r := ParseValue(inp, Lex(inp.doc, inp.features, pos).end, notes, depth + 1,
                                SlotOf(node.body.fields, key));
            && (r.Thrown? ==> ParseMember(inp, pos, notes, depth, node, key).Thrown?)
            && (r.Parsed? && r.ok ==>
                  ParseMember(inp, pos, notes, depth, node, key)
                  == ParseAfterMember(inp, r.pos, r.notes, depth,
                                      node.(body := Fields(Put(node.body.fields, key, r.node))), key))
  {
    hide ParseValue, ParseAfterMember, FailPast, Put, Lookup, Lex;
  }

  lemma {:induction false} MemberReads(inp: Input, members: seq<Member>, pos: nat, notes: Notes, depth: nat, node: Node,
        gaps: seq<bytes>, tokens: seq<bytes>, k: nat)
    requires members != [] && PrintableMembers(members) && node.body.Fields?
    requires Unbound(inp.features, node.body.fields, members) && AdmissibleMembers(inp.features, members)
    requires depth >= 1 && WovenAt(inp.doc, pos, gaps, tokens, k) && Begins(MemberTail(members), tokens, k)
    requires notes.before == []
    ensures MembersOutcome(inp, ParseMember(inp, pos, notes, depth, node, members[0].name), members, depth, node, gaps,
        tokens,
                           k + |MemberTail(members)|)
    decreases members, 2
  {
    hide Lex, ParseValue, ParseMember, ParseAfterMember, Lookup, Put, WovenAt, ValueOutcome, MembersOutcome;
    hide Depth, MembersDepth, Begins, Follows, MemberTail, AfterTokens, Tokens, Printable, PrintableMembers, Unbound,
      Admissible;
    var doc, f := inp.doc, inp.features;
    var v := members[0].value;
    WovenGaps(doc, pos, gaps, tokens, k);
    MemberSplit(members, tokens, k);
    ReadsMark(doc, f, pos, gaps, tokens, k, COLON);
    MemberStep(inp, pos, notes, depth, node, members[0].name);
    var colon := Lex(doc, f, pos);
    ValueReads(inp, v, colon.end, notes, depth + 1, SlotOf(node.body.fields, members[0].name), gaps, tokens, k + 1);
    var r := ParseValue(inp, colon.end, notes, depth + 1, SlotOf(node.body.fields, members[0].name));
    OutcomeFacts(inp, r, v, depth + 1, gaps, tokens, k + 1);
    if depth + Depth(v) <= f.stackLimit {
      MemberValueRead(inp, members, r, depth, node, gaps, tokens, k + 1 + |Tokens(v)|);
    } else {
      MembersThrow(inp, ParseMember(inp, pos, notes, depth, node, members[0].name), members, depth, node, gaps, tokens,
                   k + |MemberTail(members)|);
    }
  }

  lemma MembersThrow(inp: Input, r: Parsed, members: seq<Member>, depth: nat, node: Node, gaps: seq<bytes>,
        tokens: seq<bytes>, k: nat)
    requires members != [] && node.body.Fields? && r.Thrown?
        && depth + Depth(members[0].value) > inp.features.stackLimit
    ensures MembersOutcome(inp, r, members, depth, node, gaps, tokens, k)
  {
    MembersDepthHead(members);
  }

  lemma MemberTailShape(members: seq<Member>)
    requires members != [] && PrintableMembers(members)
    ensures Printable(members[0].value)
    ensures MemberTail(members) == [[COLON]] + (Tokens(members[0].value) + AfterTokens(members))
    ensures |MemberTail(members)| == 1 + |Tokens(members[0].value)| + |AfterTokens(members)|
    ensures AfterTokens(members)[0] in {[COMMA], [RBRACE]}
  {
    hide Tokens, MembersTokens;
    assert PrintableMember(members[0]);
  }

  /** The colon, the value's tokens, then the rest. */
  lemma MemberSplit(members: seq<Member>, tokens: seq<bytes>, k: nat)
    requires members != [] && PrintableMembers(members) && Begins(MemberTail(members), tokens, k)
    ensures k < |tokens| && tokens[k] == [COLON]
    ensures Printable(members[0].value) && Begins(Tokens(members[0].value), tokens, k + 1)
    ensures var m := k + 1 + |Tokens(members[0].value)|;
            && Begins(AfterTokens(members), tokens, m) && Follows(tokens, m)
            && m + |AfterTokens(members)| == k + |MemberTail(members)|
  {
    hide Tokens, Begins, MemberTail, AfterTokens, Printable, PrintableMembers;
    MemberTailShape(members);
    ThreeParts([COLON], Tokens(members[0].value), AfterTokens(members), tokens, k);
  }

  /** Once the value of a member is read and bound to its name. */
  lemma {:induction false} MemberValueRead(inp: Input, members: seq<Member>, r: Parsed, depth: nat, node: Node,
        gaps: seq<bytes>, tokens: seq<bytes>, k: nat)
    requires members != [] && PrintableMembers(members) && node.body.Fields?
    requires Unbound(inp.features, node.body.fields, members) && AdmissibleMembers(inp.features, members)
    requires depth >= 1 && r.Parsed? && r.ok && ValueOf(r.node) == Norm(members[0].value) && r.notes.before == []
    requires WovenAt(inp.doc, r.pos, gaps, tokens, k) && Begins(AfterTokens(members), tokens, k)
    requires depth + Depth(members[0].value) <= inp.features.stackLimit
    ensures var node' := node.(body := Fields(Put(node.body.fields, members[0].name, r.node)));
            MembersOutcome(inp, ParseAfterMember(inp, r.pos, r.notes, depth, node', members[0].name), members, depth,
              node,
                           gaps, tokens, k + |AfterTokens(members)|)
    decreases members, 1
  {
    hide Weave, ParseAfterMember, Put, Lookup, Tokens, Depth, Norm, SetMember, Admissible;
    var name, fields := members[0].name, node.body.fields;
    var node' := node.(body := Fields(Put(fields, name, r.node)));
    PutBinds(fields, name, r.node);
    UnboundGrows(inp.features, fields, members, r.node);
    MembersDepthHead(members);
    AfterMemberReads(inp, members, r.pos, r.notes, depth, node', gaps, tokens, k);
    assert NormMembers(members) == [Member(name, Norm(members[0].value))] + NormMembers(members[1..]);
    assert NormMembers(members)[1..] == NormMembers(members[1..]);
  }

  /** What follows a member, at a brace or a comma. */
  lemma AfterMemberStep(inp: Input, pos: nat, notes: Notes, depth: nat, node: Node, name: bytes)
    requires pos <= |inp.doc| && node.body.Fields?
    ensures var t := Lex(inp.doc, inp.features, pos);
            && (t.kind.ObjectEnd? ==>
                  ParseAfterMember(inp, pos, notes, depth, node, name) == Parsed(true, node, t.end, [], notes))
            && (t.kind.ArraySeparator? ==>
                  ParseAfterMember(inp, pos, notes, depth, node, name)
                    == ParseMembers(inp, t.end, notes, depth, node, name))
  {
    hide Lex, ParseMembers, Noted, NotesPast, FailPast;
    if !Lex(inp.doc, inp.features, pos).kind.Comment? {
      NotAComment(inp, pos, notes);
    }
  }

  lemma {:induction false} AfterMemberReads(inp: Input, members: seq<Member>, pos: nat, notes: Notes, depth: nat,
        node: Node, gaps: seq<bytes>, tokens: seq<bytes>, k: nat)
    requires members != [] && PrintableMembers(members) && node.body.Fields?
    requires Unbound(inp.features, node.body.fields, members[1..]) && AdmissibleMembers(inp.features, members[1..])
    requires 1 <= depth <= inp.features.stackLimit
    requires WovenAt(inp.doc, pos, gaps, tokens, k) && Begins(AfterTokens(members), tokens, k)
    requires notes.before == []
    ensures MembersOutcome(inp, ParseAfterMember(inp, pos, notes, depth, node, members[0].name), members[1..], depth,
        node,
                           gaps, tokens, k + |AfterTokens(members)|)
    decreases members[1..], 4
  {
    hide Lex, ParseAfterMember, ParseMembers, WovenAt, Begins, MembersTokens, PrintableMembers, Unbound, Admissible;
    var doc, f := inp.doc, inp.features;
    WovenGaps(doc, pos, gaps, tokens, k);
    AfterSplit(members, tokens, k);
    AfterMemberStep(inp, pos, notes, depth, node, members[0].name);
    if |members| == 1 {
      ReadsMark(doc, f, pos, gaps, tokens, k, RBRACE);
      NothingMore(inp, ParseAfterMember(inp, pos, notes, depth, node, members[0].name), members, depth, node, gaps,
        tokens,
        k + 1);
    } else {
      ReadsMark(doc, f, pos, gaps, tokens, k, COMMA);
      MembersRead(inp, members[1..], Lex(doc, f, pos).end, notes, depth, node, members[0].name, gaps, tokens, k + 1);
    }
  }

  lemma AfterSplit(members: seq<Member>, tokens: seq<bytes>, k: nat)
    requires members != [] && PrintableMembers(members) && Begins(AfterTokens(members), tokens, k)
    ensures k < |tokens| && tokens[k] == if |members| == 1 then [RBRACE] else [COMMA]
    ensures |members| > 1 ==> PrintableMembers(members[1..]) && Begins(MembersTokens(members[1..]), tokens, k + 1)
  {
    hide Begins, MembersTokens;
    BeginsHead(AfterTokens(members), tokens, k);
    if |members| > 1 {
      BeginsSplit([[COMMA]], MembersTokens(members[1..]), tokens, k);
    }
  }

  lemma NothingMore(inp: Input, r: Parsed, members: seq<Member>, depth: nat, node: Node, gaps: seq<bytes>,
        tokens: seq<bytes>, k: nat)
    requires |members| == 1 && node.body.Fields? && depth <= inp.features.stackLimit
    requires r.Parsed? && r.ok && r.node == node && r.notes.before == []
    requires WovenAt(inp.doc, r.pos, gaps, tokens, k)
    ensures MembersOutcome(inp, r, members[1..], depth, node, gaps, tokens, k)
  {
    assert members[1..] == [];
  }

  // ---------------------------------------------------------------- documents

  /** No comment stands where the document ends. */
  lemma NothingAtEnd(inp: Input, pos: nat, notes: Notes)
    requires pos <= |inp.doc| && Lex(inp.doc, inp.features, pos).kind.EndOfStream?
    ensures NotesNext(inp, pos, notes) == Some(notes)
  {
    hide Lex;
    NotAComment(inp, pos, notes);
  }

  /** Any layout of the tokens of a value parses to that value, if and only if the
      value fits the stack; otherwise the reader throws. */
  lemma {:induction false} LayoutRoundTrip(inp: Input, v: Value, root: Node)
    requires Admissible(inp.features, v)
    requires Printable(v) && Lays(inp.doc, Tokens(v))
    requires inp.features.strictRoot ==> v.Array? || v.Object?
    ensures var o := ParseDocument(inp, root);
            if Depth(v) <= inp.features.stackLimit then
              o.Finished? && o.ok && o.errors == [] && ValueOf(o.root) == Norm(v)
            else o.Threw?
  {
    hide NextToken, NotesNext, ParseValue, Weave;
    var tokens := Tokens(v);
    var gaps :| Gaps(gaps, |tokens|) && inp.doc == Weave(gaps, tokens);
    assert inp.doc[0..] == inp.doc && gaps[0..] == gaps && tokens[0..] == tokens == tokens[0..|tokens|];
    ValueReads(inp, v, 0, NO_NOTES, 1, root, gaps, tokens, 0);
    if Depth(v) <= inp.features.stackLimit {
      var r := ParseValue(inp, 0, NO_NOTES, 1, root);
      EndIsRead(inp.doc, inp.features, r.pos, gaps, tokens);
      NothingAtEnd(inp, r.pos, r.notes);
    }
  }
}
