/**
 Source offsets: after a successful parse the range of every value lies strictly
 inside the range of the array or object that holds it, and the elements of an
 array follow one another.
 */
module JsonOffsets {
  import opened Bytes
  import opened JsonGrammar
  import opened JsonValue

  /** `n` spans a non-empty range strictly inside `lo`..`hi`. */
  predicate Inside(n: Node, lo: int, hi: int) {
    lo < n.start < n.limit < hi
  }

  predicate Nested(n: Node) {
    match n.body
    case Leaf(_) => true
    case Items(items) =>
      && (forall k :: 0 <= k < |items| ==> Inside(items[k], n.start, n.limit))
      && (forall i, j :: 0 <= i < j < |items| ==> items[i].limit < items[j].start)
      && (forall k :: 0 <= k < |items| ==> Nested(items[k]))
    case Fields(fields) =>
      && (forall k :: 0 <= k < |fields| ==> Inside(fields[k].node, n.start, n.limit))
      && (forall k :: 0 <= k < |fields| ==> Nested(fields[k].node))
  }

  /** What a finished value owes: its range is what was read, and it is nested. */
  predicate Spans(r: Parsed, pos: nat) {
    r.Parsed? && r.ok ==> pos <= r.node.start < r.node.limit == r.pos && Nested(r.node)
  }

  /** The part of a container read so far ends before `pos`, in an open range. */
  predicate Partial(n: Node, pos: int) {
    n.start < pos && Nested(n.(limit := pos + 1))
  }

  lemma PartialGrows(n: Node, pos: int, later: int)
    requires Partial(n, pos) && pos <= later
    ensures Partial(n, later)
  {
    var a, b := n.(limit := pos + 1), n.(limit := later + 1);
    match n.body {
      case Leaf(_) =>
      case Items(items) =>
        forall k | 0 <= k < |items| ensures Inside(items[k], b.start, b.limit) && Nested(items[k]) {
          assert Inside(items[k], a.start, a.limit);
        }
      case Fields(fields) =>
        forall k | 0 <= k < |fields| ensures Inside(fields[k].node, b.start, b.limit) && Nested(fields[k].node) {
          assert Inside(fields[k].node, a.start, a.limit);
        }
    }
  }

  /** A container that was read up to `pos` and is closed after it. */
  lemma CloseNests(n: Node, pos: int, end: int)
    requires Partial(n, pos) && pos < end
    ensures Nested(n.(limit := end))
  {
    PartialGrows(n, pos, end - 1);
  }

  predicate InOrder(items: seq<Node>) {
    forall i, j :: 0 <= i < j < |items| ==> items[i].limit < items[j].start
  }

  lemma AppendInOrder(items: seq<Node>, child: Node, pos: int)
    requires InOrder(items) && (forall k :: 0 <= k < |items| ==> items[k].start < items[k].limit)
    requires items == [] || items[|items| - 1].limit < pos
    requires pos <= child.start
    ensures InOrder(items + [child])
  {
    var all := items + [child];
    forall i, j | 0 <= i < j < |all| ensures all[i].limit < all[j].start {
      if j == |items| && i < |items| - 1 {
        assert items[i].limit < items[|items| - 1].start;
      }
    }
  }

  predicate ItemsInside(items: seq<Node>, lo: int, hi: int) {
    forall k :: 0 <= k < |items| ==> Inside(items[k], lo, hi) && Nested(items[k])
  }

  lemma ItemsNested(start: int, limit: int, items: seq<Node>)
    ensures Nested(Node(start, limit, Items(items))) <==> ItemsInside(items, start, limit) && InOrder(items)
  {
  }

  lemma AppendNests(n: Node, child: Node, pos: int, end: int)
    requires n.body.Items? && Partial(n, pos) && Nested(child)
    requires n.start < pos <= child.start < child.limit == end
    requires n.body.items == [] || pos > n.body.items[|n.body.items| - 1].limit
    ensures Partial(n.(body := Items(n.body.items + [child])), end)
  {
    hide Nested, InOrder;
    var items := n.body.items;
    PartialGrows(n, pos, end);
    assert n.(limit := end + 1) == Node(n.start, end + 1, Items(items));
    ItemsNested(n.start, end + 1, items);
    AppendInOrder(items, child, pos);
    ItemsNested(n.start, end + 1, items + [child]);
    assert n.(body := Items(items + [child])).(limit := end + 1) == Node(n.start, end + 1, Items(items + [child]));
  }

  predicate FieldsInside(fields: seq<Field>, lo: int, hi: int) {
    forall k :: 0 <= k < |fields| ==> Inside(fields[k].node, lo, hi) && Nested(fields[k].node)
  }

  lemma PutInside(fields: seq<Field>, name: bytes, node: Node, lo: int, hi: int)
    requires FieldsInside(fields, lo, hi) && Inside(node, lo, hi) && Nested(node)
    ensures FieldsInside(Put(fields, name, node), lo, hi)
  {
    if fields != [] && !NameLess(name, fields[0].name) && fields[0].name != name {
      PutInside(fields[1..], name, node, lo, hi);
      assert fields[0] in fields;
    }
  }

  lemma PutNests(n: Node, name: bytes, child: Node, pos: int, end: int)
    requires n.body.Fields? && Partial(n, pos) && Nested(child)
    requires n.start < pos <= child.start < child.limit == end
    ensures Partial(n.(body := Fields(Put(n.body.fields, name, child))), end)
  {
    PartialGrows(n, pos, end);
    var a := n.(limit := end + 1);
    assert FieldsInside(n.body.fields, n.start, end + 1) by {
      forall k | 0 <= k < |n.body.fields|
        ensures Inside(n.body.fields[k].node, n.start, end + 1) && Nested(n.body.fields[k].node)
      {
        assert Inside(a.body.fields[k].node, a.start, a.limit);
      }
    }
    PutInside(n.body.fields, name, child, n.start, end + 1);
  }

  // ---------------------------------------------------------------- the parse keeps it

  lemma {:induction false} ValueNests(inp: Input, pos: nat, notes: Notes, depth: nat, slot: Node)
    requires pos <= |inp.doc| && !inp.features.allowDroppedNullPlaceholders
    ensures Spans(ParseValue(inp, pos, notes, depth, slot), pos)
    decreases |inp.doc| - pos, 0
  {
    hide NumberValue, StringText, Lex, LexPastComments, NotesNext, Accepted, Nested, ParseMembers, ParseItems;
    var t := NextToken(inp.doc, inp.features, pos);
    var n := NotesNext(inp, pos, notes);
    if depth <= inp.features.stackLimit && n.Some? && Accepted(inp.features, n.value) {
      var cleared := Cleared(inp.features, n.value);
      if t.kind.ObjectBegin? {
        EmptyIsPartial(t.start, slot.limit, t.end);
        MembersNest(inp, t.end, cleared, depth, Node(t.start, slot.limit, Fields([])), []);
      } else if t.kind.ArrayBegin? {
        EmptyIsPartial(t.start, slot.limit, t.end);
        ItemsNest(inp, t.end, cleared, depth, Node(t.start, slot.limit, Items([])));
      } else {
        LeavesNest();
      }
    }
  }

  lemma EmptyIsPartial(start: int, limit: int, pos: int)
    requires start < pos
    ensures Partial(Node(start, limit, Items([])), pos) && Partial(Node(start, limit, Fields([])), pos)
  {
  }

  lemma LeavesNest()
    ensures forall start: int, limit: int, v: Value :: Nested(Node(start, limit, Leaf(v)))
  {
  }

  /** The value read into a container node: closed, it is nested. */
  predicate Closes(r: Parsed, node: Node, pos: nat) {
    r.Parsed? && r.ok ==>
      r.node.start == node.start && pos < r.pos && Nested(r.node.(limit := r.pos))
  }

  lemma {:induction false} ItemsNest(inp: Input, pos: nat, notes: Notes, depth: nat, node: Node)
    requires pos <= |inp.doc| && !inp.features.allowDroppedNullPlaceholders
    requires node.body == Items([]) && Partial(node, pos)
    ensures Closes(ParseItems(inp, pos, notes, depth, node), node, pos)
    decreases |inp.doc| - pos, 2
  {
    hide Nested, ParseElements;
    var p := SkipSpaces(inp.doc, pos);
    PartialGrows(node, pos, p);
    if IsByteAt(inp.doc, p, RBRACKET) {
      CloseNests(node, pos, p + 1);
    } else {
      ElementsNest(inp, p, notes, depth, node);
    }
  }

  lemma {:induction false} MembersNest(inp: Input, pos: nat, notes: Notes, depth: nat, node: Node, name: bytes)
    requires pos <= |inp.doc| && !inp.features.allowDroppedNullPlaceholders
    requires node.body.Fields? && Partial(node, pos)
    ensures Closes(ParseMembers(inp, pos, notes, depth, node, name), node, pos)
    decreases |inp.doc| - pos, 1
  {
    hide Nested, NotesPast, ParseMember;
    var t := LexPastComments(inp.doc, inp.features, pos);
    var n := NotesPast(inp, pos, notes);
    if n.None? {
    } else if t.kind.ObjectEnd? && name == [] {
      CloseNests(node, pos, t.end);
    } else {
      match NameOf(inp, t) {
        case NoName =>
        case BadName(_) =>
        case Named(key) =>
          PartialGrows(node, pos, t.end);
          MemberNests(inp, t.end, n.value, depth, node, key);
      }
    }
  }

  lemma {:induction false} MemberNests(inp: Input, pos: nat, notes: Notes, depth: nat, node: Node, key: bytes)
    requires pos <= |inp.doc| && !inp.features.allowDroppedNullPlaceholders
    requires node.body.Fields? && Partial(node, pos)
    ensures Closes(ParseMember(inp, pos, notes, depth, node, key), node, pos)
    decreases |inp.doc| - pos, 2
  {
    hide Nested, Noted, ParseValue, ParseAfterMember;
    var colon := Lex(inp.doc, inp.features, pos);
    var n := Noted(inp, colon, notes);
    if n.Some? && colon.kind.MemberSeparator? {
      var known := Lookup(node.body.fields, key);
      var slot := if known.Some? then known.value else NULL_NODE;
      ValueNests(inp, colon.end, n.value, depth + 1, slot);
      var r := ParseValue(inp, colon.end, n.value, depth + 1, slot);
      if r.Parsed? && r.ok {
        PartialGrows(node, pos, colon.end);
        PutNests(node, key, r.node, colon.end, r.pos);
        var node' := node.(body := Fields(Put(node.body.fields, key, r.node)));
        AfterMemberNests(inp, r.pos, r.notes, depth, node', key);
      }
    }
  }

  lemma {:induction false} AfterMemberNests(inp: Input, pos: nat, notes: Notes, depth: nat, node: Node, name: bytes)
    requires pos <= |inp.doc| && !inp.features.allowDroppedNullPlaceholders
    requires node.body.Fields? && Partial(node, pos)
    ensures Closes(ParseAfterMember(inp, pos, notes, depth, node, name), node, pos)
    decreases |inp.doc| - pos, 2
  {
    hide Nested, Noted, NotesPast, ParseMembers;
    var after := Lex(inp.doc, inp.features, pos);
    var n := Noted(inp, after, notes);
    if n.Some? && (after.kind.ObjectEnd? || after.kind.ArraySeparator? || after.kind.Comment?) {
      var comma := if after.kind.Comment? then LexPastComments(inp.doc, inp.features, after.end) else after;
      var m := if after.kind.Comment? then NotesPast(inp, after.end, n.value) else n;
      if m.None? {
      } else if comma.kind.ObjectEnd? {
        CloseNests(node, pos, comma.end);
      } else {
        PartialGrows(node, pos, comma.end);
        MembersNest(inp, comma.end, m.value, depth, node, name);
      }
    }
  }

  lemma {:induction false} ElementsNest(inp: Input, pos: nat, notes: Notes, depth: nat, node: Node)
    requires pos <= |inp.doc| && !inp.features.allowDroppedNullPlaceholders
    requires node.body.Items? && Partial(node, pos)
    requires node.body.items == [] || pos > node.body.items[|node.body.items| - 1].limit
    ensures Closes(ParseElements(inp, pos, notes, depth, node), node, pos)
    decreases |inp.doc| - pos, 1
  {
    hide Nested, ParseValue, ParseAfterElement;
    ValueNests(inp, pos, notes, depth + 1, NULL_NODE);
    var r := ParseValue(inp, pos, notes, depth + 1, NULL_NODE);
    if r.Parsed? && r.ok {
      AppendNests(node, r.node, pos, r.pos);
      var node' := node.(body := Items(node.body.items + [r.node]));
      AfterElementNests(inp, r.pos, r.notes, depth, node');
    }
  }

  lemma {:induction false} AfterElementNests(inp: Input, pos: nat, notes: Notes, depth: nat, node: Node)
    requires pos <= |inp.doc| && !inp.features.allowDroppedNullPlaceholders
    requires node.body.Items? && Partial(node, pos)
    ensures Closes(ParseAfterElement(inp, pos, notes, depth, node), node, pos)
    decreases |inp.doc| - pos, 0
  {
    hide NotesPast, ParseElements;
    var t := LexPastComments(inp.doc, inp.features, pos);
    var n := NotesPast(inp, pos, notes);
    if n.None? {
    } else if t.kind.ArrayEnd? {
      CloseNests(node, pos, t.end);
    } else if t.kind.ArraySeparator? {
      PartialGrows(node, pos, t.end);
      if node.body.items != [] {
        var last := node.(limit := pos + 1).body.items[|node.body.items| - 1];
        assert Inside(last, node.start, pos + 1);
      }
      ElementsNest(inp, t.end, n.value, depth, node);
    }
  }

  /** After any successful parse that drops no nulls, the offsets nest and lie
      within the document. */
  lemma {:induction false} DocumentNests(inp: Input, root: Node)
    requires !inp.features.allowDroppedNullPlaceholders
    ensures var o := ParseDocument(inp, root);
            o.Finished? && o.ok ==> 0 <= o.root.start < o.root.limit <= |inp.doc| && Nested(o.root)
  {
    hide ParseValue, Nested;
    ValueNests(inp, 0, NO_NOTES, 1, root);
  }
}
