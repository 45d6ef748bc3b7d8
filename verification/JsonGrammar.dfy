/**
 What `OurReader` reads, as functions of the document and the cursor: tokens,
 values with their source offsets, errors, and the cursor afterwards.  The class
 in JsonReader.dfy is proved against these functions.
 */
module JsonGrammar {
  import opened Optional
  import opened Bytes
  import opened JsonText
  import opened JsonNumber
  import opened JsonValue

  datatype Features = Features(
    collectComments: bool, allowComments: bool, strictRoot: bool, allowDroppedNullPlaceholders: bool,
    allowNumericKeys: bool, allowSingleQuotes: bool, failIfExtra: bool,
    rejectDupKeys: bool, allowSpecialFloats: bool, stackLimit: nat)

  /** `CharReaderBuilder::setDefaults`. */
  const DEFAULT_FEATURES := Features(true, true, false, false, false, false, false, false, false, 1000)

  /** A document, the reader's settings, and the two conversions of doubles. */
  datatype Input = Input(doc: bytes, features: Features,
                         scanDouble: bytes -> Option<Double>, showDouble: Double -> bytes)

  datatype Kind =
    | EndOfStream | ObjectBegin | ObjectEnd | ArrayBegin | ArrayEnd
    | StringToken | NumberToken | TrueToken | FalseToken | NullToken
    | NaNToken | PosInfToken | NegInfToken
    | ArraySeparator | MemberSeparator | Comment | ErrorToken
  {
    /** What may follow a dropped value. */
    predicate IsDelimiter() { ArraySeparator? || ObjectEnd? || ArrayEnd? }
  }

  datatype Token = Token(kind: Kind, start: nat, end: nat)

  /** Whether a scan succeeded, and where it left the cursor. */
  datatype Scan = Scan(ok: bool, end: nat)

  datatype ReadError = ReadError(kind: ErrorKind, start: nat, end: nat)

  // ---------------------------------------------------------------- tokens

  function SkipSpaces(doc: bytes, pos: nat): (r: nat)
    requires pos <= |doc|
    ensures pos <= r <= |doc|
    ensures forall k :: pos <= k < r ==> IsSpace(doc[k])
    ensures r < |doc| ==> !IsSpace(doc[r])
    decreases |doc| - pos
  {
    if pos < |doc| && IsSpace(doc[pos]) then SkipSpaces(doc, pos + 1) else pos
  }

  function MatchText(doc: bytes, pos: nat, pattern: bytes): (r: Scan)
    requires pos <= |doc|
    ensures pos <= r.end <= |doc|
  {
    if At(doc, pos, pattern) then Scan(true, pos + |pattern|) else Scan(false, pos)
  }

  /** From after the opening quote to after the closing one. */
  function ScanString(doc: bytes, pos: nat, quote: byte): (r: Scan)
    requires pos <= |doc|
    ensures pos <= r.end <= |doc| && (r.ok ==> pos < r.end)
    decreases |doc| - pos
  {
    if pos == |doc| then Scan(false, pos)
    else if doc[pos] == BACKSLASH then
      ScanString(doc, if pos + 1 < |doc| then pos + 2 else pos + 1, quote)
    else if doc[pos] == quote then Scan(true, pos + 1)
    else ScanString(doc, pos + 1, quote)
  }

  function DigitsEnd(doc: bytes, pos: nat): (r: nat)
    requires pos <= |doc|
    ensures pos <= r <= |doc|
    decreases |doc| - pos
  {
    if pos < |doc| && IsDigit(doc[pos]) then DigitsEnd(doc, pos + 1) else pos
  }

  predicate IsByteAt(doc: bytes, pos: nat, b: byte) {
    pos < |doc| && doc[pos] == b
  }

  function FractionEnd(doc: bytes, pos: nat): (r: nat)
    requires pos <= |doc|
    ensures pos <= r <= |doc|
  {
    if IsByteAt(doc, pos, 46) then DigitsEnd(doc, pos + 1) else pos
  }

  function ExponentEnd(doc: bytes, pos: nat): (r: nat)
    requires pos <= |doc|
    ensures pos <= r <= |doc|
  {
    if IsByteAt(doc, pos, 101) || IsByteAt(doc, pos, 69) then
      if IsByteAt(doc, pos + 1, 43) || IsByteAt(doc, pos + 1, MINUS) then DigitsEnd(doc, pos + 2)
      else DigitsEnd(doc, pos + 1)
    else pos
  }

  /** The end of a number whose first character lies before `pos`. */
  function NumberEnd(doc: bytes, pos: nat): (r: nat)
    requires pos <= |doc|
    ensures pos <= r <= |doc|
  {
    ExponentEnd(doc, FractionEnd(doc, DigitsEnd(doc, pos)))
  }

  /** From after the star that opens the comment.  A last character `/` closes it
      even without a star before it. */
  function CStyleEnd(doc: bytes, pos: nat): (r: Scan)
    requires pos <= |doc|
    ensures pos <= r.end <= |doc|
    decreases |doc| - pos
  {
    if pos + 1 < |doc| then
      if doc[pos] == STAR && doc[pos + 1] == SLASH then Scan(true, pos + 2) else CStyleEnd(doc, pos + 1)
    else if pos < |doc| then Scan(doc[pos] == SLASH, pos + 1)
    else Scan(false, pos)
  }

  function CppStyleEnd(doc: bytes, pos: nat): (r: nat)
    requires pos <= |doc|
    ensures pos <= r <= |doc|
    decreases |doc| - pos
  {
    if pos == |doc| then pos
    else if doc[pos] == LF then pos + 1
    else if doc[pos] == CR then if IsByteAt(doc, pos + 1, LF) then pos + 2 else pos + 1
    else CppStyleEnd(doc, pos + 1)
  }

  function ScanComment(doc: bytes, pos: nat): (r: Scan)
    requires pos <= |doc|
    ensures pos <= r.end <= |doc|
    ensures r.ok ==> pos < r.end && (doc[pos] == STAR || doc[pos] == SLASH)
  {
    if pos == |doc| then Scan(false, pos)
    else if doc[pos] == STAR then CStyleEnd(doc, pos + 1)
    else if doc[pos] == SLASH then Scan(true, CppStyleEnd(doc, pos + 1))
    else Scan(false, pos + 1)
  }

  const RUE: bytes := [114, 117, 101]
  const ALSE: bytes := [97, 108, 115, 101]
  const ULL: bytes := [117, 108, 108]
  const AN: bytes := [97, 78]
  const NFINITY: bytes := [110, 102, 105, 110, 105, 116, 121]

  function Judge(kind: Kind, start: nat, s: Scan): Token {
    Token(if s.ok then kind else ErrorToken, start, s.end)
  }

  /** A comment opens by a slash, or by a quote where quotes are no strings. */
  predicate OpensComment(doc: bytes, f: Features, t: Token) {
    && t.start + 2 <= t.end <= |doc|
    && (doc[t.start] == SLASH || (doc[t.start] == 39 && !f.allowSingleQuotes))
    && (doc[t.start + 1] == STAR || doc[t.start + 1] == SLASH)
  }

  /** The token whose first character stands at `start`. */
  function TokenAt(doc: bytes, f: Features, start: nat): (t: Token)
    requires start < |doc|
    ensures t.start == start && start < t.end <= |doc|
    ensures t.kind.StringToken? ==> t.end >= start + 2
    ensures t.kind.IsDelimiter() ==> t.end == start + 1
    ensures t.kind.NumberToken? ==> doc[start] == MINUS || IsDigit(doc[start])
    ensures t.kind.Comment? ==> OpensComment(doc, f, t)
  {
    var c := doc[start];
    var next := start + 1;
    if c == LBRACE then Token(ObjectBegin, start, next)
    else if c == RBRACE then Token(ObjectEnd, start, next)
    else if c == LBRACKET then Token(ArrayBegin, start, next)
    else if c == RBRACKET then Token(ArrayEnd, start, next)
    else if c == QUOTE then Judge(StringToken, start, ScanString(doc, next, QUOTE))
    else if c == 39 && f.allowSingleQuotes then Judge(StringToken, start, ScanString(doc, next, 39))
    else if c == 39 || c == SLASH then Judge(Comment, start, ScanComment(doc, next))
    else if IsDigit(c) then Token(NumberToken, start, NumberEnd(doc, next))
    else if c == MINUS then
      if IsByteAt(doc, next, 73) then
        Judge(NegInfToken, start,
              if f.allowSpecialFloats then MatchText(doc, next + 1, NFINITY) else Scan(false, next + 1))
      else Token(NumberToken, start, NumberEnd(doc, next))
    else if c == 116 then Judge(TrueToken, start, MatchText(doc, next, RUE))
    else if c == 102 then Judge(FalseToken, start, MatchText(doc, next, ALSE))
    else if c == 110 then Judge(NullToken, start, MatchText(doc, next, ULL))
    else if c == 78 && f.allowSpecialFloats then Judge(NaNToken, start, MatchText(doc, next, AN))
    else if c == 73 && f.allowSpecialFloats then Judge(PosInfToken, start, MatchText(doc, next, NFINITY))
    else if c == COMMA then Token(ArraySeparator, start, next)
    else if c == COLON then Token(MemberSeparator, start, next)
    else if c == 0 then Token(EndOfStream, start, next)
    else Token(ErrorToken, start, next)
  }

  /** `readToken`: the cursor stays in bounds, and either a character is consumed
      or the end of the document is reported. */
  function Lex(doc: bytes, f: Features, pos: nat): (t: Token)
    requires pos <= |doc|
    ensures pos <= t.start <= t.end <= |doc|
    ensures t.start == t.end ==> t.kind.EndOfStream? && t.end == |doc|
    ensures t.kind.StringToken? ==> t.end >= t.start + 2
    ensures t.kind.IsDelimiter() ==> t.end == t.start + 1
    ensures t.kind.NumberToken? ==> t.start < t.end && (doc[t.start] == MINUS || IsDigit(doc[t.start]))
    ensures t.kind.Comment? ==> OpensComment(doc, f, t)
  {
    var start := SkipSpaces(doc, pos);
    if start == |doc| then Token(EndOfStream, start, start) else TokenAt(doc, f, start)
  }

  /** The first token that is no comment. */
  function LexPastComments(doc: bytes, f: Features, pos: nat): (t: Token)
    requires pos <= |doc|
    ensures pos <= t.start <= t.end <= |doc| && !t.kind.Comment?
    ensures t.start == t.end ==> t.kind.EndOfStream? && t.end == |doc|
    ensures t.kind.StringToken? ==> t.end >= t.start + 2
    ensures t.kind.IsDelimiter() ==> t.end == t.start + 1
    ensures t.kind.NumberToken? ==> t.start < t.end && (doc[t.start] == MINUS || IsDigit(doc[t.start]))
    decreases |doc| - pos
  {
    var t := Lex(doc, f, pos);
    if t.kind.Comment? then LexPastComments(doc, f, t.end) else t
  }

  /** `skipCommentTokens`. */
  function NextToken(doc: bytes, f: Features, pos: nat): (t: Token)
    requires pos <= |doc|
    ensures pos <= t.start <= t.end <= |doc|
    ensures t.start == t.end ==> t.kind.EndOfStream? && t.end == |doc|
    ensures t.kind.StringToken? ==> t.end >= t.start + 2
    ensures t.kind.IsDelimiter() ==> t.end == t.start + 1
    ensures t.kind.NumberToken? ==> t.start < t.end && (doc[t.start] == MINUS || IsDigit(doc[t.start]))
  {
    if f.allowComments then LexPastComments(doc, f, pos) else Lex(doc, f, pos)
  }

  /** `recoverFromError`: past the next `until`, or to the end of the stream. */
  function Recover(doc: bytes, f: Features, pos: nat, until: Kind): (r: nat)
    requires pos <= |doc|
    ensures pos <= r <= |doc|
    decreases |doc| - pos
  {
    var t := Lex(doc, f, pos);
    if t.kind == until || t.kind.EndOfStream? then t.end else Recover(doc, f, t.end, until)
  }

  // ---------------------------------------------------------------- comments

  /** What the reader notes while it collects comments: where the last value ended, and
      the comments that wait for the next value. */
  datatype Notes = Notes(lastEnd: Option<nat>, before: bytes)

  const NO_NOTES := Notes(None, [])

  predicate Collects(f: Features) {
    f.allowComments && f.collectComments
  }

  /** Every line break as a line feed. */
  function NormalizeEol(t: bytes): bytes {
    if t == [] then []
    else if t[0] == CR then [LF] + NormalizeEol(if |t| > 1 && t[1] == LF then t[2..] else t[1..])
    else [t[0]] + NormalizeEol(t[1..])
  }

  predicate HasNewLine(doc: bytes, from: nat, end: nat)
    requires end <= |doc|
  {
    exists k :: from <= k < end && (doc[k] == LF || doc[k] == CR)
  }

  /** `setComment` throws, on a comment that does not start with a slash. */
  predicate Rejected(comment: bytes) {
    var c := if comment != [] && comment[|comment| - 1] == LF then comment[..|comment| - 1] else comment;
    c == [] || (c[0] != 0 && c[0] != SLASH)
  }

  /** The comment belongs to the value before it, on the same line. */
  predicate OnSameLine(doc: bytes, t: Token, notes: Notes)
    requires t.start + 2 <= t.end <= |doc|
  {
    && notes.lastEnd.Some? && !HasNewLine(doc, notes.lastEnd.value, t.start)
    && (doc[t.start + 1] != STAR || !HasNewLine(doc, t.start, t.end))
  }

  /** What reading a token notes; `None` when `setComment` throws. */
  function Noted(inp: Input, t: Token, notes: Notes): Option<Notes>
    requires t.kind.Comment? ==> t.start + 2 <= t.end <= |inp.doc|
  {
    if !t.kind.Comment? || !Collects(inp.features) then Some(notes)
    else
      var comment := NormalizeEol(inp.doc[t.start..t.end]);
      if !OnSameLine(inp.doc, t, notes) then Some(notes.(before := notes.before + comment))
      else if Rejected(comment) then None
      else Some(notes)
  }

  /** The notes along `LexPastComments`. */
  function NotesPast(inp: Input, pos: nat, notes: Notes): Option<Notes>
    requires pos <= |inp.doc|
    decreases |inp.doc| - pos
  {
    var t := Lex(inp.doc, inp.features, pos);
    var n := Noted(inp, t, notes);
    if n.Some? && t.kind.Comment? then NotesPast(inp, t.end, n.value) else n
  }

  /** The notes along `NextToken`. */
  function NotesNext(inp: Input, pos: nat, notes: Notes): Option<Notes>
    requires pos <= |inp.doc|
  {
    if inp.features.allowComments then NotesPast(inp, pos, notes)
    else Noted(inp, Lex(inp.doc, inp.features, pos), notes)
  }

  /** The notes along `Recover`. */
  function NotesRecover(inp: Input, pos: nat, until: Kind, notes: Notes): Option<Notes>
    requires pos <= |inp.doc|
    decreases |inp.doc| - pos
  {
    var t := Lex(inp.doc, inp.features, pos);
    var n := Noted(inp, t, notes);
    if n.None? || t.kind == until || t.kind.EndOfStream? then n
    else NotesRecover(inp, t.end, until, n.value)
  }

  /** The comments collected so far can be set. */
  predicate Accepted(f: Features, notes: Notes) {
    !Collects(f) || notes.before == [] || !Rejected(notes.before)
  }

  function Cleared(f: Features, notes: Notes): Notes {
    if Collects(f) then notes.(before := []) else notes
  }

  // ---------------------------------------------------------------- values with offsets

  /** A value as the reader builds it, with its source range. */
  datatype Node = Node(start: int, limit: int, body: Body)
  datatype Body = Leaf(value: Value) | Items(items: seq<Node>) | Fields(fields: seq<Field>)
  datatype Field = Field(name: bytes, node: Node)

  const NULL_NODE := Node(0, 0, Leaf(Null))

  function ValueOf(n: Node): Value {
    match n.body
    case Leaf(v) => v
    case Items(items) => Array(ValuesOf(items))
    case Fields(fields) => Object(MembersOf(fields))
  }

  function ValuesOf(items: seq<Node>): (r: seq<Value>)
    ensures |r| == |items|
  {
    if items == [] then [] else [ValueOf(items[0])] + ValuesOf(items[1..])
  }

  function MembersOf(fields: seq<Field>): (r: seq<Member>)
    ensures |r| == |fields|
  {
    if fields == [] then []
    else [Member(fields[0].name, ValueOf(fields[0].node))] + MembersOf(fields[1..])
  }

  /** The member called `name`, or a fresh null. */
  function Lookup(fields: seq<Field>, name: bytes): Option<Node> {
    if fields == [] then None
    else if fields[0].name == name then Some(fields[0].node)
    else Lookup(fields[1..], name)
  }

  /** The map with `name` bound to `node`, kept in the order of names. */
  function Put(fields: seq<Field>, name: bytes, node: Node): seq<Field> {
    if fields == [] || NameLess(name, fields[0].name) then [Field(name, node)] + fields
    else if fields[0].name == name then [Field(name, node)] + fields[1..]
    else [fields[0]] + Put(fields[1..], name, node)
  }

  // ---------------------------------------------------------------- the grammar

  /** What reading returns; `Thrown` stands for the runtime error of a document nested too
      deeply, of a key or a string that is too long, or of a comment that cannot be set. */
  datatype Parsed = Parsed(ok: bool, node: Node, pos: nat, errors: seq<ReadError>, notes: Notes) | Thrown

  function Text(doc: bytes, t: Token): bytes
    requires t.start <= t.end <= |doc|
  {
    doc[t.start..t.end]
  }

  function ErrorAt(kind: ErrorKind, t: Token): ReadError {
    ReadError(kind, t.start, t.end)
  }

  function NumberValue(inp: Input, text: bytes): Option<Value> {
    match NumeralOf(text, MAX_INT64)
    case Signed(i) => Some(Int(i))
    case Unsigned(u) => Some(UInt(u))
    case ByDouble =>
      match inp.scanDouble(text)
      case None => None
      case Some(d) => Some(Real(d))
  }

  function StringText(doc: bytes, t: Token): Unescaped
    requires t.start + 2 <= t.end <= |doc|
  {
    UnescapeText(doc[t.start + 1..t.end - 1])
  }

  function LeafAt(t: Token, v: Value): Node {
    Node(t.start, t.end, Leaf(v))
  }

  /** A value that failed, with the cursor where it is. */
  function Fail(node: Node, error: ReadError, pos: nat, notes: Notes): Parsed {
    Parsed(false, node, pos, [error], notes)
  }

  /** A container that failed: the reader skips to its end. */
  function FailPast(inp: Input, node: Node, errors: seq<ReadError>, pos: nat, until: Kind, notes: Notes): (r: Parsed)
    requires pos <= |inp.doc|
    ensures r.Parsed? ==> pos <= r.pos <= |inp.doc| && !r.ok && r.errors == errors
  {
    match NotesRecover(inp, pos, until, notes)
    case None => Thrown
    case Some(n) => Parsed(false, node, Recover(inp.doc, inp.features, pos, until), errors, n)
  }

  /** The end of a value is noted. */
  function ValueEnd(inp: Input, r: Parsed): Parsed {
    if r.Thrown? || !Collects(inp.features) then r else r.(notes := r.notes.(lastEnd := Some(r.pos)))
  }

  /** The text of a number used as a key. */
  function KeyText(inp: Input, v: Value): bytes {
    match v
    case Int(i) => IntText(i)
    case UInt(u) => Digits(u)
    case Real(d) => inp.showDouble(d)
    case _ => []
  }

  datatype KeyName = Named(text: bytes) | BadName(error: ErrorKind) | NoName

  /** The member name a token spells. */
  function NameOf(inp: Input, t: Token): KeyName
    requires t.start <= t.end <= |inp.doc|
    requires t.kind.StringToken? ==> t.end >= t.start + 2
  {
    if t.kind.StringToken? then
      match StringText(inp.doc, t)
      case Unescaped(text) => Named(text)
      case Malformed(e) => BadName(e)
    else if t.kind.NumberToken? && inp.features.allowNumericKeys then
      match NumberValue(inp, Text(inp.doc, t))
      case None => BadName(NotANumber)
      case Some(v) => Named(KeyText(inp, v))
    else NoName
  }

  const MAX_KEY: nat := 0x4000_0000

  /** The longest string a value can hold. */
  const MAX_STRING: nat := 0x7FFF_FFFF - 4 - 1

  /** The cases of `readValue` that need no recursion. */
  function ParseScalar(inp: Input, t: Token, notes: Notes, slot: Node): (r: Parsed)
    requires t.start <= t.end <= |inp.doc|
    requires t.kind.StringToken? ==> t.end >= t.start + 2
    ensures r.Parsed? ==> t.start <= r.pos <= |inp.doc| && (r.ok <==> r.errors == [])
  {
    match t.kind
    case NumberToken =>
      (match NumberValue(inp, Text(inp.doc, t))
       case None => ValueEnd(inp, Fail(slot, ErrorAt(NotANumber, t), t.end, notes))
       case Some(v) => LeafRead(inp, t, v, notes))
    case StringToken =>
      (match StringText(inp.doc, t)
       case Malformed(e) => ValueEnd(inp, Fail(slot, ErrorAt(e, t), t.end, notes))
       case Unescaped(s) => if |s| > MAX_STRING then Thrown else LeafRead(inp, t, Str(s), notes))
    case TrueToken => LeafRead(inp, t, Bool(true), notes)
    case FalseToken => LeafRead(inp, t, Bool(false), notes)
    case NullToken => LeafRead(inp, t, Null, notes)
    case NaNToken => LeafRead(inp, t, Real(NaN), notes)
    case PosInfToken => LeafRead(inp, t, Real(PosInf), notes)
    case NegInfToken => LeafRead(inp, t, Real(NegInf), notes)
    case ArraySeparator | ObjectEnd | ArrayEnd =>
      if inp.features.allowDroppedNullPlaceholders then
        ValueEnd(inp, Parsed(true, Node(t.start - 1, t.start, Leaf(Null)), t.start, [], notes))
      else NoValue(slot, t, notes)
    case _ => NoValue(slot, t, notes)
  }

  function LeafRead(inp: Input, t: Token, v: Value, notes: Notes): Parsed {
    ValueEnd(inp, Parsed(true, LeafAt(t, v), t.end, [], notes))
  }

  /** `readValue` with `depth` nodes on the stack and `slot` on top of it. */
  function ParseValue(inp: Input, pos: nat, notes: Notes, depth: nat, slot: Node): (r: Parsed)
    requires pos <= |inp.doc|
    ensures r.Parsed? ==> pos <= r.pos <= |inp.doc| && (r.ok <==> r.errors == [])
    decreases |inp.doc| - pos, 0
  {
    if depth > inp.features.stackLimit then Thrown else
    var t := NextToken(inp.doc, inp.features, pos);
    match NotesNext(inp, pos, notes)
    case None => Thrown
    case Some(n) =>
      if !Accepted(inp.features, n) then Thrown else
      var cleared := Cleared(inp.features, n);
      if t.kind.ObjectBegin? then
        Close(inp, ParseMembers(inp, t.end, cleared, depth, Node(t.start, slot.limit, Fields([])), []))
      else if t.kind.ArrayBegin? then
        Close(inp, ParseItems(inp, t.end, cleared, depth, Node(t.start, slot.limit, Items([]))))
      else ParseScalar(inp, t, cleared, slot)
  }

  function NoValue(slot: Node, t: Token, notes: Notes): Parsed {
    Fail(slot.(start := t.start, limit := t.end), ErrorAt(ValueExpected, t), t.end, notes)
  }

  /** `setOffsetLimit` after an array or an object, and the end of the value. */
  function Close(inp: Input, r: Parsed): Parsed {
    ValueEnd(inp, if r.Thrown? then r else r.(node := r.node.(limit := r.pos)))
  }

  /** The member loop of `readObject`; `name` is the previous member's name. */
  function ParseMembers(inp: Input, pos: nat, notes: Notes, depth: nat, node: Node, name: bytes): (r: Parsed)
    requires pos <= |inp.doc| && node.body.Fields?
    ensures r.Parsed? ==> pos <= r.pos <= |inp.doc| && (r.ok <==> r.errors == [])
    decreases |inp.doc| - pos, 1
  {
    var t := LexPastComments(inp.doc, inp.features, pos);
    match NotesPast(inp, pos, notes)
    case None => Thrown
    case Some(n) =>
      if t.kind.ObjectEnd? && name == [] then Parsed(true, node, t.end, [], n) else
      match NameOf(inp, t)
      case NoName => FailPast(inp, node, [ErrorAt(MissingBraceOrName, t)], t.end, ObjectEnd, n)
      case BadName(e) => FailPast(inp, node, [ErrorAt(e, t)], t.end, ObjectEnd, n)
      case Named(key) =>
        if |key| >= MAX_KEY then Thrown else
        if inp.features.rejectDupKeys && Lookup(node.body.fields, key).Some? then
          FailPast(inp, node, [ErrorAt(DuplicateKey(key), t)], t.end, ObjectEnd, n)
        else ParseMember(inp, t.end, n, depth, node, key)
  }

  /** A member from its colon on. */
  function ParseMember(inp: Input, pos: nat, notes: Notes, depth: nat, node: Node, key: bytes): (r: Parsed)
    requires pos <= |inp.doc| && node.body.Fields?
    ensures r.Parsed? ==> pos <= r.pos <= |inp.doc| && (r.ok <==> r.errors == [])
    decreases |inp.doc| - pos, 2
  {
    var colon := Lex(inp.doc, inp.features, pos);
    match Noted(inp, colon, notes)
    case None => Thrown
    case Some(n) =>
      if !colon.kind.MemberSeparator? then
        FailPast(inp, node, [ErrorAt(MissingColon, colon)], colon.end, ObjectEnd, n)
      else
        var known := Lookup(node.body.fields, key);
        var r := ParseValue(inp, colon.end, n, depth + 1, if known.Some? then known.value else NULL_NODE);
        if r.Thrown? then Thrown else
        var node' := node.(body := Fields(Put(node.body.fields, key, r.node)));
        if !r.ok then FailPast(inp, node', r.errors, r.pos, ObjectEnd, r.notes)
        else ParseAfterMember(inp, r.pos, r.notes, depth, node', key)
  }

  /** What follows a member.  After a comment any token but `}` passes for a comma. */
  function ParseAfterMember(inp: Input, pos: nat, notes: Notes, depth: nat, node: Node, name: bytes): (r: Parsed)
    requires pos <= |inp.doc| && node.body.Fields?
    ensures r.Parsed? ==> pos <= r.pos <= |inp.doc| && (r.ok <==> r.errors == [])
    decreases |inp.doc| - pos, 2
  {
    var after := Lex(inp.doc, inp.features, pos);
    match Noted(inp, after, notes)
    case None => Thrown
    case Some(n) =>
      if !after.kind.ObjectEnd? && !after.kind.ArraySeparator? && !after.kind.Comment? then
        FailPast(inp, node, [ErrorAt(MissingCommaOrBrace, after)], after.end, ObjectEnd, n)
      else
        var comma := if after.kind.Comment? then LexPastComments(inp.doc, inp.features, after.end) else after;
        match if after.kind.Comment? then NotesPast(inp, after.end, n) else Some(n)
        case None => Thrown
        case Some(m) =>
          if comma.kind.ObjectEnd? then Parsed(true, node, comma.end, [], m)
          else ParseMembers(inp, comma.end, m, depth, node, name)
  }

  /** `readArray` after the bracket: an empty array, or the element loop. */
  function ParseItems(inp: Input, pos: nat, notes: Notes, depth: nat, node: Node): (r: Parsed)
    requires pos <= |inp.doc| && node.body.Items?
    ensures r.Parsed? ==> pos <= r.pos <= |inp.doc| && (r.ok <==> r.errors == [])
    decreases |inp.doc| - pos, 2
  {
    var p := SkipSpaces(inp.doc, pos);
    if IsByteAt(inp.doc, p, RBRACKET) then Parsed(true, node, p + 1, [], notes)
    else ParseElements(inp, p, notes, depth, node)
  }

  /** The element loop of `readArray`. */
  function ParseElements(inp: Input, pos: nat, notes: Notes, depth: nat, node: Node): (r: Parsed)
    requires pos <= |inp.doc| && node.body.Items?
    ensures r.Parsed? ==> pos <= r.pos <= |inp.doc| && (r.ok <==> r.errors == [])
    decreases |inp.doc| - pos, 1
  {
    var r := ParseValue(inp, pos, notes, depth + 1, NULL_NODE);
    if r.Thrown? then Thrown else
    var node' := node.(body := Items(node.body.items + [r.node]));
    if !r.ok then FailPast(inp, node', r.errors, r.pos, ArrayEnd, r.notes)
    else ParseAfterElement(inp, r.pos, r.notes, depth, node')
  }

  /** What follows an element. */
  function ParseAfterElement(inp: Input, pos: nat, notes: Notes, depth: nat, node: Node): (r: Parsed)
    requires pos <= |inp.doc| && node.body.Items?
    ensures r.Parsed? ==> pos <= r.pos <= |inp.doc| && (r.ok <==> r.errors == [])
    decreases |inp.doc| - pos, 0
  {
    var t := LexPastComments(inp.doc, inp.features, pos);
    match NotesPast(inp, pos, notes)
    case None => Thrown
    case Some(n) =>
      if t.kind.ArrayEnd? then Parsed(true, node, t.end, [], n)
      else if t.kind.ArraySeparator? then ParseElements(inp, t.end, n, depth, node)
      else FailPast(inp, node, [ErrorAt(MissingCommaOrBracket, t)], t.end, ArrayEnd, n)
  }

  datatype Outcome = Finished(ok: bool, root: Node, errors: seq<ReadError>) | Threw

  /** What `parse` concludes once the root value is read. */
  function Conclude(inp: Input, r: Parsed): Outcome
    requires r.Parsed? ==> r.pos <= |inp.doc|
  {
    if r.Thrown? then Threw else
    var f := inp.features;
    var t := NextToken(inp.doc, f, r.pos);
    match NotesNext(inp, r.pos, r.notes)
    case None => Threw
    case Some(n) =>
      if f.failIfExtra && (f.strictRoot || !t.kind.ErrorToken?) && !t.kind.EndOfStream? then
        Finished(false, r.node, r.errors + [ErrorAt(ExtraAfterValue, t)])
      else if !Accepted(f, n) then Threw
      else if f.strictRoot && r.node.body.Leaf? then
        Finished(false, r.node, r.errors + [ReadError(ArrayOrObjectRequired, 0, |inp.doc|)])
      else Finished(r.ok, r.node, r.errors)
  }

  /** `OurReader::parse`. */
  function ParseDocument(inp: Input, root: Node): Outcome {
    Conclude(inp, ParseValue(inp, 0, NO_NOTES, 1, root))
  }

  lemma LexClosingBracket(doc: bytes, f: Features, p: nat)
    requires IsByteAt(doc, p, RBRACKET)
    ensures Lex(doc, f, p) == Token(ArrayEnd, p, p + 1)
  {
  }
}
