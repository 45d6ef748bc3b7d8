/**
 The token sequence of a value, and the texts that spell it: the tokens in order
 with any white space between them.  Reading such a text gives the value back,
 whatever the white space and whatever the reader's settings.
 */
module JsonLayout {
  import opened Bytes
  import opened JsonText
  import opened JsonNumber
  import opened JsonValue
  import opened JsonMembers
  import opened JsonGrammar

  const NULL_TEXT: bytes := [110, 117, 108, 108]
  const TRUE_TEXT: bytes := [116, 114, 117, 101]
  const FALSE_TEXT: bytes := [102, 97, 108, 115, 101]

  // ---------------------------------------------------------------- the values covered

  /** Real-free values in range whose strings and names are well-formed UTF-8 and not too
      long.  Members may stand in any order, and their names may repeat. */
  predicate Printable(v: Value) {
    match v
    case Null => true
    case Bool(_) => true
    case Int(i) => MIN_INT64 <= i <= MAX_INT64
    case UInt(u) => u <= MAX_UINT64
    case Real(_) => false
    case Str(s) => WellFormedUtf8(s) && |s| <= MAX_STRING
    case Array(items) => forall k :: 0 <= k < |items| ==> Printable(items[k])
    case Object(members) => forall k :: 0 <= k < |members| ==> PrintableMember(members[k])
  }

  predicate PrintableMember(m: Member) {
    WellFormedUtf8(m.name) && |m.name| < MAX_KEY && Printable(m.value)
  }

  /** No object in `v` has a name twice. */
  predicate Distinct(v: Value) {
    match v
    case Array(items) => forall k :: 0 <= k < |items| ==> Distinct(items[k])
    case Object(members) => DistinctNames(members) && forall k :: 0 <= k < |members| ==> Distinct(members[k].value)
    case _ => true
  }

  /** The value as the reader holds it: unsigned integers that fit are signed, and members
      are in the order of names, each with its last value. */
  function Norm(v: Value): Value {
    match v
    case UInt(u) => if u <= MAX_INT64 then Int(u) else v
    case Array(items) => Array(NormItems(items))
    case Object(members) => Object(BindAll([], NormMembers(members)))
    case _ => v
  }

  function NormItems(items: seq<Value>): (r: seq<Value>)
    ensures |r| == |items|
  {
    if items == [] then [] else [Norm(items[0])] + NormItems(items[1..])
  }

  function NormMembers(members: seq<Member>): (r: seq<Member>)
    ensures |r| == |members|
  {
    if members == [] then []
    else [Member(members[0].name, Norm(members[0].value))] + NormMembers(members[1..])
  }

  /** Every object in `v` is in the order of names, as a map keeps it. */
  predicate InMapOrder(v: Value) {
    match v
    case Array(items) => forall k :: 0 <= k < |items| ==> InMapOrder(items[k])
    case Object(members) => Ordered(members) && forall k :: 0 <= k < |members| ==> InMapOrder(members[k].value)
    case _ => true
  }

  /** The value with every unsigned integer that fits made signed, and nothing else. */
  function Retagged(v: Value): Value {
    match v
    case UInt(u) => if u <= MAX_INT64 then Int(u) else v
    case Array(items) => Array(RetaggedItems(items))
    case Object(members) => Object(RetaggedMembers(members))
    case _ => v
  }

  function RetaggedItems(items: seq<Value>): seq<Value> {
    if items == [] then [] else [Retagged(items[0])] + RetaggedItems(items[1..])
  }

  function RetaggedMembers(members: seq<Member>): seq<Member> {
    if members == [] then []
    else [Member(members[0].name, Retagged(members[0].value))] + RetaggedMembers(members[1..])
  }

  lemma {:induction false} NormNames(members: seq<Member>, k: nat)
    requires k < |members|
    ensures NormMembers(members)[k] == Member(members[k].name, Norm(members[k].value))
    decreases |members|
  {
    hide Norm;
    if k > 0 {
      NormNames(members[1..], k - 1);
    }
  }

  /** A value in map order is held as it is, but for the tags of integers. */
  lemma {:induction false} MapOrderIsKept(v: Value)
    requires InMapOrder(v)
    ensures Norm(v) == Retagged(v)
    decreases v, 0
  {
    match v {
      case Array(items) => ItemsKept(items);
      case Object(members) =>
        MembersKept(members);
        forall i, j | 0 <= i < j < |members|
          ensures NameLess(NormMembers(members)[i].name, NormMembers(members)[j].name)
        {
          NormNames(members, i);
          NormNames(members, j);
        }
        OrderedIsBound(NormMembers(members));
      case _ =>
    }
  }

  /** In map order no name repeats. */
  lemma {:induction false} MapOrderIsDistinct(v: Value)
    requires InMapOrder(v)
    ensures Distinct(v)
    decreases v
  {
    match v {
      case Array(items) =>
        forall k | 0 <= k < |items| ensures Distinct(items[k]) {
          MapOrderIsDistinct(items[k]);
        }
      case Object(members) =>
        forall k | 0 <= k < |members| ensures Distinct(members[k].value) {
          MapOrderIsDistinct(members[k].value);
        }
        forall i, j | 0 <= i < j < |members| ensures members[i].name != members[j].name {
          NameTrichotomy(members[i].name, members[j].name);
        }
      case _ =>
    }
  }

  lemma {:induction false} ItemsKept(items: seq<Value>)
    requires forall k :: 0 <= k < |items| ==> InMapOrder(items[k])
    ensures NormItems(items) == RetaggedItems(items)
    decreases items, 1
  {
    hide InMapOrder, Norm, Retagged;
    if items != [] {
      MapOrderIsKept(items[0]);
      ItemsKept(items[1..]);
    }
  }

  lemma {:induction false} MembersKept(members: seq<Member>)
    requires forall k :: 0 <= k < |members| ==> InMapOrder(members[k].value)
    ensures NormMembers(members) == RetaggedMembers(members)
    decreases members, 1
  {
    hide InMapOrder, Norm, Retagged;
    if members != [] {
      MapOrderIsKept(members[0].value);
      MembersKept(members[1..]);
    }
  }

  function Max(a: nat, b: nat): nat {
    if a >= b then a else b
  }

  /** How many nodes the reader stacks up for `v`. */
  function Depth(v: Value): (d: nat)
    ensures d >= 1
  {
    match v
    case Array(items) => 1 + ItemsDepth(items)
    case Object(members) => 1 + MembersDepth(members)
    case _ => 1
  }

  function ItemsDepth(items: seq<Value>): nat {
    if items == [] then 0 else Max(Depth(items[0]), ItemsDepth(items[1..]))
  }

  function MembersDepth(members: seq<Member>): nat {
    if members == [] then 0 else Max(Depth(members[0].value), MembersDepth(members[1..]))
  }

  // ---------------------------------------------------------------- tokens and layouts

  function Tokens(v: Value): (r: seq<bytes>)
    requires Printable(v)
    ensures |r| >= 1
    decreases v, 0
  {
    match v
    case Null => [NULL_TEXT]
    case Bool(b) => [if b then TRUE_TEXT else FALSE_TEXT]
    case Int(i) => [IntText(i)]
    case UInt(u) => [Digits(u)]
    case Str(s) => [Quoted(s)]
    case Array(items) => [[LBRACKET]] + ArrayTail(items)
    case Object(members) => [[LBRACE]] + ObjectTail(members)
  }

  predicate PrintableItems(items: seq<Value>) {
    forall k :: 0 <= k < |items| ==> Printable(items[k])
  }

  predicate PrintableMembers(members: seq<Member>) {
    forall k :: 0 <= k < |members| ==> PrintableMember(members[k])
  }

  function ArrayTail(items: seq<Value>): seq<bytes>
    requires PrintableItems(items)
    decreases items, 2
  {
    if items == [] then [[RBRACKET]] else ItemsTokens(items)
  }

  function ItemsTokens(items: seq<Value>): seq<bytes>
    requires items != [] && PrintableItems(items)
    decreases items, 1
  {
    Tokens(items[0]) + ElementTail(items)
  }

  /** What follows the first element. */
  function ElementTail(items: seq<Value>): (r: seq<bytes>)
    requires items != [] && PrintableItems(items)
    ensures r != []
    decreases items, 0
  {
    if |items| == 1 then [[RBRACKET]] else [[COMMA]] + ItemsTokens(items[1..])
  }

  function ObjectTail(members: seq<Member>): seq<bytes>
    requires PrintableMembers(members)
    decreases members, 3
  {
    if members == [] then [[RBRACE]] else MembersTokens(members)
  }

  function MembersTokens(members: seq<Member>): seq<bytes>
    requires members != [] && PrintableMembers(members)
    decreases members, 2
  {
    [Quoted(members[0].name)] + MemberTail(members)
  }

  /** The tokens of members, without the first name. */
  function MemberTail(members: seq<Member>): seq<bytes>
    requires members != [] && PrintableMembers(members)
    decreases members, 1
  {
    assert PrintableMember(members[0]);
    [[COLON]] + (Tokens(members[0].value) + AfterTokens(members))
  }

  /** What follows the first member. */
  function AfterTokens(members: seq<Member>): (r: seq<bytes>)
    requires members != [] && PrintableMembers(members)
    ensures r != []
    decreases members, 0
  {
    if |members| == 1 then [[RBRACE]] else [[COMMA]] + MembersTokens(members[1..])
  }

  predicate Blank(t: bytes) {
    forall k :: 0 <= k < |t| ==> IsSpace(t[k])
  }

  predicate Gaps(gaps: seq<bytes>, n: nat) {
    |gaps| == n + 1 && forall k :: 0 <= k < |gaps| ==> Blank(gaps[k])
  }

  /** gap, token, gap, token, ..., gap. */
  function Weave(gaps: seq<bytes>, tokens: seq<bytes>): bytes
    requires |gaps| == |tokens| + 1
  {
    if tokens == [] then gaps[0] else gaps[0] + tokens[0] + Weave(gaps[1..], tokens[1..])
  }

  /** `text` is the tokens in order with white space between and around them. */
  ghost predicate Lays(text: bytes, tokens: seq<bytes>) {
    exists gaps: seq<bytes> :: Gaps(gaps, |tokens|) && text == Weave(gaps, tokens)
  }

  lemma BlankLays(text: bytes)
    requires Blank(text)
    ensures Lays(text, [])
  {
    assert Gaps([text], 0) && Weave([text], []) == text;
  }

  lemma TokenLays(token: bytes)
    ensures Lays(token, [token])
  {
    var gaps: seq<bytes> := [[], []];
    assert Gaps(gaps, 1);
    assert Weave(gaps, [token]) == gaps[0] + token + Weave(gaps[1..], [token][1..]);
    assert Weave(gaps[1..], [token][1..]) == [];
  }

  function Join(a: seq<bytes>, b: seq<bytes>): seq<bytes>
    requires a != [] && b != []
  {
    a[..|a| - 1] + [a[|a| - 1] + b[0]] + b[1..]
  }

  lemma {:induction false} WeaveJoin(g: seq<bytes>, s: seq<bytes>, h: seq<bytes>, t: seq<bytes>)
    requires |g| == |s| + 1 && |h| == |t| + 1
    ensures Weave(Join(g, h), s + t) == Weave(g, s) + Weave(h, t)
    decreases |s|
  {
    if s == [] {
      assert s + t == t;
      assert Join(g, h) == [g[0] + h[0]] + h[1..];
      if t != [] {
        assert (g[0] + h[0]) + t[0] + Weave(h[1..], t[1..]) == g[0] + (h[0] + t[0] + Weave(h[1..], t[1..]));
      }
    } else {
      WeaveJoin(g[1..], s[1..], h, t);
      assert (s + t)[1..] == s[1..] + t;
      assert Join(g, h)[1..] == Join(g[1..], h);
      assert g[0] + s[0] + (Weave(g[1..], s[1..]) + Weave(h, t)) == (g[0] + s[0] + Weave(g[1..], s[1..])) + Weave(h, t);
    }
  }

  lemma {:induction false} LaysConcat(a: bytes, s: seq<bytes>, b: bytes, t: seq<bytes>)
    requires Lays(a, s) && Lays(b, t)
    ensures Lays(a + b, s + t)
  {
    var g :| Gaps(g, |s|) && a == Weave(g, s);
    var h :| Gaps(h, |t|) && b == Weave(h, t);
    WeaveJoin(g, s, h, t);
    assert Gaps(Join(g, h), |s + t|);
  }

  // ---------------------------------------------------------------- tokens are read back

  /** The rest of the document from `pos` is the woven tokens from the `k`-th on. */
  predicate WovenAt(doc: bytes, pos: nat, gaps: seq<bytes>, tokens: seq<bytes>, k: nat) {
    pos <= |doc| && Gaps(gaps, |tokens|) && k <= |tokens| && doc[pos..] == Weave(gaps[k..], tokens[k..])
  }

  lemma SkipsTo(doc: bytes, pos: nat, s: nat)
    requires pos <= s <= |doc|
    requires forall k :: pos <= k < s ==> IsSpace(doc[k])
    requires s < |doc| ==> !IsSpace(doc[s])
    ensures SkipSpaces(doc, pos) == s
  {
  }

  /** Where the next token of a woven rest stands. */
  lemma {:induction false} FirstToken(doc: bytes, pos: nat, gaps: seq<bytes>, tokens: seq<bytes>, k: nat)
    requires WovenAt(doc, pos, gaps, tokens, k) && k < |tokens|
    requires tokens[k] != [] && !IsSpace(tokens[k][0])
    ensures var s := pos + |gaps[k]|;
            && At(doc, s, tokens[k]) && doc[s] == tokens[k][0] && SkipSpaces(doc, pos) == s
            && WovenAt(doc, s + |tokens[k]|, gaps, tokens, k + 1)
  {
    var rest := Weave(gaps[k + 1..], tokens[k + 1..]);
    assert gaps[k..][1..] == gaps[k + 1..] && tokens[k..][1..] == tokens[k + 1..];
    var w := gaps[k] + tokens[k] + rest;
    assert doc[pos..] == w;
    var s := pos + |gaps[k]|;
    var e := s + |tokens[k]|;
    assert doc[s..e] == w[|gaps[k]|..|gaps[k]| + |tokens[k]|] == tokens[k];
    assert doc[e..] == w[|gaps[k]| + |tokens[k]|..] == rest;
    forall i | pos <= i < s ensures IsSpace(doc[i]) {
      assert doc[i] == w[i - pos] == gaps[k][i - pos];
    }
    assert doc[s] == doc[s..e][0];
    SkipsTo(doc, pos, s);
  }

  /** The white space before a token can be skipped first. */
  lemma {:induction false} TrimGap(doc: bytes, pos: nat, gaps: seq<bytes>, tokens: seq<bytes>, k: nat)
    requires WovenAt(doc, pos, gaps, tokens, k) && k < |tokens|
    requires tokens[k] != [] && !IsSpace(tokens[k][0])
    ensures var p := SkipSpaces(doc, pos);
            p < |doc| && doc[p] == tokens[k][0] && WovenAt(doc, p, gaps[k := []], tokens, k)
  {
    FirstToken(doc, pos, gaps, tokens, k);
    var p := SkipSpaces(doc, pos);
    var trimmed := gaps[k := []];
    var rest := Weave(gaps[k + 1..], tokens[k + 1..]);
    assert gaps[k..][1..] == gaps[k + 1..] && tokens[k..][1..] == tokens[k + 1..];
    assert trimmed[k..][1..] == gaps[k + 1..];
    assert doc[p..] == doc[pos..][|gaps[k]|..];
    assert Weave(gaps[k..], tokens[k..])[|gaps[k]|..] == tokens[k] + rest;
    assert Weave(trimmed[k..], tokens[k..]) == [] + tokens[k] + rest;
  }

  /** Later positions do not depend on the gap that was trimmed. */
  lemma UntrimGap(doc: bytes, pos: nat, gaps: seq<bytes>, tokens: seq<bytes>, k: nat, later: nat)
    requires Gaps(gaps, |tokens|) && k < later <= |tokens| && WovenAt(doc, pos, gaps[k := []], tokens, later)
    ensures WovenAt(doc, pos, gaps, tokens, later)
  {
    assert gaps[k := []][later..] == gaps[later..];
  }

  lemma {:induction false} EndIsRead(doc: bytes, f: Features, pos: nat, gaps: seq<bytes>, tokens: seq<bytes>)
    requires WovenAt(doc, pos, gaps, tokens, |tokens|)
    ensures NextToken(doc, f, pos).kind.EndOfStream? && Lex(doc, f, pos).kind.EndOfStream?
  {
    var gap := gaps[|tokens|];
    forall k | pos <= k < |doc| ensures IsSpace(doc[k]) {
      assert doc[k] == doc[pos..][k - pos] == gap[k - pos];
    }
    SkipsTo(doc, pos, |doc|);
  }

  lemma ScansQuote(doc: bytes, p: nat)
    requires At(doc, p, [QUOTE])
    ensures ScanString(doc, p, QUOTE) == Scan(true, p + 1)
  {
    assert doc[p..p + 1][0] == QUOTE;
  }

  lemma HeadPrinted(s: bytes)
    requires s != []
    ensures var head, rest := EscapeHead(s).text, s[EscapeHead(s).used..];
            && |rest| < |s|
            && EscapeText(s) + [QUOTE] == head + (EscapeText(rest) + [QUOTE])
            && |EscapeText(s)| == |head| + |EscapeText(rest)|
  {
    hide EscapeHead;
    var head, rest := EscapeHead(s).text, s[EscapeHead(s).used..];
    assert head + EscapeText(rest) + [QUOTE] == head + (EscapeText(rest) + [QUOTE]);
  }

  /** Between the quotes of a printed literal no quote is bare. */
  lemma {:induction false} ScansEscaped(doc: bytes, p: nat, s: bytes)
    requires At(doc, p, EscapeText(s) + [QUOTE])
    ensures ScanString(doc, p, QUOTE) == Scan(true, p + |EscapeText(s)| + 1)
    decreases |s|
  {
    if s == [] {
      assert [] + [QUOTE] == [QUOTE];
      ScansQuote(doc, p);
    } else {
      hide EscapeText, EscapeHead, ScanString, At;
      var head, rest := EscapeHead(s).text, s[EscapeHead(s).used..];
      HeadPrinted(s);
      AtSplit(doc, p, head, EscapeText(rest) + [QUOTE]);
      ScansEscaped(doc, p + |head|, rest);
      ScansPrintedHead(doc, p, s);
    }
  }

  lemma ScansPrintedHead(doc: bytes, p: nat, s: bytes)
    requires s != [] && At(doc, p, EscapeHead(s).text)
    ensures ScanString(doc, p, QUOTE) == ScanString(doc, p + |EscapeHead(s).text|, QUOTE)
  {
    hide EscapeHead, ScanString;
    AtIndex(doc, p, EscapeHead(s).text);
    ScansHead(doc, p, s);
  }

  lemma AtIndex(doc: bytes, p: nat, t: bytes)
    requires At(doc, p, t)
    ensures forall k :: 0 <= k < |t| ==> doc[p + k] == t[k]
  {
    forall k | 0 <= k < |t| ensures doc[p + k] == t[k] {
      assert doc[p..p + |t|][k] == doc[p + k];
    }
  }

  lemma AtSplit(doc: bytes, p: nat, a: bytes, b: bytes)
    requires At(doc, p, a + b)
    ensures At(doc, p, a) && At(doc, p + |a|, b)
  {
    var w := doc[p..p + |a + b|];
    assert doc[p..p + |a|] == w[..|a|];
    assert doc[p + |a|..p + |a| + |b|] == w[|a|..];
  }

  lemma {:induction false} ScansHead(doc: bytes, p: nat, s: bytes)
    requires s != [] && p + |EscapeHead(s).text| <= |doc|
    requires forall k :: 0 <= k < |EscapeHead(s).text| ==> doc[p + k] == EscapeHead(s).text[k]
    ensures ScanString(doc, p, QUOTE) == ScanString(doc, p + |EscapeHead(s).text|, QUOTE)
  {
    var text := EscapeHead(s).text;
    var cp := Utf8ToCodePoint(s).codePoint;
    if ShortEscape(s[0]) != 0 {
      assert doc[p + 0] == text[0] && doc[p + 1] == text[1];
    } else if 0x20 <= cp < 0x80 {
      PlainAsciiIsItself(s);
      assert doc[p + 0] == text[0];
    } else if cp < 0x10000 {
      ScansUnit(doc, p, cp);
    } else {
      var hi, lo := (cp - 0x10000) / 1024 + 0xD800, (cp - 0x10000) % 1024 + 0xDC00;
      assert text == UnicodeEscapeText(hi) + UnicodeEscapeText(lo);
      hide EscapeHead, UnicodeEscapeText;
      assert |UnicodeEscapeText(hi)| == 6 by { UnitLength(hi); }
      assert |UnicodeEscapeText(lo)| == 6 by { UnitLength(lo); }
      forall k | 0 <= k < 6 ensures doc[p + k] == UnicodeEscapeText(hi)[k] { assert doc[p + k] == text[k]; }
      forall k | 0 <= k < 6 ensures doc[p + 6 + k] == UnicodeEscapeText(lo)[k] {
        assert doc[p + (6 + k)] == text[6 + k];
      }
      ScansUnit(doc, p, hi);
      ScansUnit(doc, p + 6, lo);
    }
  }

  lemma UnitLength(x: nat)
    requires x <= 0xFFFF
    ensures |UnicodeEscapeText(x)| == 6
  {
  }

  lemma {:induction false} ScansUnit(doc: bytes, p: nat, x: nat)
    requires x <= 0xFFFF && p + 6 <= |doc|
    requires forall k :: 0 <= k < 6 ==> doc[p + k] == UnicodeEscapeText(x)[k]
    ensures ScanString(doc, p, QUOTE) == ScanString(doc, p + 6, QUOTE)
  {
    var u := UnicodeEscapeText(x);
    assert doc[p + 0] == u[0];
    assert doc[p + 2] == u[2] && doc[p + 3] == u[3] && doc[p + 4] == u[4] && doc[p + 5] == u[5];
    assert ScanString(doc, p, QUOTE) == ScanString(doc, p + 2, QUOTE);
    assert ScanString(doc, p + 2, QUOTE) == ScanString(doc, p + 3, QUOTE);
    assert ScanString(doc, p + 3, QUOTE) == ScanString(doc, p + 4, QUOTE);
    assert ScanString(doc, p + 4, QUOTE) == ScanString(doc, p + 5, QUOTE);
  }

  /** A byte that cannot continue a number. */
  predicate EndsNumber(doc: bytes, e: nat) {
    e < |doc| ==> !IsDigit(doc[e]) && doc[e] != 46 && doc[e] != 101 && doc[e] != 69
  }

  lemma {:induction false} DigitsAreScanned(doc: bytes, p: nat, e: nat)
    requires p <= e <= |doc| && (forall k :: p <= k < e ==> IsDigit(doc[k])) && EndsNumber(doc, e)
    ensures NumberEnd(doc, p) == e
  {
    DigitsEndAt(doc, p, e);
  }

  lemma DigitsEndAt(doc: bytes, p: nat, e: nat)
    requires p <= e <= |doc| && (forall k :: p <= k < e ==> IsDigit(doc[k]))
    requires e < |doc| ==> !IsDigit(doc[e])
    ensures DigitsEnd(doc, p) == e
    decreases e - p
  {
    if p < e {
      DigitsEndAt(doc, p + 1, e);
    }
  }

  /** What follows a value: nothing, or a token that ends numbers too. */
  predicate Follows(tokens: seq<bytes>, k: nat) {
    k < |tokens| ==> tokens[k] in {[COMMA], [RBRACKET], [RBRACE]}
  }

  lemma {:induction false} FollowEndsNumber(doc: bytes, e: nat, gaps: seq<bytes>, tokens: seq<bytes>, k: nat)
    requires WovenAt(doc, e, gaps, tokens, k) && Follows(tokens, k)
    ensures EndsNumber(doc, e)
  {
    if e < |doc| {
      var w := Weave(gaps[k..], tokens[k..]);
      assert doc[e] == doc[e..][0] == w[0];
      if gaps[k] != [] {
        assert w[0] == gaps[k][0];
      } else if k < |tokens| {
        assert w[0] == tokens[k][0];
      }
    }
  }

  /** The token read next is the `k`-th, and the rest is woven from the next on. */
  predicate ReadsNext(doc: bytes, f: Features, pos: nat, gaps: seq<bytes>, tokens: seq<bytes>, k: nat, kind: Kind)
    requires k < |tokens| && k < |gaps|
  {
    var s := pos + |gaps[k]|;
    var e := s + |tokens[k]|;
    && pos <= |doc| && Lex(doc, f, pos) == Token(kind, s, e)
    && At(doc, s, tokens[k]) && WovenAt(doc, e, gaps, tokens, k + 1)
  }

  /** The kind of a one-character token. */
  function MarkKind(b: byte): Kind {
    if b == LBRACE then ObjectBegin
    else if b == RBRACE then ObjectEnd
    else if b == LBRACKET then ArrayBegin
    else if b == RBRACKET then ArrayEnd
    else if b == COMMA then ArraySeparator
    else if b == COLON then MemberSeparator
    else ErrorToken
  }

  lemma {:induction false} ReadsMark(doc: bytes, f: Features, pos: nat, gaps: seq<bytes>, tokens: seq<bytes>, k: nat,
        b: byte)
    requires WovenAt(doc, pos, gaps, tokens, k) && k < |tokens| && tokens[k] == [b] && MarkKind(b) != ErrorToken
    ensures ReadsNext(doc, f, pos, gaps, tokens, k, MarkKind(b))
  {
    hide Weave;
    FirstToken(doc, pos, gaps, tokens, k);
  }

  function WordKind(word: bytes): Kind {
    if word == NULL_TEXT then NullToken else if word == TRUE_TEXT then TrueToken else FalseToken
  }

  lemma {:induction false} ReadsWord(doc: bytes, f: Features, pos: nat, gaps: seq<bytes>, tokens: seq<bytes>, k: nat)
    requires WovenAt(doc, pos, gaps, tokens, k) && k < |tokens|
    requires tokens[k] in {NULL_TEXT, TRUE_TEXT, FALSE_TEXT}
    ensures ReadsNext(doc, f, pos, gaps, tokens, k, WordKind(tokens[k]))
  {
    hide Weave;
    FirstToken(doc, pos, gaps, tokens, k);
    var s := pos + |gaps[k]|;
    var e := s + |tokens[k]|;
    assert doc[s + 1..e] == doc[s..e][1..];
    assert NULL_TEXT[1..] == ULL && TRUE_TEXT[1..] == RUE && FALSE_TEXT[1..] == ALSE;
  }

  lemma {:induction false} LiteralAt(doc: bytes, f: Features, b: nat, s: bytes)
    requires At(doc, b, Quoted(s))
    ensures var e := b + |Quoted(s)|;
            TokenAt(doc, f, b) == Token(StringToken, b, e) && doc[b + 1..e - 1] == EscapeText(s)
  {
    hide EscapeText, ScanString;
    var q, t := Quoted(s), EscapeText(s) + [QUOTE];
    assert q == [QUOTE] + t;
    AtIndex(doc, b, q);
    AtSplit(doc, b, [QUOTE], t);
    AtSplit(doc, b + 1, EscapeText(s), [QUOTE]);
    ScansEscaped(doc, b + 1, s);
    assert doc[b + 0] == q[0];
  }

  lemma {:induction false} ReadsString(doc: bytes, f: Features, pos: nat, gaps: seq<bytes>, tokens: seq<bytes>, k: nat,
        s: bytes)
    requires WovenAt(doc, pos, gaps, tokens, k) && k < |tokens| && tokens[k] == Quoted(s)
    ensures ReadsNext(doc, f, pos, gaps, tokens, k, StringToken)
    ensures StringText(doc, Lex(doc, f, pos)) == UnescapeText(EscapeText(s))
  {
    hide EscapeText, UnescapeText, ScanString, SkipSpaces, Weave, TokenAt, Quoted;
    FirstToken(doc, pos, gaps, tokens, k);
    LiteralAt(doc, f, pos + |gaps[k]|, s);
  }

  lemma {:induction false} IntegerAt(doc: bytes, f: Features, s: nat, n: int)
    requires At(doc, s, IntText(n)) && EndsNumber(doc, s + |IntText(n)|)
    ensures TokenAt(doc, f, s) == Token(NumberToken, s, s + |IntText(n)|)
  {
    hide NumberEnd;
    var t := IntText(n);
    DigitsAreDigits(if n < 0 then -n else n);
    AtIndex(doc, s, t);
    forall k | s + 1 <= k < s + |t| ensures IsDigit(doc[k]) {
      assert doc[s + (k - s)] == t[k - s];
    }
    DigitsAreScanned(doc, s + 1, s + |t|);
    assert doc[s + 0] == t[0];
    if n < 0 {
      assert doc[s + 1] == t[1];
    }
  }

  lemma NumberText(n: int)
    ensures IntText(n) != [] && !IsSpace(IntText(n)[0])
  {
    DigitsAreDigits(if n < 0 then -n else n);
  }

  lemma WovenFacts(doc: bytes, pos: nat, gaps: seq<bytes>, tokens: seq<bytes>, k: nat)
    requires WovenAt(doc, pos, gaps, tokens, k)
    ensures pos <= |doc| && Gaps(gaps, |tokens|) && |gaps| == |tokens| + 1
  {
  }

  lemma {:induction false} ReadsNumber(doc: bytes, f: Features, pos: nat, gaps: seq<bytes>, tokens: seq<bytes>, k: nat,
        n: int)
    requires WovenAt(doc, pos, gaps, tokens, k) && k < |tokens| && tokens[k] == IntText(n) && Follows(tokens, k + 1)
    ensures ReadsNext(doc, f, pos, gaps, tokens, k, NumberToken)
  {
    hide TokenAt, SkipSpaces, WovenAt, Follows, EndsNumber, At, IntText;
    NumberText(n);
    WovenFacts(doc, pos, gaps, tokens, k);
    FirstToken(doc, pos, gaps, tokens, k);
    FollowEndsNumber(doc, pos + |gaps[k]| + |tokens[k]|, gaps, tokens, k + 1);
    IntegerAt(doc, f, pos + |gaps[k]|, n);
  }
}
