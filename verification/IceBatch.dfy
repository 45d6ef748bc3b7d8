/**
 ICE candidates of one gathering round travel as one message: the printed JSON of
 every candidate, joined by a separator, behind "ICE->".  The receiver splits the
 payload with a find/substr loop and parses each piece.
 */
module IceBatch {
  import opened Optional
  import opened Bytes
  import opened JsonText
  import opened JsonNumber
  import opened JsonValue
  import opened JsonMembers
  import opened JsonLayout
  import opened JsonWriter
  import JsonRoundTrip
  import JsonStyled
  import JsonWriting
  import G = JsonGrammar

  /** "######". */
  const SEPARATOR: bytes := [35, 35, 35, 35, 35, 35]
  /** "->". */
  const ARROW: bytes := [45, 62]
  /** "ICE" and "SDP". */
  const ICE: bytes := [73, 67, 69]
  const SDP: bytes := [83, 68, 80]
  /** "sdpMid", "sdpMLineIndex" and "candidate". */
  const SDP_MID: bytes := [115, 100, 112, 77, 105, 100]
  const SDP_MLINE_INDEX: bytes := [115, 100, 112, 77, 76, 105, 110, 101, 73, 110, 100, 101, 120]
  const CANDIDATE: bytes := [99, 97, 110, 100, 105, 100, 97, 116, 101]

  const NPOS: int := MAX_UINT64
  const MAX_SIZE: int := MAX_INT64

  // ---------------------------------------------------------------- std::string

  /** `find`: the first occurrence of `p` at or after `from`, or npos. */
  function Find(t: bytes, p: bytes, from: nat): (r: int)
    ensures r == NPOS || (from <= r && At(t, r, p))
    ensures |t| <= MAX_SIZE ==> forall k :: from <= k < r && k <= |t| ==> !At(t, k, p)
    decreases if from <= |t| then |t| - from + 1 else 0
  {
    if from > |t| then NPOS
    else if At(t, from, p) && from < NPOS then from
    else Find(t, p, from + 1)
  }

  /** `substr`: the length is cut off at the end of the string. */
  function Substr(t: bytes, from: nat, count: nat): bytes
    requires from <= |t|
  {
    if from + count <= |t| then t[from..from + count] else t[from..]
  }

  /** Sums and differences of `size_t` wrap around. */
  function SizeAdd(a: nat, b: nat): nat
    requires a <= NPOS && b <= NPOS
  {
    if a + b <= NPOS then a + b else a + b - NPOS - 1
  }

  function SizeSub(a: nat, b: nat): nat
    requires a <= NPOS && b <= NPOS
  {
    if a >= b then a - b else a - b + NPOS + 1
  }

  predicate Contains(t: bytes, p: bytes) {
    exists k :: 0 <= k <= |t| && At(t, k, p)
  }

  // ---------------------------------------------------------------- splitting

  /** The pieces the find/substr loop cuts from `start` on. */
  function Pieces(payload: bytes, start: nat): (r: seq<bytes>)
    requires start <= |payload| <= MAX_SIZE
    ensures |r| >= 1
    decreases |payload| - start
  {
    var pos := Find(payload, SEPARATOR, start);
    if pos == NPOS then [payload[start..]]
    else [payload[start..pos]] + Pieces(payload, pos + 6)
  }

  function Join(texts: seq<bytes>): bytes {
    if texts == [] then []
    else if |texts| == 1 then texts[0]
    else texts[0] + SEPARATOR + Join(texts[1..])
  }

  /** A text that neither is empty nor ends in a hash, as printed objects do not. */
  predicate Solid(t: bytes) {
    t != [] && t[|t| - 1] != 35
  }

  lemma DiffersAt(t: bytes, k: nat, p: bytes, i: nat)
    requires i < |p| && k + i < |t| && t[k + i] != p[i]
    ensures !At(t, k, p)
  {
    if k + |p| <= |t| {
      assert t[k..k + |p|][i] == t[k + i];
    }
  }

  /** An occurrence in a part is an occurrence in the whole. */
  lemma AtInPart(t: bytes, from: nat, to: nat, k: nat, p: bytes)
    requires from <= to <= |t| && k + |p| <= to - from
    ensures At(t[from..to], k, p) <==> At(t, from + k, p)
  {
    var part := t[from..to];
    var a, b := part[k..k + |p|], t[from + k..from + k + |p|];
    assert forall i :: 0 <= i < |p| ==> a[i] == part[k + i] == t[from + k + i] == b[i];
    assert a == b;
  }

  /** In `text + SEPARATOR + rest` the first separator is the one behind `text`,
      unless `text` holds one itself. */
  lemma FindBehind(payload: bytes, start: nat, text: bytes, rest: bytes)
    requires start <= |payload| <= MAX_SIZE && payload[start..] == text + SEPARATOR + rest
    requires Solid(text) && !Contains(text, SEPARATOR)
    ensures Find(payload, SEPARATOR, start) == start + |text|
  {
    var w := text + SEPARATOR + rest;
    var e := start + |text|;
    assert w[..|text|] == text && w[|text|..|text| + 6] == SEPARATOR;
    assert payload[start..e] == payload[start..][..|text|];
    assert payload[e..e + 6] == payload[start..][|text|..|text| + 6];
    forall k | start <= k < e ensures !At(payload, k, SEPARATOR) {
      var i := k - start;
      if i + 6 <= |text| {
        AtInPart(payload, start, e, i, SEPARATOR);
      } else {
        assert payload[e - 1] == payload[start..e][|text| - 1];
        DiffersAt(payload, k, SEPARATOR, |text| - 1 - i);
      }
    }
    FindIs(payload, SEPARATOR, start, e);
  }

  lemma FindIs(t: bytes, p: bytes, from: nat, e: nat)
    requires from <= e <= |t| <= MAX_SIZE && At(t, e, p) && forall k :: from <= k < e ==> !At(t, k, p)
    ensures Find(t, p, from) == e
    decreases e - from
  {
    if from < e {
      FindIs(t, p, from + 1, e);
    }
  }

  lemma FindNone(t: bytes, p: bytes, from: nat)
    requires from <= |t| <= MAX_SIZE && forall k :: from <= k <= |t| ==> !At(t, k, p)
    ensures Find(t, p, from) == NPOS
    decreases |t| - from
  {
    if from < |t| {
      FindNone(t, p, from + 1);
    }
  }

  lemma {:induction false} PiecesOfJoin(payload: bytes, start: nat, texts: seq<bytes>)
    requires start <= |payload| <= MAX_SIZE && texts != [] && payload[start..] == Join(texts)
    requires forall k :: 0 <= k < |texts| ==> Solid(texts[k]) && !Contains(texts[k], SEPARATOR)
    ensures Pieces(payload, start) == texts
    decreases |texts|
  {
    hide Find;
    if |texts| == 1 {
      forall k | start <= k <= |payload| ensures !At(payload, k, SEPARATOR) {
        if k + 6 <= |payload| {
          assert payload[start..] == payload[start..|payload|];
          AtInPart(payload, start, |payload|, k - start, SEPARATOR);
        }
      }
      FindNone(payload, SEPARATOR, start);
    } else {
      var rest := Join(texts[1..]);
      FindBehind(payload, start, texts[0], rest);
      var e := start + |texts[0]|;
      assert payload[start..e] == payload[start..][..|texts[0]|] == texts[0];
      assert payload[e + 6..] == payload[start..][|texts[0]| + 6..] == rest;
      PiecesOfJoin(payload, e + 6, texts[1..]);
    }
  }

  /** No piece the loop cuts holds a separator. */
  lemma {:induction false} PiecesAreClean(payload: bytes, start: nat)
    requires start <= |payload| <= MAX_SIZE
    ensures forall k :: 0 <= k < |Pieces(payload, start)| ==> !Contains(Pieces(payload, start)[k], SEPARATOR)
    decreases |payload| - start
  {
    var pos := Find(payload, SEPARATOR, start);
    var end := if pos == NPOS then |payload| else pos;
    PartIsClean(payload, start, end);
    if pos == NPOS {
      assert payload[start..] == payload[start..end];
    } else {
      PiecesAreClean(payload, pos + 6);
    }
  }

  lemma PartIsClean(t: bytes, from: nat, to: nat)
    requires from <= to <= |t| && forall k :: from <= k < to ==> !At(t, k, SEPARATOR)
    ensures !Contains(t[from..to], SEPARATOR)
  {
    forall k | 0 <= k <= to - from ensures !At(t[from..to], k, SEPARATOR) {
      if k + 6 <= to - from {
        AtInPart(t, from, to, k, SEPARATOR);
      }
    }
  }

  /** What the loop finds in a part of the payload it finds in the payload. */
  lemma FindInPart(payload: bytes, base: nat, text: bytes, s: nat)
    requires base + |text| + 6 <= |payload| <= MAX_SIZE && s <= |text| && Solid(text)
    requires payload[base..base + |text|] == text && At(payload, base + |text|, SEPARATOR)
    ensures var p := Find(text, SEPARATOR, s);
            Find(payload, SEPARATOR, base + s) == if p == NPOS then base + |text| else base + p
  {
    hide Find;
    var p, e := Find(text, SEPARATOR, s), base + |text|;
    FoundOrNot(text, s);
    var last := if p == NPOS then |text| else p;
    forall k | base + s <= k < base + last ensures !At(payload, k, SEPARATOR) {
      var i := k - base;
      if i + 6 <= |text| {
        AtInPart(payload, base, e, i, SEPARATOR);
      } else {
        assert payload[e - 1] == payload[base..e][|text| - 1];
        DiffersAt(payload, k, SEPARATOR, |text| - 1 - i);
      }
    }
    if p != NPOS {
      AtInPart(payload, base, e, p, SEPARATOR);
    }
    FindIs(payload, SEPARATOR, base + s, base + last);
  }

  lemma FoundOrNot(t: bytes, s: nat)
    requires s <= |t| <= MAX_SIZE
    ensures var p := Find(t, SEPARATOR, s);
            && (p != NPOS ==> s <= p && p + 6 <= |t| && At(t, p, SEPARATOR))
            && (forall k :: s <= k < (if p == NPOS then |t| else p) ==> !At(t, k, SEPARATOR))
  {
    hide Find;
  }

  /** A text in front of a separator is cut as it would be alone. */
  lemma {:induction false} PiecesOfPart(payload: bytes, base: nat, text: bytes, s: nat)
    requires base + |text| + 6 <= |payload| <= MAX_SIZE && s <= |text| && Solid(text)
    requires payload[base..base + |text|] == text && At(payload, base + |text|, SEPARATOR)
    ensures |Pieces(payload, base + s)| == |Pieces(text, s)| + |Pieces(payload, base + |text| + 6)|
    decreases |text| - s
  {
    hide Find;
    FindInPart(payload, base, text, s);
    FoundOrNot(text, s);
    var p := Find(text, SEPARATOR, s);
    if p != NPOS {
      PiecesOfPart(payload, base, text, p + 6);
    }
  }

  /** Alone a text stays whole exactly when it holds no separator. */
  lemma PiecesAlone(text: bytes)
    requires |text| <= MAX_SIZE
    ensures |Pieces(text, 0)| == 1 <==> !Contains(text, SEPARATOR)
  {
    hide Find;
    FoundOrNot(text, 0);
    var p := Find(text, SEPARATOR, 0);
    if p == NPOS {
      forall k | 0 <= k <= |text| ensures !At(text, k, SEPARATOR) {
      }
    }
  }

  lemma {:induction false} PiecesAreAtLeast(payload: bytes, start: nat, texts: seq<bytes>)
    requires start <= |payload| <= MAX_SIZE && texts != [] && payload[start..] == Join(texts)
    requires forall k :: 0 <= k < |texts| ==> Solid(texts[k])
    ensures |Pieces(payload, start)| >= |texts|
    ensures |Pieces(payload, start)| == |texts| ==> forall k :: 0 <= k < |texts| ==> !Contains(texts[k], SEPARATOR)
    decreases |texts|
  {
    hide Find, Pieces, Contains, Solid;
    if |texts| == 1 {
      PiecesShift(payload, start, texts[0]);
      PiecesAlone(texts[0]);
    } else {
      JoinSplits(payload, start, texts);
      var e := start + |texts[0]|;
      PiecesOfPart(payload, start, texts[0], 0);
      PiecesAlone(texts[0]);
      PiecesAreAtLeast(payload, e + 6, texts[1..]);
    }
  }

  lemma JoinSplits(payload: bytes, start: nat, texts: seq<bytes>)
    requires start <= |payload| && |texts| > 1 && payload[start..] == Join(texts)
    ensures var e := start + |texts[0]|;
            && e + 6 <= |payload| && payload[start..e] == texts[0] && At(payload, e, SEPARATOR)
            && payload[e + 6..] == Join(texts[1..])
  {
    var w, e := payload[start..], start + |texts[0]|;
    assert w == texts[0] + SEPARATOR + Join(texts[1..]);
    assert payload[start..e] == w[..|texts[0]|];
    assert payload[e..e + 6] == w[|texts[0]|..|texts[0]| + 6];
    assert payload[e + 6..] == w[|texts[0]| + 6..];
  }

  /** The last text is cut as it would be alone. */
  lemma {:induction false} PiecesShift(payload: bytes, start: nat, text: bytes)
    requires start <= |payload| <= MAX_SIZE && payload[start..] == text
    ensures |Pieces(payload, start)| == |Pieces(text, 0)|
  {
    assert start + 0 == start;
    PiecesShiftFrom(payload, start, text, 0);
  }

  lemma {:induction false} PiecesShiftFrom(payload: bytes, base: nat, text: bytes, s: nat)
    requires base + s <= |payload| <= MAX_SIZE && payload[base..] == text
    ensures |Pieces(payload, base + s)| == |Pieces(text, s)|
    decreases |text| - s
  {
    hide Find;
    FindShift(payload, base, text, s);
    FoundOrNot(text, s);
    var p := Find(text, SEPARATOR, s);
    if p != NPOS {
      PiecesShiftFrom(payload, base, text, p + 6);
    }
  }

  lemma FindShift(payload: bytes, base: nat, text: bytes, s: nat)
    requires base + s <= |payload| <= MAX_SIZE && payload[base..] == text
    ensures var p := Find(text, SEPARATOR, s);
            Find(payload, SEPARATOR, base + s) == if p == NPOS then NPOS else base + p
  {
    hide Find;
    FoundOrNot(text, s);
    var p := Find(text, SEPARATOR, s);
    var last := if p == NPOS then |text| else p;
    assert payload[base..|payload|] == text;
    forall k | base + s <= k < base + last ensures !At(payload, k, SEPARATOR) {
      if k + 6 <= |payload| {
        AtInPart(payload, base, |payload|, k - base, SEPARATOR);
      }
    }
    if p == NPOS {
      FindNone(payload, SEPARATOR, base + s);
    } else {
      AtInPart(payload, base, |payload|, p, SEPARATOR);
      FindIs(payload, SEPARATOR, base + s, base + p);
    }
  }

  /** Splitting undoes joining exactly when no text holds a separator; otherwise there
      are more pieces than texts. */
  lemma {:induction false} SplitJoinExact(texts: seq<bytes>)
    requires texts != [] && |Join(texts)| <= MAX_SIZE && forall k :: 0 <= k < |texts| ==> Solid(texts[k])
    ensures var clean := forall k :: 0 <= k < |texts| ==> !Contains(texts[k], SEPARATOR);
            && (Pieces(Join(texts), 0) == texts <==> clean)
            && (!clean ==> |Pieces(Join(texts), 0)| > |texts|)
  {
    hide Pieces, Contains, Solid, Join;
    assert Join(texts)[0..] == Join(texts);
    PiecesAreAtLeast(Join(texts), 0, texts);
    if forall k :: 0 <= k < |texts| ==> !Contains(texts[k], SEPARATOR) {
      PiecesOfJoin(Join(texts), 0, texts);
    }
  }

  // ---------------------------------------------------------------- candidates

  datatype Candidate = Candidate(mid: bytes, mlineIndex: int, sdp: bytes)

  /** Candidates the JSON layer carries unchanged: a 32-bit index, and UTF-8 text that a
      value can hold. */
  predicate Portable(c: Candidate) {
    && -0x8000_0000 <= c.mlineIndex <= 0x7FFF_FFFF
    && WellFormedUtf8(c.mid) && |c.mid| <= G.MAX_STRING
    && WellFormedUtf8(c.sdp) && |c.sdp| <= G.MAX_STRING
  }

  /** The object `OnIceCandidate` fills in. */
  function CandidateValue(c: Candidate): Value {
    var mid := SetMember([], SDP_MID, Str(c.mid));
    Object(SetMember(SetMember(mid, SDP_MLINE_INDEX, Int(c.mlineIndex)), CANDIDATE, Str(c.sdp)))
  }

  /** `jmessage[name]`: a missing member reads as null. */
  function MemberOf(members: seq<Member>, name: bytes): Value {
    var found := FindMember(members, name);
    if found.None? then Null else found.value
  }

  /** `asString`, which throws on arrays and objects. */
  function AsString(v: Value, showDouble: Double -> bytes): Option<bytes> {
    match v
    case Null => Some([])
    case Str(s) => Some(s)
    case Bool(b) => Some(BoolText(b))
    case Int(i) => Some(IntText(i))
    case UInt(u) => Some(Digits(u))
    case Real(d) => Some(showDouble(d))
    case Array(_) => None
    case Object(_) => None
  }

  predicate InInt(i: int) {
    -0x8000_0000 <= i <= 0x7FFF_FFFF
  }

  /** Conversion of a double cuts off its fraction. */
  function Truncated(r: real): int {
    if r >= 0.0 then r.Floor else -((-r).Floor)
  }

  /** `asInt`, which throws on strings, containers and numbers out of range. */
  function AsInt(v: Value): Option<int> {
    match v
    case Null => Some(0)
    case Bool(b) => Some(if b then 1 else 0)
    case Int(i) => if InInt(i) then Some(i) else None
    case UInt(u) => if InInt(u) then Some(u) else None
    case Real(Finite(r)) => if -2147483648.0 <= r <= 2147483647.0 then Some(Truncated(r)) else None
    case Real(NaN) => None
    case Real(PosInf) => None
    case Real(NegInf) => None
    case Str(_) => None
    case Array(_) => None
    case Object(_) => None
  }

  /** The candidate a parsed value describes; `None` when `operator[]` or one of the
      conversions throws. */
  function CandidateOf(v: Value, showDouble: Double -> bytes): Option<Candidate> {
    if !v.Null? && !v.Object? then None
    else
      var members := if v.Object? then v.members else [];
      var mid := AsString(MemberOf(members, SDP_MID), showDouble);
      var index := AsInt(MemberOf(members, SDP_MLINE_INDEX));
      var sdp := AsString(MemberOf(members, CANDIDATE), showDouble);
      if mid.Some? && index.Some? && sdp.Some? then Some(Candidate(mid.value, index.value, sdp.value)) else None
  }

  /** The members stand in the order candidate, sdpMLineIndex, sdpMid. */
  lemma {:induction false} CandidateMembers(c: Candidate)
    ensures CandidateValue(c) ==
            Object([Member(CANDIDATE, Str(c.sdp)), Member(SDP_MLINE_INDEX, Int(c.mlineIndex)),
              Member(SDP_MID, Str(c.mid))])
    ensures NameLess(CANDIDATE, SDP_MLINE_INDEX) && NameLess(CANDIDATE, SDP_MID) && NameLess(SDP_MLINE_INDEX, SDP_MID)
  {
    NamesDiffer();
    assert SetMember([], SDP_MID, Str(c.mid)) == [Member(SDP_MID, Str(c.mid))];
  }

  lemma NamesDiffer()
    ensures NameLess(CANDIDATE, SDP_MLINE_INDEX) && NameLess(CANDIDATE, SDP_MID) && NameLess(SDP_MLINE_INDEX, SDP_MID)
  {
    NameLessTail(SDP_MLINE_INDEX, SDP_MID);
    NameLessTail(SDP_MLINE_INDEX[1..], SDP_MID[1..]);
    NameLessTail(SDP_MLINE_INDEX[1..][1..], SDP_MID[1..][1..]);
    NameLessTail(SDP_MLINE_INDEX[1..][1..][1..], SDP_MID[1..][1..][1..]);
    assert SDP_MLINE_INDEX[1..][1..][1..][1..][0] == 76 && SDP_MID[1..][1..][1..][1..][0] == 105;
  }

  // ---------------------------------------------------------------- printing and parsing one candidate

  /** `Json::writeString` with a default builder. */
  function PrintCandidate(c: Candidate, showDouble: Double -> bytes): bytes {
    JsonWriting.StyledDocument(JsonWriting.NewStreamWriter(JsonWriting.DEFAULT_SETTINGS, showDouble), CandidateValue(c))
  }

  /** What becomes of one piece: a candidate, text the reader refuses, or an exception
      of the reader, of `operator[]` or of a conversion. */
  datatype Piece = Read(candidate: Candidate) | Unreadable | Throws

  /** A default reader over one piece. */
  function ParsePiece(text: bytes, scanDouble: bytes -> Option<Double>, showDouble: Double -> bytes): Piece {
    var o := G.ParseDocument(G.Input(text, G.DEFAULT_FEATURES, scanDouble, showDouble), G.NULL_NODE);
    if o.Threw? then Throws
    else if !o.ok then Unreadable
    else
      var c := CandidateOf(G.ValueOf(o.root), showDouble);
      if c.Some? then Read(c.value) else Throws
  }

  /** Of a text that spells a value the outcome is exact: an exception just when the
      value nests too deep or does not describe a candidate. */
  lemma PieceOfValue(text: bytes, v: Value, scanDouble: bytes -> Option<Double>, showDouble: Double -> bytes)
    requires Printable(v) && Lays(text, Tokens(v))
    ensures var c := CandidateOf(Norm(v), showDouble);
            ParsePiece(text, scanDouble, showDouble)
            == if Depth(v) > 1000 || c.None? then Throws else Read(c.value)
  {
    hide G.ParseDocument, Norm, Depth, Printable, Lays, Tokens, CandidateOf;
    JsonRoundTrip.LayoutRoundTrip(G.Input(text, G.DEFAULT_FEATURES, scanDouble, showDouble), v, G.NULL_NODE);
  }

  /** A piece that spells a number, a string, a truth value or an array throws. */
  lemma OnlyObjectsAreRead(text: bytes, v: Value, scanDouble: bytes -> Option<Double>, showDouble: Double -> bytes)
    requires Printable(v) && Lays(text, Tokens(v)) && !v.Null? && !v.Object?
    ensures ParsePiece(text, scanDouble, showDouble) == Throws
  {
    hide Printable, Lays, Tokens, Depth;
    PieceOfValue(text, v, scanDouble, showDouble);
  }

  /** The text "3" is such a piece. */
  lemma BareNumberThrows(scanDouble: bytes -> Option<Double>, showDouble: Double -> bytes)
    ensures ParsePiece([51], scanDouble, showDouble) == Throws
  {
    TokenLays([51]);
    assert Tokens(Int(3)) == [[51]];
    OnlyObjectsAreRead([51], Int(3), scanDouble, showDouble);
  }

  lemma AsciiIsWellFormed(t: bytes)
    requires forall k :: 0 <= k < |t| ==> t[k] < 0x80
    ensures WellFormedUtf8(t)
  {
    if t != [] {
      AsciiIsWellFormed(t[1..]);
    }
  }

  lemma NormOfThree(a: Member, b: Member, c: Member)
    requires Norm(a.value) == a.value && Norm(b.value) == b.value && Norm(c.value) == c.value
    ensures NormMembers([a, b, c]) == [a, b, c]
  {
    hide Norm;
    assert [a, b, c][1..] == [b, c] && [b, c][1..] == [c] && [c][1..] == [];
    assert Member(a.name, a.value) == a && Member(b.name, b.value) == b && Member(c.name, c.value) == c;
    assert NormMembers([c]) == [c];
    assert NormMembers([b, c]) == [b, c];
  }

  lemma DepthOfThree(a: Member, b: Member, c: Member)
    requires Depth(a.value) == Depth(b.value) == Depth(c.value) == 1
    ensures MembersDepth([a, b, c]) == 1
  {
    hide Depth;
    assert [a, b, c][1..] == [b, c] && [b, c][1..] == [c] && [c][1..] == [];
    assert MembersDepth([c]) == 1;
    assert MembersDepth([b, c]) == 1;
  }

  lemma LeafFacts(c: Candidate)
    requires Portable(c)
    ensures PrintableMember(Member(CANDIDATE, Str(c.sdp)))
        && PrintableMember(Member(SDP_MLINE_INDEX, Int(c.mlineIndex)))
            && PrintableMember(Member(SDP_MID, Str(c.mid)))
    ensures Norm(Str(c.sdp)) == Str(c.sdp) && Norm(Int(c.mlineIndex)) == Int(c.mlineIndex)
        && Norm(Str(c.mid)) == Str(c.mid)
    ensures Depth(Str(c.sdp)) == Depth(Int(c.mlineIndex)) == Depth(Str(c.mid)) == 1
  {
    hide WellFormedUtf8;
    AsciiIsWellFormed(CANDIDATE);
    AsciiIsWellFormed(SDP_MID);
    AsciiIsWellFormed(SDP_MLINE_INDEX);
  }

  lemma PrintableObject(a: Member, b: Member, c: Member)
    requires PrintableMember(a) && PrintableMember(b) && PrintableMember(c)
    requires NameLess(a.name, b.name) && NameLess(a.name, c.name) && NameLess(b.name, c.name)
    requires InMapOrder(a.value) && InMapOrder(b.value) && InMapOrder(c.value)
    ensures Printable(Object([a, b, c])) && InMapOrder(Object([a, b, c]))
  {
    hide NameLess, PrintableMember;
  }

  lemma MapOrderIsOrdered(members: seq<Member>)
    requires InMapOrder(Object(members))
    ensures Ordered(members)
  {
  }

  lemma CandidatePrintable(c: Candidate)
    requires Portable(c)
    ensures Printable(CandidateValue(c)) && InMapOrder(CandidateValue(c))
        && Norm(CandidateValue(c)) == CandidateValue(c)
        && Retagged(CandidateValue(c)) == CandidateValue(c) && Depth(CandidateValue(c)) == 2
  {
    hide CandidateValue, NameLess, Printable, PrintableMember, Portable, NormMembers, MembersDepth;
    CandidateMembers(c);
    LeafFacts(c);
    var x, y, z := Member(CANDIDATE, Str(c.sdp)), Member(SDP_MLINE_INDEX, Int(c.mlineIndex)),
      Member(SDP_MID, Str(c.mid));
    PrintableObject(x, y, z);
    NormOfThree(x, y, z);
    MapOrderIsOrdered([x, y, z]);
    OrderedIsBound([x, y, z]);
    MapOrderIsKept(CandidateValue(c));
    DepthOfThree(x, y, z);
  }

  lemma CandidateExtracted(c: Candidate)
    requires Portable(c)
    ensures forall showDouble :: CandidateOf(CandidateValue(c), showDouble) == Some(c)
  {
    hide CandidateValue, FindMember;
    CandidateMembers(c);
    FindInThree(Str(c.sdp), Int(c.mlineIndex), Str(c.mid));
  }

  lemma FindInThree(sdp: Value, index: Value, mid: Value)
    ensures var members := [Member(CANDIDATE, sdp), Member(SDP_MLINE_INDEX, index), Member(SDP_MID, mid)];
            && FindMember(members, CANDIDATE) == Some(sdp)
            && FindMember(members, SDP_MLINE_INDEX) == Some(index)
            && FindMember(members, SDP_MID) == Some(mid)
  {
    var x, y, z := Member(CANDIDATE, sdp), Member(SDP_MLINE_INDEX, index), Member(SDP_MID, mid);
    assert [x, y, z][1..] == [y, z] && [y, z][1..] == [z];
    assert |CANDIDATE| == 9 && |SDP_MLINE_INDEX| == 13 && |SDP_MID| == 6;
    assert FindMember([z], SDP_MID) == Some(mid);
    assert FindMember([y, z], SDP_MID) == Some(mid);
    assert FindMember([y, z], SDP_MLINE_INDEX) == Some(index);
  }

  /** One candidate printed and parsed is the candidate. */
  lemma {:induction false} CandidateRoundTrip(c: Candidate, scanDouble: bytes -> Option<Double>,
        showDouble: Double -> bytes)
    requires Portable(c)
    ensures ParsePiece(PrintCandidate(c, showDouble), scanDouble, showDouble) == Read(c)
  {
    var style := JsonWriting.NewStreamWriter(JsonWriting.DEFAULT_SETTINGS, showDouble);
    var text := PrintCandidate(c, showDouble);
    var inp := G.Input(text, G.DEFAULT_FEATURES, scanDouble, showDouble);
    CandidatePrintable(c);
    JsonWriting.BuilderIsLayoutable(JsonWriting.DEFAULT_SETTINGS, showDouble);
    hide G.ParseDocument, Printable, Norm, Depth, CandidateValue, CandidateOf, JsonWriting.StyledDocument,
      JsonWriting.Layoutable;
    JsonWriting.StyledRoundTrip(style, CandidateValue(c), inp, G.NULL_NODE);
    CandidateExtracted(c);
  }

  /** The printed candidate ends in its closing brace. */
  lemma PrintedIsSolid(c: Candidate, showDouble: Double -> bytes)
    ensures Solid(PrintCandidate(c, showDouble))
  {
    CandidateMembers(c);
    var style := JsonWriting.NewStreamWriter(JsonWriting.DEFAULT_SETTINGS, showDouble);
    JsonStyled.StyledObject(style, CandidateValue(c), 0, true);
  }

  // ---------------------------------------------------------------- the batch

  function Printed(cs: seq<Candidate>, showDouble: Double -> bytes): (r: seq<bytes>)
    ensures |r| == |cs|
  {
    if cs == [] then [] else [PrintCandidate(cs[0], showDouble)] + Printed(cs[1..], showDouble)
  }

  lemma PrintedAt(cs: seq<Candidate>, showDouble: Double -> bytes, k: nat)
    requires k < |cs|
    ensures Printed(cs, showDouble)[k] == PrintCandidate(cs[k], showDouble)
  {
    hide PrintCandidate;
    if k > 0 {
      PrintedAt(cs[1..], showDouble, k - 1);
    }
  }

  /** What `m_iceCandidateMsg` holds after the candidates were gathered. */
  function IceMessage(cs: seq<Candidate>, showDouble: Double -> bytes): bytes {
    if cs == [] then [] else ICE + ARROW + Join(Printed(cs, showDouble))
  }

  function ParsePieces(pieces: seq<bytes>, scanDouble: bytes -> Option<Double>,
        showDouble: Double -> bytes): (r: seq<Piece>)
    ensures |r| == |pieces|
    ensures forall k :: 0 <= k < |r| ==> r[k] == ParsePiece(pieces[k], scanDouble, showDouble)
  {
    if pieces == [] then []
    else [ParsePiece(pieces[0], scanDouble, showDouble)] + ParsePieces(pieces[1..], scanDouble, showDouble)
  }

  function Reads(cs: seq<Candidate>): (r: seq<Piece>)
    ensures |r| == |cs|
  {
    if cs == [] then [] else [Read(cs[0])] + Reads(cs[1..])
  }

  lemma {:induction false} ParsesPrinted(cs: seq<Candidate>, scanDouble: bytes -> Option<Double>,
        showDouble: Double -> bytes)
    requires forall k :: 0 <= k < |cs| ==> Portable(cs[k])
    ensures ParsePieces(Printed(cs, showDouble), scanDouble, showDouble) == Reads(cs)
  {
    hide ParsePiece, PrintCandidate, Portable;
    if cs != [] {
      CandidateRoundTrip(cs[0], scanDouble, showDouble);
      ParsesPrinted(cs[1..], scanDouble, showDouble);
    }
  }

  /** The whole batch arrives, candidate by candidate and in order, if and only if no
      printed candidate holds the separator. */
  lemma {:induction false} BatchRoundTrip(cs: seq<Candidate>, scanDouble: bytes -> Option<Double>,
        showDouble: Double -> bytes)
    requires cs != [] && (forall k :: 0 <= k < |cs| ==> Portable(cs[k]))
    requires |Join(Printed(cs, showDouble))| <= MAX_SIZE
    ensures var texts := Printed(cs, showDouble);
            ParsePieces(Pieces(Join(texts), 0), scanDouble, showDouble) == Reads(cs)
            <==> forall k :: 0 <= k < |texts| ==> !Contains(texts[k], SEPARATOR)
  {
    hide ParsePiece, PrintCandidate, Portable, Pieces, Contains, Join;
    var texts := Printed(cs, showDouble);
    forall k | 0 <= k < |texts| ensures Solid(texts[k]) {
      PrintedAt(cs, showDouble, k);
      PrintedIsSolid(cs[k], showDouble);
    }
    SplitJoinExact(texts);
    ParsesPrinted(cs, scanDouble, showDouble);
  }

  lemma {:induction false} JoinAppend(texts: seq<bytes>, text: bytes)
    requires texts != []
    ensures Join(texts + [text]) == Join(texts) + SEPARATOR + text
  {
    if |texts| == 1 {
      assert (texts + [text])[1..] == [text];
    } else {
      assert (texts + [text])[1..] == texts[1..] + [text];
      JoinAppend(texts[1..], text);
      assert texts[0] + SEPARATOR + (Join(texts[1..]) + SEPARATOR + text)
        == texts[0] + SEPARATOR + Join(texts[1..]) + SEPARATOR + text;
    }
  }

  lemma {:induction false} PrintedAppend(cs: seq<Candidate>, c: Candidate, showDouble: Double -> bytes)
    ensures Printed(cs + [c], showDouble) == Printed(cs, showDouble) + [PrintCandidate(c, showDouble)]
  {
    hide PrintCandidate;
    if cs == [] {
      assert cs + [c] == [c];
    } else {
      assert (cs + [c])[1..] == cs[1..] + [c];
      PrintedAppend(cs[1..], c, showDouble);
    }
  }

  /** Appending one more candidate to the message. */
  lemma {:induction false} IceMessageGrows(cs: seq<Candidate>, c: Candidate, showDouble: Double -> bytes)
    ensures var json := PrintCandidate(c, showDouble);
            IceMessage(cs + [c], showDouble) ==
            if cs == [] then ICE + ARROW + json else IceMessage(cs, showDouble) + (SEPARATOR + json)
  {
    hide PrintCandidate;
    var json := PrintCandidate(c, showDouble);
    PrintedAppend(cs, c, showDouble);
    if cs == [] {
      assert Printed(cs + [c], showDouble) == [json];
    } else {
      JoinAppend(Printed(cs, showDouble), json);
      assert ICE + ARROW + (Join(Printed(cs, showDouble)) + SEPARATOR + json)
          == ICE + ARROW + Join(Printed(cs, showDouble)) + (SEPARATOR + json);
    }
  }
}
