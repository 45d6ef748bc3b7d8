/**
 Descriptions between the peers: the answer the observer sends, byte by byte, what the
 other peer reads in it, and descriptions and candidates whose members come in any order.
 */
module SignallingAnswers {
  import opened Optional
  import opened Bytes
  import opened JsonText
  import opened JsonNumber
  import opened JsonValue
  import opened JsonMembers
  import opened JsonLayout
  import opened JsonStyled
  import opened IceBatch
  import opened Signalling
  import opened SignallingThrows
  import JsonRoundTrip
  import JsonWriter
  import JsonWriting
  import G = JsonGrammar

  // ---------------------------------------------------------------- the text of an answer

  function DefaultStyle(d: Doubles): Style {
    JsonWriting.NewStreamWriter(JsonWriting.DEFAULT_SETTINGS, d.show)
  }

  /** The object `OnSuccess` fills in: the sdp stands before the type. */
  lemma DescriptionMembers(kind: bytes, sdp: bytes)
    ensures SetMember(SetMember([], TYPE, Str(kind)), SDP_NAME, Str(sdp))
         == [Member(SDP_NAME, Str(sdp)), Member(TYPE, Str(kind))]
    ensures NameLess(SDP_NAME, TYPE)
  {
    assert SetMember([], TYPE, Str(kind)) == [Member(TYPE, Str(kind))];
  }

  /** One member of a default document: a line, a tab, the name and the value. */
  lemma MemberText(d: Doubles, name: bytes, t: bytes)
    ensures StyledMember(DefaultStyle(d), Member(name, Str(t)), 1) == [10, 9] + Quoted(name) + [32, 58, 32] + Quoted(t)
  {
    hide Quoted;
    assert Repeat([TAB], 1) == Repeat([TAB], 0) + [TAB];
    assert NewLine(DefaultStyle(d), 1) == [10, 9];
    assert Styled(DefaultStyle(d), Str(t), 1, false) == Quoted(t);
  }

  lemma NameTexts()
    ensures Quoted(SDP_NAME) == [34, 115, 100, 112, 34] && Quoted(TYPE) == [34, 116, 121, 112, 101, 34]
  {
    hide EscapeText;
    PlainText(SDP_NAME);
    PlainText(TYPE);
  }

  /** Letters are printed as they are. */
  lemma {:induction false} PlainText(t: bytes)
    requires forall k :: 0 <= k < |t| ==> 97 <= t[k] <= 122
    ensures EscapeText(t) == t
  {
    if t != [] {
      PlainHead(t);
      PlainText(t[1..]);
      assert [t[0]] + t[1..] == t;
    }
  }

  lemma PlainHead(t: bytes)
    requires t != [] && 97 <= t[0] <= 122
    ensures EscapeHead(t) == Escaped([t[0]], 1)
  {
  }

  /** The document of two string members. */
  function TwoLines(a: bytes, b: bytes): bytes {
    [123, 10, 9, 34, 115, 100, 112, 34, 32, 58, 32] + Quoted(a)
    + [44, 10, 9, 34, 116, 121, 112, 101, 34, 32, 58, 32] + Quoted(b) + [10, 125]
  }

  /** The message is "SDP->", the sdp and the kind, each on a line of its own. */
  lemma AnswerText(kind: bytes, sdp: bytes, d: Doubles)
    ensures DescriptionMessage(kind, sdp, d) == [83, 68, 80, 45, 62] + TwoLines(sdp, kind)
  {
    hide Quoted, StyledMember, SetMember;
    var a, b := Member(SDP_NAME, Str(sdp)), Member(TYPE, Str(kind));
    DescriptionMembers(kind, sdp);
    NameTexts();
    MemberText(d, SDP_NAME, sdp);
    MemberText(d, TYPE, kind);
    TwoMembersText(DefaultStyle(d), a, b);
    assert NewLine(DefaultStyle(d), 0) == [10];
    PutTogether(Quoted(sdp), Quoted(kind));
  }

  lemma TwoMembersText(s: Style, a: Member, b: Member)
    ensures Styled(s, Object([a, b]), 0, true)
         == [123] + (StyledMember(s, a, 1) + ([44] + StyledMember(s, b, 1))) + NewLine(s, 0) + [125]
  {
    hide StyledMember, NewLine;
    assert [a, b][1..] == [b] && [b][1..] == [];
    assert StyledMoreMembers(s, [], 1) == [];
    assert StyledMoreMembers(s, [b], 1) == [44] + StyledMember(s, b, 1);
  }

  lemma PutTogether(a: bytes, b: bytes)
    ensures [123] + (([10, 9] + [34, 115, 100, 112, 34] + [32, 58, 32] + a)
                     + ([44] + ([10, 9] + [34, 116, 121, 112, 101, 34] + [32, 58, 32] + b))) + [10] + [125]
         == [123, 10, 9, 34, 115, 100, 112, 34, 32, 58, 32] + a
            + [44, 10, 9, 34, 116, 121, 112, 101, 34, 32, 58, 32] + b + [10, 125]
  {
  }

  // ---------------------------------------------------------------- the text of a candidate

  /** The document of a candidate. */
  function CandidateLines(c: Candidate): bytes {
    [123] + ([10, 9] + Quoted([99, 97, 110, 100, 105, 100, 97, 116, 101]) + [32, 58, 32] + Quoted(c.sdp))
    + ([44, 10, 9] + Quoted([115, 100, 112, 77, 76, 105, 110, 101, 73, 110, 100, 101, 120]) + [32, 58, 32]
       + IntText(c.mlineIndex))
    + ([44, 10, 9] + Quoted([115, 100, 112, 77, 105, 100]) + [32, 58, 32] + Quoted(c.mid)) + [10, 125]
  }

  /** A candidate is printed with its text, its index and its mid under these names. */
  lemma CandidateText(c: Candidate, d: Doubles)
    ensures PrintCandidate(c, d.show) == CandidateLines(c)
  {
    hide Quoted, StyledMember, CandidateValue;
    CandidateMembers(c);
    var x, y, z := Member(CANDIDATE, Str(c.sdp)), Member(SDP_MLINE_INDEX, Int(c.mlineIndex)),
      Member(SDP_MID, Str(c.mid));
    MemberText(d, CANDIDATE, c.sdp);
    MemberText(d, SDP_MID, c.mid);
    NumberMemberText(d, SDP_MLINE_INDEX, c.mlineIndex);
    ThreeMembersText(DefaultStyle(d), x, y, z);
    assert NewLine(DefaultStyle(d), 0) == [10];
    hide IntText, NewLine;
    PutThree([10, 9] + Quoted(CANDIDATE) + [32, 58, 32] + Quoted(c.sdp), Quoted(SDP_MLINE_INDEX), IntText(c.mlineIndex),
             Quoted(SDP_MID), Quoted(c.mid));
  }

  lemma NumberMemberText(d: Doubles, name: bytes, i: int)
    ensures StyledMember(DefaultStyle(d), Member(name, Int(i)), 1) == [10, 9] + Quoted(name) + [32, 58, 32] + IntText(i)
  {
    hide Quoted;
    assert Repeat([TAB], 1) == Repeat([TAB], 0) + [TAB];
    assert NewLine(DefaultStyle(d), 1) == [10, 9];
    assert Styled(DefaultStyle(d), Int(i), 1, false) == IntText(i);
  }

  lemma ThreeMembersText(s: Style, a: Member, b: Member, c: Member)
    ensures Styled(s, Object([a, b, c]), 0, true)
         == [123] + (StyledMember(s, a, 1) + ([44] + StyledMember(s, b, 1) + ([44] + StyledMember(s, c, 1))))
            + NewLine(s, 0) + [125]
  {
    hide StyledMember, NewLine;
    assert [a, b, c][1..] == [b, c] && [b, c][1..] == [c] && [c][1..] == [];
    assert StyledMoreMembers(s, [], 1) == [];
    assert StyledMoreMembers(s, [c], 1) == [44] + StyledMember(s, c, 1);
    assert StyledMoreMembers(s, [b, c], 1) == [44] + StyledMember(s, b, 1) + ([44] + StyledMember(s, c, 1));
  }

  lemma PutThree(a: bytes, n: bytes, i: bytes, m: bytes, t: bytes)
    ensures [123] + (a + ([44] + ([10, 9] + n + [32, 58, 32] + i) + ([44] + ([10, 9] + m + [32, 58, 32] + t)))) + [10]
            + [125]
         == [123] + a + ([44, 10, 9] + n + [32, 58, 32] + i) + ([44, 10, 9] + m + [32, 58, 32] + t) + [10, 125]
  {
  }

  /** Two candidates travel as "ICE->", the one, six hashes and the other. */
  lemma BatchText(a: Candidate, b: Candidate, d: Doubles)
    ensures IceMessage([a], d.show) == [73, 67, 69, 45, 62] + CandidateLines(a)
    ensures IceMessage([a, b], d.show)
         == [73, 67, 69, 45, 62] + (CandidateLines(a) + [35, 35, 35, 35, 35, 35] + CandidateLines(b))
  {
    hide PrintCandidate, CandidateLines;
    CandidateText(a, d);
    CandidateText(b, d);
    assert [a, b][1..] == [b] && [b][1..] == [] && [a][1..] == [];
    assert Printed([b], d.show) == [PrintCandidate(b, d.show)];
    assert Printed([a], d.show) == [PrintCandidate(a, d.show)];
    assert Printed([a, b], d.show) == [PrintCandidate(a, d.show), PrintCandidate(b, d.show)];
    assert IceBatch.Join([CandidateLines(a), CandidateLines(b)][1..]) == CandidateLines(b);
  }

  // ---------------------------------------------------------------- what the other peer reads

  /** A string grows at most twelvefold when it is printed. */
  lemma {:induction false} QuotedLength(s: bytes)
    ensures |EscapeText(s)| <= 12 * |s|
    decreases |s|
  {
    hide EscapeHead;
    if s != [] {
      HeadLength(s);
      QuotedLength(s[EscapeHead(s).used..]);
    }
  }

  lemma HeadLength(s: bytes)
    requires s != []
    ensures |EscapeHead(s).text| <= 12 && EscapeHead(s).used >= 1
  {
  }

  /** A description that both peers can hold: well-formed text, not too long for a value. */
  predicate Sayable(t: bytes) {
    WellFormedUtf8(t) && |t| <= G.MAX_STRING
  }

  /** The text reads as an object with just this type and this sdp. */
  predicate ReadsAs(text: bytes, kind: bytes, sdp: bytes, d: Doubles) {
    && Readable(text, d) && Parsed(text, d).errors == []
    && var v := G.ValueOf(Parsed(text, d).root);
       && v.Object? && |v.members| == 2
       && MemberOf(v.members, [116, 121, 112, 101]) == Str(kind) && MemberOf(v.members, [115, 100, 112]) == Str(sdp)
  }

  /** The answer arrives: one message is queued, it is a description, and the reader of
      the other peer gets the type and the sdp it was made of. */
  lemma AnswerArrives(s: State, kind: bytes, sdp: bytes, d: Doubles)
    requires s.peer.Some? && |s.remoteIceCandidateMsg| <= MAX_SIZE && Sayable(kind) && Sayable(sdp)
    ensures var queue := AfterSuccess(s, kind, sdp, d).state.queue;
            && |queue| == |s.queue| + 1 && queue[..|s.queue|] == s.queue
            && var message := queue[|s.queue|];
               && |message| <= MAX_SIZE && Command(message) == SDP && Payload(message).Some?
               && !Parsed(Payload(message).value, d).Threw? && !DescriptionThrows(Payload(message).value, d)
               && ReadsAs(Payload(message).value, kind, sdp, d)
  {
    hide Command, Payload, DescriptionMessage, TwoLines, Sayable, Parsed, DescriptionThrows, AfterSuccess, ReadsAs;
    OneMessage(s, kind, sdp, d);
    AnswerText(kind, sdp, d);
    TwoLinesLength(kind, sdp);
    assert [83, 68, 80, 45, 62] == SDP + ARROW;
    TakenApart(SDP, TwoLines(sdp, kind));
    AnswerIsRead(kind, sdp, d);
  }

  lemma OneMessage(s: State, kind: bytes, sdp: bytes, d: Doubles)
    requires s.peer.Some? && |s.remoteIceCandidateMsg| <= MAX_SIZE
    ensures AfterSuccess(s, kind, sdp, d).state.queue == s.queue + [DescriptionMessage(kind, sdp, d)]
  {
    hide DescriptionMessage, Candidates, HandedOver;
  }

  lemma TwoLinesLength(kind: bytes, sdp: bytes)
    requires Sayable(kind) && Sayable(sdp)
    ensures |TwoLines(sdp, kind)| <= MAX_SIZE - 5
  {
    hide EscapeText, WellFormedUtf8;
    QuotedLength(kind);
    QuotedLength(sdp);
  }

  lemma AnswerIsRead(kind: bytes, sdp: bytes, d: Doubles)
    requires Sayable(kind) && Sayable(sdp)
    ensures var text := TwoLines(sdp, kind);
            !Parsed(text, d).Threw? && !DescriptionThrows(text, d) && ReadsAs(text, kind, sdp, d)
  {
    var v := Object([Member(SDP_NAME, Str(sdp)), Member(TYPE, Str(kind))]);
    DescriptionPrintable(kind, sdp);
    AnswerText(kind, sdp, d);
    DescriptionMembers(kind, sdp);
    AnswerDocument(kind, sdp, d);
    JsonWriting.BuilderIsLayoutable(JsonWriting.DEFAULT_SETTINGS, d.show);
    hide G.ParseDocument, Printable, InMapOrder, Retagged, Depth, JsonWriting.StyledDocument, JsonWriting.Layoutable,
      TwoLines, Sayable;
    var inp := G.Input(TwoLines(sdp, kind), G.DEFAULT_FEATURES, d.scan, d.show);
    JsonWriting.StyledRoundTrip(DefaultStyle(d), v, inp, G.NULL_NODE);
    TwoFound(kind, sdp);
  }

  lemma AnswerDocument(kind: bytes, sdp: bytes, d: Doubles)
    ensures JsonWriting.StyledDocument(DefaultStyle(d), Object([Member(SDP_NAME, Str(sdp)), Member(TYPE, Str(kind))]))
         == TwoLines(sdp, kind)
  {
    hide JsonWriting.StyledDocument, TwoLines;
    AnswerText(kind, sdp, d);
    DescriptionMembers(kind, sdp);
    var text := JsonWriting.StyledDocument(DefaultStyle(d), Object([Member(SDP_NAME, Str(sdp)),
                                                                    Member(TYPE, Str(kind))]));
    assert (SDP + ARROW + text)[5..] == text;
    assert ([83, 68, 80, 45, 62] + TwoLines(sdp, kind))[5..] == TwoLines(sdp, kind);
  }

  lemma DescriptionPrintable(kind: bytes, sdp: bytes)
    requires Sayable(kind) && Sayable(sdp)
    ensures var v := Object([Member(SDP_NAME, Str(sdp)), Member(TYPE, Str(kind))]);
            && Printable(v) && InMapOrder(v) && Retagged(v) == v && Depth(v) == 2
  {
    hide NameLess, WellFormedUtf8, EscapeText;
    var a, b := Member(SDP_NAME, Str(sdp)), Member(TYPE, Str(kind));
    DescriptionMembers(kind, sdp);
    NamesAreText();
    assert [a, b][1..] == [b] && [b][1..] == [];
    assert PrintableMember(a) && PrintableMember(b);
    TwoStrings(a, b);
  }

  lemma TwoStrings(a: Member, b: Member)
    requires a.value.Str? && b.value.Str?
    ensures RetaggedMembers([a, b]) == [a, b] && MembersDepth([a, b]) == 1
  {
    assert [a, b][1..] == [b] && [b][1..] == [];
    assert Retagged(a.value) == a.value && Retagged(b.value) == b.value;
    assert RetaggedMembers([b]) == [Member(b.name, b.value)];
    assert Depth(a.value) == 1 && Depth(b.value) == 1;
    assert MembersDepth([b]) == 1;
  }

  lemma NamesAreText()
    ensures WellFormedUtf8(SDP_NAME) && WellFormedUtf8(TYPE)
  {
    AsciiIsWellFormed(SDP_NAME);
    AsciiIsWellFormed(TYPE);
  }

  lemma TwoFound(kind: bytes, sdp: bytes)
    ensures var members := [Member(SDP_NAME, Str(sdp)), Member(TYPE, Str(kind))];
            && MemberOf(members, [116, 121, 112, 101]) == Str(kind) && MemberOf(members, [115, 100, 112]) == Str(sdp)
            && forall d: Doubles :: Describes(Object(members), d)
  {
    var a, b := Member(SDP_NAME, Str(sdp)), Member(TYPE, Str(kind));
    assert [a, b][1..] == [b];
    assert FindMember([b], TYPE) == Some(Str(kind));
    assert |TYPE| != |SDP_NAME|;
  }

  // ---------------------------------------------------------------- what an offer leads to

  /** A readable description leads to what the library makes of it; only a peer connection
      that was made, or could not be, changes the state.  An unreadable one, or a message of
      any other command, changes nothing. */
  lemma OfferOutcomes(s: State, offer: bytes, d: Doubles)
    requires |offer| <= MAX_SIZE - 5 && !DescriptionThrows(offer, d)
    ensures var message := [83, 68, 80, 45, 62] + offer;
            && AfterMessage(s, message, Refused, d) == Turn(s, false) == AfterMessage(s, message, NoFactory, d)
            && AfterMessage(s, message, NoConnection, d)
               == Turn(if Readable(offer, d) then s.(peer := None) else s, false)
            && AfterMessage(s, message, Created, d)
               == Turn(if Readable(offer, d) then s.(peer := Some([])) else s, false)
  {
    hide Command, Payload, Parsed, DescriptionThrows, Readable;
    TakenApart(SDP, offer);
    assert [83, 68, 80, 45, 62] == SDP + ARROW;
  }

  lemma OthersAreIgnored(s: State, message: bytes, reaction: Reaction, d: Doubles)
    requires 0 < |message| <= MAX_SIZE && Command(message) !in {[83, 68, 80], [73, 67, 69]}
    ensures AfterMessage(s, message, reaction, d) == Turn(s, false)
  {
    hide Command, Payload;
    PayloadIsMissing(message);
  }

  // ---------------------------------------------------------------- members in any order

  /** A member of the value read is the last one of that name in the text. */
  lemma MemberRead(members: seq<Member>, name: bytes)
    ensures Norm(Object(members)).Object?
    ensures FindMember(Norm(Object(members)).members, name) == FindLast(NormMembers(members), name)
  {
    hide NormMembers;
    BindAllIsMap(NormMembers(members));
  }

  /** Norm leaves strings and signed numbers as they are. */
  predicate Plain(v: Value) {
    v.Str? || v.Int?
  }

  lemma {:induction false} PlainMembers(members: seq<Member>)
    requires forall k :: 0 <= k < |members| ==> Plain(members[k].value)
    ensures NormMembers(members) == members
  {
    if members != [] {
      PlainMembers(members[1..]);
      assert [members[0]] + members[1..] == members;
    }
  }

  lemma {:induction false} FlatDepth(members: seq<Member>)
    requires forall k :: 0 <= k < |members| ==> Plain(members[k].value)
    ensures MembersDepth(members) <= 1
  {
    if members != [] {
      FlatDepth(members[1..]);
    }
  }

  /** A description whose members come in the order a browser writes, or in any other and
      among others: what counts is the last type and the last sdp. */
  lemma DescriptionInAnyOrder(text: bytes, members: seq<Member>, i: nat, j: nat, kind: bytes, sdp: bytes, d: Doubles)
    requires Printable(Object(members)) && Lays(text, Tokens(Object(members)))
    requires forall k :: 0 <= k < |members| ==> Plain(members[k].value)
    requires i < |members| && members[i] == Member(TYPE, Str(kind))
    requires forall k :: i < k < |members| ==> members[k].name != TYPE
    requires j < |members| && members[j] == Member(SDP_NAME, Str(sdp))
    requires forall k :: j < k < |members| ==> members[k].name != SDP_NAME
    ensures Readable(text, d) && !DescriptionThrows(text, d)
    ensures var v := G.ValueOf(Parsed(text, d).root);
            v.Object? && MemberOf(v.members, TYPE) == Str(kind) && MemberOf(v.members, SDP_NAME) == Str(sdp)
  {
    hide G.ParseDocument, Printable, Lays, Tokens, FindMember, NormMembers, BindAll;
    PlainMembers(members);
    FlatDepth(members);
    MemberRead(members, TYPE);
    MemberRead(members, SDP_NAME);
    LastIs(members, i);
    LastIs(members, j);
    DescriptionOfValue(text, Object(members), d);
    JsonRoundTrip.LayoutRoundTrip(G.Input(text, G.DEFAULT_FEATURES, d.scan, d.show), Object(members), G.NULL_NODE);
  }

  lemma {:induction false} LastIs(members: seq<Member>, k: nat)
    requires k < |members| && forall j :: k < j < |members| ==> members[j].name != members[k].name
    ensures FindLast(members, members[k].name) == Some(members[k].value)
    decreases |members|
  {
    if k < |members| - 1 {
      LastIs(members[..|members| - 1], k);
    }
  }

  /** "null" and "{}" are read too, as a candidate of nothing and a description of nothing. */
  lemma NothingIsRead(d: Doubles)
    ensures ParsePiece([110, 117, 108, 108], d.scan, d.show) == Read(Candidate([], 0, []))
    ensures ParsePiece([123, 125], d.scan, d.show) == Read(Candidate([], 0, []))
    ensures !DescriptionThrows([110, 117, 108, 108], d) && Readable([110, 117, 108, 108], d)
    ensures !DescriptionThrows([123, 125], d) && Readable([123, 125], d)
  {
    EmptyTexts();
    hide ParsePiece, DescriptionThrows, Readable, Lays, Tokens;
    PieceOfValue([110, 117, 108, 108], Null, d.scan, d.show);
    PieceOfValue([123, 125], Object([]), d.scan, d.show);
    DescriptionOfValue([110, 117, 108, 108], Null, d);
    DescriptionOfValue([123, 125], Object([]), d);
    assert BindAll([], []) == [];
  }

  lemma EmptyTexts()
    ensures Printable(Null) && Lays([110, 117, 108, 108], Tokens(Null))
    ensures Printable(Object([])) && Lays([123, 125], Tokens(Object([])))
    ensures Norm(Object([])) == Object([]) && Depth(Object([])) == 1
  {
    TokenLays([110, 117, 108, 108]);
    TokenLays([123]);
    TokenLays([125]);
    LaysConcat([123], [[123]], [125], [[125]]);
    assert [123] + [125] == [123, 125];
    assert Tokens(Object([])) == [[123]] + [[125]];
    assert BindAll([], []) == [];
  }

  /** The description as a browser writes it: the type before the sdp, no white space. */
  function BrowserText(kind: bytes, sdp: bytes): bytes {
    [123] + (Quoted(TYPE) + [58] + Quoted(kind) + ([44] + (Quoted(SDP_NAME) + [58] + Quoted(sdp)))) + [125]
  }

  lemma BrowserDescription(kind: bytes, sdp: bytes, d: Doubles)
    requires Sayable(kind) && Sayable(sdp)
    ensures var text := BrowserText(kind, sdp);
            && Readable(text, d) && !DescriptionThrows(text, d)
            && var v := G.ValueOf(Parsed(text, d).root);
               v.Object? && MemberOf(v.members, TYPE) == Str(kind) && MemberOf(v.members, SDP_NAME) == Str(sdp)
  {
    var members := [Member(TYPE, Str(kind)), Member(SDP_NAME, Str(sdp))];
    hide Quoted, EscapeText, WellFormedUtf8;
    BrowserLays(kind, sdp, d);
    assert |TYPE| != |SDP_NAME|;
    hide Sayable, Printable, Lays, Tokens, Readable, DescriptionThrows, BrowserText, Parsed;
    DescriptionInAnyOrder(BrowserText(kind, sdp), members, 0, 1, kind, sdp, d);
  }

  lemma BrowserLays(kind: bytes, sdp: bytes, d: Doubles)
    requires Sayable(kind) && Sayable(sdp)
    ensures var v := Object([Member(TYPE, Str(kind)), Member(SDP_NAME, Str(sdp))]);
            Printable(v) && Lays(BrowserText(kind, sdp), Tokens(v))
  {
    var a, b := Member(TYPE, Str(kind)), Member(SDP_NAME, Str(sdp));
    var o := JsonWriter.FastOptions(false, false, true, d.show);
    PairPrintable(kind, sdp);
    FastPair(o, a, b);
    hide Printable, Lays, Tokens, BrowserText;
    JsonWriting.FastDocumentLays(o, Object([a, b]));
  }

  lemma PairPrintable(kind: bytes, sdp: bytes)
    requires Sayable(kind) && Sayable(sdp)
    ensures Printable(Object([Member(TYPE, Str(kind)), Member(SDP_NAME, Str(sdp))]))
  {
    hide WellFormedUtf8;
    NamesAreText();
    assert PrintableMember(Member(TYPE, Str(kind))) && PrintableMember(Member(SDP_NAME, Str(sdp)));
  }

  lemma FastPair(o: JsonWriter.FastOptions, a: Member, b: Member)
    requires !o.yamlCompatibility && o.omitEndingLineFeed && a.value.Str? && b.value.Str?
    ensures JsonWriting.FastDocument(o, Object([a, b]))
         == [123] + (Quoted(a.name) + [58] + Quoted(a.value.s) + ([44] + (Quoted(b.name) + [58] + Quoted(b.value.s))))
            + [125]
  {
    hide Quoted;
    assert [a, b][1..] == [b] && [b][1..] == [];
    assert JsonWriter.FastMoreMembers(o, []) == [];
    var y := JsonWriter.FastMember(o, b);
    assert JsonWriter.FastMoreMembers(o, [b]) == [44] + y + [] == [44] + y;
    assert JsonWriter.FastMembers(o, [a, b]) == JsonWriter.FastMember(o, a) + ([44] + y);
    assert JsonWriter.FastText(o, a.value) == Quoted(a.value.s) && JsonWriter.FastText(o, b.value) == Quoted(b.value.s);
    assert JsonWriter.FastColon(o) == [58];
    assert y == Quoted(b.name) + [58] + Quoted(b.value.s);
    assert JsonWriter.FastMember(o, a) == Quoted(a.name) + [58] + Quoted(a.value.s);
    var text := JsonWriter.FastText(o, Object([a, b]));
    assert text == [123] + JsonWriter.FastMembers(o, [a, b]) + [125];
    assert text + [] == text;
  }

  /** So for a candidate. */
  lemma CandidateInAnyOrder(text: bytes, members: seq<Member>, i: nat, j: nat, k: nat, c: Candidate, d: Doubles)
    requires Printable(Object(members)) && Lays(text, Tokens(Object(members))) && DistinctNames(members)
    requires forall n :: 0 <= n < |members| ==> Plain(members[n].value)
    requires i < |members| && members[i] == Member(CANDIDATE, Str(c.sdp))
    requires j < |members| && members[j] == Member(SDP_MLINE_INDEX, Int(c.mlineIndex)) && InInt(c.mlineIndex)
    requires k < |members| && members[k] == Member(SDP_MID, Str(c.mid))
    ensures ParsePiece(text, d.scan, d.show) == Read(c)
  {
    hide ParsePiece, Printable, Lays, Tokens, FindMember, NormMembers, BindAll;
    PlainMembers(members);
    FlatDepth(members);
    MemberRead(members, CANDIDATE);
    MemberRead(members, SDP_MLINE_INDEX);
    MemberRead(members, SDP_MID);
    DistinctAreBound(members, i);
    DistinctAreBound(members, j);
    DistinctAreBound(members, k);
    PieceOfValue(text, Object(members), d.scan, d.show);
  }
}
