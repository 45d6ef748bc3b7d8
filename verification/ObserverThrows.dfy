/**
 When the handlers of the observer end by an exception: exactly, for any message, and in
 terms of the message alone where its texts are shallow or spell values.
 */
module SignallingThrows {
  import opened Optional
  import opened Bytes
  import opened JsonValue
  import opened IceBatch
  import opened Signalling
  import JsonComments
  import JsonDepth
  import JsonLayout
  import JsonRoundTrip
  import G = JsonGrammar

  /** A piece throws just when the reader does, or when what it reads is neither null nor
      an object with convertible members. */
  lemma PieceThrows(text: bytes, d: Doubles)
    ensures ParsePiece(text, d.scan, d.show) == Throws <==>
            || Parsed(text, d).Threw?
            || (Parsed(text, d).ok && CandidateOf(G.ValueOf(Parsed(text, d).root), d.show) == None)
  {
    hide G.ParseDocument, CandidateOf;
  }

  /** Some piece the loop cuts from the payload throws. */
  predicate SomePieceThrows(payload: bytes, d: Doubles)
    requires |payload| <= MAX_SIZE
  {
    exists k :: 0 <= k < |Pieces(payload, 0)| && ParsePiece(Pieces(payload, 0)[k], d.scan, d.show) == Throws
  }

  /** The handler ends by an exception exactly on the empty message, on a description
      that throws, and on an ICE message with a piece that throws while there is a peer
      connection. */
  lemma ThrowsExactly(s: State, message: bytes, reaction: Reaction, d: Doubles)
    requires |message| <= MAX_SIZE
    ensures Payload(message).Some? ==> |Payload(message).value| <= MAX_SIZE
    ensures AfterMessage(s, message, reaction, d).threw <==>
            || message == []
            || (Command(message) == SDP && Payload(message).Some? && DescriptionThrows(Payload(message).value, d))
            || (Command(message) == ICE && s.peer.Some? && Payload(message).Some?
              && SomePieceThrows(Payload(message).value, d))
  {
    hide Command, Payload, Candidates, SomePieceThrows, DescriptionThrows, Readable;
    PayloadIsMissing(message);
    assert SDP[0] != ICE[0];
    if Payload(message).Some? {
      CandidatesThrow(Payload(message).value, d);
    }
  }

  lemma PayloadIsMissing(message: bytes)
    requires |message| <= MAX_SIZE
    ensures Payload(message).None? <==> message == []
    ensures Payload(message).Some? ==> |Payload(message).value| <= |message|
  {
    hide Find;
    ArrowInside(message);
  }

  lemma CandidatesThrow(payload: bytes, d: Doubles)
    requires |payload| <= MAX_SIZE
    ensures Throws in Candidates(payload, d) <==> SomePieceThrows(payload, d)
  {
    hide ParsePiece, Pieces;
    var pieces, ps := Pieces(payload, 0), Candidates(payload, d);
    if Throws in ps {
      var k :| 0 <= k < |ps| && ps[k] == Throws;
      assert ParsePiece(pieces[k], d.scan, d.show) == Throws;
    }
    if k :| 0 <= k < |pieces| && ParsePiece(pieces[k], d.scan, d.show) == Throws {
      assert ps[k] == Throws;
    }
  }

  /** Fewer brackets and braces than the reader's stack may hold nodes, no quote that opens a
      comment, and no room for an oversized key or string: what a caller can see of a text
      that does not make the reader throw. */
  predicate Shallow(text: bytes) {
    JsonDepth.Opens(text, 0) < 1000 && |text| < G.MAX_KEY && JsonDepth.NoQuotedComment(text)
  }

  /** The reader does not throw on shallow texts. */
  lemma ShallowIsParsed(text: bytes, d: Doubles)
    requires Shallow(text)
    ensures !Parsed(text, d).Threw?
  {
    hide G.ParseDocument, JsonDepth.Opens;
    JsonDepth.ShallowTextsDoNotThrow(G.Input(text, G.DEFAULT_FEATURES, d.scan, d.show), G.NULL_NODE);
  }

  /** Every part of a shallow text is shallow. */
  lemma PartIsShallow(text: bytes, from: nat, end: nat)
    requires Shallow(text) && from <= end <= |text|
    ensures Shallow(text[from..end])
  {
    hide JsonDepth.Opens;
    JsonDepth.OpensOfPart(text, from, end, from);
    JsonDepth.OpensLater(text, 0, from);
    var part := text[from..end];
    forall k | 0 <= k < |part| - 1 && part[k] == 39 ensures part[k + 1] != SLASH && part[k + 1] != STAR {
      assert text[from + k] == 39 && part[k + 1] == text[from + k + 1];
    }
  }

  /** The text is read, but its root is neither null nor an object with convertible members. */
  predicate ReadsNoDescription(text: bytes, d: Doubles) {
    Readable(text, d) && !Describes(G.ValueOf(Parsed(text, d).root), d)
  }

  predicate ReadsNoCandidate(text: bytes, d: Doubles) {
    Readable(text, d) && CandidateOf(G.ValueOf(Parsed(text, d).root), d.show) == None
  }

  predicate SomePieceReadsNone(payload: bytes, d: Doubles)
    requires |payload| <= MAX_SIZE
  {
    exists k :: 0 <= k < |Pieces(payload, 0)| && ReadsNoCandidate(Pieces(payload, 0)[k], d)
  }

  /** On a shallow message the handler throws only over what was read: the empty message
      aside, just when a root is of the wrong kind or holds members of the wrong kinds. */
  lemma ShallowThrowsExactly(s: State, message: bytes, reaction: Reaction, d: Doubles)
    requires Shallow(message)
    ensures |message| <= MAX_SIZE && (Payload(message).Some? ==> |Payload(message).value| <= MAX_SIZE)
    ensures AfterMessage(s, message, reaction, d).threw <==>
            || message == []
            || (Command(message) == SDP && Payload(message).Some? && ReadsNoDescription(Payload(message).value, d))
            || (Command(message) == ICE && s.peer.Some? && Payload(message).Some?
              && SomePieceReadsNone(Payload(message).value, d))
  {
    hide AfterMessage, Command, Payload, Shallow, SomePieceThrows, SomePieceReadsNone, Parsed, Describes;
    ShallowIsShort(message);
    ThrowsExactly(s, message, reaction, d);
    if Payload(message).Some? {
      PayloadIsPart(message);
      ShallowIsParsed(Payload(message).value, d);
      ShallowPieces(Payload(message).value, d);
    }
  }

  lemma ShallowIsShort(text: bytes)
    requires Shallow(text)
    ensures |text| <= MAX_SIZE
  {
  }

  lemma PayloadIsPart(message: bytes)
    requires Shallow(message) && Payload(message).Some?
    ensures Shallow(Payload(message).value)
  {
    hide Find, Shallow;
    ShallowIsShort(message);
    ArrowInside(message);
    var from := |message| - |Payload(message).value|;
    PartIsShallow(message, from, |message|);
    assert message[from..|message|] == Payload(message).value;
  }

  lemma ShallowPieces(payload: bytes, d: Doubles)
    requires Shallow(payload) && |payload| <= MAX_SIZE
    ensures SomePieceThrows(payload, d) <==> SomePieceReadsNone(payload, d)
  {
    hide Shallow, Pieces, ParsePiece, Parsed, CandidateOf;
    var pieces := Pieces(payload, 0);
    PiecesAreShallow(payload, 0);
    forall k | 0 <= k < |pieces|
      ensures ParsePiece(pieces[k], d.scan, d.show) == Throws <==> ReadsNoCandidate(pieces[k], d)
    {
      ShallowIsParsed(pieces[k], d);
      PieceThrows(pieces[k], d);
      FinishedOrThrew(pieces[k], d);
    }
  }

  lemma FinishedOrThrew(text: bytes, d: Doubles)
    requires !Parsed(text, d).Threw?
    ensures Readable(text, d) <==> Parsed(text, d).ok
  {
    hide Parsed;
  }

  lemma {:induction false} PiecesAreShallow(payload: bytes, startPos: nat)
    requires Shallow(payload) && startPos <= |payload| <= MAX_SIZE
    ensures forall k :: 0 <= k < |Pieces(payload, startPos)| ==> Shallow(Pieces(payload, startPos)[k])
    decreases |payload| - startPos
  {
    hide Shallow, Find;
    var pos := Find(payload, SEPARATOR, startPos);
    if pos == NPOS {
      PartIsShallow(payload, startPos, |payload|);
      assert payload[startPos..|payload|] == payload[startPos..];
    } else {
      FoundInside(payload, startPos);
      PartIsShallow(payload, startPos, pos);
      PiecesAreShallow(payload, pos + 6);
    }
  }

  /** A description that spells a value throws exactly when the value nests too deep or is
      neither null nor an object with convertible members. */
  lemma DescriptionOfValue(text: bytes, v: Value, d: Doubles)
    requires JsonLayout.Printable(v) && JsonLayout.Lays(text, JsonLayout.Tokens(v))
    ensures DescriptionThrows(text, d) <==> JsonLayout.Depth(v) > 1000 || !Describes(JsonLayout.Norm(v), d)
    ensures !DescriptionThrows(text, d) ==> Readable(text, d)
  {
    hide G.ParseDocument, JsonLayout.Norm, JsonLayout.Depth, JsonLayout.Printable, JsonLayout.Lays,
      JsonLayout.Tokens, Describes;
    JsonRoundTrip.LayoutRoundTrip(G.Input(text, G.DEFAULT_FEATURES, d.scan, d.show), v, G.NULL_NODE);
  }

  /** "ICE->3" throws once there is a peer connection; "SDP->[]" throws always. */
  lemma BareValuesThrow(s: State, reaction: Reaction, d: Doubles)
    ensures s.peer.Some? ==> AfterMessage(s, ICE + ARROW + [51], reaction, d).threw
    ensures AfterMessage(s, SDP + ARROW + [LBRACKET, RBRACKET], reaction, d) == Turn(s, true)
  {
    hide ParsePiece, G.ParseDocument, Find, Command, Payload, AfterPieces;
    TakenApart(ICE, [51]);
    TakenApart(SDP, [LBRACKET, RBRACKET]);
    EmptyArrayIsRead(d);
    if s.peer.Some? {
      BareNumberPiece(s, d);
    }
  }

  /** So does an empty object behind a comment that a quote opens. */
  lemma QuotedCommentsThrow(s: State, reaction: Reaction, d: Doubles)
    ensures s.peer.Some? ==> AfterMessage(s, ICE + ARROW + JsonComments.QUOTED_COMMENT, reaction, d).threw
    ensures AfterMessage(s, SDP + ARROW + JsonComments.QUOTED_COMMENT, reaction, d) == Turn(s, true)
  {
    hide ParsePiece, G.ParseDocument, Find, Command, Payload, AfterPieces;
    TakenApart(ICE, JsonComments.QUOTED_COMMENT);
    TakenApart(SDP, JsonComments.QUOTED_COMMENT);
    JsonComments.QuotedCommentThrows(
      G.Input(JsonComments.QUOTED_COMMENT, G.DEFAULT_FEATURES, d.scan, d.show), G.NULL_NODE);
    if s.peer.Some? {
      QuotedCommentPiece(s, d);
    }
  }

  lemma QuotedCommentPiece(s: State, d: Doubles)
    requires s.peer.Some?
    ensures AfterPieces(s, JsonComments.QUOTED_COMMENT, d).threw
  {
    hide ParsePiece, Find, G.ParseDocument;
    var text := JsonComments.QUOTED_COMMENT;
    forall k | 0 <= k <= |text| ensures !At(text, k, SEPARATOR) {
      if k == 0 {
        assert text[0..6][0] != SEPARATOR[0];
      }
    }
    FindNone(text, SEPARATOR, 0);
    assert text[0..] == text && Pieces(text, 0) == [text];
    JsonComments.QuotedCommentThrows(G.Input(text, G.DEFAULT_FEATURES, d.scan, d.show), G.NULL_NODE);
    PieceThrows(text, d);
    assert Candidates(text, d)[0] == Throws;
  }

  lemma BareNumberPiece(s: State, d: Doubles)
    requires s.peer.Some?
    ensures AfterPieces(s, [51], d).threw
  {
    hide ParsePiece, Find;
    forall k | 0 <= k <= 1 ensures !At([51], k, SEPARATOR) {
    }
    FindNone([51], SEPARATOR, 0);
    var pieces := Pieces([51], 0);
    assert pieces == [[51][0..]] && [51][0..] == [51];
    BareNumberThrows(d.scan, d.show);
    assert Candidates([51], d)[0] == Throws;
  }

  lemma EmptyArrayIsRead(d: Doubles)
    ensures var o := Parsed([LBRACKET, RBRACKET], d); o.Finished? && o.ok && G.ValueOf(o.root) == Array([])
  {
    hide G.ParseDocument;
    var v := Array([]);
    assert JsonLayout.Tokens(v) == [[LBRACKET]] + [[RBRACKET]];
    JsonLayout.TokenLays([LBRACKET]);
    JsonLayout.TokenLays([RBRACKET]);
    JsonLayout.LaysConcat([LBRACKET], [[LBRACKET]], [RBRACKET], [[RBRACKET]]);
    assert [LBRACKET] + [RBRACKET] == [LBRACKET, RBRACKET];
    JsonRoundTrip.LayoutRoundTrip(G.Input([LBRACKET, RBRACKET], G.DEFAULT_FEATURES, d.scan, d.show), v, G.NULL_NODE);
  }
}
