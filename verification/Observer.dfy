/**
 The observer of one peer connection: it gathers local ICE candidates into one
 message, queues outgoing messages, and takes incoming messages apart.  An ICE
 message that comes before the peer connection exists waits in a buffer.
 */
module Signalling {
  import opened Optional
  import opened Bytes
  import opened JsonValue
  import opened JsonMembers
  import opened IceBatch
  import IceSeparator
  import JsonWriting
  import G = JsonGrammar

  const TYPE: bytes := [116, 121, 112, 101]
  const SDP_NAME: bytes := [115, 100, 112]

  /** What the WebRTC library makes of a session description. */
  datatype Reaction = Refused | NoFactory | NoConnection | Created

  /** `peer` is `None` while there is no peer connection, and otherwise lists the
      pieces handed to it, read or unreadable. */
  datatype State = State(
    peer: Option<seq<Piece>>, iceCandidateMsg: bytes, remoteIceCandidateMsg: bytes, queue: seq<bytes>)

  /** A handler's new state, and whether it ended by an exception. */
  datatype Turn = Turn(state: State, threw: bool)

  datatype Doubles = Doubles(scan: bytes -> Option<Double>, show: Double -> bytes)

  // ---------------------------------------------------------------- what the handlers do

  function DescriptionMessage(kind: bytes, sdp: bytes, d: Doubles): bytes {
    var value := Object(SetMember(SetMember([], TYPE, Str(kind)), SDP_NAME, Str(sdp)));
    SDP + ARROW + JsonWriting.StyledDocument(JsonWriting.NewStreamWriter(JsonWriting.DEFAULT_SETTINGS, d.show), value)
  }

  /** The command is all of the message when it holds no arrow. */
  function Command(message: bytes): bytes {
    var pos := Find(message, ARROW, 0);
    if pos == NPOS then message else Substr(message, 0, pos)
  }

  /** Without an arrow, npos + 2 wraps around to 1; `substr` throws past the end. */
  function Payload(message: bytes): Option<bytes> {
    var pos := Find(message, ARROW, 0);
    if pos == NPOS then (if message == [] then None else Some(message[1..])) else Some(message[pos + 2..])
  }

  function Parsed(text: bytes, d: Doubles): G.Outcome {
    G.ParseDocument(G.Input(text, G.DEFAULT_FEATURES, d.scan, d.show), G.NULL_NODE)
  }

  predicate Readable(text: bytes, d: Doubles) {
    var o := Parsed(text, d);
    o.Finished? && o.ok
  }

  /** Whether `jmessage["type"].asString()` and `jmessage["sdp"].asString()` both return. */
  predicate Describes(v: Value, d: Doubles) {
    && (v.Null? || v.Object?)
    && var members := if v.Object? then v.members else [];
       AsString(MemberOf(members, TYPE), d.show).Some? && AsString(MemberOf(members, SDP_NAME), d.show).Some?
  }

  /** A description throws when it nests too deep, or is read but is no object with
      convertible members. */
  predicate DescriptionThrows(text: bytes, d: Doubles) {
    Parsed(text, d).Threw? || (Parsed(text, d).ok && !Describes(G.ValueOf(Parsed(text, d).root), d))
  }

  function Candidates(payload: bytes, d: Doubles): seq<Piece>
    requires |payload| <= MAX_SIZE
  {
    ParsePieces(Pieces(payload, 0), d.scan, d.show)
  }

  /** The pieces handed over before the first exception. */
  function HandedOver(pieces: seq<Piece>): seq<Piece> {
    if pieces == [] || pieces[0].Throws? then [] else [pieces[0]] + HandedOver(pieces[1..])
  }

  /** Handing the pieces of a payload to the peer connection. */
  function AfterPieces(s: State, payload: bytes, d: Doubles): Turn
    requires s.peer.Some? && |payload| <= MAX_SIZE
  {
    var pieces := Candidates(payload, d);
    Turn(s.(peer := Some(s.peer.value + HandedOver(pieces))), Throws in pieces)
  }

  /** `onSignalingMessage`. */
  function AfterMessage(s: State, message: bytes, reaction: Reaction, d: Doubles): Turn
    requires |message| <= MAX_SIZE
  {
    var payload := Payload(message);
    if payload.None? then Turn(s, true)
    else if Command(message) == SDP then
      if DescriptionThrows(payload.value, d) then Turn(s, true)
      else if !Readable(payload.value, d) then Turn(s, false)
      else match reaction
        case Refused => Turn(s, false)
        case NoFactory => Turn(s, false)
        case NoConnection => Turn(s.(peer := None), false)
        case Created => Turn(s.(peer := Some([])), false)
    else if Command(message) == ICE then
      if s.peer.None? then Turn(s.(remoteIceCandidateMsg := payload.value), false)
      else AfterPieces(s, payload.value, d)
    else Turn(s, false)
  }

  /** `OnSuccess`: the answer goes out and the buffered candidates come in. */
  function AfterSuccess(s: State, kind: bytes, sdp: bytes, d: Doubles): Turn
    requires s.peer.Some? && |s.remoteIceCandidateMsg| <= MAX_SIZE
  {
    var answered := s.(queue := s.queue + [DescriptionMessage(kind, sdp, d)]);
    if s.remoteIceCandidateMsg == [] then Turn(answered, false) else AfterPieces(answered, s.remoteIceCandidateMsg, d)
  }

  /** `OnIceCandidate` for each candidate in turn. */
  function AfterGathering(s: State, cs: seq<Candidate>, d: Doubles): State
    decreases |cs|
  {
    if cs == [] then s
    else
      var json := PrintCandidate(cs[|cs| - 1], d.show);
      var before := AfterGathering(s, cs[..|cs| - 1], d);
      before.(iceCandidateMsg :=
        if before.iceCandidateMsg == [] then ICE + ARROW + json else before.iceCandidateMsg + SEPARATOR + json)
  }

  class Observer {
    const doubles: Doubles
    var peer: Option<seq<Piece>>
    var iceCandidateMsg: bytes
    var remoteIceCandidateMsg: bytes
    var msgQueue: seq<bytes>
    /** The candidates gathered so far. */
    ghost var gathered: seq<Candidate>

    ghost predicate Valid()
      reads this
    {
      && iceCandidateMsg == IceMessage(gathered, doubles.show)
      && |remoteIceCandidateMsg| <= MAX_SIZE
    }

    ghost function Current(): State
      reads this
    {
      State(peer, iceCandidateMsg, remoteIceCandidateMsg, msgQueue)
    }

    constructor (d: Doubles)
      ensures Valid() && doubles == d && gathered == []
      ensures Current() == State(None, [], [], [])
    {
      doubles := d;
      peer := None;
      iceCandidateMsg, remoteIceCandidateMsg, msgQueue := [], [], [];
      gathered := [];
    }

    /** `serialized` tells whether the candidate turned itself into a string. */
    method OnIceCandidate(c: Candidate, serialized: bool)
      requires Valid()
      modifies this
      ensures Valid()
      ensures gathered == if serialized then old(gathered) + [c] else old(gathered)
      ensures Current() == old(Current()).(iceCandidateMsg := IceMessage(gathered, doubles.show))
    {
      hide PrintCandidate, IceMessage;
      if !serialized {
        return;
      }
      var jsonStr := PrintCandidate(c, doubles.show);
      IceMessageGrows(gathered, c, doubles.show);
      IceMessageEmpty(gathered, doubles.show);
      if iceCandidateMsg == [] {
        iceCandidateMsg := ICE + ARROW;
        iceCandidateMsg := iceCandidateMsg + jsonStr;
      } else {
        label begin:
        iceCandidateMsg := iceCandidateMsg + SEPARATOR;
        iceCandidateMsg := iceCandidateMsg + jsonStr;
        assert old@begin(iceCandidateMsg) + SEPARATOR + jsonStr == old@begin(iceCandidateMsg) + (SEPARATOR + jsonStr);
      }
      gathered := gathered + [c];
    }

    method OnIceGatheringChange(complete: bool)
      requires Valid()
      modifies this
      ensures Valid() && gathered == old(gathered)
      ensures Current() == old(Current()).(queue := old(msgQueue)
                + if complete then [IceMessage(gathered, doubles.show)] else [])
    {
      if complete {
        SendSignalingMessage(iceCandidateMsg);
      }
    }

    method SendSignalingMessage(message: bytes)
      modifies this`msgQueue
      ensures msgQueue == old(msgQueue) + [message]
    {
      msgQueue := msgQueue + [message];
    }

    method GetSignalingMessageCount() returns (count: nat)
      ensures count == |msgQueue|
    {
      count := |msgQueue|;
    }

    /** Fails on an empty queue; otherwise the oldest message leaves it. */
    method GetSignalingMessage() returns (message: Option<bytes>)
      modifies this`msgQueue
      ensures old(msgQueue) == (if message.Some? then [message.value] else []) + msgQueue
      ensures message.None? <==> old(msgQueue) == []
    {
      if |msgQueue| == 0 {
        return None;
      }
      message := Some(msgQueue[0]);
      msgQueue := msgQueue[1..];
    }

    /** `addIceCandidate` drops the text while there is no peer connection. */
    method AddIceCandidate(iceStr: bytes) returns (threw: bool)
      modifies this`peer
      ensures var piece := ParsePiece(iceStr, doubles.scan, doubles.show);
              && threw == (old(peer).Some? && piece.Throws?)
              && peer == if old(peer).None? then None
                         else if threw then old(peer) else Some(old(peer).value + [piece])
    {
      hide ParsePiece;
      if peer.None? {
        return false;
      }
      var piece := ParsePiece(iceStr, doubles.scan, doubles.show);
      if piece.Throws? {
        return true;
      }
      peer := Some(peer.value + [piece]);
      threw := false;
    }

    /** The find/substr loop of `onSignalingMessage` and of `OnSuccess`. */
    method AddPieces(payload: bytes) returns (threw: bool)
      requires peer.Some? && |payload| <= MAX_SIZE
      modifies this`peer
      ensures peer == Some(old(peer).value + HandedOver(Candidates(payload, doubles)))
      ensures threw == (Throws in Candidates(payload, doubles))
    {
      hide ParsePiece, Find, Pieces, Candidates, Substr;
      var startPos := 0;
      CandidatesFromStart(payload, doubles);
      threw := false;
      while true
        invariant startPos <= |payload| && !threw && peer.Some?
        invariant peer.value + HandedOver(CandidatesFrom(payload, startPos, doubles))
               == old(peer).value + HandedOver(Candidates(payload, doubles))
        invariant Throws in CandidatesFrom(payload, startPos, doubles) <==> Throws in Candidates(payload, doubles)
        decreases |payload| - startPos
      {
        var pos := Find(payload, SEPARATOR, startPos);
        ghost var before, rest := peer.value, CandidatesFrom(payload, startPos, doubles);
        CutStep(payload, startPos, doubles);
        HeadOfRest(before, rest);
        if pos != NPOS {
          var iceStr := Substr(payload, startPos, pos - startPos);
          startPos := startPos + (pos - startPos + 6);
          threw := AddIceCandidate(iceStr);
          if threw {
            break;
          }
        } else {
          var iceStr := Substr(payload, startPos, SizeSub(pos, |payload|));
          threw := AddIceCandidate(iceStr);
          break;
        }
      }
    }

    method OnSignalingMessage(message: bytes, reaction: Reaction) returns (threw: bool)
      requires Valid() && |message| <= MAX_SIZE
      modifies this
      ensures Valid() && gathered == old(gathered)
      ensures Turn(Current(), threw) == AfterMessage(old(Current()), message, reaction, doubles)
    {
      hide Candidates, IceMessage, Find, Command, Payload, Readable, DescriptionThrows;
      threw := false;
      Parts(message);
      var pos := Find(message, ARROW, 0);
      var cmd := Substr(message, 0, pos);
      var next := SizeAdd(pos, 2);
      if next > |message| {
        threw := true;
        return;
      }
      var payload := message[next..];
      if cmd == SDP {
        if DescriptionThrows(payload, doubles) {
          threw := true;
          return;
        }
        if !Readable(payload, doubles) {
          return;
        }
        match reaction {
          case Refused | NoFactory => return;
          case NoConnection => peer := None;
          case Created => peer := Some([]);
        }
      } else if cmd == ICE {
        if peer.None? {
          remoteIceCandidateMsg := payload;
          return;
        }
        threw := AddPieces(payload);
      }
    }

    method OnSuccess(kind: bytes, sdp: bytes) returns (threw: bool)
      requires Valid() && peer.Some?
      modifies this
      ensures Valid() && gathered == old(gathered)
      ensures Turn(Current(), threw) == AfterSuccess(old(Current()), kind, sdp, doubles)
    {
      hide Candidates, DescriptionMessage, IceMessage;
      SendSignalingMessage(DescriptionMessage(kind, sdp, doubles));
      threw := false;
      if remoteIceCandidateMsg != [] {
        threw := AddPieces(remoteIceCandidateMsg);
      }
    }
  }

  // ---------------------------------------------------------------- the steps of the loop

  lemma IceMessageEmpty(cs: seq<Candidate>, showDouble: Double -> bytes)
    ensures IceMessage(cs, showDouble) == [] <==> cs == []
  {
    hide Join, Printed;
  }

  /** `find`, `substr` and the wrapping sum yield the command and the payload. */
  lemma Parts(message: bytes)
    requires |message| <= MAX_SIZE
    ensures var pos := Find(message, ARROW, 0);
            var next := SizeAdd(pos, 2);
            && 0 <= pos
            && Command(message) == Substr(message, 0, pos)
            && Payload(message) == if next > |message| then None else Some(message[next..])
  {
    hide Find, Substr;
    ArrowInside(message);
    WholeMessage(message);
  }

  /** Up to npos a message is taken whole. */
  lemma WholeMessage(message: bytes)
    requires |message| <= MAX_SIZE
    ensures Substr(message, 0, NPOS) == message
  {
    assert message[0..] == message && message[..|message|] == message;
  }

  lemma ArrowInside(message: bytes)
    requires |message| <= MAX_SIZE
    ensures var pos := Find(message, ARROW, 0); pos == NPOS || 0 <= pos <= |message| - 2
  {
    hide Find;
  }

  lemma FoundInside(payload: bytes, startPos: nat)
    requires startPos <= |payload| <= MAX_SIZE && Find(payload, SEPARATOR, startPos) != NPOS
    ensures startPos <= Find(payload, SEPARATOR, startPos) <= |payload| - 6
  {
  }

  /** The pieces still to come, parsed. */
  function CandidatesFrom(payload: bytes, startPos: nat, d: Doubles): seq<Piece>
    requires startPos <= |payload| <= MAX_SIZE
  {
    ParsePieces(Pieces(payload, startPos), d.scan, d.show)
  }

  lemma CandidatesFromStart(payload: bytes, d: Doubles)
    requires |payload| <= MAX_SIZE
    ensures CandidatesFrom(payload, 0, d) == Candidates(payload, d)
  {
  }

  lemma CutStep(payload: bytes, startPos: nat, d: Doubles)
    requires startPos <= |payload| <= MAX_SIZE
    ensures var pos := Find(payload, SEPARATOR, startPos);
            if pos == NPOS then
              && Substr(payload, startPos, SizeSub(pos, |payload|)) == payload[startPos..]
              && CandidatesFrom(payload, startPos, d) == [ParsePiece(payload[startPos..], d.scan, d.show)]
            else
              && startPos <= pos <= |payload| - 6
              && Substr(payload, startPos, pos - startPos) == payload[startPos..pos]
              && CandidatesFrom(payload, startPos, d)
                 == [ParsePiece(payload[startPos..pos], d.scan, d.show)] + CandidatesFrom(payload, pos + 6, d)
  {
    hide ParsePiece, Find;
    var pos := Find(payload, SEPARATOR, startPos);
    if pos == NPOS {
      assert ParsePieces([], d.scan, d.show) == [];
      assert [payload[startPos..]][1..] == [];
    } else {
      FoundInside(payload, startPos);
      var rest := Pieces(payload, pos + 6);
      assert ([payload[startPos..pos]] + rest)[1..] == rest;
    }
  }

  /** Handing over a first piece. */
  lemma HeadOfRest(before: seq<Piece>, rest: seq<Piece>)
    requires rest != []
    ensures before + HandedOver(rest) == if rest[0].Throws? then before else before + [rest[0]] + HandedOver(rest[1..])
    ensures Throws in rest <==> rest[0].Throws? || Throws in rest[1..]
    ensures HandedOver([]) == []
  {
    assert rest == [rest[0]] + rest[1..];
    assert before + [] == before;
  }

  // ---------------------------------------------------------------- end to end

  /** A message "XXX->payload" is taken apart where it was put together. */
  lemma TakenApart(cmd: bytes, payload: bytes)
    requires cmd == ICE || cmd == SDP
    requires |payload| <= MAX_SIZE - 5
    ensures Command(cmd + ARROW + payload) == cmd
    ensures Payload(cmd + ARROW + payload) == Some(payload)
  {
    var m := cmd + ARROW + payload;
    assert m[3..5] == ARROW && m[..3] == cmd && m[5..] == payload;
    forall k | 0 <= k < 3 ensures !At(m, k, ARROW) {
      DiffersAt(m, k, ARROW, 0);
    }
    FindIs(m, ARROW, 0, 3);
  }

  /** Gathering any candidates into an empty message gives the batch message. */
  lemma {:induction false} GatheringBuildsBatch(s: State, cs: seq<Candidate>, d: Doubles)
    requires s.iceCandidateMsg == []
    ensures AfterGathering(s, cs, d) == s.(iceCandidateMsg := IceMessage(cs, d.show))
    decreases |cs|
  {
    hide PrintCandidate;
    if cs != [] {
      var front, c := cs[..|cs| - 1], cs[|cs| - 1];
      GatheringBuildsBatch(s, front, d);
      IceMessageEmpty(front, d.show);
      IceMessageGrows(front, c, d.show);
      assert front + [c] == cs;
      var json := PrintCandidate(c, d.show);
      assert IceMessage(front, d.show) + (SEPARATOR + json) == IceMessage(front, d.show) + SEPARATOR + json;
    }
  }

  predicate AllPortable(cs: seq<Candidate>) {
    forall k :: 0 <= k < |cs| ==> Portable(cs[k])
  }

  /** No string of the candidates holds the separator. */
  predicate Clean(cs: seq<Candidate>) {
    forall k :: 0 <= k < |cs| ==> !Contains(cs[k].sdp, SEPARATOR) && !Contains(cs[k].mid, SEPARATOR)
  }

  lemma CleanBatch(cs: seq<Candidate>, d: Doubles)
    requires cs != [] && AllPortable(cs) && |IceMessage(cs, d.show)| <= MAX_SIZE
    ensures Candidates(Join(Printed(cs, d.show)), d) == Reads(cs) <==> Clean(cs)
  {
    hide PrintCandidate, Portable, Contains, ParsePiece, Pieces, ParsePieces, Join;
    IceSeparator.BatchArrivesExactly(cs, d.scan, d.show);
  }

  /** Without an exception all pieces are handed over. */
  lemma {:induction false} AllHandedOver(pieces: seq<Piece>)
    ensures Throws !in pieces ==> HandedOver(pieces) == pieces
  {
    if pieces != [] {
      assert pieces == [pieces[0]] + pieces[1..];
      AllHandedOver(pieces[1..]);
    }
  }

  lemma {:induction false} ReadsDoNotThrow(cs: seq<Candidate>)
    ensures Throws !in Reads(cs)
  {
    if cs != [] {
      ReadsDoNotThrow(cs[1..]);
    }
  }

  /** All pieces are read and none throws just when the pieces are the candidates. */
  lemma HandedOverExactly(before: seq<Piece>, pieces: seq<Piece>, cs: seq<Candidate>)
    ensures before + HandedOver(pieces) == before + Reads(cs) && Throws !in pieces <==> pieces == Reads(cs)
  {
    hide Reads, HandedOver;
    AllHandedOver(pieces);
    ReadsDoNotThrow(cs);
    if before + HandedOver(pieces) == before + Reads(cs) {
      assert (before + HandedOver(pieces))[|before|..] == HandedOver(pieces);
      assert (before + Reads(cs))[|before|..] == Reads(cs);
    }
  }

  /** Candidates gathered by one observer reach the peer connection of another, all
      of them, in order and without an exception, if and only if none of their strings
      holds the separator. */
  lemma BatchArrives(sender: State, receiver: State, cs: seq<Candidate>, reaction: Reaction, d: Doubles)
    requires sender.iceCandidateMsg == [] && receiver.peer.Some?
    requires cs != [] && AllPortable(cs) && |IceMessage(cs, d.show)| <= MAX_SIZE
    ensures AfterGathering(sender, cs, d).iceCandidateMsg == IceMessage(cs, d.show)
    ensures AfterMessage(receiver, AfterGathering(sender, cs, d).iceCandidateMsg, reaction, d)
            == Turn(receiver.(peer := Some(receiver.peer.value + Reads(cs))), false)
            <==> Clean(cs)
  {
    hide PrintCandidate, Clean, Join, Candidates, Command, Payload, AfterGathering, HandedOver, Reads, AllPortable;
    GatheringBuildsBatch(sender, cs, d);
    TakenApart(ICE, Join(Printed(cs, d.show)));
    CleanBatch(cs, d);
    HandedOverExactly(receiver.peer.value, Candidates(Join(Printed(cs, d.show)), d), cs);
  }

  // ---------------------------------------------------------------- messages before the offer

  /** ICE messages that come while there is no peer connection. */
  function AfterEarly(s: State, payloads: seq<bytes>, d: Doubles): State
    requires forall k :: 0 <= k < |payloads| ==> |payloads[k]| <= MAX_SIZE - 5
    decreases |payloads|
  {
    if payloads == [] then s
    else AfterEarly(AfterMessage(s, ICE + ARROW + payloads[0], Refused, d).state, payloads[1..], d)
  }

  /** Of any number of early messages just the last one is kept. */
  lemma {:induction false} OnlyTheLastIsKept(s: State, payloads: seq<bytes>, d: Doubles)
    requires s.peer.None? && payloads != []
    requires forall k :: 0 <= k < |payloads| ==> |payloads[k]| <= MAX_SIZE - 5
    ensures AfterEarly(s, payloads, d) == s.(remoteIceCandidateMsg := payloads[|payloads| - 1])
    decreases |payloads|
  {
    hide Command, Payload;
    TakenApart(ICE, payloads[0]);
    var next := s.(remoteIceCandidateMsg := payloads[0]);
    assert AfterMessage(s, ICE + ARROW + payloads[0], Refused, d) == Turn(next, false);
    if |payloads| == 1 {
      assert AfterEarly(next, payloads[1..], d) == next;
    } else {
      OnlyTheLastIsKept(next, payloads[1..], d);
    }
  }

  /** The early messages before the last one leave no trace. */
  lemma EarlierBatchIsLost(s: State, before: seq<bytes>, last: bytes, d: Doubles)
    requires s.peer.None? && |last| <= MAX_SIZE - 5
    requires forall k :: 0 <= k < |before| ==> |before[k]| <= MAX_SIZE - 5
    ensures AfterEarly(s, before + [last], d) == AfterEarly(s, [last], d)
  {
    hide AfterEarly;
    OnlyTheLastIsKept(s, before + [last], d);
    OnlyTheLastIsKept(s, [last], d);
  }

  /** After any early messages, an accepted offer and its answer, the new connection has
      exactly the pieces of the last message up to its first exception, and nothing
      of the messages before it. */
  lemma LastEarlyMessageCounts(s: State, payloads: seq<bytes>, offer: bytes, kind: bytes, sdp: bytes, d: Doubles)
    requires s.peer.None? && payloads != []
    requires forall k :: 0 <= k < |payloads| ==> |payloads[k]| <= MAX_SIZE - 5
    requires |offer| <= MAX_SIZE - 5 && Readable(offer, d) && !DescriptionThrows(offer, d)
    ensures var last := payloads[|payloads| - 1];
            var t := AfterMessage(AfterEarly(s, payloads, d), SDP + ARROW + offer, Created, d);
            && !t.threw && t.state.peer == Some([]) && t.state.remoteIceCandidateMsg == last
            && var end := AfterSuccess(t.state, kind, sdp, d);
               && end.state.peer == Some(if last == [] then [] else HandedOver(Candidates(last, d)))
               && end.threw == (last != [] && Throws in Candidates(last, d))
  {
    hide Candidates, Command, Payload, Readable, DescriptionThrows, DescriptionMessage, HandedOver, AfterEarly;
    var last := payloads[|payloads| - 1];
    OnlyTheLastIsKept(s, payloads, d);
    TakenApart(SDP, offer);
    assert [] + HandedOver(Candidates(last, d)) == HandedOver(Candidates(last, d));
  }

  /** After the early messages, the offer and its answer the new connection has just these
      candidates, and nothing threw. */
  predicate EarlyArrives(s: State, payloads: seq<bytes>, offer: bytes, kind: bytes, sdp: bytes, cs: seq<Candidate>,
        d: Doubles)
    requires |offer| <= MAX_SIZE - 5 && forall k :: 0 <= k < |payloads| ==> |payloads[k]| <= MAX_SIZE - 5
  {
    var t := AfterMessage(AfterEarly(s, payloads, d), SDP + ARROW + offer, Created, d);
    && !t.threw && t.state.peer.Some? && |t.state.remoteIceCandidateMsg| <= MAX_SIZE
    && AfterSuccess(t.state, kind, sdp, d).state.peer == Some(Reads(cs))
    && !AfterSuccess(t.state, kind, sdp, d).threw
  }

  /** A batch of candidates among the early messages is in the connection afterwards, whole
      and in order, if and only if it came last and none of its strings holds the separator. */
  lemma EarlyBatchArrives(s: State, before: seq<bytes>, cs: seq<Candidate>, offer: bytes, kind: bytes, sdp: bytes,
        d: Doubles)
    requires s.peer.None? && cs != [] && AllPortable(cs) && |Join(Printed(cs, d.show))| <= MAX_SIZE - 5
    requires forall k :: 0 <= k < |before| ==> |before[k]| <= MAX_SIZE - 5
    requires |offer| <= MAX_SIZE - 5 && Readable(offer, d) && !DescriptionThrows(offer, d)
    ensures EarlyArrives(s, before + [Join(Printed(cs, d.show))], offer, kind, sdp, cs, d) <==> Clean(cs)
  {
    hide PrintCandidate, Clean, Join, Candidates, AfterMessage, AfterEarly, AfterSuccess, Readable, DescriptionThrows;
    hide HandedOver, Reads, AllPortable;
    var batch := Join(Printed(cs, d.show));
    LastEarlyMessageCounts(s, before + [batch], offer, kind, sdp, d);
    SomeText(cs, d);
    CleanBatch(cs, d);
    HandedOverExactly([], Candidates(batch, d), cs);
    assert [] + HandedOver(Candidates(batch, d)) == HandedOver(Candidates(batch, d)) && [] + Reads(cs) == Reads(cs);
  }

  lemma JoinStarts(texts: seq<bytes>)
    requires texts != []
    ensures |Join(texts)| >= |texts[0]|
  {
  }

  lemma SomeText(cs: seq<Candidate>, d: Doubles)
    requires cs != []
    ensures Join(Printed(cs, d.show)) != []
  {
    hide PrintCandidate;
    PrintedIsSolid(cs[0], d.show);
    var texts := Printed(cs, d.show);
    assert texts[0] == PrintCandidate(cs[0], d.show);
    JoinStarts(texts);
  }
}
