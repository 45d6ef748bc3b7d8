/**
 What the accept loop makes of each request, from the socket it accepts to the next
 one, and what one sweep over the connections leaves.
 */
module SignallingReplies {
  import opened Bytes
  import opened Optional
  import opened SignallingServer
  import opened SignallingSafety
  import opened SignallingRuns

  // ---------------------------------------------------------------- one request

  /** The socket a request came over, after it was answered `replies` times and the
      accept loop has closed it if it still closes sockets. */
  function Answered(s: State, r: Request, replies: nat): seq<Socket> {
    s.sockets + [Socket(r, [], replies, if s.closeWait then 1 else 0)]
  }

  /** The state when a request has just been read. */
  function Arrived(s: State, r: Request): State {
    s.(sockets := s.sockets + [Socket(r, [], 0, 0)], accept := Serve(|s.sockets|))
  }

  const REQUEST: seq<Step> := [GO, GO]

  lemma Accepts(s: State, r: Request, rest: seq<Step>)
    requires Inv(s) && s.accept == Accepting
    ensures After(s, [Acceptor(Client(r))] + rest) == After(Arrived(s, r), rest) && Inv(Arrived(s, r))
  {
    ListedWhenSafe(s);
    StepKeeps(s, Acceptor(Client(r)));
    hide Inv, After;
    OneStep(s, Acceptor(Client(r)), rest, Arrived(s, r));
  }

  /** Served with `t` and then looked at for closing. */
  lemma ServedThen(s: State, r: Request, t: State)
    requires Inv(s) && s.accept == Accepting && !r.Unparsable? && Listed(s) && Serves(s, r, t)
    requires t.accept == CloseCheck(|s.sockets|) && |t.sockets| == |s.sockets| + 1
    ensures After(s, [Acceptor(Client(r))] + REQUEST)
         == Some(if t.closeWait then Deleted(t.(accept := Accepting), |s.sockets|) else t.(accept := Accepting))
    ensures Inv(t)
  {
    var s1 := Arrived(s, r);
    ListedWhenSafe(s);
    Accepts(s, r, REQUEST);
    StepKeeps(s1, GO);
    ListedWhenSafe(t);
    hide Inv, After, ServeStep, CanServe;
    assert REQUEST == [GO] + ([GO] + []);
    OneStep(s1, GO, [GO] + [], t);
    var u := if t.closeWait then Deleted(t.(accept := Accepting), |s.sockets|) else t.(accept := Accepting);
    OneStep(t, GO, [], u);
    Done(u);
  }

  lemma NoFault(s: State)
    requires Inv(s)
    ensures !s.fault && Listed(s)
  {
  }

  /** The last socket is closed when sockets are. */
  lemma ClosesLast(s: State, t: State, r: Request, replies: nat)
    requires t.sockets == s.sockets + [Socket(r, [], replies, 0)] && !t.fault && t.closeWait == s.closeWait
    ensures var u := if t.closeWait then Deleted(t.(accept := Accepting), |s.sockets|) else t.(accept := Accepting);
            u == t.(accept := Accepting, sockets := Answered(s, r, replies))
  {
  }

  /** The state when a request has been answered `replies` times. */
  function Replying(s: State, r: Request, replies: nat): State {
    s.(sockets := s.sockets + [Socket(r, [], replies, 0)], accept := CloseCheck(|s.sockets|))
  }

  predicate Serves(s: State, r: Request, t: State)
    requires Listed(s)
  {
    CanServe(Arrived(s, r), |s.sockets|) && ServeStep(Arrived(s, r), |s.sockets|) == t
  }

  /** A request is served with `t`, and then its socket is closed if sockets are. */
  lemma Exchange(s: State, r: Request, replies: nat, t: State)
    requires Inv(s) && s.accept == Accepting && !r.Unparsable? && Listed(s) && Serves(s, r, t)
    requires t.accept == CloseCheck(|s.sockets|) && t.sockets == s.sockets + [Socket(r, [], replies, 0)]
    requires t.closeWait == s.closeWait
    ensures After(s, [Acceptor(Client(r))] + REQUEST)
         == Some(t.(accept := Accepting, sockets := Answered(s, r, replies)))
  {
    hide After, Answered, Arrived;
    ServedThen(s, r, t);
    NoFault(t);
    hide Inv;
    ClosesLast(s, t, r, replies);
  }

  /** A request that cannot be parsed is not answered and its socket is closed. */
  lemma UnparsableIsClosed(s: State)
    requires Inv(s) && s.accept == Accepting
    ensures After(s, [Acceptor(Client(Unparsable)), GO])
         == Some(s.(sockets := s.sockets + [Socket(Unparsable, [], 0, 1)]))
  {
    var t := s.(sockets := s.sockets + [Socket(Unparsable, [], 0, 1)]);
    hide Inv, After;
    NoFault(s);
    Accepts(s, Unparsable, [GO] + []);
    DropsUnparsable(s);
    hide Apply, Enabled;
    assert [Acceptor(Client(Unparsable)), GO] == [Acceptor(Client(Unparsable))] + ([GO] + []);
    OneStep(Arrived(s, Unparsable), GO, [], t);
    Done(t);
  }

  lemma DropsUnparsable(s: State)
    requires Listed(s) && !s.fault && s.accept == Accepting
    ensures var s1 := Arrived(s, Unparsable);
            Enabled(s1, GO) && Apply(s1, GO) == s.(sockets := s.sockets + [Socket(Unparsable, [], 0, 1)])
  {
    var s1 := Arrived(s, Unparsable);
    assert s1.sockets[|s.sockets| := Socket(Unparsable, [], 0, 1)] == s.sockets + [Socket(Unparsable, [], 0, 1)];
  }

  lemma ServesPlain(s: State, r: Request)
    requires Listed(s) && !s.fault && (r.Page? || r.SignOut?)
    ensures Serves(s, r, Replying(s, r, if r.Page? then 1 else 0))
  {
    if r.Page? {
      ReplyGoesOut(s, r);
    }
  }

  lemma ReplyGoesOut(s: State, r: Request)
    ensures Arrived(s, r).sockets[|s.sockets| := Socket(r, [], 1, 0)] == s.sockets + [Socket(r, [], 1, 0)]
  {
  }

  /** A page is answered once; a sign-out is not answered at all. */
  lemma PageIsAnswered(s: State)
    requires Inv(s) && s.accept == Accepting
    ensures After(s, [Acceptor(Client(Page))] + REQUEST) == Some(s.(sockets := Answered(s, Page, 1)))
  {
    hide Inv, After, Serves, Answered;
    NoFault(s);
    ServesPlain(s, Page);
    Exchange(s, Page, 1, Replying(s, Page, 1));
  }

  lemma SignOutIsIgnored(s: State)
    requires Inv(s) && s.accept == Accepting
    ensures After(s, [Acceptor(Client(SignOut))] + REQUEST) == Some(s.(sockets := Answered(s, SignOut, 0)))
  {
    hide Inv, After, Serves, Answered;
    NoFault(s);
    ServesPlain(s, SignOut);
    Exchange(s, SignOut, 0, Replying(s, SignOut, 0));
  }

  /** The connection a sign-in makes. */
  function Fresh(s: State): Connection {
    Connection(s.peerId, Init, true, None, false, NotStarted, [], [], [], [], [], |s.routed|, None)
  }

  lemma ServesSignIn(s: State)
    requires Listed(s) && !s.fault
    ensures Serves(s, SignIn, Replying(s, SignIn, 1).(connections := s.connections + [Fresh(s)],
                              list := s.list + [|s.connections|], peerId := (s.peerId + 1) % 0x1_0000_0000))
  {
    ReplyGoesOut(s, SignIn);
  }

  /** A sign-in is answered and adds a fresh connection with the next id. */
  lemma SignInAddsPeer(s: State)
    requires Inv(s) && s.accept == Accepting
    ensures After(s, [Acceptor(Client(SignIn))] + REQUEST)
         == Some(s.(sockets := Answered(s, SignIn, 1), connections := s.connections + [Fresh(s)],
                    list := s.list + [|s.connections|], peerId := (s.peerId + 1) % 0x1_0000_0000))
  {
    hide Inv, After, Serves, Answered, Fresh;
    NoFault(s);
    ServesSignIn(s);
    Exchange(s, SignIn, 1, Replying(s, SignIn, 1).(connections := s.connections + [Fresh(s)],
                           list := s.list + [|s.connections|], peerId := (s.peerId + 1) % 0x1_0000_0000));
  }

  /** `i` is the listed connection with that id, as long as ids are not used again. */
  predicate Addressee(s: State, i: nat, id: nat) {
    && |s.connections| <= 0x1_0000_0000 && i < |s.connections|
    && s.connections[i].death.None? && s.connections[i].peerId == id
  }

  lemma AddresseeIsFound(s: State, i: nat, id: nat)
    requires Inv(s) && Addressee(s, i, id)
    ensures Listed(s) && FindPeer(s, 0, id) == Some(i)
  {
    FoundIsAddressed(s, i, id);
  }

  predicate NobodyHas(s: State, id: nat) {
    Listed(s) && forall j :: 0 <= j < |s.list| ==> s.connections[s.list[j]].peerId != id
  }

  /** A search in the same list of the same ids comes to the same connection. */
  lemma {:induction false} SameSearch(s: State, t: State, from: nat, id: nat)
    requires Listed(s) && t.list == s.list && t.connections == s.connections && from <= |s.list|
    ensures Listed(t) && FindPeer(t, from, id) == FindPeer(s, from, id)
    decreases |s.list| - from
  {
    if from < |s.list| {
      SameSearch(s, t, from + 1, id);
    }
  }

  lemma ServesMessage(s: State, i: nat, id: nat, text: bytes)
    requires Listed(s) && !s.fault && FindPeer(s, 0, id) == Some(i) && s.connections[i].death.None?
    ensures i < |s.connections|
    ensures Serves(s, Message(id, text), Replying(s, Message(id, text), 1).(routed := s.routed + [(id, text)],
                   connections := s.connections[i := Given(s.connections[i], text)]))
  {
    SameSearch(s, Arrived(s, Message(id, text)), 0, id);
    hide FindPeer;
    ReplyGoesOut(s, Message(id, text));
  }

  /** A message reaches the inbox of the connection it names and is answered. */
  lemma MessageIsPosted(s: State, i: nat, id: nat, text: bytes)
    requires Inv(s) && s.accept == Accepting && Addressee(s, i, id)
    ensures After(s, [Acceptor(Client(Message(id, text)))] + REQUEST)
         == Some(s.(sockets := Answered(s, Message(id, text), 1), routed := s.routed + [(id, text)],
                    connections := s.connections[i := Given(s.connections[i], text)]))
  {
    hide Inv, After, Serves, Answered, Given, FindPeer;
    NoFault(s);
    AddresseeIsFound(s, i, id);
    ServesMessage(s, i, id, text);
    Exchange(s, Message(id, text), 1, Replying(s, Message(id, text), 1).(routed := s.routed + [(id, text)],
                                      connections := s.connections[i := Given(s.connections[i], text)]));
  }

  lemma ServesNobody(s: State, id: nat, text: bytes)
    requires !s.fault && NobodyHas(s, id)
    ensures Listed(s)
    ensures Serves(s, Message(id, text), Replying(s, Message(id, text), 1).(routed := s.routed + [(id, text)]))
    ensures Serves(s, Wait(id), Replying(s, Wait(id), 0))
  {
    assert FindPeer(s, 0, id) == None;
    SameSearch(s, Arrived(s, Message(id, text)), 0, id);
    SameSearch(s, Arrived(s, Wait(id)), 0, id);
    hide FindPeer, NobodyHas;
    ReplyGoesOut(s, Message(id, text));
  }

  /** A message nobody is named by is answered all the same. */
  lemma MessageIsDropped(s: State, id: nat, text: bytes)
    requires Inv(s) && s.accept == Accepting && NobodyHas(s, id)
    ensures After(s, [Acceptor(Client(Message(id, text)))] + REQUEST)
         == Some(s.(sockets := Answered(s, Message(id, text), 1), routed := s.routed + [(id, text)]))
  {
    hide Inv, After, Serves, Answered, NobodyHas;
    NoFault(s);
    ServesNobody(s, id, text);
    Exchange(s, Message(id, text), 1, Replying(s, Message(id, text), 1).(routed := s.routed + [(id, text)]));
  }

  /** A wait for an id nobody has is never answered. */
  lemma WaitIsIgnored(s: State, id: nat)
    requires Inv(s) && s.accept == Accepting && NobodyHas(s, id)
    ensures After(s, [Acceptor(Client(Wait(id)))] + REQUEST) == Some(s.(sockets := Answered(s, Wait(id), 0)))
  {
    hide Inv, After, Serves, Answered, NobodyHas;
    NoFault(s);
    ServesNobody(s, id, []);
    Exchange(s, Wait(id), 0, Replying(s, Wait(id), 0));
  }

  /** The connection with socket `k` in its hands. */
  function Holder(c: Connection, k: nat): Connection {
    c.(clientSocket := Some(k))
  }

  lemma ServesWait(s: State, i: nat, id: nat)
    requires Listed(s) && !s.fault && FindPeer(s, 0, id) == Some(i) && s.connections[i].death.None?
    requires !s.connections[i].locked
    ensures i < |s.connections|
    ensures Serves(s, Wait(id), Replying(s, Wait(id), 0).(closeWait := false,
                   connections := s.connections[i := Holder(s.connections[i], |s.sockets|)]))
  {
    SameSearch(s, Arrived(s, Wait(id)), 0, id);
    hide FindPeer;
  }

  /** The socket of a wait goes to the connection it names, unanswered and open; from
      then on the accept loop closes nothing. */
  lemma WaitIsHeld(s: State, i: nat, id: nat)
    requires Inv(s) && s.accept == Accepting && Addressee(s, i, id) && !s.connections[i].locked
    ensures After(s, [Acceptor(Client(Wait(id)))] + REQUEST)
         == Some(s.(sockets := s.sockets + [Socket(Wait(id), [], 0, 0)], closeWait := false,
                    connections := s.connections[i := Holder(s.connections[i], |s.sockets|)]))
  {
    hide Inv, After, Serves, Answered, Holder, FindPeer, Arrived;
    NoFault(s);
    AddresseeIsFound(s, i, id);
    ServesWait(s, i, id);
    ServedThen(s, Wait(id), Replying(s, Wait(id), 0).(closeWait := false,
                            connections := s.connections[i := Holder(s.connections[i], |s.sockets|)]));
  }

  // ---------------------------------------------------------------- one sweep

  /** The listed connections that have not ended. */
  function Living(s: State, list: seq<nat>): seq<nat>
    requires forall j :: 0 <= j < |list| ==> list[j] < |s.connections|
  {
    if list == [] then []
    else (if s.connections[list[0]].state == End then [] else [list[0]]) + Living(s, list[1..])
  }

  /** A connection after the sweep over `list`. */
  function Swept(s: State, list: seq<nat>, i: nat): Connection
    requires i < |s.connections|
  {
    var c := s.connections[i];
    if i in list && c.state == End then c.(alive := false, death := Some(|s.routed|)) else c
  }

  /** From `s` in the middle of a sweep `t` has swept the rest. */
  predicate SweptTo(s: State, t: State, j: nat)
    requires Listed(s) && j <= |s.list|
  {
    && t == s.(accept := Accepting, list := s.list[..j] + Living(s, s.list[j..]), connections := t.connections)
    && |t.connections| == |s.connections|
    && forall i :: 0 <= i < |s.connections| ==> t.connections[i] == Swept(s, s.list[j..], i)
  }

  /** `n` steps of the accept loop with nobody at the door. */
  function Going(n: nat): seq<Step> {
    if n == 0 then [] else [GO] + Going(n - 1)
  }

  lemma Goes(s: State, t: State, n: nat)
    requires Inv(s) && CanAccept(s) && AcceptStep(s, Nobody) == t
    ensures After(s, Going(n + 1)) == After(t, Going(n)) && Inv(t)
  {
    StepKeeps(s, GO);
    hide Inv, After, CanAccept, AcceptStep;
    OneStep(s, GO, Going(n), t);
  }

  /** A sweep takes just the ended connections out of the list and deletes them; the
      others, and the order of the list, stay as they are. */
  lemma {:induction false} SweepsOut(s: State, j: nat) returns (n: nat)
    requires Inv(s) && s.accept == Sweep(j)
    ensures Listed(s) && j <= |s.list|
    ensures After(s, Going(n)).Some? && SweptTo(s, After(s, Going(n)).value, j)
    decreases |s.list| - j
  {
    hide Inv, After, SweptTo, Going;
    SweepFacts(s, j);
    if j == |s.list| {
      var t := s.(accept := Accepting);
      Goes(s, t, 0);
      NoMore(t);
      NothingSwept(s, j);
      n := 1;
    } else if s.connections[s.list[j]].state != End {
      var t := s.(accept := Sweep(j + 1));
      NextFacts(s, j);
      Goes(s, t, 0);
      var n1 := SweepsOut(t, j + 1);
      Goes(s, t, n1);
      KeptOne(s, t, After(t, Going(n1)).value, j);
      n := n1 + 1;
    } else {
      var i := s.list[j];
      var c := s.connections[i].(alive := false);
      var t := s.(connections := s.connections[i := c], accept := Join(j));
      var u := s.(connections := s.connections[i := c.(death := Some(|s.routed|))],
        list := s.list[..j] + s.list[j + 1..], accept := Sweep(j));
      NextFacts(s, j);
      Goes(s, t, 0);
      JoinFacts(s, t, u, j);
      Goes(t, u, 0);
      var n1 := SweepsOut(u, j);
      Goes(t, u, n1);
      Goes(s, t, n1 + 1);
      TookOne(s, u, After(u, Going(n1)).value, j);
      n := n1 + 2;
    }
  }

  lemma SweepFacts(s: State, j: nat)
    requires Inv(s) && s.accept == Sweep(j)
    ensures Listed(s) && j <= |s.list| && CanAccept(s) && !s.fault
    ensures forall a, b :: 0 <= a < b < |s.list| ==> s.list[a] != s.list[b]
    ensures j == |s.list| ==> AcceptStep(s, Nobody) == s.(accept := Accepting)
  {
  }

  lemma NoMore(t: State)
    ensures After(t, Going(0)) == Some(t)
  {
  }

  lemma NothingSwept(s: State, j: nat)
    requires Listed(s) && j == |s.list|
    ensures SweptTo(s, s.(accept := Accepting), j)
  {
    assert s.list[j..] == [] && s.list[..j] == s.list;
  }

  lemma NextFacts(s: State, j: nat)
    requires Inv(s) && s.accept == Sweep(j) && Listed(s) && j < |s.list|
    ensures var i := s.list[j];
            var c := s.connections[i];
            && CanAccept(s) && c.death.None? && !s.fault
            && (c.state == End <==> c.place == Returned)
            && AcceptStep(s, Nobody) == if c.state != End then s.(accept := Sweep(j + 1))
                 else s.(connections := s.connections[i := c.(alive := false)], accept := Join(j))
  {
    hide SocketsSane, HeldSane, SentSane, SentDistinct, AcceptSane, IdsSane, AllRouted, ExactlyOnce;
    assert Sane(s.connections[s.list[j]]);
  }

  lemma JoinFacts(s: State, t: State, u: State, j: nat)
    requires Listed(s) && j < |s.list| && !s.fault && s.connections[s.list[j]].death.None?
    requires s.connections[s.list[j]].place == Returned
    requires var i := s.list[j];
             var c := s.connections[i].(alive := false);
             && t == s.(connections := s.connections[i := c], accept := Join(j))
             && u == s.(connections := s.connections[i := c.(death := Some(|s.routed|))],
                        list := s.list[..j] + s.list[j + 1..], accept := Sweep(j))
    ensures CanAccept(t) && AcceptStep(t, Nobody) == u
  {
    var i := s.list[j];
    var c := s.connections[i].(alive := false);
    assert s.connections[i := c][i := c.(death := Some(|s.routed|))]
        == s.connections[i := c.(death := Some(|s.routed|))];
  }

  lemma KeptOne(s: State, t: State, v: State, j: nat)
    requires Listed(s) && j < |s.list| && s.connections[s.list[j]].state != End && t == s.(accept := Sweep(j + 1))
    requires SweptTo(t, v, j + 1)
    ensures SweptTo(s, v, j)
  {
    var i, rest := s.list[j], s.list[j + 1..];
    assert s.list[j..] == [i] + rest && s.list[j..][1..] == rest;
    SameLiving(s, t, rest);
    assert s.list[..j + 1] + Living(t, rest) == s.list[..j] + ([i] + Living(s, rest));
  }

  lemma {:induction false} SameLiving(s: State, t: State, list: seq<nat>)
    requires |t.connections| == |s.connections| && forall j :: 0 <= j < |list| ==> list[j] < |s.connections|
    requires forall j :: 0 <= j < |list| ==> t.connections[list[j]].state == s.connections[list[j]].state
    ensures Living(t, list) == Living(s, list)
  {
    if list != [] {
      assert forall j :: 0 <= j < |list[1..]| ==> list[1..][j] == list[j + 1];
      SameLiving(s, t, list[1..]);
    }
  }

  lemma TookOne(s: State, u: State, v: State, j: nat)
    requires Listed(s) && j < |s.list| && s.connections[s.list[j]].state == End
    requires forall a, b :: 0 <= a < b < |s.list| ==> s.list[a] != s.list[b]
    requires var i := s.list[j];
             var c := s.connections[i].(alive := false);
             u == s.(connections := s.connections[i := c.(death := Some(|s.routed|))],
                     list := s.list[..j] + s.list[j + 1..], accept := Sweep(j))
    requires Listed(u) && j <= |u.list| && SweptTo(u, v, j)
    ensures SweptTo(s, v, j)
  {
    var i, rest := s.list[j], s.list[j + 1..];
    ListBlocks(s.list, j);
    SameLiving(s, u, rest);
    assert Living(s, s.list[j..]) == Living(s, rest);
    hide Living;
    forall x | 0 <= x < |s.connections| ensures v.connections[x] == Swept(s, s.list[j..], x) {
      assert v.connections[x] == Swept(u, rest, x);
    }
  }

  lemma ListBlocks(list: seq<nat>, j: nat)
    requires j < |list| && forall a, b :: 0 <= a < b < |list| ==> list[a] != list[b]
    ensures var i, rest, less := list[j], list[j + 1..], list[..j] + list[j + 1..];
            && list[j..] == [i] + rest && list[j..][1..] == rest && less[j..] == rest && less[..j] == list[..j]
            && i !in rest
  {
  }
}
