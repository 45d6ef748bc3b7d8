/**
 What every interleaving of the signalling server keeps: messages go out exactly
 once, each socket carries one answer and is deleted once, workers never touch a
 deleted connection, and requests reach only the peer they name.
 */
module SignallingSafety {
  import opened Bytes
  import opened Optional
  import opened SignallingServer

  // ---------------------------------------------------------------- logs

  lemma TextsAppend(log: seq<(nat, bytes)>, e: (nat, bytes))
    ensures Texts(log + [e]) == Texts(log) + [e.1]
  {
    assert (log + [e])[..|log|] == log;
  }

  lemma AddressedAppend(log: seq<(nat, bytes)>, from: nat, e: (nat, bytes), id: nat)
    requires from <= |log|
    ensures Addressed((log + [e])[from..|log| + 1], id) == Addressed(log[from..], id) + if e.0 == id then [e.1] else []
  {
    var part := (log + [e])[from..|log| + 1];
    assert part[..|part| - 1] == log[from..];
  }

  lemma PartUnchanged(log: seq<(nat, bytes)>, from: nat, to: nat, e: (nat, bytes))
    requires from <= to <= |log|
    ensures (log + [e])[from..to] == log[from..to]
  {
  }

  // ---------------------------------------------------------------- a worker's step

  lemma WorkIsSane(c: Connection, choice: Choice)
    requires Sane(c) && CanWork(c)
    ensures Sane(Work(c, choice))
  {
    hide Work, CanWork, ExactlyOnce, Holding;
    WorkCountsOnce(c, choice);
    WorkLocks(c, choice);
    WorkKeepsStates(c, choice);
  }

  lemma WorkLocks(c: Connection, choice: Choice)
    requires Sane(c) && CanWork(c)
    ensures var c' := Work(c, choice);
            && (c'.locked <==> Holding(c'.place))
            && (c'.place.Get? || c'.place.Send? || c'.place.DeleteSocket? || c'.place.ClearSocket? ==>
              c'.clientSocket.Some?)
            && (c'.place.Lock? || c'.place.Locked? || c'.place.Get? ==> c'.outQueue != [])
  {
    hide ExactlyOnce;
  }

  lemma WorkKeepsStates(c: Connection, choice: Choice)
    requires Sane(c) && CanWork(c)
    ensures var c' := Work(c, choice);
            && (c'.state == Init <==> c'.place == NotStarted)
            && (c'.state == End <==> c'.place == Returned)
            && (c'.death.Some? ==> c'.place == Returned)
  {
    hide ExactlyOnce;
  }

  lemma WorkCountsOnce(c: Connection, choice: Choice)
    requires Sane(c) && CanWork(c)
    ensures ExactlyOnce(Work(c, choice))
  {
    if c.place.Get? {
      GetCountsOnce(c, choice);
    } else if c.place.Send? {
      SendCountsOnce(c, choice);
    } else {
      hide Texts, Holding;
    }
  }

  lemma GetCountsOnce(c: Connection, choice: Choice)
    requires ExactlyOnce(c) && c.place.Get?
    ensures ExactlyOnce(Work(c, choice))
  {
    hide Texts;
    if c.outQueue != [] {
      TakenMessage(Texts(c.sent), c.outQueue);
    }
  }

  lemma SendCountsOnce(c: Connection, choice: Choice)
    requires ExactlyOnce(c) && c.place.Send? && c.clientSocket.Some?
    ensures ExactlyOnce(Work(c, choice))
  {
    hide Texts;
    TextsAppend(c.sent, (c.clientSocket.value, c.place.outgoing));
    NothingBetween(Texts(c.sent), c.place.outgoing, c.outQueue);
  }

  lemma NothingBetween(before: seq<bytes>, m: bytes, queue: seq<bytes>)
    ensures before + [m] + queue == (before + [m]) + [] + queue
  {
  }

  lemma TakenMessage(before: seq<bytes>, queue: seq<bytes>)
    requires queue != []
    ensures before + [] + queue == before + [queue[0]] + queue[1..]
  {
  }

  lemma WorkReceives(c: Connection, choice: Choice)
    requires CanWork(c)
    ensures Received(Work(c, choice)) == Received(c)
  {
    if c.place.Handle? {
      NothingBetween(c.handled, c.place.incoming, c.inQueue);
    } else if c.inQueue != [] {
      TakenMessage(c.handled, c.inQueue);
    }
  }

  /** What a worker's own part leaves alone. */
  lemma WorkFacts(c: Connection, choice: Choice)
    requires CanWork(c)
    ensures var c' := Work(c, choice);
            && c'.peerId == c.peerId && c'.death == c.death && c'.birth == c.birth
            && c'.clientSocket == (if c.place.ClearSocket? then None else c.clientSocket)
            && c'.sent == c.sent + (if c.place.Send? && c.clientSocket.Some?
                                    then [(c.clientSocket.value, c.place.outgoing)] else [])
            && (c'.place.DeleteSocket? <==> c.place.Send?)
            && (c'.place.ClearSocket? <==> c.place.DeleteSocket?)
            && (|| c'.state == c.state
                || (c.place.NotStarted? && c'.state == Connected)
                || (c.place.Ending? && c'.state == End))
  {
  }

  lemma WorkerSockets(s: State, i: nat, choice: Choice)
    requires Inv(s) && Enabled(s, Worker(i, choice))
    ensures var s' := WorkerStep(s, i, choice);
            !s'.fault && SocketsSane(s') && HeldSane(s')
  {
    hide ListSane, AcceptSane, IdsSane, AllRouted, SentSane, SentDistinct, Work, ExactlyOnce;
    var c := s.connections[i];
    assert Sane(c);
    WorkFacts(c, choice);
    if c.clientSocket.Some? {
      assert SocketFits(s.sockets[c.clientSocket.value], c);
    }
  }

  /** A socket about to carry a message carried none before. */
  lemma UnusedSocket(s: State, i: nat, j: nat, b: nat)
    requires HeldSane(s) && SentSane(s) && i < |s.connections| && s.connections[i].place.Send?
    requires s.connections[i].clientSocket.Some? && j < |s.connections| && b < |s.connections[j].sent|
    ensures s.connections[j].sent[b].0 != s.connections[i].clientSocket.value
  {
    assert SocketFits(s.sockets[s.connections[i].clientSocket.value], s.connections[i]);
  }

  /** What each sent message is of every connection stays so. */
  lemma WorkerSent(s: State, i: nat, choice: Choice)
    requires Inv(s) && Enabled(s, Worker(i, choice))
    ensures SentSane(WorkerStep(s, i, choice))
  {
    hide ListSane, AcceptSane, IdsSane, AllRouted, SocketsSane, SentDistinct, Work, ExactlyOnce;
    var c, s' := s.connections[i], WorkerStep(s, i, choice);
    assert Sane(c);
    WorkFacts(c, choice);
    forall j, a | 0 <= j < |s'.connections| && 0 <= a < |s'.connections[j].sent|
      ensures var (k, m) := s'.connections[j].sent[a];
              k < |s'.sockets| && s'.sockets[k].carried == [m]
                && s'.sockets[k].request == Wait(s'.connections[j].peerId)
    {
      if j == i && a == |c.sent| {
        assert SocketFits(s.sockets[c.clientSocket.value], c);
      } else {
        assert s'.connections[j].sent[a] == s.connections[j].sent[a];
        if c.place.Send? {
          UnusedSocket(s, i, j, a);
        }
      }
    }
  }

  lemma WorkerSentDistinct(s: State, i: nat, choice: Choice)
    requires Inv(s) && Enabled(s, Worker(i, choice))
    ensures SentDistinct(WorkerStep(s, i, choice))
  {
    hide ListSane, AcceptSane, IdsSane, AllRouted, SocketsSane, Work, ExactlyOnce, SentSane, HeldSane;
    var c, s' := s.connections[i], WorkerStep(s, i, choice);
    assert Sane(c);
    WorkFacts(c, choice);
    if c.place.Send? {
      forall j, b | 0 <= j < |s.connections| && 0 <= b < |s.connections[j].sent|
        ensures s.connections[j].sent[b].0 != c.clientSocket.value
      {
        UnusedSocket(s, i, j, b);
      }
    }
  }

  lemma WorkerLists(s: State, i: nat, choice: Choice)
    requires Inv(s) && Enabled(s, Worker(i, choice))
    ensures var s' := WorkerStep(s, i, choice);
            && ListSane(s') && IdsSane(s')
            && forall j :: 0 <= j < |s'.connections| ==> Sane(s'.connections[j])
  {
    hide SentSane, SentDistinct, SocketsSane, HeldSane, AcceptSane, AllRouted, Work, Sane, ExactlyOnce;
    WorkFacts(s.connections[i], choice);
    WorkIsSane(s.connections[i], choice);
  }

  lemma WorkerAccepts(s: State, i: nat, choice: Choice)
    requires Inv(s) && Enabled(s, Worker(i, choice))
    ensures AcceptSane(WorkerStep(s, i, choice))
  {
    hide SentSane, SentDistinct, SocketsSane, AllRouted, Work, ExactlyOnce, IdsSane;
    var c := s.connections[i];
    assert Sane(c);
    WorkFacts(c, choice);
    if s.accept.Serve? {
      assert !Holds(s, i, s.accept.socket);
      forall j | 0 <= j < |s.connections| ensures !Holds(WorkerStep(s, i, choice), j, s.accept.socket) {
        assert !Holds(s, j, s.accept.socket);
      }
    }
  }

  lemma WorkerRoutes(s: State, i: nat, choice: Choice)
    requires Inv(s) && Enabled(s, Worker(i, choice))
    ensures AllRouted(WorkerStep(s, i, choice))
  {
    hide SentSane, SentDistinct, SocketsSane, HeldSane, AcceptSane, ListSane, IdsSane, Work, Sane, Received, Addressed;
    WorkFacts(s.connections[i], choice);
    WorkReceives(s.connections[i], choice);
    var s' := WorkerStep(s, i, choice);
    if |s.connections| <= ID_RANGE {
      forall j | 0 <= j < |s'.connections| ensures Routed(s', s'.connections[j]) {
        assert Routed(s, s.connections[j]);
      }
    }
  }

  lemma WorkerKeeps(s: State, i: nat, choice: Choice)
    requires Inv(s) && Enabled(s, Worker(i, choice))
    ensures Inv(WorkerStep(s, i, choice))
  {
    hide WorkerStep, CanWork, Sane, SocketsSane, HeldSane, SentSane, SentDistinct, ListSane, AcceptSane, IdsSane,
      AllRouted;
    WorkerSockets(s, i, choice);
    WorkerSent(s, i, choice);
    WorkerSentDistinct(s, i, choice);
    WorkerLists(s, i, choice);
    WorkerAccepts(s, i, choice);
    WorkerRoutes(s, i, choice);
  }

  // ---------------------------------------------------------------- a callback

  lemma CallbackIsSane(c: Connection, m: bytes)
    requires Sane(c)
    ensures var c' := c.(outQueue := c.outQueue + [m], produced := c.produced + [m]);
            Sane(c') && Received(c') == Received(c)
  {
    var hand := if c.place.Send? then [c.place.outgoing] else [];
    assert Texts(c.sent) + hand + c.outQueue + [m] == Texts(c.sent) + hand + (c.outQueue + [m]);
  }

  lemma CallbackKeeps(s: State, i: nat, m: bytes)
    requires Inv(s) && Enabled(s, Callback(i, m))
    ensures Inv(CallbackStep(s, i, m))
  {
    hide Sane, Received, Addressed;
    var c, s' := s.connections[i], CallbackStep(s, i, m);
    CallbackIsSane(c, m);
    assert s'.connections[i] == c.(outQueue := c.outQueue + [m], produced := c.produced + [m]);
    SameButQueues(s, s', i);
  }

  /** Replacing one connection by one that differs in its queues alone. */
  lemma SameButQueues(s: State, s': State, i: nat)
    requires Inv(s) && i < |s.connections|
    requires s' == s.(connections := s'.connections) && |s'.connections| == |s.connections|
    requires forall j :: 0 <= j < |s.connections| && j != i ==> s'.connections[j] == s.connections[j]
    requires var c, c' := s.connections[i], s'.connections[i];
             && Sane(c') && Received(c') == Received(c) && c'.peerId == c.peerId && c'.clientSocket == c.clientSocket
               && c'.place == c.place
             && c'.state == c.state && c'.sent == c.sent && c'.birth == c.birth && c'.death == c.death
    ensures Inv(s')
  {
    hide Sane, Received, Addressed, ExactlyOnce;
    hide SentSane, SentDistinct;
    SameSent(s, s');
    assert AcceptSane(s') by {
      if s.accept.Serve? {
        forall j | 0 <= j < |s.connections| ensures !Holds(s', j, s.accept.socket) {
          assert !Holds(s, j, s.accept.socket);
        }
      }
    }
    assert AllRouted(s') by {
      if |s.connections| <= ID_RANGE {
        forall j | 0 <= j < |s'.connections| ensures Routed(s', s'.connections[j]) {
          assert Routed(s, s.connections[j]);
        }
      }
    }
  }

  lemma SameSent(s: State, s': State)
    requires SentSane(s) && SentDistinct(s) && s'.sockets == s.sockets && |s'.connections| == |s.connections|
    requires forall j :: 0 <= j < |s.connections| ==>
      s'.connections[j].sent == s.connections[j].sent && s'.connections[j].peerId == s.connections[j].peerId
    ensures SentSane(s') && SentDistinct(s')
  {
  }

  // ---------------------------------------------------------------- the accept loop

  lemma UnheldUnder(s: State, s': State, k: nat)
    requires Unheld(s, k) && s'.connections == s.connections
    ensures Unheld(s', k)
  {
    forall i | 0 <= i < |s'.connections| ensures !Holds(s', i, k) {
      assert !Holds(s, i, k);
    }
  }

  lemma NobodyHolds(s: State, k: nat)
    requires forall i :: 0 <= i < |s.connections| ==> s.connections[i].clientSocket.None?
    ensures Unheld(s, k)
  {
  }

  lemma SentUnder(s: State, s': State)
    requires SentSane(s) && SentDistinct(s) && s'.connections == s.connections && |s'.sockets| == |s.sockets|
    requires forall k :: 0 <= k < |s.sockets| ==>
      s'.sockets[k].carried == s.sockets[k].carried && s'.sockets[k].request == s.sockets[k].request
    ensures SentSane(s') && SentDistinct(s')
  {
    forall i, a | 0 <= i < |s'.connections| && 0 <= a < |s'.connections[i].sent|
      ensures var (k, m) := s'.connections[i].sent[a];
              k < |s'.sockets| && s'.sockets[k].carried == [m]
                && s'.sockets[k].request == Wait(s'.connections[i].peerId)
    {
      var (k, m) := s.connections[i].sent[a];
      assert k < |s.sockets| && s.sockets[k].carried == [m];
    }
  }

  /** A socket no connection holds changes its replies or its deletions. */
  lemma FreeSocket(s: State, s': State, k: nat)
    requires Inv(s) && k < |s.sockets| && Unheld(s, k)
    requires s' == s.(sockets := s'.sockets, accept := s'.accept) && AcceptSane(s')
    requires |s'.sockets| == |s.sockets| && forall j :: 0 <= j < |s.sockets| && j != k ==> s'.sockets[j] == s.sockets[j]
    requires var x, y := s.sockets[k], s'.sockets[k];
             y.request == x.request && y.carried == x.carried && |y.carried| + y.replies <= 1 && y.deletes <= 1
    ensures Inv(s')
  {
    hide Sane, Routed, AcceptSane;
    assert SocketsSane(s') && ListSane(s') && IdsSane(s');
    SentUnder(s, s');
    assert HeldSane(s') by {
      forall i | 0 <= i < |s.connections| && s.connections[i].clientSocket.Some?
        ensures s.connections[i].clientSocket.value != k
      {
        assert !Holds(s, i, k);
      }
    }
    assert AllRouted(s') by {
      RoutedUnder(s, s');
    }
  }

  lemma RoutedUnder(s: State, s': State)
    requires AllRouted(s) && s'.connections == s.connections && s'.routed == s.routed
    ensures AllRouted(s')
  {
    if |s.connections| <= ID_RANGE {
      forall j | 0 <= j < |s'.connections| ensures Routed(s', s'.connections[j]) {
        assert Routed(s, s.connections[j]);
      }
    }
  }

  /** Only the accept loop moves on. */
  lemma OnlyAccept(s: State, s': State)
    requires Inv(s) && s' == s.(accept := s'.accept) && AcceptSane(s')
    ensures Inv(s')
  {
    hide Sane, Routed, AcceptSane;
    assert HeldSane(s') && SentSane(s') && SentDistinct(s') && ListSane(s');
    RoutedUnder(s, s');
  }

  lemma ArrivalKeeps(s: State, arrival: Arrival)
    requires Inv(s) && s.accept == Accepting && CanAccept(s)
    ensures Inv(AcceptStep(s, arrival))
  {
    hide Sane, Routed;
    var s' := AcceptStep(s, arrival);
    if arrival.Client? {
      var k := |s.sockets|;
      forall i | 0 <= i < |s.connections| ensures !Holds(s', i, k) {
        if s.connections[i].clientSocket.Some? {
          assert s.connections[i].clientSocket.value < k;
        }
      }
      assert HeldSane(s') && SentSane(s') && SentDistinct(s');
      RoutedUnder(s, s');
    } else {
      OnlyAccept(s, s');
    }
  }

  lemma SweepKeeps(s: State)
    requires Inv(s) && s.accept.Sweep? && CanAccept(s)
    ensures Inv(AcceptStep(s, Nobody))
  {
    hide Routed, ExactlyOnce;
    var j, s' := s.accept.index, AcceptStep(s, Nobody);
    if j < |s.list| && s.connections[s.list[j]].state == End {
      var i := s.list[j];
      var c := s.connections[i];
      assert Sane(c) && c.death.None?;
      AliveIsFree(c);
      SameButQueues(s, s.(connections := s'.connections), i);
      OnlyAccept(s.(connections := s'.connections), s');
    } else {
      OnlyAccept(s, s');
    }
  }

  lemma AliveIsFree(c: Connection)
    requires Sane(c)
    ensures Sane(c.(alive := false)) && Received(c.(alive := false)) == Received(c)
  {
  }

  /** The connection at the end of its life leaves the list. */
  lemma JoinKeeps(s: State)
    requires Inv(s) && s.accept.Join? && CanAccept(s)
    ensures Inv(AcceptStep(s, Nobody))
  {
    hide Sane, Routed, HeldSane, SentSane, SentDistinct, AllRouted;
    JoinLists(s);
    JoinSockets(s);
    JoinRoutes(s);
    JoinIsSane(s);
  }

  lemma JoinIsSane(s: State)
    requires Inv(s) && s.accept.Join? && CanAccept(s)
    ensures var s' := AcceptStep(s, Nobody);
            !s'.fault && forall x :: 0 <= x < |s'.connections| ==> Sane(s'.connections[x])
  {
    hide Routed, HeldSane, SentSane, SentDistinct, AllRouted, Sane, Received;
    DeathReceives(s.connections[s.list[s.accept.index]], |s.routed|);
  }

  lemma WithoutOne(list: seq<nat>, j: nat)
    requires j < |list| && forall a, b :: 0 <= a < b < |list| ==> list[a] != list[b]
    ensures var rest := list[..j] + list[j + 1..];
            && (forall a, b :: 0 <= a < b < |rest| ==> rest[a] != rest[b])
            && (forall x :: x in rest <==> x in list && x != list[j])
  {
    var rest := list[..j] + list[j + 1..];
    assert forall a :: 0 <= a < |rest| ==> rest[a] == list[if a < j then a else a + 1];
    forall x | x in list && x != list[j] ensures x in rest {
      var a :| 0 <= a < |list| && list[a] == x;
      assert rest[if a < j then a else a - 1] == x;
    }
  }

  lemma JoinLists(s: State)
    requires Inv(s) && s.accept.Join? && CanAccept(s)
    ensures var s' := AcceptStep(s, Nobody); ListSane(s') && AcceptSane(s') && IdsSane(s')
  {
    hide Sane, Routed, HeldSane, SentSane, SentDistinct, AllRouted;
    var j, s' := s.accept.index, AcceptStep(s, Nobody);
    WithoutOne(s.list, j);
    assert s.connections[s.list[j]].death.None?;
    assert ListSane(s') by {
      forall a | 0 <= a < |s'.list| ensures s'.list[a] in s.list && s'.list[a] != s.list[j] {
        assert s'.list[a] in s'.list;
      }
    }
  }

  lemma JoinSockets(s: State)
    requires Inv(s) && s.accept.Join? && CanAccept(s)
    ensures var s' := AcceptStep(s, Nobody); HeldSane(s') && SentSane(s') && SentDistinct(s')
  {
    hide Sane, Routed, ExactlyOnce;
    var s' := AcceptStep(s, Nobody);
    assert forall x :: 0 <= x < |s.connections| ==>
      s'.connections[x].sent == s.connections[x].sent
        && s'.connections[x].clientSocket == s.connections[x].clientSocket;
  }

  lemma JoinRoutes(s: State)
    requires Inv(s) && s.accept.Join? && CanAccept(s)
    ensures AllRouted(AcceptStep(s, Nobody))
  {
    hide Addressed, Received, Sane, HeldSane, SentSane, SentDistinct;
    var s' := AcceptStep(s, Nobody);
    var i := s.list[s.accept.index];
    var c, c' := s.connections[i], s'.connections[i];
    assert c.death.None?;
    DeathReceives(c, |s.routed|);
    if |s.connections| <= ID_RANGE {
      forall x | 0 <= x < |s'.connections| ensures Routed(s', s'.connections[x]) {
        assert Routed(s, s.connections[x]);
      }
    }
  }

  lemma DeathReceives(c: Connection, at: nat)
    ensures Received(c.(death := Some(at))) == Received(c)
    ensures Sane(c) && c.place == Returned ==> Sane(c.(death := Some(at)))
  {
  }

  // ---------------------------------------------------------------- serving a request

  lemma AddressesSignedIn(n: nat)
    ensures (1 + (n + 1)) % ID_RANGE == ((1 + n) % ID_RANGE + 1) % ID_RANGE
  {
  }

  /** A new connection gets the next id and starts with nothing. */
  function SignedIn(s: State, k: nat): State {
    s.(accept := CloseCheck(k), connections := s.connections + [NewConnection(s.peerId, |s.routed|)],
       list := s.list + [|s.connections|], peerId := (s.peerId + 1) % ID_RANGE)
  }

  lemma SignInKeeps(s: State, k: nat)
    requires Inv(s) && s.accept == Serve(k)
    ensures Inv(SignedIn(s, k)) && Unheld(SignedIn(s, k), k)
  {
    hide HeldSane, SentSane, SentDistinct, ListSane, IdsSane, AllRouted, SocketsSane, Unheld, ExactlyOnce;
    FreshIsSane(s.peerId, |s.routed|);
    SignInSockets(s, k);
    SignInLists(s, k);
    SignInRoutes(s, k);
  }

  lemma SignInSockets(s: State, k: nat)
    requires SocketsSane(s) && HeldSane(s) && SentSane(s) && SentDistinct(s) && Unheld(s, k)
    ensures var s1 := SignedIn(s, k);
            SocketsSane(s1) && HeldSane(s1) && SentSane(s1) && SentDistinct(s1) && Unheld(s1, k)
  {
    hide SocketFits;
    var n, s1 := |s.connections|, SignedIn(s, k);
    assert s1.connections[n].clientSocket.None? && s1.connections[n].sent == [];
    assert forall i :: 0 <= i < n ==> s1.connections[i] == s.connections[i];
    forall i | 0 <= i < |s1.connections| ensures !Holds(s1, i, k) {
      assert i < n ==> !Holds(s, i, k);
    }
  }

  lemma SignInLists(s: State, k: nat)
    requires ListSane(s) && IdsSane(s)
    ensures ListSane(SignedIn(s, k)) && IdsSane(SignedIn(s, k))
  {
    hide ListSane, IdsSane;
    SignInIsListed(s, k);
    SignInTakesId(s, k);
  }

  lemma SignInIsListed(s: State, k: nat)
    requires ListSane(s)
    ensures ListSane(SignedIn(s, k))
  {
    var n, s1 := |s.connections|, SignedIn(s, k);
    assert s1.connections[n].death.None? && s1.list[|s.list|] == n;
    assert forall i :: 0 <= i < n ==> s1.connections[i] == s.connections[i];
    assert forall j :: 0 <= j < |s.list| ==> s1.list[j] == s.list[j];
  }

  lemma SignInTakesId(s: State, k: nat)
    requires IdsSane(s)
    ensures IdsSane(SignedIn(s, k))
  {
    var n, s1 := |s.connections|, SignedIn(s, k);
    AddressesSignedIn(n);
    assert s1.connections[n].peerId == s.peerId;
    assert forall i :: 0 <= i < n ==> s1.connections[i] == s.connections[i];
  }

  lemma SignInRoutes(s: State, k: nat)
    requires AllRouted(s)
    ensures AllRouted(SignedIn(s, k))
  {
    hide Addressed, Received, Sane;
    var s1 := SignedIn(s, k);
    FreshIsSane(s.peerId, |s.routed|);
    assert s.routed[|s.routed|..|s.routed|] == [];
    if |s1.connections| <= ID_RANGE {
      forall i | 0 <= i < |s1.connections| ensures Routed(s1, s1.connections[i]) {
        assert i < |s.connections| ==> Routed(s, s.connections[i]);
      }
    }
  }

  lemma FreshIsSane(id: nat, birth: nat)
    ensures Sane(NewConnection(id, birth)) && Received(NewConnection(id, birth)) == [] && Addressed([], id) == []
  {
  }

  /** Among fewer than 2^32 connections ids are distinct. */
  lemma IdsDistinct(s: State, i: nat, j: nat)
    requires IdsSane(s) && |s.connections| <= ID_RANGE && i < |s.connections| && j < |s.connections|
    requires s.connections[i].peerId == s.connections[j].peerId
    ensures i == j
  {
    SmallId(i);
    SmallId(j);
  }

  lemma SmallId(i: nat)
    requires i < ID_RANGE
    ensures (1 + i) % ID_RANGE == if i == ID_RANGE - 1 then 0 else 1 + i
  {
  }

  /** The routing log grows; the connection that was found, if any, gets the text. */
  lemma MessageRoutes(s: State, s1: State, to: nat, text: bytes)
    requires Inv(s) && Listed(s)
    requires var found := FindPeer(s, 0, to);
             && s1.routed == s.routed + [(to, text)]
             && |s1.connections| == |s.connections|
             && forall i :: 0 <= i < |s.connections| ==>
                  s1.connections[i] == if found == Some(i) then Given(s.connections[i], text) else s.connections[i]
    ensures AllRouted(s1)
  {
    hide Sane, Routed, Given, HeldSane, SentSane, SentDistinct, SocketsSane, AcceptSane;
    var found := FindPeer(s, 0, to);
    if |s.connections| <= ID_RANGE {
      forall i | 0 <= i < |s1.connections| ensures Routed(s1, s1.connections[i]) {
        assert Routed(s, s.connections[i]);
        if s.connections[i].death.None? {
          FoundIsAddressed(s, i, to);
        }
        OneRoutes(s, s1, s.connections[i], to, text, found == Some(i));
      }
    }
  }

  /** The connection with one more message in its queue. */
  function Given(c: Connection, text: bytes): Connection {
    c.(inQueue := c.inQueue + [text])
  }

  /** A message that is given to a listed connection just if it names it. */
  lemma OneRoutes(s: State, s1: State, c: Connection, to: nat, text: bytes, given: bool)
    requires Routed(s, c) && s1.routed == s.routed + [(to, text)]
    requires if c.death.Some? then !given else given <==> c.peerId == to
    ensures Routed(s1, if given then Given(c, text) else c)
  {
    hide Received, Addressed, Sane;
    QueueReceives(c, text);
    var log := s.routed;
    if c.death.Some? {
      PartUnchanged(log, c.birth, c.death.value, (to, text));
    } else {
      assert log[c.birth..|log|] == log[c.birth..];
      AddressedAppend(log, c.birth, (to, text), c.peerId);
    }
  }

  /** The connection found is the listed one with that id. */
  lemma FoundIsAddressed(s: State, i: nat, to: nat)
    requires ListSane(s) && IdsSane(s) && |s.connections| <= ID_RANGE
    requires i < |s.connections| && s.connections[i].death.None?
    ensures FindPeer(s, 0, to) == Some(i) <==> s.connections[i].peerId == to
  {
    var found := FindPeer(s, 0, to);
    assert i in s.list;
    if found.Some? && s.connections[i].peerId == to {
      IdsDistinct(s, i, found.value);
    }
  }

  lemma QueueReceives(c: Connection, text: bytes)
    ensures var c' := Given(c, text);
            Received(c') == Received(c) + [text] && (Sane(c) ==> Sane(c'))
  {
    var hand := if c.place.Handle? then [c.place.incoming] else [];
    assert c.handled + hand + (c.inQueue + [text]) == c.handled + hand + c.inQueue + [text];
  }

  /** The state once a message was routed, before the reply. */
  function Delivered(s: State, k: nat, to: nat, text: bytes): State
    requires Listed(s)
  {
    var found := FindPeer(s, 0, to);
    s.(accept := CloseCheck(k), routed := s.routed + [(to, text)],
       connections := if found.None? then s.connections
         else s.connections[found.value := Given(s.connections[found.value], text)])
  }

  /** The connections differ in what they have received at most. */
  predicate SameButInbox(s: State, s1: State) {
    && |s1.connections| == |s.connections|
    && forall i :: 0 <= i < |s.connections| ==> var c, c' := s.connections[i], s1.connections[i];
         && c'.peerId == c.peerId && c'.clientSocket == c.clientSocket && c'.place == c.place
         && c'.state == c.state && c'.sent == c.sent && c'.death == c.death
  }

  /** A message is queued at the connection it names, or dropped if there is none. */
  lemma MessageKeeps(s: State, k: nat, to: nat, text: bytes)
    requires Inv(s) && s.accept == Serve(k)
    ensures Inv(Delivered(s, k, to, text)) && Unheld(Delivered(s, k, to, text), k)
  {
    hide Sane, Routed, Received, SocketFits, SentSane, SentDistinct, HeldSane, SocketsSane, ListSane, AllRouted,
      IdsSane, Unheld;
    var found, s1 := FindPeer(s, 0, to), Delivered(s, k, to, text);
    MessageRoutes(s, s1, to, text);
    if found.Some? {
      QueueReceives(s.connections[found.value], text);
    }
    MessageSockets(s, s1, k);
    MessageLists(s, s1, k);
  }

  lemma MessageLists(s: State, s1: State, k: nat)
    requires ListSane(s) && IdsSane(s) && AcceptSane(s) && s.accept == Serve(k)
    requires s1.list == s.list && s1.peerId == s.peerId && s1.sockets == s.sockets && s1.closeWait == s.closeWait
    requires SameButInbox(s, s1) && s1.accept == CloseCheck(k)
    ensures ListSane(s1) && IdsSane(s1) && AcceptSane(s1)
  {
  }

  lemma MessageSockets(s: State, s1: State, k: nat)
    requires SocketsSane(s) && HeldSane(s) && SentSane(s) && SentDistinct(s) && Unheld(s, k)
    requires s1.sockets == s.sockets && SameButInbox(s, s1)
    ensures SocketsSane(s1) && HeldSane(s1) && SentSane(s1) && SentDistinct(s1) && Unheld(s1, k)
  {
    forall i | 0 <= i < |s1.connections| ensures !Holds(s1, i, k) {
      assert !Holds(s, i, k);
    }
  }

  /** The connection takes socket `k`. */
  function Handed(s: State, k: nat, i: nat): State
    requires i < |s.connections|
  {
    s.(connections := s.connections[i := s.connections[i].(clientSocket := Some(k))], closeWait := false,
      accept := CloseCheck(k))
  }

  lemma WaitIsHanded(s: State, k: nat, id: nat, i: nat)
    requires Inv(s) && s.accept == Serve(k) && s.sockets[k].request == Wait(id) && CanServe(s, k)
        && FindPeer(s, 0, id) == Some(i)
    ensures i < |s.connections| && s.connections[i].peerId == id && !s.connections[i].locked
    ensures ServeStep(s, k) == Handed(s, k, i)
  {
    hide Routed, Sane, HeldSane, SentSane, SentDistinct, SocketsSane, IdsSane, AllRouted, AcceptSane;
  }

  /** A wait request hands its socket to the connection it names. */
  lemma WaitKeeps(s: State, k: nat, id: nat)
    requires Inv(s) && s.accept == Serve(k) && s.sockets[k].request == Wait(id) && CanServe(s, k)
    ensures Inv(ServeStep(s, k))
  {
    hide Routed, Sane, HeldSane, SentSane, SentDistinct, SocketsSane, ListSane, IdsSane, AllRouted, Handed, CanServe;
    var found := FindPeer(s, 0, id);
    if found.None? {
      OnlyAccept(s, ServeStep(s, k));
    } else {
      var i := found.value;
      WaitIsHanded(s, k, id, i);
      WaitLists(s, k, i);
      WaitSockets(s, k, i);
      WaitRoutes(s, k, i);
    }
  }

  lemma WaitLists(s: State, k: nat, i: nat)
    requires Inv(s) && s.accept == Serve(k) && i < |s.connections|
    ensures var s' := Handed(s, k, i);
            && !s'.fault && ListSane(s') && SocketsSane(s') && IdsSane(s') && AcceptSane(s')
            && forall j :: 0 <= j < |s'.connections| ==> Sane(s'.connections[j])
  {
    hide Routed, Sane, HeldSane, SentSane, SentDistinct, AllRouted;
    SocketIsFree(s.connections[i], k);
  }

  lemma WaitSockets(s: State, k: nat, i: nat)
    requires Inv(s) && s.accept == Serve(k) && i < |s.connections| && !s.connections[i].locked
    requires s.sockets[k].request == Wait(s.connections[i].peerId)
    ensures HeldSane(Handed(s, k, i)) && SentSane(Handed(s, k, i)) && SentDistinct(Handed(s, k, i))
  {
    hide Routed, ExactlyOnce, ListSane, IdsSane, AllRouted, SocketsSane;
    assert Sane(s.connections[i]);
    forall j | 0 <= j < |s.connections| ensures s.connections[j].clientSocket != Some(k) {
      assert !Holds(s, j, k);
    }
  }

  lemma SocketIsFree(c: Connection, k: nat)
    requires Sane(c)
    ensures Sane(c.(clientSocket := Some(k)))
  {
  }

  lemma WaitRoutes(s: State, k: nat, i: nat)
    requires AllRouted(s) && i < |s.connections|
    ensures AllRouted(Handed(s, k, i))
  {
    hide Addressed;
    var s' := Handed(s, k, i);
    if |s.connections| <= ID_RANGE {
      forall j | 0 <= j < |s'.connections| ensures Routed(s', s'.connections[j]) {
        assert Routed(s, s.connections[j]);
      }
    }
  }

  lemma ReplyKeeps(s: State, k: nat)
    requires Inv(s) && s.accept == CloseCheck(k) && Unheld(s, k) && k < |s.sockets|
    requires s.sockets[k].carried == [] && s.sockets[k].replies == 0 && s.sockets[k].deletes == 0
    ensures Inv(Replied(s, k))
  {
    hide Sane, Routed, HeldSane, SentSane, SentDistinct, ListSane, IdsSane, AllRouted, Unheld;
    FreeSocket(s, Replied(s, k), k);
  }

  lemma ServeKeeps(s: State, k: nat)
    requires Inv(s) && s.accept == Serve(k) && CanAccept(s)
    ensures Inv(ServeStep(s, k))
  {
    hide Sane, Routed, HeldSane, SentSane, SentDistinct, ListSane, IdsSane, AllRouted, SocketsSane, Unheld, FindPeer;
    match s.sockets[k].request {
      case Unparsable => FreeSocket(s, ServeStep(s, k), k);
      case Page =>
        OnlyAccept(s, s.(accept := CloseCheck(k)));
        UnheldUnder(s, s.(accept := CloseCheck(k)), k);
        ReplyKeeps(s.(accept := CloseCheck(k)), k);
      case SignIn =>
        SignInKeeps(s, k);
        ReplyKeeps(s.(accept := CloseCheck(k), connections := s.connections + [NewConnection(s.peerId, |s.routed|)],
                      list := s.list + [|s.connections|], peerId := (s.peerId + 1) % ID_RANGE), k);
      case SignOut => OnlyAccept(s, ServeStep(s, k));
      case Message(to, text) =>
        MessageKeeps(s, k, to, text);
        ReplyKeeps(Delivered(s, k, to, text), k);
        MessageServes(s, k, to, text);
      case Wait(id) => WaitKeeps(s, k, id);
    }
  }

  lemma MessageServes(s: State, k: nat, to: nat, text: bytes)
    requires Inv(s) && k < |s.sockets| && s.sockets[k].request == Message(to, text)
    ensures ServeStep(s, k) == Replied(Delivered(s, k, to, text), k)
  {
    hide Sane, Routed, HeldSane, SentSane, SentDistinct, IdsSane, AllRouted, SocketsSane, AcceptSane;
    var found := FindPeer(s, 0, to);
    if found.Some? {
      assert s.connections[found.value].death.None?;
    }
  }

  lemma CloseKeeps(s: State)
    requires Inv(s) && s.accept.CloseCheck? && CanAccept(s)
    ensures Inv(AcceptStep(s, Nobody))
  {
    hide Sane, Routed, HeldSane, SentSane, SentDistinct, ListSane, IdsSane, AllRouted, Unheld;
    var s' := AcceptStep(s, Nobody);
    if s.closeWait {
      NobodyHolds(s, s.accept.socket);
      FreeSocket(s, s', s.accept.socket);
    } else {
      OnlyAccept(s, s');
    }
  }

  lemma AcceptKeeps(s: State, arrival: Arrival)
    requires Inv(s) && Enabled(s, Acceptor(arrival))
    ensures Inv(AcceptStep(s, arrival))
  {
    hide Sane, SocketsSane, Routed, HeldSane, SentSane, SentDistinct, ListSane, AcceptSane, IdsSane, AllRouted, Inv;
    match s.accept {
      case Accepting => ArrivalKeeps(s, arrival);
      case Sweep(_) => SweepKeeps(s);
      case Join(_) => JoinKeeps(s);
      case Serve(k) => ServeKeeps(s, k);
      case CloseCheck(_) => CloseKeeps(s);
    }
  }

  // ---------------------------------------------------------------- every run

  lemma StepKeeps(s: State, step: Step)
    requires Inv(s) && Enabled(s, step)
    ensures Inv(Apply(s, step))
  {
    hide Inv, WorkerStep, CallbackStep, AcceptStep;
    match step {
      case Worker(i, choice) => WorkerKeeps(s, i, choice);
      case Callback(i, m) => CallbackKeeps(s, i, m);
      case Acceptor(arrival) => AcceptKeeps(s, arrival);
    }
  }

  lemma {:induction false} StepsKeep(s: State, steps: seq<Step>)
    requires Inv(s) && After(s, steps).Some?
    ensures Inv(After(s, steps).value)
    decreases |steps|
  {
    hide Inv, Enabled, Apply;
    if steps != [] {
      StepKeeps(s, steps[0]);
      StepsKeep(Apply(s, steps[0]), steps[1..]);
    }
  }

  /** The invariant holds in every state any interleaving reaches. */
  lemma RunIsSafe(steps: seq<Step>)
    requires After(INITIAL, steps).Some?
    ensures Inv(After(INITIAL, steps).value)
  {
    StepsKeep(INITIAL, steps);
  }

  /** Exactly-once delivery: whatever the interleaving, what the callbacks of a
      connection produced is what was sent, then what its worker holds, then its queue;
      and each sent message went alone over a wait of that very peer. */
  lemma ProducedIsDelivered(steps: seq<Step>, i: nat)
    requires After(INITIAL, steps).Some? && i < |After(INITIAL, steps).value.connections|
    ensures var s := After(INITIAL, steps).value;
            var c := s.connections[i];
            && c.produced == Texts(c.sent) + (if c.place.Send? then [c.place.outgoing] else []) + c.outQueue
            && (forall a :: 0 <= a < |c.sent| ==>
                  var (k, m) := c.sent[a];
                  k < |s.sockets| && s.sockets[k].carried == [m] && s.sockets[k].request == Wait(c.peerId))
            && (forall a, j, b ::
                  0 <= a < |c.sent| && 0 <= j < |s.connections| && 0 <= b < |s.connections[j].sent|
                  && (i != j || a != b) ==>
                  c.sent[a].0 != s.connections[j].sent[b].0)
  {
    hide After;
    RunIsSafe(steps);
    assert Sane(After(INITIAL, steps).value.connections[i]);
  }

  /** Each socket carries one message or one reply at most and is deleted once at
      most; no step uses a deleted socket, a null socket or a deleted connection. */
  lemma SocketsAreUsedOnce(steps: seq<Step>, k: nat)
    requires After(INITIAL, steps).Some? && k < |After(INITIAL, steps).value.sockets|
    ensures var s := After(INITIAL, steps).value;
            !s.fault && |s.sockets[k].carried| + s.sockets[k].replies <= 1 && s.sockets[k].deletes <= 1
  {
    hide After;
    RunIsSafe(steps);
  }

  /** Once the accept loop deleted a connection its worker has no step left. */
  lemma NoStepAfterDeletion(steps: seq<Step>, i: nat, choice: Choice)
    requires After(INITIAL, steps).Some? && Enabled(After(INITIAL, steps).value, Worker(i, choice))
    ensures After(INITIAL, steps).value.connections[i].death.None?
  {
    hide After;
    RunIsSafe(steps);
    assert Sane(After(INITIAL, steps).value.connections[i]);
  }

  /** The queue a worker found non-empty is still so when it takes from it. */
  lemma GetFindsMessage(steps: seq<Step>, i: nat)
    requires After(INITIAL, steps).Some? && i < |After(INITIAL, steps).value.connections|
    requires After(INITIAL, steps).value.connections[i].place.Get?
    ensures After(INITIAL, steps).value.connections[i].outQueue != []
  {
    hide After;
    RunIsSafe(steps);
    assert Sane(After(INITIAL, steps).value.connections[i]);
  }

  /** Up to 2^32 sign-ins, a connection has received exactly what was addressed to its id
      while it was listed, in order. */
  lemma RoutingIsExact(steps: seq<Step>, i: nat)
    requires After(INITIAL, steps).Some? && i < |After(INITIAL, steps).value.connections| <= ID_RANGE
    ensures var s := After(INITIAL, steps).value; Routed(s, s.connections[i])
  {
    hide After, Routed;
    RunIsSafe(steps);
  }

  /** Up to 2^32 sign-ins, no two connections have the same id. */
  lemma PeersAreDistinct(steps: seq<Step>, i: nat, j: nat)
    requires After(INITIAL, steps).Some?
    requires var s := After(INITIAL, steps).value; i < j < |s.connections| <= ID_RANGE
    ensures var s := After(INITIAL, steps).value; s.connections[i].peerId != s.connections[j].peerId
  {
    hide After, Routed;
    RunIsSafe(steps);
    var s := After(INITIAL, steps).value;
    if s.connections[i].peerId == s.connections[j].peerId {
      IdsDistinct(s, i, j);
    }
  }

  /** The id bound is sharp: the connection after the 2^32nd gets the id of the first. */
  lemma IdsRepeat(s: State, i: nat)
    requires IdsSane(s) && i + ID_RANGE < |s.connections|
    ensures s.connections[i + ID_RANGE].peerId == s.connections[i].peerId
  {
    WholeTurn(1 + i);
  }

  lemma WholeTurn(n: nat)
    ensures (n + ID_RANGE) % ID_RANGE == n % ID_RANGE
  {
  }

  /** Connection `i` keeps its state, its place and its socket, unless it takes another. */
  predicate LeftAlone(s: State, s': State, i: nat, takes: bool)
    requires i < |s.connections|
  {
    && i < |s'.connections|
    && var c, c' := s.connections[i], s'.connections[i];
       c'.state == c.state && c'.place == c.place && (takes || c'.clientSocket == c.clientSocket)
  }

  /** What serving a request leaves of the connections there are. */
  lemma ServingLeaves(s: State, k: nat, i: nat)
    requires k < |s.sockets| && Listed(s) && CanServe(s, k) && i < |s.connections|
    ensures LeftAlone(s, ServeStep(s, k), i,
              s.sockets[k].request == Wait(s.connections[i].peerId)
              && FindPeer(s, 0, s.connections[i].peerId) == Some(i))
  {
    hide CanServe, FindPeer, LeftAlone;
    match s.sockets[k].request {
      case Message(_, _) => MessageLeaves(s, k, i);
      case Wait(_) => WaitLeaves(s, k, i);
      case _ => OthersLeave(s, k, i);
    }
  }

  lemma MessageLeaves(s: State, k: nat, i: nat)
    requires k < |s.sockets| && Listed(s) && CanServe(s, k) && i < |s.connections| && s.sockets[k].request.Message?
    ensures LeftAlone(s, ServeStep(s, k), i, false)
  {
    hide CanServe, FindPeer;
  }

  lemma WaitLeaves(s: State, k: nat, i: nat)
    requires k < |s.sockets| && Listed(s) && CanServe(s, k) && i < |s.connections| && s.sockets[k].request.Wait?
    ensures LeftAlone(s, ServeStep(s, k), i, FindPeer(s, 0, s.sockets[k].request.peer) == Some(i))
  {
    hide CanServe, FindPeer;
    var found := FindPeer(s, 0, s.sockets[k].request.peer);
    if found.None? {
      assert ServeStep(s, k).connections == s.connections;
    } else {
      assert ServeStep(s, k).connections[i] == if found == Some(i)
        then s.connections[i].(clientSocket := Some(k)) else s.connections[i];
    }
  }

  lemma OthersLeave(s: State, k: nat, i: nat)
    requires k < |s.sockets| && Listed(s) && CanServe(s, k) && i < |s.connections|
    requires !s.sockets[k].request.Message? && !s.sockets[k].request.Wait?
    ensures LeftAlone(s, ServeStep(s, k), i, false)
  {
    hide CanServe, FindPeer;
  }

  /** Every step moves each connection's state on from INIT to CONNECTED to END or not
      at all. */
  lemma LifecycleMovesOn(s: State, step: Step, i: nat)
    requires Inv(s) && Enabled(s, step) && i < |s.connections|
    ensures var s' := Apply(s, step);
            && i < |s'.connections|
            && var x, y := s.connections[i].state, s'.connections[i].state;
               y == x || (x == Init && y == Connected) || (x == Connected && y == End)
  {
    hide SocketsSane, HeldSane, SentSane, SentDistinct, ListSane, IdsSane, AllRouted, ExactlyOnce, ServeStep, Work;
    assert Sane(s.connections[i]);
    match step {
      case Worker(j, choice) =>
        hide AcceptStep;
        WorkFacts(s.connections[j], choice);
      case Callback(_, _) => hide AcceptStep;
      case Acceptor(_) =>
        if s.accept.Serve? {
          ServingLeaves(s, s.accept.socket, i);
        }
    }
  }
}
