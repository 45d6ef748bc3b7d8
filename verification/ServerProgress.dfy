/**
 What the signalling server gets done: a worker sends the oldest message over the
 socket it holds, handles what was posted to it and comes round again, whatever the
 other threads do; the accept loop answers each request and sweeps out the ended.
 */
module SignallingProgress {
  import opened Bytes
  import opened Optional
  import opened SignallingServer
  import opened SignallingSafety
  import opened SignallingLeaks
  import opened SignallingRuns

  // ---------------------------------------------------------------- one worker by itself

  /** `n` steps of worker `i` in which no wait ends early and nothing has died. */
  function Own(i: nat, n: nat): seq<Step> {
    if n == 0 then [] else [Worker(i, STAY)] + Own(i, n - 1)
  }

  /** The state with another connection `i`. */
  function With(s: State, i: nat, c: Connection): State
    requires i < |s.connections|
  {
    s.(connections := s.connections[i := c])
  }

  lemma WithTwice(s: State, i: nat, c: Connection, d: Connection)
    requires i < |s.connections|
    ensures With(With(s, i, c), i, d) == With(s, i, d) && With(s, i, s.connections[i]) == s
    ensures With(s, i, c).connections[i] == c
  {
    assert s.connections[i := c][i := d] == s.connections[i := d];
    assert s.connections[i := s.connections[i]] == s.connections;
  }

  /** No worker is ever kept from its next step but by its own end. */
  lemma NeverBlocked(s: State, i: nat, choice: Choice)
    requires Inv(s) && i < |s.connections| && s.connections[i].place != Returned
    ensures Enabled(s, Worker(i, choice)) && s.connections[i].death.None?
  {
    hide ExactlyOnce, SocketsSane, HeldSane, SentSane, SentDistinct, ListSane, AcceptSane, IdsSane, AllRouted;
    assert Sane(s.connections[i]);
  }

  /** One step that leaves the sockets alone. */
  lemma Turn(s: State, i: nat, choice: Choice, c: Connection, rest: seq<Step>)
    requires Inv(s) && i < |s.connections| && s.connections[i].place != Returned
    requires !s.connections[i].place.Send? && !s.connections[i].place.DeleteSocket?
    requires CanWork(s.connections[i]) ==> Work(s.connections[i], choice) == c
    ensures After(s, [Worker(i, choice)] + rest) == After(With(s, i, c), rest) && Inv(With(s, i, c))
  {
    NeverBlocked(s, i, choice);
    TurnApplies(s, i, choice);
    StepKeeps(s, Worker(i, choice));
    hide Inv, Work, Apply, Enabled, After;
    OneStep(s, Worker(i, choice), rest, With(s, i, c));
  }

  lemma TurnApplies(s: State, i: nat, choice: Choice)
    requires !s.fault && i < |s.connections| && CanWork(s.connections[i]) && s.connections[i].death.None?
    requires !s.connections[i].place.Send? && !s.connections[i].place.DeleteSocket?
    ensures Apply(s, Worker(i, choice)) == With(s, i, Work(s.connections[i], choice))
  {
    hide Work;
    var k := s.connections[i].clientSocket;
    if k.Some? && k.value < |s.sockets| {
      assert s.sockets[k.value := s.sockets[k.value]] == s.sockets;
    }
  }

  /** The state in which socket `k`, too, is another one. */
  function WithSocket(s: State, i: nat, c: Connection, k: nat, x: Socket): State
    requires i < |s.connections| && k < |s.sockets|
  {
    s.(connections := s.connections[i := c], sockets := s.sockets[k := x])
  }

  lemma SocketTurn(s: State, i: nat, c: Connection, k: nat, x: Socket, rest: seq<Step>)
    requires Inv(s) && i < |s.connections| && s.connections[i].clientSocket == Some(k) && k < |s.sockets|
    requires s.connections[i].place.Send? || s.connections[i].place.DeleteSocket?
    requires CanWork(s.connections[i]) ==> Work(s.connections[i], STAY) == c
    requires WorkOnSocket(s.sockets[k], s.connections[i].place) == x
    ensures After(s, [Worker(i, STAY)] + rest) == After(WithSocket(s, i, c, k, x), rest)
    ensures Inv(WithSocket(s, i, c, k, x))
  {
    NeverBlocked(s, i, STAY);
    SocketTurnApplies(s, i, k);
    StepKeeps(s, Worker(i, STAY));
    hide Inv, Work, WorkOnSocket, Apply, Enabled, After;
    OneStep(s, Worker(i, STAY), rest, WithSocket(s, i, c, k, x));
  }

  lemma SocketTurnApplies(s: State, i: nat, k: nat)
    requires Inv(s) && i < |s.connections| && s.connections[i].clientSocket == Some(k) && k < |s.sockets|
    requires CanWork(s.connections[i]) && s.connections[i].death.None?
    requires s.connections[i].place.Send? || s.connections[i].place.DeleteSocket?
    ensures Apply(s, Worker(i, STAY))
         == WithSocket(s, i, Work(s.connections[i], STAY), k, WorkOnSocket(s.sockets[k], s.connections[i].place))
  {
    WorkerSockets(s, i, STAY);
    hide Work, WorkOnSocket, Inv, SocketsSane, HeldSane, SocketMissing;
  }

  // ---------------------------------------------------------------- sending

  /** Connection `c` after the oldest message went over its socket. */
  function Relieved(c: Connection): Connection
    requires c.clientSocket.Some? && c.outQueue != []
  {
    c.(place := CheckIce, clientSocket := None, outQueue := c.outQueue[1..],
       sent := c.sent + [(c.clientSocket.value, c.outQueue[0])])
  }

  /** A worker that finds a message and holds a socket sends the oldest one over it,
      deletes it and lets it go, by seven steps of its own. */
  lemma SendsOldest(s: State, i: nat, k: nat)
    requires Inv(s) && i < |s.connections| && s.connections[i].place == CheckCount
    requires s.connections[i].outQueue != [] && s.connections[i].clientSocket == Some(k)
    ensures k < |s.sockets| && s.sockets[k] == Socket(Wait(s.connections[i].peerId), [], 0, 0)
    ensures After(s, Own(i, 7))
         == Some(WithSocket(s, i, Relieved(s.connections[i]), k,
                            Socket(Wait(s.connections[i].peerId), [s.connections[i].outQueue[0]], 0, 1)))
    ensures Inv(After(s, Own(i, 7)).value)
  {
    var c := s.connections[i];
    HeldExists(s, i, k);
    Unlocked(s, i);
    FreshSocket(s.sockets[k], c);
    hide Inv, After, Sane, SocketFits;
    TakesMessage(s, i, k);
    GivesMessage(s, i, k);
    OwnSplits(i);
    AfterBoth(s, Own(i, 4), Own(i, 3));
  }

  lemma Unlocked(s: State, i: nat)
    requires Inv(s) && i < |s.connections| && s.connections[i].place == CheckCount
    ensures !s.connections[i].locked
  {
    hide ExactlyOnce, SocketsSane, HeldSane, SentSane, SentDistinct, ListSane, AcceptSane, IdsSane, AllRouted;
    assert Sane(s.connections[i]);
  }

  lemma FreshSocket(x: Socket, c: Connection)
    requires SocketFits(x, c) && c.place == CheckCount
    ensures x == Socket(Wait(c.peerId), [], 0, 0)
  {
  }

  lemma OwnSplits(i: nat)
    ensures Own(i, 7) == Own(i, 4) + Own(i, 3)
    ensures Own(i, 4) == [Worker(i, STAY)] + ([Worker(i, STAY)] + ([Worker(i, STAY)] + ([Worker(i, STAY)] + [])))
    ensures Own(i, 2) == [Worker(i, STAY)] + ([Worker(i, STAY)] + [])
    ensures Own(i, 3) == [Worker(i, STAY)] + ([Worker(i, STAY)] + ([Worker(i, STAY)] + []))
  {
    OwnSum(i, 4, 3);
    OwnSum(i, 0, 0);
    OwnNext(i, 0);
    OwnNext(i, 1);
    OwnNext(i, 2);
    OwnNext(i, 3);
  }

  lemma OwnNext(i: nat, n: nat)
    ensures Own(i, n + 1) == [Worker(i, STAY)] + Own(i, n) && Own(i, 0) == []
  {
  }

  lemma {:induction false} OwnSum(i: nat, m: nat, n: nat)
    ensures Own(i, m + n) == Own(i, m) + Own(i, n)
  {
    if m > 0 {
      OwnSum(i, m - 1, n);
    }
  }

  /** With the message in its hands. */
  function Taken(c: Connection): Connection
    requires c.outQueue != []
  {
    c.(place := Send(c.outQueue[0]), locked := true, outQueue := c.outQueue[1..])
  }

  lemma TakesMessage(s: State, i: nat, k: nat)
    requires Inv(s) && i < |s.connections| && s.connections[i].place == CheckCount
    requires s.connections[i].outQueue != [] && s.connections[i].clientSocket == Some(k) && !s.connections[i].locked
    ensures After(s, Own(i, 4)) == Some(With(s, i, Taken(s.connections[i]))) && Inv(With(s, i, Taken(s.connections[i])))
  {
    hide Inv, After, Own;
    OwnSplits(i);
    var c, w := s.connections[i], Worker(i, STAY);
    var c1, c2, c3 := c.(place := Lock), c.(place := Locked, locked := true), c.(place := Get, locked := true);
    WithAll(s, i, c1, c2, c3, Taken(c));
    Turn(s, i, STAY, c1, [w] + ([w] + ([w] + [])));
    Turn(With(s, i, c1), i, STAY, c2, [w] + ([w] + []));
    Turn(With(s, i, c2), i, STAY, c3, [w] + []);
    Turn(With(s, i, c3), i, STAY, Taken(c), []);
    Done(With(s, i, Taken(c)));
  }

  lemma WithAll(s: State, i: nat, a: Connection, b: Connection, c: Connection, d: Connection)
    requires i < |s.connections|
    ensures With(With(s, i, a), i, b) == With(s, i, b) && With(With(s, i, b), i, c) == With(s, i, c)
    ensures With(With(s, i, c), i, d) == With(s, i, d) && |With(s, i, a).connections| == |s.connections|
    ensures With(s, i, a).connections[i] == a && With(s, i, b).connections[i] == b && With(s, i, c).connections[i] == c
  {
    WithTwice(s, i, a, b);
    WithTwice(s, i, b, c);
    WithTwice(s, i, c, d);
  }

  lemma GivesMessage(s: State, i: nat, k: nat)
    requires i < |s.connections| && k < |s.sockets| && s.connections[i].outQueue != []
    requires s.connections[i].clientSocket == Some(k) && !s.connections[i].locked
    requires Inv(With(s, i, Taken(s.connections[i])))
    requires s.sockets[k] == Socket(Wait(s.connections[i].peerId), [], 0, 0)
    ensures var c := s.connections[i];
            var t := WithSocket(s, i, Relieved(c), k, Socket(Wait(c.peerId), [c.outQueue[0]], 0, 1));
            After(With(s, i, Taken(c)), Own(i, 3)) == Some(t) && Inv(t)
  {
    hide Inv, After, Own;
    OwnSplits(i);
    var c, w := s.connections[i], Worker(i, STAY);
    var m := c.outQueue[0];
    var c4 := Relieved(c).(place := DeleteSocket, locked := true, clientSocket := Some(k));
    var c5, x4, x5 := c4.(place := ClearSocket), Socket(Wait(c.peerId), [m], 0, 0), Socket(Wait(c.peerId), [m], 0, 1);
    var s3 := With(s, i, Taken(c));
    SocketTurn(s3, i, c4, k, x4, [w] + ([w] + []));
    SocketTwice(s, i, k, Taken(c), c4, c5, x4, x5);
    SocketTurn(WithSocket(s, i, c4, k, x4), i, c5, k, x5, [w] + []);
    SocketThen(s, i, k, c5, Relieved(c), x5);
    Turn(WithSocket(s, i, c5, k, x5), i, STAY, Relieved(c), []);
    Done(WithSocket(s, i, Relieved(c), k, x5));
  }

  lemma SocketTwice(s: State, i: nat, k: nat, c3: Connection, c4: Connection, c5: Connection, x4: Socket, x5: Socket)
    requires i < |s.connections| && k < |s.sockets|
    ensures WithSocket(With(s, i, c3), i, c4, k, x4) == WithSocket(s, i, c4, k, x4)
    ensures WithSocket(WithSocket(s, i, c4, k, x4), i, c5, k, x5) == WithSocket(s, i, c5, k, x5)
    ensures WithSocket(s, i, c4, k, x4).connections[i] == c4 && WithSocket(s, i, c4, k, x4).sockets[k] == x4
  {
    assert s.connections[i := c3][i := c4] == s.connections[i := c4];
    assert s.connections[i := c4][i := c5] == s.connections[i := c5];
    assert s.sockets[k := x4][k := x5] == s.sockets[k := x5];
  }

  lemma SocketThen(s: State, i: nat, k: nat, c5: Connection, c6: Connection, x5: Socket)
    requires i < |s.connections| && k < |s.sockets|
    ensures With(WithSocket(s, i, c5, k, x5), i, c6) == WithSocket(s, i, c6, k, x5)
    ensures WithSocket(s, i, c5, k, x5).connections[i] == c5
  {
    assert s.connections[i := c5][i := c6] == s.connections[i := c6];
  }

  /** Without a socket the messages stay in the queue. */
  lemma KeepsWithoutSocket(s: State, i: nat)
    requires Inv(s) && i < |s.connections| && s.connections[i].place == CheckCount
    requires s.connections[i].outQueue != [] && s.connections[i].clientSocket == None
    ensures After(s, Own(i, 3)) == Some(With(s, i, s.connections[i].(place := CheckIce)))
    ensures Inv(With(s, i, s.connections[i].(place := CheckIce)))
  {
    var c, w := s.connections[i], Worker(i, STAY);
    Unlocked(s, i);
    hide Inv, After, Own;
    OwnSplits(i);
    var c1, c2, c3 := c.(place := Lock), c.(place := Locked, locked := true), c.(place := CheckIce);
    WithoutSocket(c);
    WithAll(s, i, c1, c2, c3, c3);
    hide Work;
    Turn(s, i, STAY, c1, [w] + ([w] + []));
    Turn(With(s, i, c1), i, STAY, c2, [w] + []);
    Turn(With(s, i, c2), i, STAY, c3, []);
    Done(With(s, i, c3));
  }

  lemma WithoutSocket(c: Connection)
    requires c.place == CheckCount && c.outQueue != [] && c.clientSocket.None? && !c.locked
    ensures var c1, c2 := c.(place := Lock), c.(place := Locked, locked := true);
            Work(c, STAY) == c1 && Work(c1, STAY) == c2 && Work(c2, STAY) == c.(place := CheckIce)
  {
  }

  /** Without a message the worker does not even take the mutex. */
  lemma NothingToSend(s: State, i: nat)
    requires Inv(s) && i < |s.connections| && s.connections[i].place == CheckCount && s.connections[i].outQueue == []
    ensures After(s, Own(i, 1)) == Some(With(s, i, s.connections[i].(place := CheckIce)))
    ensures Inv(With(s, i, s.connections[i].(place := CheckIce)))
  {
    hide Inv, After;
    assert Own(i, 1) == [Worker(i, STAY)] + [];
    Turn(s, i, STAY, s.connections[i].(place := CheckIce), []);
    Done(With(s, i, s.connections[i].(place := CheckIce)));
  }

  // ---------------------------------------------------------------- receiving

  /** The first message posted to the worker is handled two steps later. */
  lemma HandlesFirst(s: State, i: nat)
    requires Inv(s) && i < |s.connections| && s.connections[i].inQueue != []
    requires s.connections[i].place == Dequeue || s.connections[i].place == Waiting
    ensures var c := s.connections[i];
            var d := c.(place := CheckCount, inQueue := c.inQueue[1..], handled := c.handled + [c.inQueue[0]]);
            After(s, Own(i, 2)) == Some(With(s, i, d)) && Inv(With(s, i, d))
  {
    hide Inv, After, Own;
    var c, w := s.connections[i], Worker(i, STAY);
    var c1 := c.(place := Handle(c.inQueue[0]), inQueue := c.inQueue[1..]);
    var c2 := c1.(place := CheckCount, handled := c.handled + [c.inQueue[0]]);
    WithAll(s, i, c1, c2, c2, c2);
    OwnSplits(i);
    Turn(s, i, STAY, c1, [w] + []);
    Turn(With(s, i, c1), i, STAY, c2, []);
    Done(With(s, i, c2));
  }

  /** With nothing posted the worker waits until the time is up. */
  lemma WaitsInVain(s: State, i: nat)
    requires Inv(s) && i < |s.connections| && s.connections[i].place == Dequeue && s.connections[i].inQueue == []
    ensures var d := s.connections[i].(place := CheckCount);
            After(s, Own(i, 2) + [Worker(i, GIVE_UP)]) == Some(With(s, i, d)) && Inv(With(s, i, d))
  {
    hide Inv, After, Own;
    var c, w := s.connections[i], Worker(i, STAY);
    var c1, c2 := c.(place := Waiting), c.(place := CheckCount);
    WithAll(s, i, c1, c1, c2, c2);
    var g := Worker(i, GIVE_UP);
    OwnSplits(i);
    Turn(s, i, STAY, c1, [w] + []);
    Turn(With(s, i, c1), i, STAY, c1, []);
    Done(With(s, i, c1));
    AfterBoth(s, Own(i, 2), [g]);
    assert [g] == [g] + [];
    Turn(With(s, i, c1), i, GIVE_UP, c2, []);
    Done(With(s, i, c2));
  }

  // ---------------------------------------------------------------- coming round

  /** A live connection's worker is back at its queue three steps after the check. */
  lemma ComesRound(s: State, i: nat)
    requires Inv(s) && i < |s.connections| && s.connections[i].place == CheckIce && s.connections[i].alive
    ensures var d := s.connections[i].(place := Dequeue);
            After(s, Own(i, 3)) == Some(With(s, i, d)) && Inv(With(s, i, d))
  {
    hide Inv, After, Own;
    OwnSplits(i);
    var c, w := s.connections[i], Worker(i, STAY);
    var c1, c2, c3 := c.(place := Process), c.(place := LoopTest), c.(place := Dequeue);
    WithAll(s, i, c1, c2, c3, c3);
    Turn(s, i, STAY, c1, [w] + ([w] + []));
    Turn(With(s, i, c1), i, STAY, c2, [w] + []);
    Turn(With(s, i, c2), i, STAY, c3, []);
    Done(With(s, i, c3));
  }

  /** A dead one's worker ends. */
  lemma Ends(s: State, i: nat)
    requires Inv(s) && i < |s.connections| && s.connections[i].place == CheckIce
    ensures var d := s.connections[i].(place := Returned, alive := false, state := End);
            After(s, [Worker(i, DIE)] + Own(i, 3)) == Some(With(s, i, d)) && Inv(With(s, i, d))
  {
    hide Inv, After, Own;
    OwnSplits(i);
    var c, w := s.connections[i].(alive := false), Worker(i, STAY);
    var c1, c2, c3 := c.(place := Process), c.(place := LoopTest), c.(place := Ending);
    var c4 := c.(place := Returned, state := End);
    WithAll(s, i, c1, c2, c3, c4);
    Turn(s, i, DIE, c1, [w] + ([w] + ([w] + [])));
    Turn(With(s, i, c1), i, STAY, c2, [w] + ([w] + []));
    Turn(With(s, i, c2), i, STAY, c3, [w] + []);
    Turn(With(s, i, c3), i, STAY, c4, []);
    Done(With(s, i, c4));
  }

  /** Steps of worker `i` alone. */
  predicate OwnSteps(steps: seq<Step>, i: nat) {
    forall j :: 0 <= j < |steps| ==> steps[j].Worker? && steps[j].connection == i
  }

  lemma {:induction false} OwnIsOwn(i: nat, n: nat)
    ensures OwnSteps(Own(i, n), i)
  {
    if n > 0 {
      OwnIsOwn(i, n - 1);
    }
  }

  /** What the worker has come to once it looked for a message to send. */
  function Looked(c: Connection): Connection {
    (if c.outQueue != [] && c.clientSocket.Some? then Relieved(c) else c).(place := CheckIce)
  }

  lemma LooksForMessage(s: State, i: nat) returns (n: nat)
    requires Inv(s) && i < |s.connections| && s.connections[i].place == CheckCount
    ensures var t := After(s, Own(i, n));
            && t.Some? && Inv(t.value) && |t.value.connections| == |s.connections|
            && t.value.connections[i] == Looked(s.connections[i])
  {
    hide Inv, After, Own;
    var c := s.connections[i];
    if c.outQueue == [] {
      NothingToSend(s, i);
      n := 1;
    } else if c.clientSocket.None? {
      KeepsWithoutSocket(s, i);
      n := 3;
    } else {
      SendsOldest(s, i, c.clientSocket.value);
      n := 7;
    }
  }

  /** From the count of messages to the queue again, whatever there is to send. */
  lemma SendsAndComesRound(s: State, i: nat) returns (steps: seq<Step>)
    requires Inv(s) && i < |s.connections| && s.connections[i].place == CheckCount && s.connections[i].alive
    ensures OwnSteps(steps, i) && After(s, steps).Some? && Inv(After(s, steps).value)
    ensures var t := After(s, steps).value;
            |t.connections| == |s.connections| && t.connections[i] == Looked(s.connections[i]).(place := Dequeue)
  {
    hide Inv, After, Own, OwnSteps, Relieved;
    var n := LooksForMessage(s, i);
    var t := After(s, Own(i, n)).value;
    LookedLives(s.connections[i]);
    ComesRound(t, i);
    AfterBoth(s, Own(i, n), Own(i, 3));
    OwnSum(i, n, 3);
    OwnIsOwn(i, n + 3);
    steps := Own(i, n + 3);
  }

  lemma LookedLives(c: Connection)
    ensures Looked(c).alive == c.alive && Looked(c).inQueue == c.inQueue && Looked(c).handled == c.handled
  {
  }

  /** By its own steps a live worker handles everything posted to it, in order, and is
      back at its queue. */
  lemma {:induction false} InboxDrains(s: State, i: nat) returns (steps: seq<Step>)
    requires Inv(s) && i < |s.connections| && s.connections[i].place == Dequeue && s.connections[i].alive
    ensures OwnSteps(steps, i) && After(s, steps).Some?
    ensures var c, t := s.connections[i], After(s, steps).value;
            && i < |t.connections|
            && var d := t.connections[i];
               d.inQueue == [] && d.handled == c.handled + c.inQueue && d.place == Dequeue && d.alive
    decreases |s.connections[i].inQueue|
  {
    hide Inv, After, Own, OwnSteps;
    hide Looked;
    var c := s.connections[i];
    if c.inQueue == [] {
      steps := [];
      NoSteps(i);
      Done(s);
    } else {
      HandlesFirst(s, i);
      var s1 := After(s, Own(i, 2)).value;
      LookedLives(s1.connections[i]);
      var round := SendsAndComesRound(s1, i);
      var s2 := After(s1, round).value;
      var more := InboxDrains(s2, i);
      AfterBoth(s, Own(i, 2), round);
      AfterBoth(s, Own(i, 2) + round, more);
      steps := Own(i, 2) + round + more;
      OwnIsOwn(i, 2);
      ThreeOwn(Own(i, 2), round, more, i);
      assert c.handled + [c.inQueue[0]] + c.inQueue[1..] == c.handled + c.inQueue;
    }
  }

  lemma NoSteps(i: nat)
    ensures OwnSteps([], i)
  {
  }

  lemma ThreeOwn(a: seq<Step>, b: seq<Step>, c: seq<Step>, i: nat)
    requires OwnSteps(a, i) && OwnSteps(b, i) && OwnSteps(c, i)
    ensures OwnSteps(a + b + c, i)
  {
  }

  // ---------------------------------------------------------------- whatever the others do

  /** How many of the steps are worker `i`'s. */
  function OwnCount(steps: seq<Step>, i: nat): nat {
    if steps == [] then 0
    else (if steps[0].Worker? && steps[0].connection == i then 1 else 0) + OwnCount(steps[1..], i)
  }

  /** `n` of its own steps after worker `i` took the mutex with message `m` first in its
      queue, `left` behind it and socket `k` in its hands; `before` was sent until then. */
  ghost predicate Midway(s: State, i: nat, k: nat, m: bytes, left: seq<bytes>, before: seq<(nat, bytes)>, n: nat) {
    && i < |s.connections|
    && var c := s.connections[i];
       if n < 5 then Delivering(c, k, m, left, before, n)
       else
         && Carried(s, k, m) && before + [(k, m)] <= c.sent
         && (n == 5 ==> c.sent == before + [(k, m)] && left <= c.outQueue)
  }

  predicate Delivering(c: Connection, k: nat, m: bytes, left: seq<bytes>, before: seq<(nat, bytes)>, n: nat) {
    && c.clientSocket == Some(k) && c.sent == (if n < 3 then before else before + [(k, m)])
    && (if n < 2 then [m] + left else left) <= c.outQueue
    && c.place == (if n == 0 then Locked else if n == 1 then Get else if n == 2 then Send(m)
                   else if n == 3 then DeleteSocket else ClearSocket)
  }

  /** Socket `k` carried just `m`, was deleted once and stays so. */
  ghost predicate Carried(s: State, k: nat, m: bytes) {
    Abandoned(s, k) && s.sockets[k].carried == [m] && s.sockets[k].deletes == 1
  }

  /** What a step of another thread leaves of a connection. */
  lemma OthersLeaveQueue(s: State, step: Step, i: nat)
    requires Inv(s) && Enabled(s, step) && i < |s.connections| && !(step.Worker? && step.connection == i)
    ensures i < |Apply(s, step).connections|
    ensures var c, d := s.connections[i], Apply(s, step).connections[i];
            && d.place == c.place && d.sent == c.sent && c.outQueue <= d.outQueue
            && (c.locked ==> d.clientSocket == c.clientSocket)
  {
    hide Inv, Work, SocketMissing;
    if step.Acceptor? && s.accept.Serve? {
      ServingLeavesQueue(s, s.accept.socket, i);
    }
  }

  lemma ServingLeavesQueue(s: State, k: nat, i: nat)
    requires k < |s.sockets| && Listed(s) && CanServe(s, k) && i < |s.connections|
    ensures i < |ServeStep(s, k).connections|
    ensures var c, d := s.connections[i], ServeStep(s, k).connections[i];
            && d.place == c.place && d.sent == c.sent && c.outQueue == d.outQueue
            && (c.locked ==> d.clientSocket == c.clientSocket)
  {
    hide FindPeer;
  }

  lemma MidwayOther(s: State, step: Step, i: nat, k: nat, m: bytes, left: seq<bytes>, before: seq<(nat, bytes)>, n: nat)
    requires Inv(s) && Enabled(s, step) && !(step.Worker? && step.connection == i)
    requires Midway(s, i, k, m, left, before, n)
    ensures Midway(Apply(s, step), i, k, m, left, before, n)
  {
    if n < 5 {
      HeldIsLocked(s, i);
    } else {
      AbandonedStep(s, step, k);
    }
    hide Inv, Apply, Enabled, Abandoned;
    OthersLeaveQueue(s, step, i);
  }

  lemma HeldIsLocked(s: State, i: nat)
    requires Inv(s) && i < |s.connections|
    ensures s.connections[i].locked <==> Holding(s.connections[i].place)
  {
    hide ExactlyOnce, SocketsSane, HeldSane, SentSane, SentDistinct, ListSane, AcceptSane, IdsSane, AllRouted;
    assert Sane(s.connections[i]);
  }

  lemma MidwayOwn(
    s: State, choice: Choice, i: nat, k: nat, m: bytes, left: seq<bytes>, before: seq<(nat, bytes)>, n: nat)
    requires Inv(s) && Enabled(s, Worker(i, choice)) && Midway(s, i, k, m, left, before, n)
    ensures Midway(Apply(s, Worker(i, choice)), i, k, m, left, before, n + 1)
  {
    OwnPart(s, i, choice);
    var c := s.connections[i];
    if n < 4 {
      WorkDelivers(c, choice, k, m, left, before, n);
      hide Inv, WorkerStep, CanWork, Delivering, Work;
    } else if n == 4 {
      DeliveredThen(s, choice, i, k, m, before);
      LastDelivers(c, choice, k, m, left, before);
      hide Inv, WorkerStep, CanWork, Work, Carried;
    } else {
      AbandonedStep(s, Worker(i, choice), k);
      hide Inv, WorkerStep, CanWork, Abandoned, Work;
      WorkFacts(c, choice);
    }
  }

  lemma WorkDelivers(
    c: Connection, choice: Choice, k: nat, m: bytes, left: seq<bytes>, before: seq<(nat, bytes)>, n: nat)
    requires CanWork(c) && n < 4 && Delivering(c, k, m, left, before, n)
    ensures Delivering(Work(c, choice), k, m, left, before, n + 1)
  {
    if n == 1 {
      assert c.outQueue[0] == m && left <= c.outQueue[1..];
    }
  }

  lemma LastDelivers(c: Connection, choice: Choice, k: nat, m: bytes, left: seq<bytes>, before: seq<(nat, bytes)>)
    requires CanWork(c) && Delivering(c, k, m, left, before, 4)
    ensures Work(c, choice).sent == before + [(k, m)] && left <= Work(c, choice).outQueue
  {
  }

  lemma OwnPart(s: State, i: nat, choice: Choice)
    requires i < |s.connections| && CanWork(s.connections[i])
    ensures var t := WorkerStep(s, i, choice);
            |t.connections| == |s.connections| && t.connections[i] == Work(s.connections[i], choice)
  {
    hide Work;
  }

  lemma DeliveredThen(s: State, choice: Choice, i: nat, k: nat, m: bytes, before: seq<(nat, bytes)>)
    requires Inv(s) && Enabled(s, Worker(i, choice)) && i < |s.connections| && Holds(s, i, k)
    requires s.connections[i].place == ClearSocket && s.connections[i].sent == before + [(k, m)]
    ensures Carried(WorkerStep(s, i, choice), k, m)
  {
    var t := WorkerStep(s, i, choice);
    LettingGo(s, Worker(i, choice), i, k);
    StepKeeps(s, Worker(i, choice));
    OwnPart(s, i, choice);
    WasSent(t, i, |before|, k, m);
  }

  lemma WasSent(s: State, i: nat, a: nat, k: nat, m: bytes)
    requires Inv(s) && i < |s.connections| && a < |s.connections[i].sent| && s.connections[i].sent[a] == (k, m)
    ensures k < |s.sockets| && s.sockets[k].carried == [m]
  {
    hide Sane, SocketsSane, HeldSane, SentDistinct, ListSane, AcceptSane, IdsSane, AllRouted;
  }

  lemma {:induction false} MidwayStays(
    s: State, steps: seq<Step>, i: nat, k: nat, m: bytes, left: seq<bytes>, before: seq<(nat, bytes)>, n: nat)
    requires Inv(s) && After(s, steps).Some? && Midway(s, i, k, m, left, before, n)
    ensures Midway(After(s, steps).value, i, k, m, left, before, n + OwnCount(steps, i))
    decreases |steps|
  {
    hide Inv, Enabled, Apply, Midway;
    if steps != [] {
      var step, rest := steps[0], steps[1..];
      StepKeeps(s, step);
      if step.Worker? && step.connection == i {
        MidwayOwn(s, step.choice, i, k, m, left, before, n);
        MidwayStays(Apply(s, step), rest, i, k, m, left, before, n + 1);
      } else {
        MidwayOther(s, step, i, k, m, left, before, n);
        MidwayStays(Apply(s, step), rest, i, k, m, left, before, n);
      }
    }
  }

  /** Whatever the other threads do in between: once a worker has taken the mutex with a
      message in its queue and a socket in its hands, five steps of its own deliver the
      oldest message over that socket, and the rest of the queue is still there. */
  lemma DeliversWhateverHappens(s: State, i: nat, k: nat, steps: seq<Step>)
    requires Inv(s) && i < |s.connections| && s.connections[i].place == Locked
    requires s.connections[i].clientSocket == Some(k) && After(s, steps).Some? && OwnCount(steps, i) >= 5
    ensures s.connections[i].outQueue != []
    ensures var c, t := s.connections[i], After(s, steps).value;
            var m := c.outQueue[0];
            && k < |t.sockets| && t.sockets[k].carried == [m] && t.sockets[k].deletes == 1
            && i < |t.connections| && !Holds(t, i, k) && c.sent + [(k, m)] <= t.connections[i].sent
            && (OwnCount(steps, i) == 5 ==>
                  t.connections[i].sent == c.sent + [(k, m)] && c.outQueue[1..] <= t.connections[i].outQueue)
  {
    hide After, OwnCount, Abandoned;
    var c := s.connections[i];
    QueueAtLock(s, i);
    assert [c.outQueue[0]] + c.outQueue[1..] == c.outQueue;
    MidwayStays(s, steps, i, k, c.outQueue[0], c.outQueue[1..], c.sent, 0);
    StepsKeep(s, steps);
    LetGo(After(s, steps).value, i, k, c.outQueue[0]);
  }

  lemma QueueAtLock(s: State, i: nat)
    requires Inv(s) && i < |s.connections| && s.connections[i].place == Locked
    ensures s.connections[i].outQueue != []
  {
    hide ExactlyOnce, SocketsSane, HeldSane, SentSane, SentDistinct, ListSane, AcceptSane, IdsSane, AllRouted;
    assert Sane(s.connections[i]);
  }

  /** Nobody holds a socket that carried a message and was deleted, unless its worker is
      about to let it go. */
  lemma LetGo(s: State, i: nat, k: nat, m: bytes)
    requires Inv(s) && i < |s.connections| && Carried(s, k, m)
    ensures k < |s.sockets| && !Holds(s, i, k)
  {
    assert EndedOrFree(s, i, k);
    if Holds(s, i, k) {
      HeldExists(s, i, k);
    }
  }

  // ---------------------------------------------------------------- from the start

  /** The peer whose wait is held, with its worker at a place. */
  function Served(place: Place, queue: seq<bytes>): Connection {
    PEER.(clientSocket := Some(1), state := Connected, place := place, outQueue := queue, produced := queue)
  }

  const RUNS: seq<Step> := [Worker(0, STAY)]
  const TIMEOUT: seq<Step> := [Worker(0, GIVE_UP)]

  /** A peer signs in and waits, its worker starts, a callback queues a message, and the
      worker comes to send it: the message is on the socket of the wait. */
  lemma MessageReachesWait(m: bytes)
    ensures var run := SIGN_IN + WAIT + (RUNS + ([Callback(0, m)] + (RUNS + (RUNS + (TIMEOUT + Own(0, 7))))));
            var t := After(INITIAL, run);
            && t.Some?
            && t.value.sockets == [SIGNED_IN, Socket(Wait(1), [m], 0, 1)]
            && t.value.connections == [PEER.(state := Connected, place := CheckIce, produced := [m], sent := [(1, m)])]
  {
    hide After, Inv, Own;
    WaitsThen();
    RunIsSafe(SIGN_IN + WAIT);
    var s := Pending(Accepting, [], 1, PEER);
    var send := Own(0, 7);
    var later := RUNS + (RUNS + (TIMEOUT + send));
    AfterBoth(INITIAL, SIGN_IN + WAIT, RUNS + ([Callback(0, m)] + later));
    var quiet := With(s, 0, Served(LoopTest, []));
    Turn(s, 0, STAY, Served(LoopTest, []), [Callback(0, m)] + later);
    WithTwice(s, 0, Served(LoopTest, []), Served(LoopTest, [m]));
    Queues(quiet, m, later);
    QueuedIsSent(With(s, 0, Served(LoopTest, [m])), m);
  }

  lemma Queues(s: State, m: bytes, rest: seq<Step>)
    requires Inv(s) && |s.connections| == 1 && s.connections[0] == Served(LoopTest, [])
    ensures var t := With(s, 0, Served(LoopTest, [m])); Inv(t) && After(s, [Callback(0, m)] + rest) == After(t, rest)
  {
    StepKeeps(s, Callback(0, m));
    hide Inv, After;
    assert s.connections[0].outQueue + [m] == [m] && s.connections[0].produced + [m] == [m];
    OneStep(s, Callback(0, m), rest, With(s, 0, Served(LoopTest, [m])));
  }

  lemma QueuedIsSent(s: State, m: bytes)
    requires Inv(s) && |s.connections| == 1 && s.connections[0] == Served(LoopTest, [m]) && |s.sockets| == 2
    ensures var t := After(s, RUNS + (RUNS + (TIMEOUT + Own(0, 7))));
            && t.Some?
            && t.value.sockets == [s.sockets[0], Socket(Wait(1), [m], 0, 1)]
            && t.value.connections == [PEER.(state := Connected, place := CheckIce, produced := [m], sent := [(1, m)])]
  {
    hide After, Inv, Own;
    var send := Own(0, 7);
    var c1, c2, c3 := Served(Dequeue, [m]), Served(Waiting, [m]), Served(CheckCount, [m]);
    WithAll(s, 0, c1, c2, c3, c3);
    Turn(s, 0, STAY, c1, RUNS + (TIMEOUT + send));
    Turn(With(s, 0, c1), 0, STAY, c2, TIMEOUT + send);
    Turn(With(s, 0, c2), 0, GIVE_UP, c3, send);
    SendsOldest(With(s, 0, c3), 0, 1);
    assert c3.outQueue[1..] == [] && c3.sent + [(1, m)] == [(1, m)];
    var t := After(With(s, 0, c3), send).value;
    assert t.connections == [Relieved(c3)] && t.sockets[0] == s.sockets[0];
  }
}
