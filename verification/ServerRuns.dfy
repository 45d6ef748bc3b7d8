/**
 Runs of the server, step by step from the start, that end with a client socket open
 for ever: a page asked for after a wait, a second wait of the same peer, and a peer
 that ended while its wait was pending.
 */
module SignallingRuns {
  import opened Optional
  import opened SignallingServer
  import opened SignallingSafety
  import opened SignallingLeaks

  const GO := Acceptor(Nobody)
  const STAY := Choice(false, false)
  const GIVE_UP := Choice(true, false)
  const DIE := Choice(false, true)

  lemma OneStep(s: State, step: Step, rest: seq<Step>, s': State)
    requires Enabled(s, step) && Apply(s, step) == s'
    ensures After(s, [step] + rest) == After(s', rest)
  {
    assert ([step] + rest)[1..] == rest;
  }

  lemma Done(s: State)
    ensures After(s, []) == Some(s)
  {
  }

  lemma {:induction false} AfterBoth(s: State, first: seq<Step>, second: seq<Step>)
    requires After(s, first).Some?
    ensures After(s, first + second) == After(After(s, first).value, second)
    decreases |first|
  {
    hide Enabled, Apply;
    if first == [] {
      assert first + second == second;
    } else {
      assert (first + second)[1..] == first[1..] + second;
      AfterBoth(Apply(s, first[0]), first[1..], second);
    }
  }

  // ---------------------------------------------------------------- a peer signs in and waits

  const PEER: Connection := NewConnection(1, 0)
  const SIGNED_IN: Socket := Socket(SignIn, [], 1, 1)

  function Pending(accept: Accept, more: seq<Socket>, held: nat, c: Connection): State {
    var sockets := [SIGNED_IN, Socket(Wait(1), [], 0, 0)] + more;
    State(sockets, [c.(clientSocket := Some(held))], [0], 2, false, accept, [], false)
  }

  const SIGN_IN: seq<Step> := [Acceptor(Client(SignIn)), GO, GO]
  const WAIT: seq<Step> := [Acceptor(Client(Wait(1))), GO, GO]

  lemma SignsIn()
    ensures After(INITIAL, SIGN_IN) == Some(State([SIGNED_IN], [PEER], [0], 2, true, Accepting, [], false))
  {
    hide After;
    var s1 := State([Socket(SignIn, [], 0, 0)], [], [], 1, true, Serve(0), [], false);
    var s2 := State([Socket(SignIn, [], 1, 0)], [PEER], [0], 2, true, CloseCheck(0), [], false);
    var s3 := State([SIGNED_IN], [PEER], [0], 2, true, Accepting, [], false);
    assert SIGN_IN == [Acceptor(Client(SignIn))] + ([GO] + ([GO] + []));
    OneStep(INITIAL, Acceptor(Client(SignIn)), [GO] + ([GO] + []), s1);
    OneStep(s1, GO, [GO] + [], s2);
    OneStep(s2, GO, [], s3);
    Done(s3);
  }

  lemma WaitsThen()
    ensures After(INITIAL, SIGN_IN + WAIT) == Some(Pending(Accepting, [], 1, PEER))
  {
    hide After;
    SignsIn();
    AfterBoth(INITIAL, SIGN_IN, WAIT);
    var s0 := State([SIGNED_IN], [PEER], [0], 2, true, Accepting, [], false);
    var s1 := State([SIGNED_IN, Socket(Wait(1), [], 0, 0)], [PEER], [0], 2, true, Serve(1), [], false);
    assert WAIT == [Acceptor(Client(Wait(1)))] + ([GO] + ([GO] + []));
    OneStep(s0, Acceptor(Client(Wait(1))), [GO] + ([GO] + []), s1);
    assert FindPeer(s1, 0, 1) == Some(0);
    OneStep(s1, GO, [GO] + [], Pending(CloseCheck(1), [], 1, PEER));
    OneStep(Pending(CloseCheck(1), [], 1, PEER), GO, [], Pending(Accepting, [], 1, PEER));
    Done(Pending(Accepting, [], 1, PEER));
  }

  // ---------------------------------------------------------------- a page after the wait

  /** Once a wait found its peer, the socket of the next page stays open in every
      continuation. */
  lemma PageStaysOpen(steps: seq<Step>)
    requires After(INITIAL, SIGN_IN + WAIT + [Acceptor(Client(Page)), GO] + steps).Some?
    ensures var s := After(INITIAL, SIGN_IN + WAIT + [Acceptor(Client(Page)), GO] + steps).value;
            2 < |s.sockets| && s.sockets[2].request == Page && s.sockets[2].deletes == 0
    ensures After(INITIAL, SIGN_IN + WAIT + [Acceptor(Client(Page)), GO]).Some?
  {
    hide After, Inv;
    PageIsServed();
    var run := SIGN_IN + WAIT + [Acceptor(Client(Page)), GO];
    var s := After(INITIAL, run).value;
    RunIsSafe(run);
    AfterBoth(INITIAL, run, steps);
    assert Deciding(s, 2) by {
      assert !Holds(s, 0, 2);
    }
    NothingClosedAfterWait(s, 2, steps);
    RequestStays(s, steps, 2);
  }

  lemma PageIsServed()
    ensures After(INITIAL, SIGN_IN + WAIT + [Acceptor(Client(Page)), GO])
         == Some(Pending(CloseCheck(2), [Socket(Page, [], 1, 0)], 1, PEER))
  {
    hide After;
    WaitsThen();
    AfterBoth(INITIAL, SIGN_IN + WAIT, [Acceptor(Client(Page)), GO]);
    assert [Acceptor(Client(Page)), GO] == [Acceptor(Client(Page))] + ([GO] + []);
    OneStep(Pending(Accepting, [], 1, PEER), Acceptor(Client(Page)), [GO] + [],
      Pending(Serve(2), [Socket(Page, [], 0, 0)], 1, PEER));
    OneStep(Pending(Serve(2), [Socket(Page, [], 0, 0)], 1, PEER), GO, [],
      Pending(CloseCheck(2), [Socket(Page, [], 1, 0)], 1, PEER));
    Done(Pending(CloseCheck(2), [Socket(Page, [], 1, 0)], 1, PEER));
  }

  lemma RequestStep(s: State, step: Step, k: nat)
    requires Enabled(s, step) && k < |s.sockets|
    ensures k < |Apply(s, step).sockets| && Apply(s, step).sockets[k].request == s.sockets[k].request
  {
    hide Work, SocketMissing, ServeStep, CanServe;
    if step.Acceptor? && s.accept.Serve? {
      RequestServed(s, s.accept.socket, k);
    }
  }

  lemma RequestServed(s: State, n: nat, k: nat)
    requires n < |s.sockets| && Listed(s) && CanServe(s, n) && k < |s.sockets|
    ensures k < |ServeStep(s, n).sockets| && ServeStep(s, n).sockets[k].request == s.sockets[k].request
  {
    hide CanServe, FindPeer;
  }

  lemma {:induction false} RequestStays(s: State, steps: seq<Step>, k: nat)
    requires After(s, steps).Some? && k < |s.sockets|
    ensures k < |After(s, steps).value.sockets| && After(s, steps).value.sockets[k].request == s.sockets[k].request
    decreases |steps|
  {
    hide Enabled, Apply;
    if steps != [] {
      RequestStep(s, steps[0], k);
      RequestStays(Apply(s, steps[0]), steps[1..], k);
    }
  }

  // ---------------------------------------------------------------- a second wait

  /** A second wait of the same peer leaves the socket of the first open and unanswered
      in every continuation. */
  lemma FirstWaitStaysOpen(steps: seq<Step>)
    requires After(INITIAL, SIGN_IN + WAIT + WAIT + steps).Some?
    ensures var s := After(INITIAL, SIGN_IN + WAIT + WAIT + steps).value;
            1 < |s.sockets| && s.sockets[1] == Socket(Wait(1), [], 0, 0)
    ensures After(INITIAL, SIGN_IN + WAIT + WAIT).Some?
  {
    hide After;
    WaitsThen();
    AfterBoth(INITIAL, SIGN_IN + WAIT, WAIT);
    var second := [Socket(Wait(1), [], 0, 0)];
    assert WAIT == [Acceptor(Client(Wait(1)))] + ([GO] + ([GO] + []));
    OneStep(Pending(Accepting, [], 1, PEER), Acceptor(Client(Wait(1))), [GO] + ([GO] + []),
      Pending(Serve(2), second, 1, PEER));
    assert FindPeer(Pending(Serve(2), second, 1, PEER), 0, 1) == Some(0);
    OneStep(Pending(Serve(2), second, 1, PEER), GO, [GO] + [], Pending(CloseCheck(2), second, 2, PEER));
    OneStep(Pending(CloseCheck(2), second, 2, PEER), GO, [], Pending(Accepting, second, 2, PEER));
    Done(Pending(Accepting, second, 2, PEER));
    AfterBoth(INITIAL, SIGN_IN + WAIT + WAIT, steps);
    assert Abandoned(Pending(Accepting, second, 2, PEER), 1);
    AbandonedForever(Pending(Accepting, second, 2, PEER), steps, 1);
  }

  // ---------------------------------------------------------------- a peer that ended

  /** The worker starts, finds nothing to do, */
  const IDLE: seq<Step> :=
    [Worker(0, STAY), Worker(0, STAY), Worker(0, STAY), Worker(0, GIVE_UP), Worker(0, STAY)]

  /** is told that the connection is dead, and ends. */
  const END: seq<Step> := [Worker(0, DIE), Worker(0, STAY), Worker(0, STAY), Worker(0, STAY)]

  const WORK: seq<Step> := IDLE + END

  function At(state: Lifecycle, alive: bool, place: Place): Connection {
    PEER.(state := state, alive := alive, place := place)
  }

  lemma WorkerTurn(c: Connection, choice: Choice, c': Connection, rest: seq<Step>)
    requires CanWork(c) && !c.place.Send? && !c.place.DeleteSocket? && c.death.None?
    requires Work(c.(clientSocket := Some(1)), choice) == c'.(clientSocket := Some(1))
    ensures After(Pending(Accepting, [], 1, c), [Worker(0, choice)] + rest)
        == After(Pending(Accepting, [], 1, c'), rest)
  {
    hide After, Work;
    OneStep(Pending(Accepting, [], 1, c), Worker(0, choice), rest, Pending(Accepting, [], 1, c'));
  }

  lemma FourSteps(w: seq<Step>)
    requires 4 <= |w|
    ensures w == [w[0]] + w[1..] && w[1..] == [w[1]] + w[2..]
    ensures w[2..] == [w[2]] + w[3..] && w[3..] == [w[3]] + w[4..]
  {
  }

  lemma PeerIdles()
    ensures After(Pending(Accepting, [], 1, PEER), IDLE)
        == Some(Pending(Accepting, [], 1, At(Connected, true, CheckIce)))
  {
    hide After, Pending;
    var w := IDLE;
    FourSteps(w);
    assert w[4..] == [w[4]] + [];
    WorkerTurn(PEER, STAY, At(Connected, true, LoopTest), w[1..]);
    WorkerTurn(At(Connected, true, LoopTest), STAY, At(Connected, true, Dequeue), w[2..]);
    WorkerTurn(At(Connected, true, Dequeue), STAY, At(Connected, true, Waiting), w[3..]);
    WorkerTurn(At(Connected, true, Waiting), GIVE_UP, At(Connected, true, CheckCount), w[4..]);
    WorkerTurn(At(Connected, true, CheckCount), STAY, At(Connected, true, CheckIce), []);
    Done(Pending(Accepting, [], 1, At(Connected, true, CheckIce)));
  }

  lemma PeerEnds()
    ensures After(Pending(Accepting, [], 1, PEER), WORK) == Some(Pending(Accepting, [], 1, At(End, false, Returned)))
  {
    hide After, Pending;
    PeerIdles();
    AfterBoth(Pending(Accepting, [], 1, PEER), IDLE, END);
    var w := END;
    FourSteps(w);
    assert w[4..] == [];
    WorkerTurn(At(Connected, true, CheckIce), DIE, At(Connected, false, Process), w[1..]);
    WorkerTurn(At(Connected, false, Process), STAY, At(Connected, false, LoopTest), w[2..]);
    WorkerTurn(At(Connected, false, LoopTest), STAY, At(Connected, false, Ending), w[3..]);
    WorkerTurn(At(Connected, false, Ending), STAY, At(End, false, Returned), w[4..]);
    Done(Pending(Accepting, [], 1, At(End, false, Returned)));
  }

  /** Swept away with its wait pending, a peer leaves the socket open and unanswered in
      every continuation. */
  lemma PendingWaitStaysOpen(steps: seq<Step>)
    requires After(INITIAL, SIGN_IN + WAIT + WORK + [GO, GO, GO] + steps).Some?
    ensures var s := After(INITIAL, SIGN_IN + WAIT + WORK + [GO, GO, GO] + steps).value;
            1 < |s.sockets| && s.sockets[1].deletes == 0 && s.sockets[1].carried == []
    ensures var swept := After(INITIAL, SIGN_IN + WAIT + WORK + [GO, GO, GO]);
            swept.Some? && |swept.value.connections| == 1 && swept.value.list == []
              && swept.value.connections[0].death.Some?
  {
    hide After, Inv;
    PeerIsSwept();
    var run := SIGN_IN + WAIT + WORK + [GO, GO, GO];
    RunIsSafe(run);
    AfterBoth(INITIAL, run, steps);
    SweptHolderLeaks(After(INITIAL, run).value, 0, 1, steps);
  }

  lemma PeerIsSwept()
    ensures var ended := At(End, false, Returned);
            After(INITIAL, SIGN_IN + WAIT + WORK + [GO, GO, GO])
            == Some(Pending(Sweep(0), [], 1, ended.(death := Some(0))).(list := []))
  {
    hide After;
    var ended := At(End, false, Returned);
    var swept := Pending(Sweep(0), [], 1, ended.(death := Some(0))).(list := []);
    WaitsThen();
    PeerEnds();
    AfterBoth(INITIAL, SIGN_IN + WAIT, WORK);
    AfterBoth(INITIAL, SIGN_IN + WAIT + WORK, [GO, GO, GO]);
    assert [GO, GO, GO] == [GO] + ([GO] + ([GO] + []));
    OneStep(Pending(Accepting, [], 1, ended), GO, [GO] + ([GO] + []), Pending(Sweep(0), [], 1, ended));
    OneStep(Pending(Sweep(0), [], 1, ended), GO, [GO] + [], Pending(Join(0), [], 1, ended));
    assert [0][..0] + [0][1..] == [];
    OneStep(Pending(Join(0), [], 1, ended), GO, [], swept);
    Done(swept);
  }

  // ---------------------------------------------------------------- any number of peers

  function SignIns(n: nat): seq<Step> {
    if n == 0 then [] else SignIns(n - 1) + SIGN_IN
  }

  /** A sign-in adds one connection and leaves the accept loop where it was. */
  lemma OneSignsIn(s: State)
    requires Listed(s) && s.accept == Accepting && s.closeWait
    ensures var t := After(s, SIGN_IN);
            && t.Some? && t.value.accept == Accepting && t.value.closeWait
            && |t.value.connections| == |s.connections| + 1
  {
    hide After;
    var k := |s.sockets|;
    var s1 := s.(sockets := s.sockets + [Socket(SignIn, [], 0, 0)], accept := Serve(k));
    assert s1.sockets[k].request == SignIn;
    var s2 := ServeStep(s1, k);
    ServedSignIn(s1, k);
    var s3 := Deleted(s2.(accept := Accepting), k);
    assert SIGN_IN == [Acceptor(Client(SignIn))] + ([GO] + ([GO] + []));
    OneStep(s, Acceptor(Client(SignIn)), [GO] + ([GO] + []), s1);
    OneStep(s1, GO, [GO] + [], s2);
    OneStep(s2, GO, [], s3);
    Done(s3);
  }

  lemma ServedSignIn(s: State, k: nat)
    requires Listed(s) && k < |s.sockets| && s.sockets[k].request == SignIn && s.closeWait
    ensures var t := ServeStep(s, k);
            && Listed(t) && t.accept == CloseCheck(k) && k < |t.sockets| && t.closeWait
            && |t.connections| == |s.connections| + 1
  {
  }

  /** Any number of connections is reached. */
  lemma {:induction false} AnyNumberOfPeers(n: nat)
    ensures var t := After(INITIAL, SignIns(n));
            t.Some? && t.value.accept == Accepting && t.value.closeWait && |t.value.connections| == n
  {
    hide After, SIGN_IN;
    if n == 0 {
      Done(INITIAL);
    } else {
      AnyNumberOfPeers(n - 1);
      RunIsSafe(SignIns(n - 1));
      var s := After(INITIAL, SignIns(n - 1)).value;
      ListedWhenSafe(s);
      OneSignsIn(s);
      AfterBoth(INITIAL, SignIns(n - 1), SIGN_IN);
    }
  }

  lemma ListedWhenSafe(s: State)
    requires Inv(s)
    ensures Listed(s)
  {
  }

  predicate Distinct(s: State) {
    forall i, j :: 0 <= i < j < |s.connections| ==> s.connections[i].peerId != s.connections[j].peerId
  }

  /** After any run the ids are distinct if and only if there are at most 2^32 connections. */
  lemma DistinctExactly(steps: seq<Step>)
    requires After(INITIAL, steps).Some?
    ensures var s := After(INITIAL, steps).value; Distinct(s) <==> |s.connections| <= ID_RANGE
  {
    hide After, Inv;
    var s := After(INITIAL, steps).value;
    RunIsSafe(steps);
    if |s.connections| <= ID_RANGE {
      forall i, j | 0 <= i < j < |s.connections| ensures s.connections[i].peerId != s.connections[j].peerId {
        PeersAreDistinct(steps, i, j);
      }
    } else {
      IdsWhenSafe(s);
      IdsRepeat(s, 0);
      assert s.connections[0].peerId == s.connections[0 + ID_RANGE].peerId;
    }
  }

  lemma IdsWhenSafe(s: State)
    requires Inv(s)
    ensures IdsSane(s)
  {
    hide IdsSane;
  }

  /** One sign-in more than there are ids, and two peers share one. */
  lemma TooManyPeers()
    ensures var t := After(INITIAL, SignIns(ID_RANGE + 1)); t.Some? && !Distinct(t.value)
  {
    hide After, SignIns, Distinct;
    AnyNumberOfPeers(ID_RANGE + 1);
    DistinctExactly(SignIns(ID_RANGE + 1));
  }
}
