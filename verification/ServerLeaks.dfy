/**
 Client sockets that are never closed: exactly when the accept loop leaves a socket
 open, when a connection lets go of one, and runs that end with sockets open for ever.
 */
module SignallingLeaks {
  import opened Bytes
  import opened Optional
  import opened SignallingServer
  import opened SignallingSafety

  // ---------------------------------------------------------------- sockets nobody will touch

  /** Whoever still holds the socket has ended, and the accept loop will not touch it. */
  predicate Abandoned(s: State, k: nat) {
    && k < |s.sockets|
    && s.accept != Serve(k)
    && (s.accept == CloseCheck(k) ==> !s.closeWait)
    && forall i :: 0 <= i < |s.connections| ==> EndedOrFree(s, i, k)
  }

  predicate EndedOrFree(s: State, i: nat, k: nat)
    requires i < |s.connections|
  {
    s.connections[i].clientSocket == Some(k) ==> s.connections[i].place == Returned
  }

  lemma AbandonedByWorker(s: State, i: nat, choice: Choice, k: nat)
    requires i < |s.connections| && CanWork(s.connections[i]) && Abandoned(s, k)
    ensures Abandoned(WorkerStep(s, i, choice), k) && WorkerStep(s, i, choice).sockets[k] == s.sockets[k]
  {
    hide Work, SocketMissing;
    var s' := WorkerStep(s, i, choice);
    WorkFacts(s.connections[i], choice);
    assert EndedOrFree(s, i, k);
    forall j | 0 <= j < |s'.connections| ensures EndedOrFree(s', j, k) {
      assert EndedOrFree(s, j, k);
    }
  }

  lemma AbandonedByServing(s: State, n: nat, k: nat)
    requires n < |s.sockets| && Listed(s) && CanServe(s, n) && Abandoned(s, k) && n != k
    ensures Abandoned(ServeStep(s, n), k) && ServeStep(s, n).sockets[k] == s.sockets[k]
  {
    ServingSockets(s, n, k);
    ServingHolders(s, n, k);
    hide ServeStep, EndedOrFree;
  }

  lemma ServingSockets(s: State, n: nat, k: nat)
    requires n < |s.sockets| && k < |s.sockets| && Listed(s) && CanServe(s, n) && n != k
    ensures var s' := ServeStep(s, n);
            && |s'.sockets| == |s.sockets| && s'.sockets[k] == s.sockets[k]
            && (s'.accept == CloseCheck(n) || s'.accept == Accepting)
  {
    hide CanServe, FindPeer;
  }

  lemma ServingHolders(s: State, n: nat, k: nat)
    requires n < |s.sockets| && Listed(s) && CanServe(s, n) && n != k
    requires forall i :: 0 <= i < |s.connections| ==> EndedOrFree(s, i, k)
    ensures var s' := ServeStep(s, n); forall i :: 0 <= i < |s'.connections| ==> EndedOrFree(s', i, k)
  {
    hide CanServe, FindPeer;
    var s' := ServeStep(s, n);
    forall j | 0 <= j < |s'.connections| ensures EndedOrFree(s', j, k) {
      if j < |s.connections| {
        assert EndedOrFree(s, j, k);
      }
    }
  }

  lemma AbandonedByAcceptor(s: State, arrival: Arrival, k: nat)
    requires CanAccept(s) && Abandoned(s, k)
    ensures Abandoned(AcceptStep(s, arrival), k) && AcceptStep(s, arrival).sockets[k] == s.sockets[k]
  {
    hide CanServe, ServeStep;
    var s' := AcceptStep(s, arrival);
    if s.accept.Serve? {
      AbandonedByServing(s, s.accept.socket, k);
    } else {
      forall j | 0 <= j < |s'.connections| ensures EndedOrFree(s', j, k) {
        assert EndedOrFree(s, j, k);
      }
    }
  }

  lemma AbandonedByCallback(s: State, i: nat, m: bytes, k: nat)
    requires i < |s.connections| && Abandoned(s, k)
    ensures Abandoned(CallbackStep(s, i, m), k)
  {
    forall j | 0 <= j < |s.connections| ensures EndedOrFree(CallbackStep(s, i, m), j, k) {
      assert EndedOrFree(s, j, k);
    }
  }

  /** A socket that is let go of stays as it is for ever: if it was not answered it
      never will be, and if it was not deleted it never will be. */
  lemma AbandonedStep(s: State, step: Step, k: nat)
    requires Enabled(s, step) && Abandoned(s, k)
    ensures Abandoned(Apply(s, step), k) && Apply(s, step).sockets[k] == s.sockets[k]
  {
    hide WorkerStep, AcceptStep, CanWork, CanAccept, EndedOrFree;
    match step {
      case Worker(i, choice) => AbandonedByWorker(s, i, choice, k);
      case Callback(i, m) => AbandonedByCallback(s, i, m, k);
      case Acceptor(arrival) => AbandonedByAcceptor(s, arrival, k);
    }
  }

  lemma {:induction false} AbandonedForever(s: State, steps: seq<Step>, k: nat)
    requires After(s, steps).Some? && Abandoned(s, k)
    ensures Abandoned(After(s, steps).value, k) && After(s, steps).value.sockets[k] == s.sockets[k]
    decreases |steps|
  {
    hide Enabled, Apply, EndedOrFree;
    if steps != [] {
      AbandonedStep(s, steps[0], k);
      AbandonedForever(Apply(s, steps[0]), steps[1..], k);
    }
  }

  // ---------------------------------------------------------------- what the accept loop closes

  /** The accept loop is done with the socket. */
  predicate Past(s: State, k: nat) {
    k < |s.sockets| && s.accept != Serve(k) && s.accept != CloseCheck(k)
  }

  lemma PastStep(s: State, step: Step, k: nat)
    requires Enabled(s, step) && Past(s, k)
    ensures Past(Apply(s, step), k)
  {
    hide Work, SocketMissing, FindPeer, CanServe;
  }

  lemma {:induction false} PastForever(s: State, steps: seq<Step>, k: nat)
    requires After(s, steps).Some? && Past(s, k)
    ensures Past(After(s, steps).value, k)
    decreases |steps|
  {
    hide Enabled, Apply, Past;
    if steps != [] {
      PastStep(s, steps[0], k);
      PastForever(Apply(s, steps[0]), steps[1..], k);
    }
  }

  /** The accept loop is about to decide on a socket that nobody holds and no message
      went over. */
  predicate Deciding(s: State, k: nat) {
    s.accept == CloseCheck(k) && k < |s.sockets| && Unheld(s, k) && s.sockets[k].carried == []
  }

  /** Serving a request, unless it could not be parsed or hands its socket over, comes to
      that decision. */
  lemma ServingDecides(s: State, k: nat)
    requires Inv(s) && s.accept == Serve(k) && CanAccept(s)
    ensures Deciding(ServeStep(s, k), k)
        <==> !s.sockets[k].request.Unparsable? && !HandsOver(s, Acceptor(Nobody))
  {
    hide Sane, SocketsSane, HeldSane, SentSane, SentDistinct, ListSane, IdsSane, AllRouted, FindPeer;
    var s' := ServeStep(s, k);
    ServedSocket(s, k);
    if HandsOver(s, Acceptor(Nobody)) {
      var found := FindPeer(s, 0, s.sockets[k].request.peer);
      assert Holds(s', found.value, k);
    } else if !s.sockets[k].request.Unparsable? {
      forall i | 0 <= i < |s'.connections| ensures !Holds(s', i, k) {
        if i < |s.connections| {
          assert !Holds(s, i, k);
          ServingLeaves(s, k, i);
        }
      }
    }
  }

  /** What serving leaves of the socket itself. */
  lemma ServedSocket(s: State, k: nat)
    requires k < |s.sockets| && Listed(s) && CanServe(s, k)
    ensures var s' := ServeStep(s, k);
            && k < |s'.sockets| && s'.sockets[k].carried == s.sockets[k].carried
            && (s'.accept == CloseCheck(k) <==> !s.sockets[k].request.Unparsable?)
            && forall i :: |s.connections| <= i < |s'.connections| ==> s'.connections[i].clientSocket.None?
  {
    hide CanServe, FindPeer;
  }

  /** Other threads do not interfere with the decision. */
  lemma DecidingWaits(s: State, step: Step, k: nat)
    requires Enabled(s, step) && Deciding(s, k) && !step.Acceptor?
    ensures Deciding(Apply(s, step), k) && Apply(s, step).closeWait == s.closeWait
  {
    hide Work, SocketMissing;
    var s' := Apply(s, step);
    if step.Worker? {
      WorkFacts(s.connections[step.connection], step.choice);
      assert !Holds(s, step.connection, k);
    }
    forall j | 0 <= j < |s'.connections| ensures !Holds(s', j, k) {
      assert !Holds(s, j, k);
    }
  }

  lemma Decision(s: State, arrival: Arrival, k: nat)
    requires Inv(s) && CanAccept(s) && Deciding(s, k)
    ensures var s' := AcceptStep(s, arrival);
            && Past(s', k) && Abandoned(s', k)
            && s'.sockets[k].deletes == if s.closeWait then 1 else 0
  {
    hide Sane, SocketsSane, HeldSane, SentSane, SentDistinct, ListSane, IdsSane, AllRouted;
    var s' := AcceptStep(s, arrival);
    forall j | 0 <= j < |s'.connections| ensures EndedOrFree(s', j, k) {
      assert !Holds(s, j, k);
    }
  }

  /** In every continuation: until the accept loop took its decision the socket is open,
      and from then on it is closed if and only if `closeWait` was set. */
  lemma {:induction false} ClosedIffCloseWait(s: State, k: nat, steps: seq<Step>)
    requires Inv(s) && Deciding(s, k) && After(s, steps).Some?
    ensures var s' := After(s, steps).value;
            && k < |s'.sockets|
            && if s'.accept == CloseCheck(k) then s'.sockets[k].deletes == 0
               else s'.sockets[k].deletes == if s.closeWait then 1 else 0
    decreases |steps|
  {
    hide Enabled, Apply, Past, Unheld, Abandoned, Sane, SocketsSane, HeldSane, SentSane, SentDistinct, ListSane,
      IdsSane, AllRouted;
    if steps != [] {
      var step, rest := steps[0], steps[1..];
      DecidingStep(s, step, k);
      StepKeeps(s, step);
      var s1 := Apply(s, step);
      if step.Acceptor? {
        AbandonedForever(s1, rest, k);
        PastForever(s1, rest, k);
        PastFacts(After(s1, rest).value, k);
      } else {
        ClosedIffCloseWait(s1, k, rest);
      }
    }
  }

  lemma PastFacts(s: State, k: nat)
    requires Past(s, k)
    ensures k < |s.sockets| && s.accept != CloseCheck(k)
  {
  }

  lemma DecidingStep(s: State, step: Step, k: nat)
    requires Inv(s) && Enabled(s, step) && Deciding(s, k)
    ensures var s' := Apply(s, step);
            if step.Acceptor? then
              Past(s', k) && Abandoned(s', k) && k < |s'.sockets|
              && s'.sockets[k].deletes == if s.closeWait then 1 else 0
            else Deciding(s', k) && s'.closeWait == s.closeWait
  {
    hide Inv, Deciding, AcceptStep, CanAccept, CanWork, WorkerStep;
    if step.Acceptor? {
      Decision(s, step.arrival, k);
    } else {
      DecidingWaits(s, step, k);
    }
  }

  /** `closeWait` falls just when a wait request finds its peer, and never rises. */
  lemma CloseWaitFalls(s: State, step: Step)
    requires Enabled(s, step)
    ensures Apply(s, step).closeWait <==> s.closeWait && !HandsOver(s, step)
  {
    hide Work, SocketMissing, FindPeer, CanServe;
  }

  predicate HandsOver(s: State, step: Step)
    requires Enabled(s, step)
  {
    && step.Acceptor? && s.accept.Serve?
    && s.sockets[s.accept.socket].request.Wait?
    && FindPeer(s, 0, s.sockets[s.accept.socket].request.peer).Some?
  }

  /** Nothing sets `closeWait` again. */
  lemma {:induction false} CloseWaitStaysOff(s: State, steps: seq<Step>)
    requires !s.closeWait && After(s, steps).Some?
    ensures !After(s, steps).value.closeWait
    decreases |steps|
  {
    hide Enabled, Apply, HandsOver;
    if steps != [] {
      CloseWaitFalls(s, steps[0]);
      CloseWaitStaysOff(Apply(s, steps[0]), steps[1..]);
    }
  }

  /** After the first wait that found its peer, the accept loop leaves the socket of a
      request it answered open, and in no continuation is it ever closed. */
  lemma NothingClosedAfterWait(s: State, k: nat, steps: seq<Step>)
    requires Inv(s) && Deciding(s, k) && !s.closeWait && After(s, steps).Some?
    ensures var s' := After(s, steps).value;
            k < |s'.sockets| && s'.sockets[k].deletes == 0 && !s'.closeWait
  {
    hide Inv, After, Deciding;
    ClosedIffCloseWait(s, k, steps);
    CloseWaitStaysOff(s, steps);
  }

  // ---------------------------------------------------------------- what a connection lets go of

  /** A connection lets go of its socket in two ways only: its worker sent one message
      over it and deleted it once, or a later wait of the same peer took its place, and
      then it carried nothing and was not deleted.  Either way that is final. */
  lemma LettingGo(s: State, step: Step, i: nat, k: nat)
    requires Inv(s) && Enabled(s, step) && i < |s.connections| && Holds(s, i, k)
    ensures var s' := Apply(s, step);
            && i < |s'.connections| && k < |s'.sockets|
            && (!Holds(s', i, k) ==>
                  && Abandoned(s', k)
                  && if step.Worker? then
                       step.connection == i && |s'.sockets[k].carried| == 1 && s'.sockets[k].deletes == 1
                     else
                       && HandsOver(s, step)
                       && s.sockets[s.accept.socket].request == Wait(s.connections[i].peerId)
                       && s'.sockets[k].carried == [] && s'.sockets[k].deletes == 0)
  {
    hide Inv, Abandoned, WorkerStep, AcceptStep, CanAccept, CanWork;
    match step {
      case Worker(j, choice) => LettingGoByWorker(s, j, choice, i, k);
      case Callback(j, m) =>
        HeldExists(s, i, k);
      case Acceptor(arrival) => LettingGoByAcceptor(s, arrival, i, k);
    }
  }

  lemma HeldExists(s: State, i: nat, k: nat)
    requires Inv(s) && i < |s.connections| && Holds(s, i, k)
    ensures k < |s.sockets| && SocketFits(s.sockets[k], s.connections[i]) && Sane(s.connections[i])
    ensures forall j :: 0 <= j < |s.connections| && j != i ==> !Holds(s, j, k)
    ensures s.accept != Serve(k) && !s.closeWait
  {
    hide SocketFits, SocketsSane, SentSane, SentDistinct, ListSane, IdsSane, AllRouted;
    if s.accept.Serve? {
      assert !Holds(s, i, s.accept.socket);
    }
  }

  lemma LettingGoByWorker(s: State, j: nat, choice: Choice, i: nat, k: nat)
    requires Inv(s) && Enabled(s, Worker(j, choice)) && i < |s.connections| && Holds(s, i, k)
    ensures var s' := WorkerStep(s, j, choice);
            && i < |s'.connections| && k < |s'.sockets|
            && (!Holds(s', i, k) ==>
                  Abandoned(s', k) && j == i && |s'.sockets[k].carried| == 1 && s'.sockets[k].deletes == 1)
  {
    HeldExists(s, i, k);
    hide Inv, Work, Sane, SocketMissing;
    var c, s' := s.connections[j], WorkerStep(s, j, choice);
    WorkFacts(c, choice);
    if !Holds(s', i, k) {
      assert j == i && c.place.ClearSocket?;
      forall x | 0 <= x < |s'.connections| ensures EndedOrFree(s', x, k) {
        assert x != i ==> !Holds(s, x, k);
      }
    }
  }

  lemma LettingGoByAcceptor(s: State, arrival: Arrival, i: nat, k: nat)
    requires Inv(s) && CanAccept(s) && i < |s.connections| && Holds(s, i, k)
    ensures var s' := AcceptStep(s, arrival);
            && i < |s'.connections| && k < |s'.sockets|
            && (!Holds(s', i, k) ==>
                  && Abandoned(s', k) && HandsOver(s, Acceptor(arrival))
                  && s.sockets[s.accept.socket].request == Wait(s.connections[i].peerId)
                  && s'.sockets[k].carried == [] && s'.sockets[k].deletes == 0)
  {
    HeldExists(s, i, k);
    if s.accept.Serve? {
      LettingGoByServing(s, s.accept.socket, i, k);
    }
    hide Inv, ServeStep, Abandoned, Sane, CanServe, SocketFits;
  }

  lemma LettingGoByServing(s: State, n: nat, i: nat, k: nat)
    requires Inv(s) && s.accept == Serve(n) && CanAccept(s) && i < |s.connections| && Holds(s, i, k)
    ensures var s' := ServeStep(s, n);
            && i < |s'.connections| && k < |s'.sockets|
            && (!Holds(s', i, k) ==>
                  && Abandoned(s', k) && s.sockets[n].request == Wait(s.connections[i].peerId)
                  && FindPeer(s, 0, s.connections[i].peerId).Some?
                  && s'.sockets[k].carried == [] && s'.sockets[k].deletes == 0)
  {
    HeldExists(s, i, k);
    ServingSockets(s, n, k);
    ServingLeaves(s, n, i);
    var s' := ServeStep(s, n);
    if !Holds(s', i, k) {
      TakenOver(s, n, i, k);
    }
  }

  lemma TakenOver(s: State, n: nat, i: nat, k: nat)
    requires Inv(s) && s.accept == Serve(n) && CanAccept(s) && i < |s.connections| && Holds(s, i, k)
    requires s.sockets[n].request == Wait(s.connections[i].peerId) && FindPeer(s, 0, s.connections[i].peerId) == Some(i)
    ensures var s' := ServeStep(s, n);
            k < |s'.sockets| && Abandoned(s', k) && s'.sockets[k].carried == [] && s'.sockets[k].deletes == 0
  {
    HeldExists(s, i, k);
    WaitIsHanded(s, n, s.connections[i].peerId, i);
    hide Inv, ServeStep, FindPeer, CanServe, CanAccept;
    var s' := Handed(s, n, i);
    forall x | 0 <= x < |s'.connections| ensures EndedOrFree(s', x, k) {
      assert x != i ==> !Holds(s, x, k);
    }
  }

  /** A second wait of the same peer abandons the socket of the first, unanswered. */
  lemma SecondWaitLeaks(s: State, k: nat, i: nat, held: nat)
    requires Inv(s) && s.accept == Serve(k) && CanAccept(s) && i < |s.connections| <= ID_RANGE
    requires s.connections[i].death.None? && Holds(s, i, held)
    requires s.sockets[k].request == Wait(s.connections[i].peerId)
    ensures var s' := ServeStep(s, k);
            held < |s'.sockets| && Abandoned(s', held) && s'.sockets[held].deletes == 0
              && s'.sockets[held].carried == []
  {
    hide Sane, SocketsSane, HeldSane, SentSane, SentDistinct, AcceptSane, AllRouted, Abandoned;
    FoundIsAddressed(s, i, s.connections[i].peerId);
    TakenOver(s, k, i, held);
  }

  /** The socket a connection holds when its worker has ended, deleted or not, is open,
      unanswered and stays so for ever. */
  lemma EndedHolderLeaks(s: State, i: nat, k: nat, steps: seq<Step>)
    requires Inv(s) && i < |s.connections| && Holds(s, i, k) && s.connections[i].place == Returned
    requires After(s, steps).Some?
    ensures var s' := After(s, steps).value;
            k < |s'.sockets| && s'.sockets[k].deletes == 0 && s'.sockets[k].carried == []
  {
    HeldExists(s, i, k);
    forall j | 0 <= j < |s.connections| ensures EndedOrFree(s, j, k) {
      assert j != i ==> !Holds(s, j, k);
    }
    hide Inv, After, Sane, EndedOrFree;
    AbandonedForever(s, steps, k);
  }

  /** That is so of every connection the accept loop deleted with a socket in its hands. */
  lemma SweptHolderLeaks(s: State, i: nat, k: nat, steps: seq<Step>)
    requires Inv(s) && i < |s.connections| && Holds(s, i, k) && s.connections[i].death.Some?
    requires After(s, steps).Some?
    ensures var s' := After(s, steps).value;
            k < |s'.sockets| && s'.sockets[k].deletes == 0 && s'.sockets[k].carried == []
  {
    hide After, ExactlyOnce, HeldSane, SentSane, SentDistinct, ListSane, AcceptSane, AllRouted;
    assert Sane(s.connections[i]);
    EndedHolderLeaks(s, i, k, steps);
  }
}
