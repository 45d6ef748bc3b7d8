/**
 The signalling server as a step system: one accept loop, one worker thread for each
 signed-in peer, and library callbacks that queue outgoing messages.  A step is one
 critical section, or one access to what threads share; any interleaving is a run.
 */
module SignallingServer {
  import opened Bytes
  import opened Optional

  const ID_RANGE: int := 0x1_0000_0000

  // ---------------------------------------------------------------- state

  /** A request the accept loop reads from a new socket. */
  datatype Request = Unparsable | Page | SignIn | SignOut | Message(to: nat, text: bytes) | Wait(peer: nat)

  /** A client socket: what it asked, the messages and replies written, and how often
      it was deleted. */
  datatype Socket = Socket(request: Request, carried: seq<bytes>, replies: nat, deletes: nat)

  datatype Lifecycle = Init | Connected | End

  /** Where a worker stands in `Run`. */
  datatype Place =
    | NotStarted
    | LoopTest | Dequeue | Waiting | Handle(incoming: bytes)
    | CheckCount | Lock | Locked | Get | Send(outgoing: bytes) | DeleteSocket | ClearSocket
    | CheckIce | Process | Ending | Returned

  /** A connection with its two queues.  `handled`, `produced` and `sent` record what
      passed through it, `birth` and `death` how many messages the server had routed
      when it was created and deleted. */
  datatype Connection = Connection(
    peerId: nat, state: Lifecycle, alive: bool, clientSocket: Option<nat>, locked: bool, place: Place,
    inQueue: seq<bytes>, outQueue: seq<bytes>,
    handled: seq<bytes>, produced: seq<bytes>, sent: seq<(nat, bytes)>, birth: nat, death: Option<nat>)

  datatype Accept = Accepting | Sweep(index: nat) | Join(index: nat) | Serve(socket: nat) | CloseCheck(socket: nat)

  /** `list` holds connections by number of creation; `routed` records every message
      request with the id it named; `fault` records the use of a null pointer, a
      deleted socket or a deleted connection. */
  datatype State = State(
    sockets: seq<Socket>, connections: seq<Connection>, list: seq<nat>, peerId: nat, closeWait: bool,
    accept: Accept, routed: seq<(nat, bytes)>, fault: bool)

  const INITIAL := State([], [], [], 1, true, Accepting, [], false)

  // ---------------------------------------------------------------- the worker

  /** What the environment decides in a worker's step: whether a wait times out, and
      whether the connection is found dead. */
  datatype Choice = Choice(timesOut: bool, dead: bool)

  predicate CanWork(c: Connection) {
    c.place != Returned && (c.place == Lock ==> !c.locked)
  }

  function Take(c: Connection): Connection
    requires c.inQueue != []
  {
    c.(place := Handle(c.inQueue[0]), inQueue := c.inQueue[1..])
  }

  /** The worker's own part of a step. */
  function Work(c: Connection, choice: Choice): Connection
    requires CanWork(c)
  {
    match c.place
    case NotStarted => c.(state := Connected, place := LoopTest)
    case LoopTest => c.(place := if c.alive then Dequeue else Ending)
    case Dequeue => if c.inQueue == [] then c.(place := Waiting) else Take(c)
    case Waiting =>
      if choice.timesOut then c.(place := CheckCount)
      else if c.inQueue == [] then c
      else Take(c)
    case Handle(m) => c.(place := CheckCount, handled := c.handled + [m])
    case CheckCount => c.(place := if c.outQueue != [] then Lock else CheckIce)
    case Lock => c.(place := Locked, locked := true)
    case Locked => if c.clientSocket.Some? then c.(place := Get) else c.(place := CheckIce, locked := false)
    case Get =>
      if c.outQueue == [] then c.(place := CheckIce, locked := false)
      else c.(place := Send(c.outQueue[0]), outQueue := c.outQueue[1..])
    case Send(m) =>
      c.(place := DeleteSocket, sent := c.sent + if c.clientSocket.Some? then [(c.clientSocket.value, m)] else [])
    case DeleteSocket => c.(place := ClearSocket)
    case ClearSocket => c.(place := CheckIce, locked := false, clientSocket := None)
    case CheckIce => c.(place := Process, alive := c.alive && !choice.dead)
    case Process => c.(place := LoopTest)
    case Ending => c.(place := Returned, state := End)
  }

  /** What the worker's step does to its socket. */
  function WorkOnSocket(k: Socket, place: Place): Socket {
    match place
    case Send(m) => k.(carried := k.carried + [m])
    case DeleteSocket => k.(deletes := k.deletes + 1)
    case _ => k
  }

  /** A step that uses the socket needs one that is there and not deleted. */
  predicate SocketMissing(sockets: seq<Socket>, c: Connection) {
    (c.place.Send? || c.place.DeleteSocket?) &&
    (c.clientSocket.None? || c.clientSocket.value >= |sockets| || sockets[c.clientSocket.value].deletes > 0)
  }

  function WorkerStep(s: State, i: nat, choice: Choice): State
    requires i < |s.connections| && CanWork(s.connections[i])
  {
    var c := s.connections[i];
    var s' := s.(connections := s.connections[i := Work(c, choice)],
                 fault := s.fault || c.death.Some? || SocketMissing(s.sockets, c));
    if c.clientSocket.None? || c.clientSocket.value >= |s.sockets| then s'
    else
      var k := c.clientSocket.value;
      s'.(sockets := s.sockets[k := WorkOnSocket(s.sockets[k], c.place)])
  }

  // ---------------------------------------------------------------- callbacks

  /** A callback queues a message, at any time after the observer was made. */
  function CallbackStep(s: State, i: nat, m: bytes): State
    requires i < |s.connections|
  {
    var c := s.connections[i];
    s.(connections := s.connections[i := c.(outQueue := c.outQueue + [m], produced := c.produced + [m])])
  }

  // ---------------------------------------------------------------- the accept loop

  /** The first listed connection with that id. */
  function FindPeer(s: State, from: nat, id: nat): (r: Option<nat>)
    requires forall j :: 0 <= j < |s.list| ==> s.list[j] < |s.connections|
    requires from <= |s.list|
    ensures r.Some? ==> r.value in s.list && s.connections[r.value].peerId == id
    ensures r.None? ==> forall j :: from <= j < |s.list| ==> s.connections[s.list[j]].peerId != id
    decreases |s.list| - from
  {
    if from == |s.list| then None
    else if s.connections[s.list[from]].peerId == id then Some(s.list[from])
    else FindPeer(s, from + 1, id)
  }

  function NewConnection(id: nat, birth: nat): Connection {
    Connection(id, Init, true, None, false, NotStarted, [], [], [], [], [], birth, None)
  }

  function Replied(s: State, k: nat): State
    requires k < |s.sockets|
  {
    s.(sockets := s.sockets[k := s.sockets[k].(replies := s.sockets[k].replies + 1)],
       fault := s.fault || s.sockets[k].deletes > 0)
  }

  function Deleted(s: State, k: nat): State
    requires k < |s.sockets|
  {
    s.(sockets := s.sockets[k := s.sockets[k].(deletes := s.sockets[k].deletes + 1)],
       fault := s.fault || s.sockets[k].deletes > 0)
  }

  predicate Listed(s: State) {
    forall j :: 0 <= j < |s.list| ==> s.list[j] < |s.connections|
  }

  /** Handling a wait request needs the mutex of the connection it names. */
  predicate CanServe(s: State, k: nat)
    requires k < |s.sockets| && Listed(s)
  {
    match s.sockets[k].request
    case Wait(id) =>
      var found := FindPeer(s, 0, id);
      found.Some? ==> !s.connections[found.value].locked
    case _ => true
  }

  function ServeStep(s: State, k: nat): State
    requires k < |s.sockets| && Listed(s) && CanServe(s, k)
  {
    var next := s.(accept := CloseCheck(k));
    match s.sockets[k].request
    case Unparsable => Deleted(s.(accept := Accepting), k)
    case Page => Replied(next, k)
    case SignIn =>
      Replied(next.(connections := s.connections + [NewConnection(s.peerId, |s.routed|)],
                    list := s.list + [|s.connections|], peerId := (s.peerId + 1) % ID_RANGE), k)
    case SignOut => next
    case Message(to, text) =>
      var found := FindPeer(s, 0, to);
      var recorded := next.(routed := s.routed + [(to, text)]);
      if found.None? then Replied(recorded, k)
      else
        var c := s.connections[found.value];
        Replied(recorded.(connections := s.connections[found.value := c.(inQueue := c.inQueue + [text])],
                          fault := s.fault || c.death.Some?), k)
    case Wait(id) =>
      var found := FindPeer(s, 0, id);
      if found.None? then next
      else
        var c := s.connections[found.value];
        next.(connections := s.connections[found.value := c.(clientSocket := Some(k))], closeWait := false,
              fault := s.fault || c.death.Some?)
  }

  /** What `accept` returns: nothing, or a socket with its request. */
  datatype Arrival = Nobody | Client(request: Request)

  predicate CanAccept(s: State) {
    && Listed(s)
    && match s.accept
       case Accepting => true
       case Sweep(j) => j <= |s.list|
       case Join(j) => j < |s.list| && s.connections[s.list[j]].place == Returned
       case Serve(k) => k < |s.sockets| && CanServe(s, k)
       case CloseCheck(k) => k < |s.sockets|
  }

  function AcceptStep(s: State, arrival: Arrival): State
    requires CanAccept(s)
  {
    match s.accept
    case Accepting =>
      (match arrival
       case Nobody => s.(accept := Sweep(0))
       case Client(r) => s.(sockets := s.sockets + [Socket(r, [], 0, 0)], accept := Serve(|s.sockets|)))
    case Sweep(j) =>
      if j == |s.list| then s.(accept := Accepting)
      else
        var c := s.connections[s.list[j]];
        if c.state == End then
          s.(connections := s.connections[s.list[j] := c.(alive := false)], accept := Join(j),
             fault := s.fault || c.death.Some?)
        else s.(accept := Sweep(j + 1), fault := s.fault || c.death.Some?)
    case Join(j) =>
      var c := s.connections[s.list[j]];
      s.(connections := s.connections[s.list[j] := c.(death := Some(|s.routed|))],
         list := s.list[..j] + s.list[j + 1..], accept := Sweep(j), fault := s.fault || c.death.Some?)
    case Serve(k) => ServeStep(s, k)
    case CloseCheck(k) => if s.closeWait then Deleted(s.(accept := Accepting), k) else s.(accept := Accepting)
  }

  // ---------------------------------------------------------------- runs

  datatype Step =
    | Worker(connection: nat, choice: Choice)
    | Callback(connection: nat, text: bytes)
    | Acceptor(arrival: Arrival)

  predicate Enabled(s: State, step: Step) {
    match step
    case Worker(i, _) => i < |s.connections| && CanWork(s.connections[i])
    case Callback(i, _) => i < |s.connections| && s.connections[i].place != NotStarted
    case Acceptor(_) => CanAccept(s)
  }

  function Apply(s: State, step: Step): State
    requires Enabled(s, step)
  {
    match step
    case Worker(i, choice) => WorkerStep(s, i, choice)
    case Callback(i, m) => CallbackStep(s, i, m)
    case Acceptor(arrival) => AcceptStep(s, arrival)
  }

  /** The state after some steps, if each was enabled in its turn. */
  function After(s: State, steps: seq<Step>): Option<State>
    decreases |steps|
  {
    if steps == [] then Some(s)
    else if !Enabled(s, steps[0]) then None
    else After(Apply(s, steps[0]), steps[1..])
  }

  // ---------------------------------------------------------------- the invariant

  /** The messages of a log, and those of a routing log that name an id. */
  function Texts(log: seq<(nat, bytes)>): seq<bytes> {
    if log == [] then [] else Texts(log[..|log| - 1]) + [log[|log| - 1].1]
  }

  function Addressed(log: seq<(nat, bytes)>, id: nat): seq<bytes> {
    if log == [] then []
    else Addressed(log[..|log| - 1], id) + if log[|log| - 1].0 == id then [log[|log| - 1].1] else []
  }

  predicate Holding(p: Place) {
    p.Locked? || p.Get? || p.Send? || p.DeleteSocket? || p.ClearSocket?
  }

  /** Everything produced was sent, is in the worker's hands or waits in the queue. */
  predicate ExactlyOnce(c: Connection) {
    c.produced == Texts(c.sent) + (if c.place.Send? then [c.place.outgoing] else []) + c.outQueue
  }

  function Received(c: Connection): seq<bytes> {
    c.handled + (if c.place.Handle? then [c.place.incoming] else []) + c.inQueue
  }

  /** What one connection keeps by itself. */
  predicate Sane(c: Connection) {
    && (c.locked <==> Holding(c.place))
    && (c.place.Get? || c.place.Send? || c.place.DeleteSocket? || c.place.ClearSocket? ==> c.clientSocket.Some?)
    && (c.place.Lock? || c.place.Locked? || c.place.Get? ==> c.outQueue != [])
    && (c.state == Init <==> c.place == NotStarted)
    && (c.state == End <==> c.place == Returned)
    && (c.death.Some? ==> c.place == Returned)
    && ExactlyOnce(c)
  }

  /** The socket a connection holds is its own wait request, unused until its worker
      sends, and deleted just before the worker lets go of it. */
  predicate SocketFits(k: Socket, c: Connection) {
    && k.request == Wait(c.peerId) && k.replies == 0
    && |k.carried| == (if c.place.DeleteSocket? || c.place.ClearSocket? then 1 else 0)
    && k.deletes == (if c.place.ClearSocket? then 1 else 0)
  }

  predicate Holds(s: State, i: nat, k: nat)
    requires i < |s.connections|
  {
    s.connections[i].clientSocket == Some(k)
  }

  /** No connection holds socket `k`. */
  predicate Unheld(s: State, k: nat) {
    forall i :: 0 <= i < |s.connections| ==> !Holds(s, i, k)
  }

  predicate SocketsSane(s: State) {
    forall k :: 0 <= k < |s.sockets| ==>
      |s.sockets[k].carried| + s.sockets[k].replies <= 1 && s.sockets[k].deletes <= 1
  }

  predicate HeldSane(s: State) {
    && (forall i :: 0 <= i < |s.connections| && s.connections[i].clientSocket.Some? ==>
          var k := s.connections[i].clientSocket.value;
          k < |s.sockets| && SocketFits(s.sockets[k], s.connections[i]))
    && (forall i, j :: 0 <= i < j < |s.connections| && s.connections[i].clientSocket.Some? ==>
          s.connections[i].clientSocket != s.connections[j].clientSocket)
  }

  /** Each sent message is what its socket carried, on the wait of the same peer. */
  predicate SentSane(s: State) {
    forall i, a :: 0 <= i < |s.connections| && 0 <= a < |s.connections[i].sent| ==>
      var (k, m) := s.connections[i].sent[a];
      k < |s.sockets| && s.sockets[k].carried == [m] && s.sockets[k].request == Wait(s.connections[i].peerId)
  }

  predicate SentDistinct(s: State) {
    forall i, a, j, b ::
      0 <= i < |s.connections| && 0 <= a < |s.connections[i].sent| &&
      0 <= j < |s.connections| && 0 <= b < |s.connections[j].sent| && (i != j || a != b) ==>
      s.connections[i].sent[a].0 != s.connections[j].sent[b].0
  }

  predicate ListSane(s: State) {
    && Listed(s)
    && (forall j :: 0 <= j < |s.list| ==> s.connections[s.list[j]].death.None?)
    && (forall i, j :: 0 <= i < j < |s.list| ==> s.list[i] != s.list[j])
    && (forall i :: 0 <= i < |s.connections| && s.connections[i].death.None? ==> i in s.list)
  }

  predicate AcceptSane(s: State) {
    && Listed(s)
    && (s.closeWait ==> forall i :: 0 <= i < |s.connections| ==> s.connections[i].clientSocket.None?)
    && match s.accept
       case Accepting => true
       case Sweep(j) => j <= |s.list|
       case Join(j) => j < |s.list| && s.connections[s.list[j]].state == End
       case Serve(k) =>
         k < |s.sockets| && s.sockets[k] == Socket(s.sockets[k].request, [], 0, 0) && Unheld(s, k)
       case CloseCheck(k) =>
         && k < |s.sockets|
         && (s.closeWait || s.sockets[k].carried == [] ==> s.sockets[k].deletes == 0)
  }

  predicate IdsSane(s: State) {
    && s.peerId == (1 + |s.connections|) % ID_RANGE
    && forall i :: 0 <= i < |s.connections| ==> s.connections[i].peerId == (1 + i) % ID_RANGE
  }

  /** What a connection received is what was addressed to it while it was listed. */
  predicate Routed(s: State, c: Connection) {
    var end := if c.death.Some? then c.death.value else |s.routed|;
    c.birth <= end <= |s.routed| && Received(c) == Addressed(s.routed[c.birth..end], c.peerId)
  }

  predicate AllRouted(s: State) {
    |s.connections| <= ID_RANGE ==> forall i :: 0 <= i < |s.connections| ==> Routed(s, s.connections[i])
  }

  predicate Inv(s: State) {
    && !s.fault
    && (forall i :: 0 <= i < |s.connections| ==> Sane(s.connections[i]))
    && SocketsSane(s) && HeldSane(s) && SentSane(s) && SentDistinct(s)
    && ListSane(s) && AcceptSane(s) && IdsSane(s) && AllRouted(s)
  }
}
