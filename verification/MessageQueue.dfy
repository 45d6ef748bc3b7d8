/**
 The inbound queue of a connection.  `dequeue` waits on a condition variable: each
 wait lets other threads add messages, and ends by a notification or by a timeout.
 */
module InboundQueue {
  import opened Optional
  import opened Bytes

  /** How one wait ends, and what was enqueued meanwhile. */
  datatype Wake = Notified(added: seq<bytes>) | TimedOut(added: seq<bytes>)

  /** What the waits so far added. */
  function Arrivals(wakes: seq<Wake>): seq<bytes> {
    if wakes == [] then [] else wakes[0].added + Arrivals(wakes[1..])
  }

  /** The outcome of a call: the message, if any, the queue left, and the waits used. */
  datatype Outcome = Outcome(message: Option<bytes>, queue: seq<bytes>, waits: nat)

  function Await(queue: seq<bytes>, wakes: seq<Wake>): (r: Outcome)
    requires wakes != [] && wakes[|wakes| - 1].TimedOut?
    ensures r.waits <= |wakes|
    decreases |wakes|
  {
    if queue != [] then Outcome(Some(queue[0]), queue[1..], 0)
    else if wakes[0].TimedOut? then Outcome(None, wakes[0].added, 1)
    else
      var r := Await(wakes[0].added, wakes[1..]);
      r.(waits := r.waits + 1)
  }

  /** First in, first out, and nothing is lost, whatever arrives during the waits. */
  lemma {:induction false} AwaitConserves(queue: seq<bytes>, wakes: seq<Wake>)
    requires wakes != [] && wakes[|wakes| - 1].TimedOut?
    ensures var r := Await(queue, wakes);
            (if r.message.Some? then [r.message.value] else []) + r.queue == queue + Arrivals(wakes[..r.waits])
    decreases |wakes|
  {
    var r := Await(queue, wakes);
    if queue != [] {
      assert wakes[..0] == [];
    } else {
      var first := wakes[0].added;
      if wakes[0].TimedOut? {
        assert wakes[..1] == [wakes[0]];
        assert Arrivals([wakes[0]]) == first + Arrivals([]);
      } else {
        AwaitConserves(first, wakes[1..]);
        assert wakes[..r.waits][1..] == wakes[1..][..r.waits - 1];
        assert [] + (first + Arrivals(wakes[1..][..r.waits - 1])) == first + Arrivals(wakes[1..][..r.waits - 1]);
      }
    }
  }

  /** The first `n` waits end without a message and the next one times out. */
  predicate TimesOutAfter(wakes: seq<Wake>, n: nat) {
    n < |wakes| && wakes[n].TimedOut? && forall k :: 0 <= k < n ==> wakes[k] == Notified([])
  }

  /** It fails just when the queue is empty and stays so until a wait times out; what
      came together with the timeout is not looked at. */
  lemma {:induction false} FailsOnTimeout(queue: seq<bytes>, wakes: seq<Wake>)
    requires wakes != [] && wakes[|wakes| - 1].TimedOut?
    ensures Await(queue, wakes).message == None <==> queue == [] && exists n: nat :: TimesOutAfter(wakes, n)
    decreases |wakes|
  {
    if queue == [] {
      if wakes[0].TimedOut? {
        assert TimesOutAfter(wakes, 0);
      } else {
        FailsOnTimeout(wakes[0].added, wakes[1..]);
        if wakes[0].added == [] && exists n: nat :: TimesOutAfter(wakes[1..], n) {
          var n: nat :| TimesOutAfter(wakes[1..], n);
          TimesOutLater(wakes, n);
        }
        if exists n: nat :: TimesOutAfter(wakes, n) {
          var n: nat :| TimesOutAfter(wakes, n);
          TimesOutLater(wakes, n - 1);
        }
      }
    }
  }

  /** A call that fails leaves just what came with the timeout. */
  lemma {:induction false} FailedQueue(wakes: seq<Wake>, n: nat)
    requires wakes != [] && wakes[|wakes| - 1].TimedOut? && TimesOutAfter(wakes, n)
    ensures Await([], wakes) == Outcome(None, wakes[n].added, n + 1)
    decreases n
  {
    if n > 0 {
      assert wakes[0] == Notified([]);
      TimesOutLater(wakes, n - 1);
      FailedQueue(wakes[1..], n - 1);
    }
  }

  /** It fails although a message is queued exactly when the queue stays empty until a
      wait that times out together with a message. */
  lemma FailsWithMessageExactly(queue: seq<bytes>, wakes: seq<Wake>)
    requires wakes != [] && wakes[|wakes| - 1].TimedOut?
    ensures var r := Await(queue, wakes);
            r.message == None && r.queue != [] <==>
            queue == [] && exists n: nat :: TimesOutAfter(wakes, n) && wakes[n].added != []
  {
    hide Await, TimesOutAfter;
    FailsOnTimeout(queue, wakes);
    if n: nat :| TimesOutAfter(wakes, n) {
      TimeoutExists(wakes, n);
      FailedQueue(wakes, n);
      forall k: nat | TimesOutAfter(wakes, k) ensures k == n {
        OneTimeout(wakes, n, k);
      }
    }
  }

  lemma TimeoutExists(wakes: seq<Wake>, n: nat)
    requires TimesOutAfter(wakes, n)
    ensures n < |wakes|
  {
  }

  lemma OneTimeout(wakes: seq<Wake>, m: nat, n: nat)
    requires TimesOutAfter(wakes, m) && TimesOutAfter(wakes, n)
    ensures m == n
  {
  }

  /** One message that comes together with the timeout: the call fails and leaves it queued. */
  lemma LateMessageWaits(m: bytes)
    ensures Await([], [TimedOut([m])]) == Outcome(None, [m], 1)
  {
  }

  lemma TimesOutLater(wakes: seq<Wake>, n: nat)
    requires wakes != [] && !wakes[0].TimedOut?
    ensures TimesOutAfter(wakes, n + 1) <==> wakes[0].added == [] && TimesOutAfter(wakes[1..], n)
  {
    if TimesOutAfter(wakes, n + 1) {
      assert wakes[0] == Notified([]);
    }
    if wakes[0].added == [] && TimesOutAfter(wakes[1..], n) {
      forall k | 0 <= k < n + 1 ensures wakes[k] == Notified([]) {
        if k > 0 {
          assert wakes[1..][k - 1] == wakes[k];
        }
      }
    }
  }

  class MessageQueue {
    var queue: seq<bytes>

    constructor ()
      ensures queue == []
    {
      queue := [];
    }

    method Enqueue(message: bytes)
      modifies this
      ensures queue == old(queue) + [message]
    {
      queue := queue + [message];
    }

    method Dequeue(wakes: seq<Wake>) returns (message: Option<bytes>)
      requires wakes != [] && wakes[|wakes| - 1].TimedOut?
      modifies this
      ensures var r := Await(old(queue), wakes); message == r.message && queue == r.queue
    {
      var i := 0;
      while |queue| == 0
        invariant i < |wakes|
        invariant wakes[i..][|wakes| - i - 1].TimedOut?
        invariant Await(queue, wakes[i..]).message == Await(old(queue), wakes).message
        invariant Await(queue, wakes[i..]).queue == Await(old(queue), wakes).queue
        decreases |wakes| - i
      {
        var wake := wakes[i];
        assert wakes[i..][0] == wake && wakes[i..][1..] == wakes[i + 1..];
        queue := queue + wake.added;
        assert [] + wake.added == wake.added;
        if wake.TimedOut? {
          return None;
        }
        assert i + 1 < |wakes|;
        i := i + 1;
      }
      message := Some(queue[0]);
      queue := queue[1..];
    }
  }
}
