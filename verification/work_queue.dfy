/**
 * The background-worker pattern shared by both S3 uploaders and the audio
 * transcriber: a daemon thread runs
 *
 *     while running or queue is not empty:
 *         item = queue.get(timeout)   # or sleep when empty
 *         process(item)
 *
 * while producers append to the queue and `stop` clears `running`.
 * Threads and timeouts are not modelled; one `Poll` is one pass of that loop.
 */
module WorkQueue {

  /**
   * `pending` is the queue, `taken` what the worker has dequeued so far (in
   * order), `alive` whether the worker loop is still running.
   */
  datatype Worker<T> = Worker(running: bool, pending: seq<T>, taken: seq<T>, alive: bool)

  /** The constructor: an empty queue and a started worker. */
  function Start<T>(): Worker<T>
  {
    Worker(true, [], [], true)
  }

  /** `queue.put(item)`: producers may append even after the worker has exited. */
  function Put<T>(w: Worker<T>, item: T): Worker<T>
  {
    w.(pending := w.pending + [item])
  }

  /** `stop`: clear `running`; the worker keeps draining. */
  function Halt<T>(w: Worker<T>): Worker<T>
  {
    w.(running := false)
  }

  /**
   * One pass of the worker loop: take the head of the queue if there is one;
   * otherwise wait (while running) or leave the loop (once stopped).
   */
  function Poll<T>(w: Worker<T>): (r: Worker<T>)
    ensures r.running == w.running
    ensures r.taken + r.pending == w.taken + w.pending
    ensures w.alive && |w.pending| > 0 ==> r.alive && r.taken == w.taken + [w.pending[0]]
    ensures w.alive && !r.alive ==> w.pending == [] && !w.running
    ensures !w.alive ==> r == w
  {
    if !w.alive then w
    else if |w.pending| > 0 then
      assert w.pending == [w.pending[0]] + w.pending[1..];
      w.(pending := w.pending[1..], taken := w.taken + [w.pending[0]])
    else if w.running then w
    else w.(alive := false)
  }

  datatype Event<T> = Enqueue(item: T) | Stop | Tick

  /** Applies a sequence of producer, stop and worker events in order. */
  function Run<T>(w: Worker<T>, events: seq<Event<T>>): Worker<T>
    decreases |events|
  {
    if |events| == 0 then w
    else
      var w' := match events[0]
        case Enqueue(x) => Put(w, x)
        case Stop => Halt(w)
        case Tick => Poll(w);
      Run(w', events[1..])
  }

  /** The items enqueued by a sequence of events, in order. */
  function Enqueued<T>(events: seq<Event<T>>): seq<T>
  {
    if |events| == 0 then []
    else (if events[0].Enqueue? then [events[0].item] else []) + Enqueued(events[1..])
  }

  /**
   * FIFO: whatever happens, the items taken followed by the items still queued
   * are exactly the items ever enqueued, in enqueue order; nothing is lost,
   * duplicated or reordered.
   */
  lemma {:induction false} RunIsFifo<T>(w: Worker<T>, events: seq<Event<T>>)
    ensures Run(w, events).taken + Run(w, events).pending == w.taken + w.pending + Enqueued(events)
    decreases |events|
  {
    if |events| > 0 {
      var w' := match events[0]
        case Enqueue(x) => Put(w, x)
        case Stop => Halt(w)
        case Tick => Poll(w);
      RunIsFifo(w', events[1..]);
    }
  }

  /** No `Stop` among the events. */
  predicate NoStop<T>(events: seq<Event<T>>)
  {
    forall i :: 0 <= i < |events| ==> !events[i].Stop?
  }

  /** While nobody calls `stop`, the worker never exits. */
  lemma {:induction false} RunningWorkerStaysAlive<T>(w: Worker<T>, events: seq<Event<T>>)
    requires w.running && w.alive && NoStop(events)
    ensures Run(w, events).alive && Run(w, events).running
    decreases |events|
  {
    if |events| > 0 {
      var w' := match events[0]
        case Enqueue(x) => Put(w, x)
        case Stop => Halt(w)
        case Tick => Poll(w);
      assert NoStop(events[1..]) by {
        forall i | 0 <= i < |events[1..]| ensures !events[1..][i].Stop? {
          assert events[1..][i] == events[i + 1];
        }
      }
      RunningWorkerStaysAlive(w', events[1..]);
    }
  }

  function Polls<T>(w: Worker<T>, n: nat): Worker<T>
    decreases n
  {
    if n == 0 then w else Polls(Poll(w), n - 1)
  }

  /**
   * Draining after `stop`: a live worker that has been stopped takes every
   * pending item, in order, before it exits, and exits on the pass after.
   */
  lemma {:induction false} StoppedWorkerDrains<T>(w: Worker<T>)
    requires w.alive && !w.running
    ensures Polls(w, |w.pending|).taken == w.taken + w.pending
    ensures Polls(w, |w.pending|).pending == []
    ensures Polls(w, |w.pending|).alive
    ensures !Polls(w, |w.pending| + 1).alive
    decreases |w.pending|
  {
    if |w.pending| > 0 {
      var w' := Poll(w);
      StoppedWorkerDrains(w');
      assert w.taken + w.pending == w'.taken + w'.pending;
      PollsSplit(w, |w.pending|);
      PollsSplit(w, |w.pending| + 1);
    }
  }

  lemma PollsSplit<T>(w: Worker<T>, n: nat)
    requires n > 0
    ensures Polls(w, n) == Polls(Poll(w), n - 1)
  {
  }
}
