/** The callback queue of src/EventLoop.cpp.

    State and Action describe every interleaving of the threads that enqueue with the one
    thread that drains; a callback that enqueues while it runs is an Enqueue between two
    RunOne actions. The class performs processCallbacks as the original does: swap, then
    drain the local batch. */
module EventLoop {
  import opened Common


  datatype State<C> = State(queue: seq<C>, batch: seq<C>, ran: seq<C>, enqueued: seq<C>)

  datatype Action<C> =
    | Enqueue(c: C)
    | Swap      // critical section of processCallbacks; its local queue is empty before it
    | RunOne    // pop the front of the local batch and call it, exception or not

  function Empty<C>(): State<C> {
    State([], [], [], [])
  }

  predicate Enabled<C>(s: State<C>, a: Action<C>) {
    match a
    case Enqueue(_) => true
    case Swap => s.batch == []
    case RunOne => s.batch != []
  }

  function Next<C>(s: State<C>, a: Action<C>): State<C>
    requires Enabled(s, a)
  {
    match a
    case Enqueue(c) => s.(queue := s.queue + [c], enqueued := s.enqueued + [c])
    case Swap => s.(batch := s.queue, queue := [])
    case RunOne => s.(ran := s.ran + [s.batch[0]], batch := s.batch[1..])
  }

  predicate Valid<C>(s: State<C>, acts: seq<Action<C>>)
    decreases acts
  {
    acts == [] || (Enabled(s, acts[0]) && Valid(Next(s, acts[0]), acts[1..]))
  }

  function Run<C>(s: State<C>, acts: seq<Action<C>>): State<C>
    requires Valid(s, acts)
    decreases acts
  {
    if acts == [] then s else Run(Next(s, acts[0]), acts[1..])
  }

  /** Exactly once, in order: what ran, the rest of the batch and the queue are what was enqueued. */
  ghost predicate InOrder<C>(s: State<C>) {
    s.ran + s.batch + s.queue == s.enqueued
  }

  lemma Waiting<C>(s: State<C>)
    requires InOrder(s)
    ensures s.enqueued == s.ran + (s.batch + s.queue)
    ensures s.batch != [] ==> s.enqueued == s.ran + ([s.batch[0]] + (s.batch[1..] + s.queue))
  {
  }

  lemma StepInOrder<C>(s: State<C>, a: Action<C>)
    requires InOrder(s) && Enabled(s, a)
    ensures InOrder(Next(s, a))
  {
    if a.RunOne? {
      assert s.batch == [s.batch[0]] + s.batch[1..];
    }
  }

  /** The callbacks an interleaving enqueues, read off its actions. */
  function EnqueuedBy<C>(acts: seq<Action<C>>): seq<C> {
    if acts == [] then []
    else (if acts[0].Enqueue? then [acts[0].c] else []) + EnqueuedBy(acts[1..])
  }

  lemma {:induction false} RunsInOrderFrom<C>(s: State<C>, acts: seq<Action<C>>)
    requires InOrder(s) && Valid(s, acts)
    ensures InOrder(Run(s, acts))
    ensures Run(s, acts).enqueued == s.enqueued + EnqueuedBy(acts)
    decreases acts
  {
    if acts != [] {
      StepInOrder(s, acts[0]);
      RunsInOrderFrom(Next(s, acts[0]), acts[1..]);
      Assoc(s.enqueued, if acts[0].Enqueue? then [acts[0].c] else [], EnqueuedBy(acts[1..]));
      assert s.enqueued + [] == s.enqueued;
    }
  }

  /** At every point of every interleaving the callbacks already run are a prefix, in order and
      without repetition, of those enqueued so far, and no other callback is lost. */
  lemma RunsInOrder<C>(acts: seq<Action<C>>)
    requires Valid(Empty(), acts)
    ensures var s := Run(Empty(), acts); s.ran + s.batch + s.queue == EnqueuedBy(acts)
  {
    RunsInOrderFrom(Empty(), acts);
  }

  function RunOnes<C>(acts: seq<Action<C>>): nat {
    if acts == [] then 0 else (if acts[0].RunOne? then 1 else 0) + RunOnes(acts[1..])
  }

  lemma Consumed<C>(ran: seq<C>, batch: seq<C>, k: nat)
    requires k < |batch|
    ensures (ran + [batch[0]]) + batch[1..][..k] == ran + batch[..k + 1]
    ensures batch[1..][k..] == batch[k + 1..]
  {
    assert [batch[0]] + batch[1..][..k] == batch[..k + 1];
    Assoc(ran, [batch[0]], batch[1..][..k]);
  }

  lemma {:induction false} BatchRuns<C>(s: State<C>, acts: seq<Action<C>>)
    requires Valid(s, acts) && Swap !in acts
    ensures RunOnes(acts) <= |s.batch|
    ensures Run(s, acts).ran == s.ran + s.batch[..RunOnes(acts)]
    ensures Run(s, acts).batch == s.batch[RunOnes(acts)..]
    decreases acts
  {
    if acts == [] {
      assert s.ran + s.batch[..0] == s.ran;
    } else {
      BatchRuns(Next(s, acts[0]), acts[1..]);
      if acts[0].RunOne? { Consumed(s.ran, s.batch, RunOnes(acts[1..])); }
    }
  }

  lemma {:induction false} BatchLeaves<C>(s: State<C>, acts: seq<Action<C>>)
    requires Valid(s, acts) && Swap !in acts
    ensures Run(s, acts).queue == s.queue + EnqueuedBy(acts)
    decreases acts
  {
    if acts == [] {
      assert s.queue + [] == s.queue;
    } else {
      BatchLeaves(Next(s, acts[0]), acts[1..]);
      if acts[0].Enqueue? {
        Assoc(s.queue, [acts[0].c], EnqueuedBy(acts[1..]));
      } else {
        assert [] + EnqueuedBy(acts[1..]) == EnqueuedBy(acts[1..]);
      }
    }
  }

  /** Between two swaps only callbacks of the batch run: one enqueued meanwhile waits in the
      queue. So a batch of length n is drained by n calls, whatever the callbacks enqueue. */
  lemma BatchIsFixed<C>(s: State<C>, acts: seq<Action<C>>)
    requires Valid(s, acts) && Swap !in acts
    ensures RunOnes(acts) <= |s.batch|
    ensures Run(s, acts).ran == s.ran + s.batch[..RunOnes(acts)]
    ensures Run(s, acts).batch == s.batch[RunOnes(acts)..]
    ensures Run(s, acts).queue == s.queue + EnqueuedBy(acts)
  {
    BatchRuns(s, acts);
    BatchLeaves(s, acts);
  }

  // ---------------------------------------------------------------- the object

  /** What one call of a callback does to the loop: what it enqueues before it returns or throws. */
  datatype Effect<C> = Effect(enqueues: seq<C>, throws: bool)

  /** Everything that reaches the queue while a batch runs: before the k-th callback the other
      threads add arrivals(k), then the callback adds its own. */
  function Produced<C>(batch: seq<C>, effect: C -> Effect<C>, arrivals: nat -> seq<C>): seq<C> {
    if batch == [] then []
    else Produced(batch[..|batch| - 1], effect, arrivals)
         + arrivals(|batch| - 1) + effect(batch[|batch| - 1]).enqueues
  }

  function Thrown<C>(batch: seq<C>, effect: C -> Effect<C>): seq<C> {
    if batch == [] then []
    else Thrown(batch[..|batch| - 1], effect)
         + if effect(batch[|batch| - 1]).throws then [batch[|batch| - 1]] else []
  }

  class EventLoop<C(==)> {
    var callbackQueue: seq<C>
    ghost var ran: seq<C>
    var errorLog: seq<C>   // the callbacks whose exceptions were printed to stderr

    constructor ()
      ensures callbackQueue == ran == errorLog == []
    {
      callbackQueue, ran, errorLog := [], [], [];
    }

    method EnqueueCallback(callback: C)
      modifies this`callbackQueue
      ensures callbackQueue == old(callbackQueue) + [callback]
    {
      callbackQueue := callbackQueue + [callback];
    }

    method EnqueueAll(callbacks: seq<C>)
      modifies this`callbackQueue
      ensures callbackQueue == old(callbackQueue) + callbacks
    {
      for i := 0 to |callbacks|
        invariant callbackQueue == old(callbackQueue) + callbacks[..i]
      {
        EnqueueCallback(callbacks[i]);
      }
      assert callbacks[..|callbacks|] == callbacks;
    }

    /** Runs the callbacks that were queued on entry, each once and in order, although they and
        other threads enqueue more and although some of them throw. */
    method ProcessCallbacks(effect: C -> Effect<C>, arrivals: nat -> seq<C>)
      modifies this
      ensures ran == old(ran) + old(callbackQueue)
      ensures callbackQueue == Produced(old(callbackQueue), effect, arrivals)
      ensures errorLog == old(errorLog) + Thrown(old(callbackQueue), effect)
    {
      var callbacksToProcess := callbackQueue;
      callbackQueue := [];
      ghost var batch := callbacksToProcess;
      var k := 0;   // calls made so far
      while callbacksToProcess != []
        invariant k <= |batch| && callbacksToProcess == batch[k..]
        invariant ran == old(ran) + batch[..k]
        invariant callbackQueue == Produced(batch[..k], effect, arrivals)
        invariant errorLog == old(errorLog) + Thrown(batch[..k], effect)
        decreases |callbacksToProcess|
      {
        var callback := callbacksToProcess[0];
        callbacksToProcess := callbacksToProcess[1..];
        assert batch[..k + 1][..k] == batch[..k];
        EnqueueAll(arrivals(k));
        var outcome := effect(callback);
        EnqueueAll(outcome.enqueues);
        ran := ran + [callback];
        if outcome.throws {
          errorLog := errorLog + [callback];
        }
        k := k + 1;
      }
      assert batch[..k] == batch;
    }
  }

  lemma ProducedStep<C>(batch: seq<C>, effect: C -> Effect<C>, arrivals: nat -> seq<C>, k: nat)
    requires k < |batch|
    ensures Produced(batch[..k + 1], effect, arrivals)
         == Produced(batch[..k], effect, arrivals) + (arrivals(k) + effect(batch[k]).enqueues)
  {
    assert batch[..k + 1][..k] == batch[..k];
    Assoc(Produced(batch[..k], effect, arrivals), arrivals(k), effect(batch[k]).enqueues);
  }

  /** What a batch leaves in the queue, call by call: the k-th call adds first what other threads
      enqueued before it and then what the callback itself enqueues. */
  lemma {:induction false} ProducedAt<C>(batch: seq<C>, effect: C -> Effect<C>, arrivals: nat -> seq<C>, k: nat)
    returns (first: seq<C>, last: seq<C>)
    requires k < |batch|
    ensures Produced(batch, effect, arrivals) == first + (arrivals(k) + effect(batch[k]).enqueues) + last
    ensures first == Produced(batch[..k], effect, arrivals)
  {
    if k == |batch| - 1 {
      ProducedStep(batch, effect, arrivals, k);
      assert batch[..k + 1] == batch;
      first, last := Produced(batch[..k], effect, arrivals), [];
      assert first + (arrivals(k) + effect(batch[k]).enqueues) + [] == first + (arrivals(k) + effect(batch[k]).enqueues);
    } else {
      var n := |batch| - 1;
      assert batch[..n][..k] == batch[..k];
      first, last := ProducedAt(batch[..n], effect, arrivals, k);
      ProducedStep(batch, effect, arrivals, n);
      assert batch[..n + 1] == batch;
      var more := arrivals(n) + effect(batch[n]).enqueues;
      Assoc(first + (arrivals(k) + effect(batch[k]).enqueues), last, more);
      last := last + more;
    }
  }

  /** Exactly the callbacks that throw are reported. */
  lemma {:induction false} ThrownIff<C>(batch: seq<C>, effect: C -> Effect<C>, c: C)
    ensures c in Thrown(batch, effect) <==> c in batch && effect(c).throws
  {
    if batch != [] {
      var n := |batch| - 1;
      ThrownIff(batch[..n], effect, c);
      assert batch == batch[..n] + [batch[n]];
    }
  }

  /** One call, with everything that is enqueued before it returns. */
  lemma OneCall<C>(s: State<C>, produced: seq<C>) returns (acts: seq<Action<C>>)
    requires s.batch != []
    ensures Valid(s, acts)
    ensures var e := Run(s, acts);
      e.ran == s.ran + [s.batch[0]] && e.batch == s.batch[1..] && e.queue == s.queue + produced
  {
    var more := seq(|produced|, i requires 0 <= i < |produced| => Enqueue(produced[i]));
    EnqueueActions(s, produced, more);
    var m := Run(s, more);
    var call: seq<Action<C>> := [RunOne];
    assert call[1..] == [] && Run(m, call) == Run(Next(m, RunOne), []);
    Concat(s, more, call);
    acts := more + call;
  }

  /** The batch seen by the method and the one of the transition system are the same drain:
      running a batch action by action gives the method's result. */
  lemma {:induction false} DrainAsActions<C>(s: State<C>, effect: C -> Effect<C>, arrivals: nat -> seq<C>, n: nat)
    returns (acts: seq<Action<C>>)
    requires s.batch == [] && n <= |s.queue|
    ensures Valid(s, acts)
    ensures var e := Run(s, acts);
      e.ran == s.ran + s.queue[..n] && e.batch == s.queue[n..]
      && e.queue == Produced(s.queue[..n], effect, arrivals)
  {
    if n == 0 {
      acts := [Swap];
      assert Run(s, acts) == Run(Next(s, Swap), []);
    } else {
      var before := DrainAsActions(s, effect, arrivals, n - 1);
      var m := Run(s, before);
      var call := OneCall(m, arrivals(n - 1) + effect(s.queue[n - 1]).enqueues);
      Concat(s, before, call);
      acts := before + call;
      ProducedStep(s.queue, effect, arrivals, n - 1);
      Advance(s.ran, s.queue, n - 1);
    }
  }

  lemma Advance<C>(ran: seq<C>, batch: seq<C>, k: nat)
    requires k < |batch|
    ensures (ran + batch[..k]) + [batch[k..][0]] == ran + batch[..k + 1] && batch[k..][1..] == batch[k + 1..]
  {
  }

  lemma {:induction false} EnqueueActions<C>(s: State<C>, cs: seq<C>, acts: seq<Action<C>>)
    requires |acts| == |cs| && forall i :: 0 <= i < |cs| ==> acts[i] == Enqueue(cs[i])
    ensures Valid(s, acts)
    ensures Run(s, acts).queue == s.queue + cs
    ensures Run(s, acts).ran == s.ran && Run(s, acts).batch == s.batch
    decreases acts
  {
    if acts != [] {
      EnqueueActions(Next(s, acts[0]), cs[1..], acts[1..]);
      assert cs == [cs[0]] + cs[1..];
    }
  }

  lemma {:induction false} Concat<C>(s: State<C>, a: seq<Action<C>>, b: seq<Action<C>>)
    requires Valid(s, a) && Valid(Run(s, a), b)
    ensures Valid(s, a + b) && Run(s, a + b) == Run(Run(s, a), b)
    decreases a
  {
    if a == [] {
      assert a + b == b;
    } else {
      assert (a + b)[1..] == a[1..] + b;
      Concat(Next(s, a[0]), a[1..], b);
    }
  }
}
