/** The worker pool of src/ThreadPoolExecutor.{h,cpp} as a transition system.

    One action is one critical section (or one atomic update) of the C++ code, so a
    sequence of actions is an interleaving of any number of submitters, of the pool's
    workers, and of callers of shutdown and shutdownNow. The class at the end of the
    file has the fields of the original and performs the same critical sections on them. */
module ThreadPool {
  import opened Common

  type Task = nat

  /** Where a worker thread stands in its loop. */
  datatype Worker =
    | Idle                 // at, or on the way to, the condition wait
    | Running(task: Task)  // popped a task, its body has not returned
    | Ran(task: Task)      // the body returned or threw, activeCount not yet decremented
    | Exited

  datatype State = State(
    taskQueue: seq<Task>,
    shutdownFlag: bool,
    shutdownNowFlag: bool,
    activeCount: nat,
    workers: seq<Worker>,
    // history
    accepted: seq<Task>,
    started: seq<Task>,
    finished: seq<Task>,
    abandoned: seq<Task>)

  datatype Action =
    | Submit(task: Task)
    | LeaveWait(w: nat)   // wake with the predicate true, then exit or pop, all under the lock
    | Complete(w: nat)    // the task body returns or throws
    | Release(w: nat)     // activeCount--, outside the lock
    | RaiseFlag           // first critical section of shutdown
    | ShutdownNow         // critical section of shutdownNow
  {
    predicate ByWorker() { LeaveWait? || Complete? || Release? }

    predicate Closes() { RaiseFlag? || ShutdownNow? }
  }

  function Init(n: nat): State {
    State([], false, false, 0, seq(n, _ => Idle), [], [], [], [])
  }

  predicate Enabled(s: State, a: Action) {
    match a
    case Submit(_) => true
    case LeaveWait(w) => w < |s.workers| && s.workers[w].Idle? && (s.taskQueue != [] || s.shutdownFlag)
    case Complete(w) => w < |s.workers| && s.workers[w].Running?
    case Release(w) => w < |s.workers| && s.workers[w].Ran? && s.activeCount > 0
    case RaiseFlag => true
    case ShutdownNow => true
  }

  function Next(s: State, a: Action): State
    requires Enabled(s, a)
  {
    match a
    case Submit(t) =>
      if s.shutdownFlag then s
      else s.(taskQueue := s.taskQueue + [t], accepted := s.accepted + [t])
    case LeaveWait(w) =>
      if s.shutdownFlag && (s.taskQueue == [] || s.shutdownNowFlag) then
        s.(workers := s.workers[w := Exited])
      else
        s.(taskQueue := s.taskQueue[1..],
           activeCount := s.activeCount + 1,
           workers := s.workers[w := Running(s.taskQueue[0])],
           started := s.started + [s.taskQueue[0]])
    case Complete(w) =>
      s.(workers := s.workers[w := Ran(s.workers[w].task)],
         finished := s.finished + [s.workers[w].task])
    case Release(w) =>
      s.(activeCount := s.activeCount - 1, workers := s.workers[w := Idle])
    case RaiseFlag =>
      s.(shutdownFlag := true)
    case ShutdownNow =>
      s.(shutdownNowFlag := true, shutdownFlag := true,
         taskQueue := [], abandoned := s.taskQueue + s.abandoned)
  }

  /** acts is an interleaving that s can perform. */
  predicate Valid(s: State, acts: seq<Action>)
    decreases acts
  {
    acts == [] || (Enabled(s, acts[0]) && Valid(Next(s, acts[0]), acts[1..]))
  }

  function Run(s: State, acts: seq<Action>): State
    requires Valid(s, acts)
    decreases acts
  {
    if acts == [] then s else Run(Next(s, acts[0]), acts[1..])
  }

  // ---------------------------------------------------------------- counting workers

  function IsBusy(w: Worker): nat {
    if w.Running? || w.Ran? then 1 else 0
  }

  function Busy(ws: seq<Worker>): nat {
    if ws == [] then 0 else IsBusy(ws[0]) + Busy(ws[1..])
  }

  function Holds(w: Worker, t: Task): nat {
    if w == Running(t) then 1 else 0
  }

  /** Number of workers whose current task is t. */
  function InFlight(ws: seq<Worker>, t: Task): nat {
    if ws == [] then 0 else Holds(ws[0], t) + InFlight(ws[1..], t)
  }

  /** Steps a worker still takes once the flag is up, if it pops nothing more. */
  function Ahead(w: Worker): nat {
    match w case Idle => 1 case Running(_) => 3 case Ran(_) => 2 case Exited => 0
  }

  function AheadAll(ws: seq<Worker>): nat {
    if ws == [] then 0 else Ahead(ws[0]) + AheadAll(ws[1..])
  }

  lemma {:induction false} CountsAfterUpdate(ws: seq<Worker>, i: nat, x: Worker)
    requires i < |ws|
    ensures Busy(ws[i := x]) + IsBusy(ws[i]) == Busy(ws) + IsBusy(x)
    ensures AheadAll(ws[i := x]) + Ahead(ws[i]) == AheadAll(ws) + Ahead(x)
  {
    if i == 0 {
      assert ws[0 := x][1..] == ws[1..];
    } else {
      assert ws[i := x][1..] == ws[1..][i - 1 := x];
      CountsAfterUpdate(ws[1..], i - 1, x);
    }
  }

  lemma {:induction false} InFlightAfterUpdate(ws: seq<Worker>, i: nat, x: Worker, t: Task)
    requires i < |ws|
    ensures InFlight(ws[i := x], t) + Holds(ws[i], t) == InFlight(ws, t) + Holds(x, t)
  {
    if i == 0 {
      assert ws[0 := x][1..] == ws[1..];
    } else {
      assert ws[i := x][1..] == ws[1..][i - 1 := x];
      InFlightAfterUpdate(ws[1..], i - 1, x, t);
    }
  }

  lemma {:induction false} CountsOfIdle(n: nat, t: Task)
    ensures Busy(seq(n, _ => Idle)) == InFlight(seq(n, _ => Idle), t) == 0
  {
    if n > 0 {
      assert seq(n, _ => Idle)[1..] == seq(n - 1, _ => Idle);
      CountsOfIdle(n - 1, t);
    }
  }

  lemma {:induction false} NoneBusy(ws: seq<Worker>, t: Task)
    requires Busy(ws) == 0
    ensures InFlight(ws, t) == 0
  {
    if ws != [] { NoneBusy(ws[1..], t); }
  }

  lemma {:induction false} SomeAhead(ws: seq<Worker>) returns (i: nat)
    requires AheadAll(ws) > 0
    ensures i < |ws| && !ws[i].Exited?
  {
    if Ahead(ws[0]) > 0 {
      i := 0;
    } else {
      i := SomeAhead(ws[1..]);
      i := i + 1;
    }
  }

  lemma {:induction false} NoneAhead(ws: seq<Worker>)
    requires AheadAll(ws) == 0
    ensures Busy(ws) == 0
    ensures forall i :: 0 <= i < |ws| ==> ws[i].Exited?
  {
    if ws != [] { NoneAhead(ws[1..]); }
  }

  // ---------------------------------------------------------------- the invariant

  /** Started, queued and abandoned tasks, in that order, are the accepted ones. */
  predicate Ordered(s: State) {
    s.accepted == s.started + s.taskQueue + s.abandoned
  }

  /** Each start has finished or is in flight, exactly once. */
  ghost predicate Accounted(s: State) {
    forall t :: multiset(s.started)[t] == multiset(s.finished)[t] + InFlight(s.workers, t)
  }

  /** Tasks are abandoned only by shutdownNow, and workers exit only for good reason. */
  ghost predicate ClosedWell(s: State) {
    && (s.abandoned != [] ==> s.shutdownNowFlag)
    && (s.shutdownNowFlag ==> s.shutdownFlag && s.taskQueue == [])
    && ((exists w :: 0 <= w < |s.workers| && s.workers[w].Exited?) ==> s.shutdownFlag && s.taskQueue == [])
  }

  ghost predicate Inv(s: State) {
    Ordered(s) && Accounted(s) && s.activeCount == Busy(s.workers) && ClosedWell(s)
  }

  lemma InitInv(n: nat)
    ensures Inv(Init(n))
  {
    CountsOfIdle(n, 0);
    forall t ensures InFlight(Init(n).workers, t) == 0 {
      CountsOfIdle(n, t);
    }
  }

  lemma StepOrdered(s: State, a: Action)
    requires Ordered(s) && Enabled(s, a)
    requires s.abandoned != [] ==> s.shutdownFlag
    ensures Ordered(Next(s, a))
  {
    if a.LeaveWait? && s.taskQueue != [] {
      assert s.taskQueue == [s.taskQueue[0]] + s.taskQueue[1..];
    }
  }

  lemma StepAccounted(s: State, a: Action)
    requires Accounted(s) && Enabled(s, a)
    ensures Accounted(Next(s, a))
  {
    var n := Next(s, a);
    forall t ensures multiset(n.started)[t] == multiset(n.finished)[t] + InFlight(n.workers, t) {
      StepAccountedAt(s, a, t);
    }
  }

  lemma CountAppended(xs: seq<Task>, x: Task, t: Task)
    ensures multiset(xs + [x])[t] == multiset(xs)[t] + (if x == t then 1 else 0)
  {
  }

  lemma StepAccountedAt(s: State, a: Action, t: Task)
    requires multiset(s.started)[t] == multiset(s.finished)[t] + InFlight(s.workers, t) && Enabled(s, a)
    ensures var n := Next(s, a); multiset(n.started)[t] == multiset(n.finished)[t] + InFlight(n.workers, t)
  {
    if a.ByWorker() {
      var n := Next(s, a);
      InFlightAfterUpdate(s.workers, a.w, n.workers[a.w], t);
      if a.LeaveWait? && n.workers[a.w].Running? {
        CountAppended(s.started, s.taskQueue[0], t);
      } else if a.Complete? {
        CountAppended(s.finished, s.workers[a.w].task, t);
      }
    }
  }

  lemma StepInv(s: State, a: Action)
    requires Inv(s) && Enabled(s, a)
    ensures Inv(Next(s, a))
  {
    StepOrdered(s, a);
    StepAccounted(s, a);
    StepCounted(s, a);
    StepClosedWell(s, a);
  }

  lemma WorkerFrame(s: State, a: Action)
    requires Enabled(s, a) && a.ByWorker()
    ensures Next(s, a).accepted == s.accepted && Next(s, a).abandoned == s.abandoned
    ensures |Next(s, a).workers| == |s.workers|
  {
  }

  lemma StepCounted(s: State, a: Action)
    requires s.activeCount == Busy(s.workers) && Enabled(s, a)
    ensures Next(s, a).activeCount == Busy(Next(s, a).workers)
  {
    if a.ByWorker() {
      CountsAfterUpdate(s.workers, a.w, Next(s, a).workers[a.w]);
    }
  }

  lemma StepClosedWell(s: State, a: Action)
    requires ClosedWell(s) && Enabled(s, a)
    ensures ClosedWell(Next(s, a))
  {
  }

  lemma {:induction false} RunInv(s: State, acts: seq<Action>)
    requires Inv(s) && Valid(s, acts)
    ensures Inv(Run(s, acts))
    decreases acts
  {
    if acts != [] {
      StepInv(s, acts[0]);
      RunInv(Next(s, acts[0]), acts[1..]);
    }
  }

  lemma {:induction false} HeldIsCounted(ws: seq<Worker>, w: nat)
    requires w < |ws| && ws[w].Running?
    ensures InFlight(ws, ws[w].task) > 0
  {
    if w > 0 { HeldIsCounted(ws[1..], w - 1); }
  }

  lemma HeldIsStarted(s: State, w: nat)
    requires Inv(s) && w < |s.workers| && s.workers[w].Running?
    ensures s.workers[w].task in s.started
  {
    HeldIsCounted(s.workers, w);
    assert multiset(s.started)[s.workers[w].task] > 0;
  }

  // ---------------------------------------------------------------- acceptance and order

  /** The tasks an outside observer expects to be accepted: those submitted before
      the first call of shutdown or shutdownNow took the lock. */
  function SubmittedBeforeClosing(acts: seq<Action>): seq<Task> {
    if acts == [] || acts[0].Closes() then []
    else (if acts[0].Submit? then [acts[0].task] else []) + SubmittedBeforeClosing(acts[1..])
  }

  lemma {:induction false} AcceptedGrows(s: State, acts: seq<Action>)
    requires Valid(s, acts)
    ensures Run(s, acts).accepted
         == s.accepted + (if s.shutdownFlag then [] else SubmittedBeforeClosing(acts))
    decreases acts
  {
    if acts != [] {
      AcceptedGrows(Next(s, acts[0]), acts[1..]);
      if !s.shutdownFlag && acts[0].Submit? {
        Assoc(s.accepted, [acts[0].task], SubmittedBeforeClosing(acts[1..]));
      } else if !s.shutdownFlag && !acts[0].Closes() {
        assert [] + SubmittedBeforeClosing(acts[1..]) == SubmittedBeforeClosing(acts[1..]);
      }
    }
  }

  /** In every reachable state of every interleaving: the accepted tasks are exactly those
      submitted before closing; the started tasks, then the queue, then the tasks abandoned
      by shutdownNow are the accepted tasks in submission order; activeCount counts the
      workers between pop and decrement; and each start is finished or in flight, once. */
  lemma AcceptedInOrder(n: nat, acts: seq<Action>)
    requires Valid(Init(n), acts)
    ensures var s := Run(Init(n), acts);
      && s.accepted == SubmittedBeforeClosing(acts)
      && s.accepted == s.started + s.taskQueue + s.abandoned
      && s.activeCount == Busy(s.workers)
      && (forall t :: multiset(s.started)[t] == multiset(s.finished)[t] + InFlight(s.workers, t))
      && (s.abandoned != [] ==> ShutdownNow in acts)
  {
    InitInv(n);
    RunInv(Init(n), acts);
    AcceptedGrows(Init(n), acts);
    assert [] + SubmittedBeforeClosing(acts) == SubmittedBeforeClosing(acts);
    FlagFromAction(Init(n), acts);
  }

  lemma {:induction false} FlagFromAction(s: State, acts: seq<Action>)
    requires Valid(s, acts)
    ensures Run(s, acts).shutdownNowFlag ==> s.shutdownNowFlag || ShutdownNow in acts
    decreases acts
  {
    if acts != [] { FlagFromAction(Next(s, acts[0]), acts[1..]); }
  }

  // ---------------------------------------------------------------- concurrency

  lemma {:induction false} WorkersStay(s: State, acts: seq<Action>)
    requires Valid(s, acts)
    ensures |Run(s, acts).workers| == |s.workers|
    decreases acts
  {
    if acts != [] { WorkersStay(Next(s, acts[0]), acts[1..]); }
  }

  lemma {:induction false} BusyFits(ws: seq<Worker>)
    ensures Busy(ws) <= |ws|
  {
    if ws != [] { BusyFits(ws[1..]); }
  }

  /** A pool of n threads has n workers at every moment, and never more than n tasks active. */
  lemma AtMostN(n: nat, acts: seq<Action>)
    requires Valid(Init(n), acts)
    ensures |Run(Init(n), acts).workers| == n && Run(Init(n), acts).activeCount <= n
  {
    WorkersStay(Init(n), acts);
    AcceptedInOrder(n, acts);
    BusyFits(Run(Init(n), acts).workers);
  }

  lemma {:induction false} Concat(s: State, a: seq<Action>, b: seq<Action>)
    requires Valid(s, a) && Valid(Run(s, a), b)
    ensures Valid(s, a + b) && Run(s, a + b) == Run(Run(s, a), b)
    decreases a
  {
    if a == [] {
      assert a + b == b;
    } else {
      assert (a + b)[1..] == a[1..] + b;
      Concat(Next(s, a[0]), a[1..], b);
    }
  }

  lemma TwoSteps(s: State, a: Action, b: Action)
    requires Enabled(s, a) && Enabled(Next(s, a), b)
    ensures Valid(s, [a, b]) && Run(s, [a, b]) == Next(Next(s, a), b)
  {
    assert [a, b][1..] == [b] && [b][1..] == [];
    assert Run(Next(s, a), [b]) == Run(Next(Next(s, a), b), []);
  }

  /** The first |ts| workers run the tasks ts, the others wait. */
  predicate AllRunning(s: State, n: nat, ts: seq<Task>) {
    && |ts| <= |s.workers| == n && !s.shutdownFlag && s.taskQueue == [] && s.accepted == ts
    && forall i :: 0 <= i < n ==> s.workers[i] == if i < |ts| then Running(ts[i]) else Idle
  }

  /** And as many tasks as there are threads can run at once: some interleaving gets there. */
  lemma {:induction false} RunTogether(n: nat, ts: seq<Task>) returns (acts: seq<Action>)
    requires |ts| <= n
    ensures Valid(Init(n), acts) && AllRunning(Run(Init(n), acts), n, ts)
  {
    if ts == [] {
      acts := [];
    } else {
      var k := |ts| - 1;
      acts := RunTogether(n, ts[..k]);
      var s := Run(Init(n), acts);
      var more := [Action.Submit(ts[k]), Action.LeaveWait(k)];
      var mid := Next(s, Action.Submit(ts[k]));
      assert mid.taskQueue == [ts[k]] && ts == ts[..k] + [ts[k]];
      TwoSteps(s, Action.Submit(ts[k]), Action.LeaveWait(k));
      Concat(Init(n), acts, more);
      acts := acts + more;
    }
  }

  // ---------------------------------------------------------------- graceful shutdown

  /** Worker steps left once the flag is up: three for a queued task, and what each worker owes. */
  function Left(s: State): nat {
    3 * |s.taskQueue| + AheadAll(s.workers)
  }

  function WorkerSteps(acts: seq<Action>): nat {
    if acts == [] then 0 else (if acts[0].ByWorker() then 1 else 0) + WorkerSteps(acts[1..])
  }

  lemma DrainStep(s: State, a: Action)
    requires Inv(s) && s.shutdownFlag && Enabled(s, a)
    ensures Next(s, a).shutdownFlag
    ensures a.ByWorker() ==> Left(Next(s, a)) == Left(s) - 1
    ensures Left(Next(s, a)) <= Left(s)
  {
    if a.ByWorker() {
      CountsAfterUpdate(s.workers, a.w, Next(s, a).workers[a.w]);
    }
  }

  /** After the flag is up the workers together take at most Left(s) more steps, whatever
      submitters and other shutdown callers do in between. */
  lemma {:induction false} DrainBound(s: State, acts: seq<Action>)
    requires Inv(s) && s.shutdownFlag && Valid(s, acts)
    ensures WorkerSteps(acts) + Left(Run(s, acts)) <= Left(s)
    ensures Inv(Run(s, acts)) && Run(s, acts).shutdownFlag
    decreases acts
  {
    if acts != [] {
      DrainStep(s, acts[0]);
      StepInv(s, acts[0]);
      DrainBound(Next(s, acts[0]), acts[1..]);
    }
  }

  /** Until that count is zero some worker can step: the pool cannot get stuck with work left. */
  lemma DrainProgress(s: State) returns (a: Action)
    requires Inv(s) && s.shutdownFlag && |s.workers| > 0 && Left(s) > 0
    ensures a.ByWorker() && Enabled(s, a)
  {
    var firstGone := s.workers[0].Exited?;
    if AheadAll(s.workers) == 0 {
      NoneAhead(s.workers);
      assert false;
    }
    var w := SomeAhead(s.workers);
    CountsAfterUpdate(s.workers, w, Idle);
    a := match s.workers[w] case Idle => LeaveWait(w) case Running(_) => Complete(w) case _ => Release(w);
  }

  predicate AllExited(s: State) {
    forall w :: 0 <= w < |s.workers| ==> s.workers[w].Exited?
  }

  lemma NoneInFlight(s: State)
    requires Inv(s) && s.taskQueue == [] && s.activeCount == 0
    ensures multiset(s.accepted) == multiset(s.finished) + multiset(s.abandoned)
  {
    assert s.accepted == s.started + s.abandoned;
    forall t ensures multiset(s.started)[t] == multiset(s.finished)[t] {
      NoneBusy(s.workers, t);
    }
    assert multiset(s.started) == multiset(s.finished);
  }

  /** When it is zero, every worker has exited and every accepted task finished or was abandoned. */
  lemma DrainedIsDone(s: State)
    requires Inv(s) && s.shutdownFlag && Left(s) == 0
    ensures AllExited(s)
    ensures multiset(s.accepted) == multiset(s.finished) + multiset(s.abandoned)
  {
    NoneAhead(s.workers);
    NoneInFlight(s);
  }

  /** So workers alone, scheduled in any order that keeps choosing enabled steps, bring every
      reachable closed state to one where shutdown's joins return. */
  lemma {:induction false} DrainReachesJoin(s: State) returns (acts: seq<Action>)
    requires Inv(s) && s.shutdownFlag && |s.workers| > 0
    ensures Valid(s, acts) && WorkerSteps(acts) == |acts| == Left(s)
    ensures AllExited(Run(s, acts))
    ensures multiset(Run(s, acts).accepted) == multiset(Run(s, acts).finished) + multiset(Run(s, acts).abandoned)
    decreases Left(s)
  {
    if Left(s) == 0 {
      DrainedIsDone(s);
      acts := [];
    } else {
      var a := DrainProgress(s);
      DrainStep(s, a);
      StepInv(s, a);
      var rest := DrainReachesJoin(Next(s, a));
      acts := [a] + rest;
      assert acts[1..] == rest;
    }
  }

  /** No worker has left its loop while tasks were queued. */
  lemma NoEarlyExit(n: nat, acts: seq<Action>, w: nat)
    requires Valid(Init(n), acts) && w < |Run(Init(n), acts).workers|
    requires Run(Init(n), acts).taskQueue != []
    ensures !Run(Init(n), acts).workers[w].Exited?
  {
    InitInv(n);
    RunInv(Init(n), acts);
  }

  /** What the second wait in shutdown waits for. */
  predicate WaitOver(s: State) {
    s.shutdownFlag && s.taskQueue == [] && s.activeCount == 0
  }

  /** When shutdown passes its wait every accepted task has finished (or was abandoned, which
      takes a shutdownNow), and nothing about the tasks changes afterwards. */
  lemma {:induction false} FinishedAfterWait(s: State, acts: seq<Action>)
    requires Inv(s) && WaitOver(s) && Valid(s, acts)
    ensures multiset(s.accepted) == multiset(s.finished) + multiset(s.abandoned)
    ensures !s.shutdownNowFlag ==> multiset(s.accepted) == multiset(s.finished)
    ensures var e := Run(s, acts);
      WaitOver(e) && e.accepted == s.accepted && e.finished == s.finished && e.abandoned == s.abandoned
    decreases acts
  {
    NoneInFlight(s);
    if acts != [] {
      StepInv(s, acts[0]);
      FinishedAfterWait(Next(s, acts[0]), acts[1..]);
    }
  }

  // ---------------------------------------------------------------- the object

  /** The pool's shared state with its critical sections. model is the transition system's
      view; it also holds what lives on the worker threads' own stacks. */
  class ThreadPoolExecutor {
    var taskQueue: seq<Task>
    var shutdownFlag: bool
    var shutdownNowFlag: bool
    var activeCount: nat
    ghost var model: State

    ghost predicate Valid()
      reads this
    {
      && Inv(model)
      && taskQueue == model.taskQueue
      && shutdownFlag == model.shutdownFlag
      && shutdownNowFlag == model.shutdownNowFlag
      && activeCount == model.activeCount
    }

    constructor (numThreads: nat)
      requires numThreads > 0
      ensures Valid() && model == Init(numThreads)
    {
      taskQueue, shutdownFlag, shutdownNowFlag, activeCount := [], false, false, 0;
      model := Init(numThreads);
      new;
      InitInv(numThreads);
    }

    /** The C++ constructor throws invalid_argument on zero threads: null here. */
    static method Create(numThreads: nat) returns (pool: ThreadPoolExecutor?)
      ensures pool == null <==> numThreads == 0
      ensures pool != null ==> fresh(pool) && pool.Valid() && pool.model == Init(numThreads)
      ensures pool != null ==> |pool.model.workers| == numThreads && forall w :: 0 <= w < numThreads ==> pool.model.workers[w].Idle?
    {
      if numThreads == 0 {
        return null;
      }
      pool := new ThreadPoolExecutor(numThreads);
    }

    /** False stands for the runtime_error thrown by a pool that is shut down. */
    method Submit(task: Task) returns (ok: bool)
      requires Valid()
      modifies this
      ensures Valid() && model == Next(old(model), Action.Submit(task))
      ensures ok <==> !old(shutdownFlag)
    {
      StepInv(model, Action.Submit(task));
      model := Next(model, Action.Submit(task));
      if shutdownFlag {
        return false;
      }
      taskQueue := taskQueue + [task];
      return true;
    }

    /** A worker's critical section after its wait; quit means the loop is left. */
    method LeaveWait(ghost w: nat) returns (quit: bool, task: Task)
      requires Valid() && Enabled(model, Action.LeaveWait(w))
      modifies this
      ensures Valid() && model == Next(old(model), Action.LeaveWait(w))
      ensures model.workers[w] == if quit then Exited else Running(task)
    {
      StepInv(model, Action.LeaveWait(w));
      model := Next(model, Action.LeaveWait(w));
      quit, task := false, 0;
      if shutdownFlag && (taskQueue == [] || shutdownNowFlag) {
        return true, 0;
      }
      if taskQueue != [] {
        task := taskQueue[0];
        taskQueue := taskQueue[1..];
        activeCount := activeCount + 1;
      }
    }

    method Release(ghost w: nat)
      requires Valid() && Enabled(model, Action.Release(w))
      modifies this
      ensures Valid() && model == Next(old(model), Action.Release(w))
    {
      StepInv(model, Action.Release(w));
      model := Next(model, Action.Release(w));
      activeCount := activeCount - 1;
    }

    method RaiseFlag()
      requires Valid()
      modifies this
      ensures Valid() && model == Next(old(model), Action.RaiseFlag)
    {
      StepInv(model, Action.RaiseFlag);
      model := Next(model, Action.RaiseFlag);
      shutdownFlag := true;
    }

    method ShutdownNow()
      requires Valid()
      modifies this
      ensures Valid() && model == Next(old(model), Action.ShutdownNow)
    {
      StepInv(model, Action.ShutdownNow);
      model := Next(model, Action.ShutdownNow);
      shutdownNowFlag := true;
      shutdownFlag := true;
      while taskQueue != []
        invariant shutdownNowFlag && shutdownFlag
        invariant activeCount == old(activeCount) && model == Next(old(model), Action.ShutdownNow)
        decreases |taskQueue|
      {
        taskQueue := taskQueue[1..];
      }
    }
  }
}
