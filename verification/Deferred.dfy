/** The life of a Deferred (src/Deferred.cpp): submitted to the pool, executed by a worker,
    settled by callbacks on the main thread. The pool and the event loop are the transition
    systems of the other two modules; this one interleaves their actions with the single
    writes and posts of the worker's code. Deferreds are numbered in submission order. */
module Deferred {
  import Pool = ThreadPool
  import Loop = EventLoop

  // ---------------------------------------------------------------- what the worker does

  /** Which way workerThreadExecution went. copied: the serialised error or result reached
      the main runtime's memory; false covers both a failed serialisation and a failed malloc. */
  datatype Path = NoRuntime | NoContext | BadBytecode | Threw(copied: bool) | Returned(copied: bool)

  predicate Transferred(p: Path) {
    p == Threw(true) || p == Returned(true)
  }

  /** A C++ exception caught by the handler at the end: none, one raised before any callback was
      posted, or one raised in place of the last post. */
  datatype Fault = NoFault | Early | Late

  /** readable: JS_ReadObject succeeds on the main thread. */
  datatype Outcome = Outcome(path: Path, fault: Fault, readable: bool) {
    function Plan(): seq<Op> { Ops(path, fault) }
  }

  /** The two callback bodies: reject with a message, or look at the task's fields. */
  datatype Kind = RejectNow | Settle

  datatype Callback = Callback(d: nat, kind: Kind)

  /** The task's fields that both threads use. */
  datatype Fields = Fields(hasError: bool, hasResult: bool)

  datatype Op = SetError(b: bool) | SetResult(present: bool) | Post(kind: Kind)

  function LastPost(fault: Fault): Kind {
    if fault == NoFault then Settle else RejectNow
  }

  /** The worker's writes and posts in program order. */
  function Ops(path: Path, fault: Fault): seq<Op> {
    match path
    case Threw(true) => [SetError(true), SetResult(true), Post(LastPost(fault))]
    case Threw(false) =>
      if fault == Early then [SetError(true), Post(RejectNow)]
      else [SetError(true), Post(RejectNow), Post(LastPost(fault))]
    case Returned(copied) => [SetResult(copied), SetError(false), Post(LastPost(fault))]
    case _ => [SetError(true), Post(RejectNow)]
  }

  function Apply(f: Fields, op: Op): Fields {
    match op
    case SetError(b) => f.(hasError := b)
    case SetResult(p) => f.(hasResult := p)
    case Post(_) => f
  }

  const Fresh := Fields(false, false)

  function After(ops: seq<Op>): Fields {
    if ops == [] then Fresh else Apply(After(ops[..|ops| - 1]), ops[|ops| - 1])
  }

  function Posts(ops: seq<Op>): seq<Kind> {
    if ops == [] then []
    else Posts(ops[..|ops| - 1]) + (if ops[|ops| - 1].Post? then [ops[|ops| - 1].kind] else [])
  }

  // ---------------------------------------------------------------- what the main thread calls

  /** Original: the deserialised value or error. Fallback: undefined to resolve, a message to reject. */
  datatype Payload = Original | Fallback
  datatype Settlement = Resolved(p: Payload) | Rejected(p: Payload)
  datatype Call = Call(d: nat, settlement: Settlement)

  function SettleCall(f: Fields, readable: bool): Settlement {
    var p := if f.hasResult && readable then Original else Fallback;
    if f.hasError then Rejected(p) else Resolved(p)
  }

  /** What a Deferred's owner sees in the end, path by path. */
  function Expected(o: Outcome): seq<Settlement> {
    var shown := if Transferred(o.path) && o.readable then Original else Fallback;
    match o.path
    case Returned(_) => if o.fault == NoFault then [Resolved(shown)] else [Rejected(Fallback)]
    case Threw(true) => if o.fault == NoFault then [Rejected(shown)] else [Rejected(Fallback)]
    case Threw(false) =>
      if o.fault == Early then [Rejected(Fallback)] else [Rejected(Fallback), Rejected(Fallback)]
    case _ => [Rejected(Fallback)]
  }

  /** Always settled, never both ways, resolved at most once; resolved exactly when the function
      returned and no C++ exception intervened; rejected twice exactly on the fall-through path. */
  lemma ExpectedShape(o: Outcome)
    ensures 1 <= |Expected(o)| <= 2
    ensures (exists i :: 0 <= i < |Expected(o)| && Expected(o)[i].Resolved?)
        ==> |Expected(o)| == 1 && o.path.Returned? && o.fault == NoFault
    ensures o.path.Returned? && o.fault == NoFault ==> Expected(o)[0].Resolved?
    ensures |Expected(o)| == 2 <==> o.path == Threw(false) && o.fault != Early
    ensures (exists i :: 0 <= i < |Expected(o)| && Expected(o)[i].p == Original)
        ==> Transferred(o.path) && o.readable
  {
  }

  // ---------------------------------------------------------------- the whole system

  datatype Job = Job(outcome: Outcome, pc: nat, fields: Fields)

  datatype State = State(
    pool: Pool.State,
    loop: Loop.State<Callback>,
    jobs: seq<Job>,       // one for each started Deferred
    calls: seq<Call>)     // calls of resolve and reject, in order

  datatype Action =
    | Create                          // the constructor's submit
    | Begin(w: nat, outcome: Outcome) // a worker leaves its wait; outcome is the environment's choice
    | Execute(w: nat)                 // the next write or post of the worker's code
    | End(w: nat)                     // workerThreadExecution returns
    | Release(w: nat)
    | RaiseFlag
    | ShutdownNow
    | Swap
    | RunOne

  function Init(threads: nat): State {
    State(Pool.Init(threads), Loop.Empty(), [], [])
  }

  predicate Busy(s: State, w: nat) {
    w < |s.pool.workers| && s.pool.workers[w].Running? && s.pool.workers[w].task < |s.jobs|
  }

  function JobOf(s: State, w: nat): Job
    requires Busy(s, w)
  {
    s.jobs[s.pool.workers[w].task]
  }

  function PoolAction(s: State, a: Action): Pool.Action
    requires a.Create? || a.Begin? || a.End? || a.Release? || a.RaiseFlag? || a.ShutdownNow?
  {
    match a
    case Create => Pool.Submit(|s.pool.accepted|)
    case Begin(w, _) => Pool.LeaveWait(w)
    case End(w) => Pool.Complete(w)
    case Release(w) => Pool.Release(w)
    case RaiseFlag => Pool.RaiseFlag
    case ShutdownNow => Pool.ShutdownNow
  }

  predicate Enabled(s: State, a: Action) {
    match a
    case Execute(w) => Busy(s, w) && JobOf(s, w).pc < |JobOf(s, w).outcome.Plan()|
    case End(w) => Busy(s, w) && JobOf(s, w).pc == |JobOf(s, w).outcome.Plan()|
    case Swap => Loop.Enabled(s.loop, Loop.Swap)
    case RunOne => Loop.Enabled(s.loop, Loop.RunOne) && s.loop.batch[0].d < |s.jobs|
    case _ => Pool.Enabled(s.pool, PoolAction(s, a))
  }

  function Next(s: State, a: Action): State
    requires Enabled(s, a)
  {
    match a
    case Begin(w, o) =>
      var p := Pool.Next(s.pool, Pool.LeaveWait(w));
      s.(pool := p, jobs := if p.workers[w].Running? then s.jobs + [Job(o, 0, Fresh)] else s.jobs)
    case Execute(w) =>
      var d := s.pool.workers[w].task;
      var job := s.jobs[d];
      var op := job.outcome.Plan()[job.pc];
      var s' := s.(jobs := s.jobs[d := job.(pc := job.pc + 1, fields := Apply(job.fields, op))]);
      if op.Post? then s'.(loop := Loop.Next(s.loop, Loop.Enqueue(Callback(d, op.kind)))) else s'
    case Swap => s.(loop := Loop.Next(s.loop, Loop.Swap))
    case RunOne =>
      var c := s.loop.batch[0];
      var job := s.jobs[c.d];
      var s' := s.(loop := Loop.Next(s.loop, Loop.RunOne));
      (match c.kind
       case RejectNow => s'.(calls := s.calls + [Call(c.d, Rejected(Fallback))])
       case Settle =>
         s'.(calls := s.calls + [Call(c.d, SettleCall(job.fields, job.outcome.readable))],
             jobs := s.jobs[c.d := job.(fields := job.fields.(hasResult := false))]))
    case _ => s.(pool := Pool.Next(s.pool, PoolAction(s, a)))
  }

  predicate Valid(s: State, acts: seq<Action>)
    decreases acts
  {
    acts == [] || (Enabled(s, acts[0]) && Valid(Next(s, acts[0]), acts[1..]))
  }

  function Run(s: State, acts: seq<Action>): State
    requires Valid(s, acts)
    decreases acts
  {
    if acts == [] then s else Run(Next(s, acts[0]), acts[1..])
  }

  // ---------------------------------------------------------------- projections to one Deferred

  function KindsOf(cs: seq<Callback>, d: nat): seq<Kind> {
    if cs == [] then []
    else KindsOf(cs[..|cs| - 1], d) + (if cs[|cs| - 1].d == d then [cs[|cs| - 1].kind] else [])
  }

  function CallsOf(cs: seq<Call>, d: nat): seq<Settlement> {
    if cs == [] then []
    else CallsOf(cs[..|cs| - 1], d) + (if cs[|cs| - 1].d == d then [cs[|cs| - 1].settlement] else [])
  }

  lemma {:induction false} KindsOfConcat(a: seq<Callback>, b: seq<Callback>, d: nat)
    ensures KindsOf(a + b, d) == KindsOf(a, d) + KindsOf(b, d)
  {
    if b == [] {
      assert a + b == a;
    } else {
      assert (a + b)[..|a + b| - 1] == a + b[..|b| - 1];
      KindsOfConcat(a, b[..|b| - 1], d);
    }
  }

  lemma Snoc(cs: seq<Callback>, c: Callback, calls: seq<Call>, call: Call, d: nat)
    ensures KindsOf(cs + [c], d) == if c.d == d then KindsOf(cs, d) + [c.kind] else KindsOf(cs, d)
    ensures CallsOf(calls + [call], d) == if call.d == d then CallsOf(calls, d) + [call.settlement] else CallsOf(calls, d)
  {
    assert (cs + [c])[..|cs|] == cs;
    assert (calls + [call])[..|calls|] == calls;
  }

  lemma {:induction false} KindsOfMember(cs: seq<Callback>, i: nat)
    requires i < |cs|
    ensures cs[i].kind in KindsOf(cs, cs[i].d)
  {
    if i < |cs| - 1 { KindsOfMember(cs[..|cs| - 1], i); }
  }

  /** What the callbacks of kinds ks, run in order, call. */
  function Settlements(ks: seq<Kind>, o: Outcome): seq<Settlement> {
    seq(|ks|, i requires 0 <= i < |ks| => SettlementOf(ks[i], o))
  }

  function SettlementOf(k: Kind, o: Outcome): Settlement {
    if k == RejectNow then Rejected(Fallback) else SettleCall(After(o.Plan()), o.readable)
  }

  lemma SettlementsConcat(ks: seq<Kind>, more: seq<Kind>, o: Outcome)
    ensures Settlements(ks + more, o) == Settlements(ks, o) + Settlements(more, o)
  {
  }

  /** Each path's posts lead to what Expected says. */
  lemma PathsSettle(o: Outcome)
    ensures Settlements(Posts(o.Plan()), o) == Expected(o)
  {
    OpsUnfold(o.path, o.fault);
  }

  lemma OpsUnfold(path: Path, fault: Fault)
    ensures var ops := Ops(path, fault);
      && 2 <= |ops| <= 3
      && (forall i :: 0 <= i < |ops| - 1 ==> ops[i] != Post(Settle))
      && After(ops) == Fields(!path.Returned?, Transferred(path))
      && (|ops| == 2 ==> Posts(ops) == [RejectNow])
      && (|ops| == 3 ==> Posts(ops) == (if ops[1].Post? then [ops[1].kind] else []) + [LastPost(fault)])
  {
    var ops := Ops(path, fault);
    assert ops[..1] == [ops[0]] && ops[..1][..0] == [];
    assert After(ops[..1]) == Apply(Fresh, ops[0]);
    assert Posts(ops[..1]) == [];
    assert ops[..2] == [ops[0], ops[1]] && ops[..2][..1] == ops[..1];
    assert After(ops[..2]) == Apply(After(ops[..1]), ops[1]);
    assert Posts(ops[..2]) == if ops[1].Post? then [ops[1].kind] else [];
    assert |ops| == 2 ==> ops[..2] == ops;
    assert |ops| == 3 ==> ops[..3] == ops;
  }

  /** Only the last operation posts Settle, so a posted Settle means the plan is complete. */
  lemma SettleIsLast(o: Outcome, pc: nat)
    requires pc <= |o.Plan()| && Settle in Posts(o.Plan()[..pc])
    ensures pc == |o.Plan()|
  {
    OpsUnfold(o.path, o.fault);
    if pc < |o.Plan()| {
      NoSettle(o.Plan()[..pc]);
    }
  }

  lemma {:induction false} NoSettle(ops: seq<Op>)
    requires forall i :: 0 <= i < |ops| ==> ops[i] != Post(Settle)
    ensures Settle !in Posts(ops)
  {
    if ops != [] { NoSettle(ops[..|ops| - 1]); }
  }

  // ---------------------------------------------------------------- the invariant

  /** One started Deferred: what was posted for it is what its plan has posted so far, and what
      was called for it is what the callbacks already run were meant to call. */
  ghost predicate JobOk(job: Job, d: nat, loop: Loop.State<Callback>, calls: seq<Call>) {
    var o := job.outcome;
    && job.pc <= |o.Plan()|
    && KindsOf(loop.enqueued, d) == Posts(o.Plan()[..job.pc])
    && CallsOf(calls, d) == Settlements(KindsOf(loop.ran, d), o)
    && (Settle !in KindsOf(loop.ran, d) ==> job.fields == After(o.Plan()[..job.pc]))
  }

  ghost predicate Numbered(s: State) {
    forall i :: 0 <= i < |s.pool.accepted| ==> s.pool.accepted[i] == i
  }

  ghost predicate Inv(s: State) {
    && Pool.Inv(s.pool)
    && Loop.InOrder(s.loop)
    && Numbered(s)
    && |s.jobs| == |s.pool.started|
    && (forall d :: 0 <= d < |s.jobs| ==> JobOk(s.jobs[d], d, s.loop, s.calls))
    && (forall c :: c in s.loop.enqueued ==> c.d < |s.jobs|)
    && (forall d :: d >= |s.jobs| ==> CallsOf(s.calls, d) == [])
    && (forall d :: d in s.pool.finished ==> d < |s.jobs| && s.jobs[d].pc == |s.jobs[d].outcome.Plan()|)
  }

  lemma InitInv(threads: nat)
    ensures Inv(Init(threads))
  {
    Pool.InitInv(threads);
  }

  lemma {:induction false} KindsOfNone(cs: seq<Callback>, d: nat)
    requires forall c :: c in cs ==> c.d != d
    ensures KindsOf(cs, d) == []
  {
    if cs != [] { KindsOfNone(cs[..|cs| - 1], d); }
  }

  lemma NewJobOk(s: State, o: Outcome)
    requires Inv(s)
    ensures JobOk(Job(o, 0, Fresh), |s.jobs|, s.loop, s.calls)
  {
    Loop.Waiting(s.loop);
    KindsOfNone(s.loop.enqueued, |s.jobs|);
    KindsOfConcat(s.loop.ran, s.loop.batch + s.loop.queue, |s.jobs|);
    assert o.Plan()[..0] == [];
  }

  lemma BeginKeeps(s: State, w: nat, o: Outcome)
    requires Inv(s) && Enabled(s, Begin(w, o))
    ensures Inv(Next(s, Begin(w, o)))
  {
    var n := Next(s, Begin(w, o));
    Pool.StepInv(s.pool, Pool.LeaveWait(w));
    if n.jobs != s.jobs {
      NewJobOk(s, o);
      forall d | 0 <= d < |n.jobs| ensures JobOk(n.jobs[d], d, n.loop, n.calls) {
        if d < |s.jobs| {
          assert n.jobs[d] == s.jobs[d];
        }
      }
    }
  }

  lemma PlanStep(ops: seq<Op>, pc: nat)
    requires pc < |ops|
    ensures After(ops[..pc + 1]) == Apply(After(ops[..pc]), ops[pc])
    ensures Posts(ops[..pc + 1]) == Posts(ops[..pc]) + (if ops[pc].Post? then [ops[pc].kind] else [])
  {
    assert ops[..pc + 1][..pc] == ops[..pc];
  }

  /** One write or post, as one Deferred sees it. */
  lemma ExecuteJob(job: Job, d: nat, owner: nat, op: Op, loop: Loop.State<Callback>, calls: seq<Call>)
    requires JobOk(job, d, loop, calls)
    requires d == owner ==> job.pc < |job.outcome.Plan()| && op == job.outcome.Plan()[job.pc]
    ensures var job' := if d == owner then job.(pc := job.pc + 1, fields := Apply(job.fields, op)) else job;
      JobOk(job', d, if op.Post? then Loop.Next(loop, Loop.Enqueue(Callback(owner, op.kind))) else loop, calls)
  {
    if op.Post? {
      Snoc(loop.enqueued, Callback(owner, op.kind), [], Call(0, Rejected(Fallback)), d);
    }
    if d == owner { PlanStep(job.outcome.Plan(), job.pc); }
  }

  lemma ExecuteKeeps(s: State, w: nat)
    requires Inv(s) && Enabled(s, Execute(w))
    ensures Inv(Next(s, Execute(w)))
  {
    var n := Next(s, Execute(w));
    var d := s.pool.workers[w].task;
    var op := s.jobs[d].outcome.Plan()[s.jobs[d].pc];
    if op.Post? {
      Loop.StepInOrder(s.loop, Loop.Enqueue(Callback(d, op.kind)));
    }
    forall e | 0 <= e < |n.jobs| ensures JobOk(n.jobs[e], e, n.loop, n.calls) {
      ExecuteJob(s.jobs[e], e, d, op, s.loop, s.calls);
    }
  }

  /** One callback, as one Deferred sees it. */
  lemma RunOneJob(job: Job, d: nat, c: Callback, call: Call, loop: Loop.State<Callback>, calls: seq<Call>)
    requires JobOk(job, d, loop, calls) && loop.batch != [] && c == loop.batch[0] && call.d == c.d
    requires d == c.d && c.kind == RejectNow ==> call.settlement == Rejected(Fallback)
    requires d == c.d && c.kind == Settle ==>
      call.settlement == SettleCall(After(job.outcome.Plan()), job.outcome.readable)
    ensures var job' := if d == c.d && c.kind == Settle then job.(fields := job.fields.(hasResult := false)) else job;
      JobOk(job', d, Loop.Next(loop, Loop.RunOne), calls + [call])
  {
    Snoc(loop.ran, c, calls, call, d);
    SettlementsConcat(KindsOf(loop.ran, d), [c.kind], job.outcome);
  }

  lemma RunOneKeeps(s: State)
    requires Inv(s) && Enabled(s, RunOne)
    ensures Inv(Next(s, RunOne))
  {
    var n := Next(s, RunOne);
    var c := s.loop.batch[0];
    Loop.StepInOrder(s.loop, Loop.RunOne);
    if c.kind == Settle {
      SettleRunsOnFinalFields(s);
    }
    var call := n.calls[|s.calls|];
    forall e | 0 <= e < |n.jobs| ensures JobOk(n.jobs[e], e, n.loop, n.calls) {
      RunOneJob(s.jobs[e], e, c, call, s.loop, s.calls);
    }
  }

  /** When a Settle callback runs, the worker has finished writing the task's fields. */
  lemma SettleRunsOnFinalFields(s: State)
    requires Inv(s) && Enabled(s, RunOne) && s.loop.batch[0].kind == Settle
    ensures s.jobs[s.loop.batch[0].d].fields == After(s.jobs[s.loop.batch[0].d].outcome.Plan())
  {
    var c := s.loop.batch[0];
    var job := s.jobs[c.d];
    var ops := job.outcome.Plan();
    assert JobOk(job, c.d, s.loop, s.calls);
    var i := |s.loop.ran|;
    assert s.loop.enqueued[i] == c;
    KindsOfMember(s.loop.enqueued, i);
    SettleIsLast(job.outcome, job.pc);
    assert ops[..job.pc] == ops;
    assert s.loop.enqueued == s.loop.ran + [c] + (s.loop.batch[1..] + s.loop.queue);
    KindsOfConcat(s.loop.ran, [c], c.d);
    KindsOfConcat(s.loop.ran + [c], s.loop.batch[1..] + s.loop.queue, c.d);
    SettleOnce(job.outcome, KindsOf(s.loop.ran, c.d), KindsOf(s.loop.batch[1..] + s.loop.queue, c.d));
  }

  lemma SettleOnce(o: Outcome, before: seq<Kind>, after: seq<Kind>)
    requires before + [Settle] + after == Posts(o.Plan())
    ensures Settle !in before
  {
    OpsUnfold(o.path, o.fault);
    var ks := Posts(o.Plan());
    assert ks[|before|] == Settle;
    assert forall i :: 0 <= i < |ks| - 1 ==> ks[i] == RejectNow;
    assert forall i :: 0 <= i < |before| ==> before[i] == ks[i];
  }

  lemma StepInv(s: State, a: Action)
    requires Inv(s) && Enabled(s, a)
    ensures Inv(Next(s, a))
  {
    match a
    case Begin(w, o) => BeginKeeps(s, w, o);
    case Execute(w) => ExecuteKeeps(s, w);
    case RunOne => RunOneKeeps(s);
    case Swap => SwapKeeps(s);
    case _ => PoolStepKeeps(s, a);
  }

  lemma SwapKeeps(s: State)
    requires Inv(s) && Enabled(s, Swap)
    ensures Inv(Next(s, Swap))
  {
    var n := Next(s, Swap);
    forall d | 0 <= d < |s.jobs| ensures JobOk(n.jobs[d], d, n.loop, n.calls) {
      assert JobOk(s.jobs[d], d, s.loop, s.calls);
    }
  }

  lemma PoolStepKeeps(s: State, a: Action)
    requires Inv(s) && Enabled(s, a)
    requires a.Create? || a.End? || a.Release? || a.RaiseFlag? || a.ShutdownNow?
    ensures Inv(Next(s, a))
  {
    Pool.StepInv(s.pool, PoolAction(s, a));
  }

  lemma {:induction false} RunInv(s: State, acts: seq<Action>)
    requires Inv(s) && Valid(s, acts)
    ensures Inv(Run(s, acts))
    decreases acts
  {
    if acts != [] {
      StepInv(s, acts[0]);
      RunInv(Next(s, acts[0]), acts[1..]);
    }
  }

  /** The guards of the system are those of its parts: a popped task can always take its next
      step and a callback of the batch can always be run. */
  lemma NothingBlocks(threads: nat, acts: seq<Action>)
    requires Valid(Init(threads), acts)
    ensures var s := Run(Init(threads), acts);
      && (s.loop.batch != [] ==> Enabled(s, RunOne))
      && (forall w: nat :: w < |s.pool.workers| && s.pool.workers[w].Running?
            ==> Enabled(s, Execute(w)) || Enabled(s, End(w)))
  {
    InitInv(threads);
    RunInv(Init(threads), acts);
    var s := Run(Init(threads), acts);
    if s.loop.batch != [] {
      BatchHasJob(s);
    }
    forall w: nat | w < |s.pool.workers| && s.pool.workers[w].Running?
      ensures Enabled(s, Execute(w)) || Enabled(s, End(w))
    {
      RunningHasJob(s, w);
    }
  }

  lemma BatchHasJob(s: State)
    requires Inv(s) && s.loop.batch != []
    ensures Enabled(s, RunOne)
  {
    Loop.Waiting(s.loop);
    assert s.loop.enqueued[|s.loop.ran|] == s.loop.batch[0];
  }

  lemma RunningHasJob(s: State, w: nat)
    requires Inv(s) && w < |s.pool.workers| && s.pool.workers[w].Running?
    ensures Enabled(s, Execute(w)) || Enabled(s, End(w))
  {
    var d := s.pool.workers[w].task;
    Pool.HeldIsStarted(s.pool, w);
    var i :| 0 <= i < |s.pool.started| && s.pool.started[i] == d;
    assert s.pool.accepted[i] == d;
    assert JobOk(s.jobs[d], d, s.loop, s.calls);
  }

  // ---------------------------------------------------------------- main results

  /** At every moment of every interleaving the calls made for a started Deferred are a beginning
      of what its path leads to, and one that never started has no calls. */
  lemma NeverContradicts(threads: nat, acts: seq<Action>, d: nat)
    requires Valid(Init(threads), acts)
    ensures var s := Run(Init(threads), acts);
      CallsOf(s.calls, d) <= if d < |s.jobs| then Expected(s.jobs[d].outcome) else []
  {
    InitInv(threads);
    RunInv(Init(threads), acts);
    var s := Run(Init(threads), acts);
    if d < |s.jobs| {
      CallsArePrefix(s.jobs[d], d, s.loop, s.calls);
    }
  }

  lemma CallsArePrefix(job: Job, d: nat, loop: Loop.State<Callback>, calls: seq<Call>)
    requires JobOk(job, d, loop, calls) && Loop.InOrder(loop)
    ensures CallsOf(calls, d) <= Expected(job.outcome)
  {
    var o := job.outcome;
    var rest := loop.batch + loop.queue;
    Loop.Waiting(loop);
    KindsOfConcat(loop.ran, rest, d);
    SettlementsConcat(KindsOf(loop.ran, d), KindsOf(rest, d), o);
    var posted := Posts(o.Plan()[..job.pc]);
    PostsPrefix(o.Plan(), job.pc);
    assert posted + Posts(o.Plan())[|posted|..] == Posts(o.Plan());
    SettlementsConcat(posted, Posts(o.Plan())[|posted|..], o);
    PathsSettle(o);
  }

  lemma {:induction false} PostsPrefix(ops: seq<Op>, i: nat)
    requires i <= |ops|
    ensures Posts(ops[..i]) <= Posts(ops)
  {
    if i < |ops| {
      PostsPrefix(ops[..|ops| - 1], i);
      assert ops[..|ops| - 1][..i] == ops[..i];
    } else {
      assert ops[..i] == ops;
    }
  }

  /** The pool has nothing queued or active, and no callback is waiting. */
  predicate Quiescent(s: State) {
    s.pool.taskQueue == [] && s.pool.activeCount == 0 && s.loop.batch == [] && s.loop.queue == []
  }

  /** End to end: once the pool has drained and the callbacks are processed, every accepted
      Deferred that shutdownNow did not abandon has been settled exactly as its path says, and
      an abandoned one has not been touched. */
  lemma EverySettled(threads: nat, acts: seq<Action>, d: nat)
    requires Valid(Init(threads), acts)
    requires Quiescent(Run(Init(threads), acts))
    requires d < |Run(Init(threads), acts).pool.accepted|
    ensures var s := Run(Init(threads), acts);
      if d in s.pool.abandoned then CallsOf(s.calls, d) == []
      else d < |s.jobs| && CallsOf(s.calls, d) == Expected(s.jobs[d].outcome)
  {
    InitInv(threads);
    RunInv(Init(threads), acts);
    var s := Run(Init(threads), acts);
    FateOfAccepted(s.pool, d);
    if d !in s.pool.abandoned {
      assert JobOk(s.jobs[d], d, s.loop, s.calls);
      var o := s.jobs[d].outcome;
      assert o.Plan()[..s.jobs[d].pc] == o.Plan();
      assert s.loop.ran == s.loop.enqueued;
      PathsSettle(o);
    }
  }

  lemma FateOfAccepted(p: Pool.State, d: nat)
    requires Pool.Inv(p) && p.taskQueue == [] && p.activeCount == 0
    requires forall i :: 0 <= i < |p.accepted| ==> p.accepted[i] == i
    requires d < |p.accepted|
    ensures if d in p.abandoned then d >= |p.started| else d in p.finished
  {
    assert p.accepted == p.started + p.abandoned;
    if d in p.abandoned {
      var j :| 0 <= j < |p.abandoned| && p.abandoned[j] == d;
      assert p.accepted[|p.started| + j] == d;
    } else {
      Pool.NoneInFlight(p);
      assert p.accepted[d] == d;
      assert multiset(p.accepted)[d] > 0;
      assert multiset(p.finished)[d] > 0;
    }
  }

  // ---------------------------------------------------------------- settled twice

  lemma OneMore(s: State, a: Action, rest: seq<Action>)
    requires Enabled(s, a) && Valid(Next(s, a), rest)
    ensures Valid(s, [a] + rest) && Run(s, [a] + rest) == Run(Next(s, a), rest)
  {
    assert ([a] + rest)[1..] == rest;
  }

  /** The function threw and its exception could not be serialised. */
  const Unserialisable := Outcome(Threw(false), NoFault, false)

  /** The only Deferred of a pool with one thread, when its worker has gone through that path. */
  function Posted(): State {
    State(Pool.State([], false, false, 1, [Pool.Running(0)], [0], [0], [], []),
          Loop.State([Callback(0, RejectNow), Callback(0, Settle)], [], [], [Callback(0, RejectNow), Callback(0, Settle)]),
          [Job(Unserialisable, 3, Fields(true, false))], [])
  }

  function Begun(): State {
    State(Pool.State([], false, false, 1, [Pool.Running(0)], [0], [0], [], []), Loop.Empty(), [Job(Unserialisable, 0, Fresh)], [])
  }

  lemma BegunIsReached() returns (acts: seq<Action>)
    ensures Valid(Init(1), acts) && Run(Init(1), acts) == Begun()
  {
    var s1 := Next(Init(1), Create);
    var s2 := Next(s1, Begin(0, Unserialisable));
    assert s2 == Begun();
    OneMore(s1, Begin(0, Unserialisable), []);
    acts := [Begin(0, Unserialisable)] + [];
    OneMore(Init(1), Create, acts);
    acts := [Create] + acts;
  }

  lemma PostedIsReached() returns (acts: seq<Action>)
    ensures Valid(Init(1), acts) && Run(Init(1), acts) == Posted()
  {
    var before := BegunIsReached();
    var s2 := Begun();
    var s3 := Next(s2, Execute(0));
    var s4 := Next(s3, Execute(0));
    var s5 := Next(s4, Execute(0));
    assert s5 == Posted();
    OneMore(s4, Execute(0), []);
    OneMore(s3, Execute(0), [Execute(0)] + []);
    OneMore(s2, Execute(0), [Execute(0)] + ([Execute(0)] + []));
    acts := [Execute(0)] + ([Execute(0)] + ([Execute(0)] + []));
    Concat(Init(1), before, acts);
    acts := before + acts;
  }

  /** An interleaving after which reject has been called twice for one Deferred. */
  lemma RejectedTwice() returns (acts: seq<Action>)
    ensures Valid(Init(1), acts)
    ensures Run(Init(1), acts).calls == [Call(0, Rejected(Fallback)), Call(0, Rejected(Fallback))]
  {
    var before := PostedIsReached();
    var s0 := Posted();
    var s1 := Next(s0, Swap);
    var s2 := Next(s1, RunOne);
    assert s2.calls == [Call(0, Rejected(Fallback))] && s2.loop.batch == [Callback(0, Settle)];
    var s3 := Next(s2, RunOne);
    assert s3.calls == [Call(0, Rejected(Fallback)), Call(0, Rejected(Fallback))];
    OneMore(s2, RunOne, []);
    OneMore(s1, RunOne, [RunOne] + []);
    OneMore(s0, Swap, [RunOne] + ([RunOne] + []));
    acts := [Swap] + ([RunOne] + ([RunOne] + []));
    Concat(Init(1), before, acts);
    acts := before + acts;
  }

  // ---------------------------------------------------------------- nothing stays unsettled

  /** A step that brings the system on: everything but submitting, closing, a worker's exit and a
      swap of an empty queue. */
  predicate Works(s: State, a: Action) {
    Enabled(s, a) && match a
      case Begin(_, _) => s.pool.taskQueue != []
      case Execute(_) => true
      case End(_) => true
      case Release(_) => true
      case Swap => s.loop.queue != []
      case RunOne => true
      case _ => false
  }

  function JobWork(job: Job): nat {
    if job.pc <= |job.outcome.Plan()| then 3 * (|job.outcome.Plan()| - job.pc) else 0
  }

  function JobsWork(jobs: seq<Job>): nat {
    if jobs == [] then 0 else JobsWork(jobs[..|jobs| - 1]) + JobWork(jobs[|jobs| - 1])
  }

  /** Twelve for a queued Deferred, what the workers and their jobs owe, two for a queued callback,
      one for a callback of the batch. */
  function Work(s: State): nat {
    12 * |s.pool.taskQueue| + Pool.AheadAll(s.pool.workers) + JobsWork(s.jobs) + 2 * |s.loop.queue| + |s.loop.batch|
  }

  lemma {:induction false} JobsWorkUpdate(jobs: seq<Job>, d: nat, job: Job)
    requires d < |jobs|
    ensures JobsWork(jobs[d := job]) + JobWork(jobs[d]) == JobsWork(jobs) + JobWork(job)
  {
    var n := |jobs| - 1;
    if d == n {
      assert jobs[d := job][..n] == jobs[..n];
    } else {
      assert jobs[d := job][..n] == jobs[..n][d := job];
      JobsWorkUpdate(jobs[..n], d, job);
    }
  }

  lemma JobsWorkSnoc(jobs: seq<Job>, o: Outcome)
    ensures JobsWork(jobs + [Job(o, 0, Fresh)]) <= JobsWork(jobs) + 9
  {
    assert (jobs + [Job(o, 0, Fresh)])[..|jobs|] == jobs;
    OpsUnfold(o.path, o.fault);
  }

  lemma BeginDrops(s: State, w: nat, o: Outcome)
    requires Inv(s) && Works(s, Begin(w, o))
    ensures Work(Next(s, Begin(w, o))) < Work(s)
  {
    Pool.CountsAfterUpdate(s.pool.workers, w, Next(s, Begin(w, o)).pool.workers[w]);
    JobsWorkSnoc(s.jobs, o);
  }

  lemma ExecuteDrops(s: State, w: nat)
    requires Enabled(s, Execute(w))
    ensures Work(Next(s, Execute(w))) < Work(s)
  {
    var d := s.pool.workers[w].task;
    JobsWorkUpdate(s.jobs, d, Next(s, Execute(w)).jobs[d]);
  }

  lemma RunOneDrops(s: State)
    requires Enabled(s, RunOne)
    ensures Work(Next(s, RunOne)) < Work(s)
  {
    var d := s.loop.batch[0].d;
    JobsWorkUpdate(s.jobs, d, Next(s, RunOne).jobs[d]);
  }

  lemma EndDrops(s: State, w: nat)
    requires Enabled(s, End(w))
    ensures Work(Next(s, End(w))) < Work(s)
  {
    Pool.CountsAfterUpdate(s.pool.workers, w, Next(s, End(w)).pool.workers[w]);
  }

  lemma ReleaseDrops(s: State, w: nat)
    requires Enabled(s, Release(w))
    ensures Work(Next(s, Release(w))) < Work(s)
  {
    Pool.CountsAfterUpdate(s.pool.workers, w, Next(s, Release(w)).pool.workers[w]);
  }

  lemma WorkDrops(s: State, a: Action)
    requires Inv(s) && Works(s, a)
    ensures Work(Next(s, a)) < Work(s)
  {
    match a
    case Begin(w, o) => BeginDrops(s, w, o);
    case Execute(w) => ExecuteDrops(s, w);
    case End(w) => EndDrops(s, w);
    case Release(w) => ReleaseDrops(s, w);
    case Swap => assert |Next(s, a).loop.batch| == |s.loop.queue|;
    case RunOne => RunOneDrops(s);
  }

  lemma WorkFrame(s: State, a: Action)
    requires Inv(s) && Works(s, a)
    ensures Next(s, a).pool.accepted == s.pool.accepted && Next(s, a).pool.abandoned == s.pool.abandoned
    ensures |Next(s, a).pool.workers| == |s.pool.workers|
  {
    if a.Begin? || a.End? || a.Release? { Pool.WorkerFrame(s.pool, PoolAction(s, a)); }
  }

  lemma {:induction false} SomeBusy(ws: seq<Pool.Worker>) returns (w: nat)
    requires Pool.Busy(ws) > 0
    ensures w < |ws| && (ws[w].Running? || ws[w].Ran?)
  {
    if ws[0].Running? || ws[0].Ran? {
      w := 0;
    } else {
      w := SomeBusy(ws[1..]);
      w := w + 1;
    }
  }

  /** A worker with a task can always bring it on. */
  lemma BusyWorks(s: State, w: nat) returns (a: Action)
    requires Inv(s) && w < |s.pool.workers| && (s.pool.workers[w].Running? || s.pool.workers[w].Ran?)
    ensures Works(s, a) && !a.Begin?
  {
    if s.pool.workers[w].Running? {
      RunningHasJob(s, w);
      a := if Enabled(s, Execute(w)) then Execute(w) else End(w);
    } else {
      Pool.CountsAfterUpdate(s.pool.workers, w, Pool.Idle);
      a := Release(w);
    }
  }

  /** Until all is quiet there is such a step, whatever the tasks started next turn out to do. */
  lemma SomethingWorks(s: State, next: Outcome) returns (a: Action)
    requires Inv(s) && |s.pool.workers| > 0 && !Quiescent(s)
    ensures Works(s, a) && (a.Begin? ==> a.outcome == next)
  {
    if s.pool.activeCount > 0 {
      var w := SomeBusy(s.pool.workers);
      a := BusyWorks(s, w);
    } else if s.pool.taskQueue != [] {
      if s.pool.workers[0].Idle? {
        a := Begin(0, next);
      } else {
        assert !s.pool.workers[0].Exited?;
        a := BusyWorks(s, 0);
      }
    } else if s.loop.batch != [] {
      BatchHasJob(s);
      a := RunOne;
    } else {
      a := Swap;
    }
  }

  predicate AllWork(s: State, acts: seq<Action>)
    decreases acts
  {
    acts == [] || (Works(s, acts[0]) && AllWork(Next(s, acts[0]), acts[1..]))
  }

  /** No schedule can take more than Work(s) such steps, and one that cannot go on is quiet. */
  lemma {:induction false} WorkEnds(s: State, acts: seq<Action>)
    requires Inv(s) && |s.pool.workers| > 0 && AllWork(s, acts)
    ensures Valid(s, acts) && |acts| <= Work(s)
    ensures var e := Run(s, acts);
      && e.pool.accepted == s.pool.accepted && e.pool.abandoned == s.pool.abandoned
      && (Quiescent(e) || exists a :: Works(e, a))
    decreases acts
  {
    if acts == [] {
      if !Quiescent(s) {
        var a := SomethingWorks(s, Outcome(NoRuntime, NoFault, false));
      }
    } else {
      WorkDrops(s, acts[0]);
      WorkFrame(s, acts[0]);
      StepInv(s, acts[0]);
      WorkEnds(Next(s, acts[0]), acts[1..]);
    }
  }

  lemma {:induction false} Concat(s: State, a: seq<Action>, b: seq<Action>)
    requires Valid(s, a) && Valid(Run(s, a), b)
    ensures Valid(s, a + b) && Run(s, a + b) == Run(Run(s, a), b)
    decreases a
  {
    if a == [] {
      assert a + b == b;
    } else {
      assert (a + b)[1..] == a[1..] + b;
      Concat(Next(s, a[0]), a[1..], b);
    }
  }

  lemma {:induction false} WorkersStay(s: State, acts: seq<Action>)
    requires Valid(s, acts)
    ensures |Run(s, acts).pool.workers| == |s.pool.workers|
    decreases acts
  {
    if acts != [] { WorkersStay(Next(s, acts[0]), acts[1..]); }
  }

  /** From every reachable state, whatever has happened so far: if the workers and the draining
      thread go on in any way until no step brings the system on, they get there within Work(s)
      steps, and then every accepted Deferred has been settled exactly as its path says, unless
      shutdownNow has abandoned it. */
  lemma SettledWhenNothingWorks(threads: nat, acts: seq<Action>, more: seq<Action>, d: nat)
    requires threads > 0 && Valid(Init(threads), acts)
    requires AllWork(Run(Init(threads), acts), more)
    requires Valid(Init(threads), acts + more) && forall a :: !Works(Run(Init(threads), acts + more), a)
    requires d < |Run(Init(threads), acts).pool.accepted|
    ensures |more| <= Work(Run(Init(threads), acts))
    ensures var e := Run(Init(threads), acts + more);
      if d in Run(Init(threads), acts).pool.abandoned then CallsOf(e.calls, d) == []
      else d < |e.jobs| && CallsOf(e.calls, d) == Expected(e.jobs[d].outcome)
  {
    InitInv(threads);
    RunInv(Init(threads), acts);
    WorkersStay(Init(threads), acts);
    WorkEnds(Run(Init(threads), acts), more);
    Concat(Init(threads), acts, more);
    EverySettled(threads, acts + more, d);
  }

  // ---------------------------------------------------------------- the code

  class DeferredTask {
    const id: nat
    var hasError: bool
    var serializedResult: bool       // the pointer is not null
    var serializedResultSize: nat

    constructor (id: nat)
      ensures this.id == id && View() == Fresh
    {
      this.id := id;
      hasError, serializedResult, serializedResultSize := false, false, 0;
    }

    ghost function View(): Fields
      reads this
    {
      Fields(hasError, serializedResult && serializedResultSize > 0)
    }
  }

  /** workerThreadExecution. The foreign calls' results are parameters: size is what
      JS_WriteObject reported (0 when it failed) and mallocOk what js_malloc_rt returned. */
  method WorkerThreadExecution(task: DeferredTask, loop: Loop.EventLoop<Callback>,
                               runtime: bool, context: bool, deserialised: bool, threw: bool,
                               size: nat, mallocOk: bool, fault: Fault)
    returns (ghost path: Path)
    requires task.View() == Fresh && !task.serializedResult
    modifies task, loop`callbackQueue
    ensures path == (if !runtime then NoRuntime else if !context then NoContext
                     else if !deserialised then BadBytecode
                     else if threw then Threw(size > 0 && mallocOk) else Returned(size > 0 && mallocOk))
    ensures task.View() == After(Ops(path, fault))
    ensures loop.callbackQueue == old(loop.callbackQueue) + Tagged(task.id, Posts(Ops(path, fault)))
  {
    if !runtime {
      path := NoRuntime;
      task.serializedResultSize := 0;
      FailEarly(task, loop, path, fault);
    } else if !context {
      path := NoContext;
      FailEarly(task, loop, path, fault);
    } else if !deserialised {
      path := BadBytecode;
      FailEarly(task, loop, path, fault);
    } else if threw {
      path := Threw(size > 0 && mallocOk);
      HandleException(task, loop, size, mallocOk, fault);
    } else {
      path := Returned(size > 0 && mallocOk);
      HandleResult(task, loop, size, mallocOk, fault);
    }
  }

  /** The function was never called. */
  method FailEarly(task: DeferredTask, loop: Loop.EventLoop<Callback>, ghost path: Path, ghost fault: Fault)
    requires !task.serializedResult && (path.NoRuntime? || path.NoContext? || path.BadBytecode?)
    modifies task, loop`callbackQueue
    ensures task.View() == After(Ops(path, fault))
    ensures loop.callbackQueue == old(loop.callbackQueue) + Tagged(task.id, Posts(Ops(path, fault)))
  {
    task.hasError := true;
    loop.EnqueueCallback(Callback(task.id, RejectNow));
    OpsUnfold(path, fault);
  }

  method HandleException(task: DeferredTask, loop: Loop.EventLoop<Callback>, size: nat, mallocOk: bool, fault: Fault)
    requires task.View() == Fresh && !task.serializedResult
    modifies task, loop`callbackQueue
    ensures var ops := Ops(Threw(size > 0 && mallocOk), fault);
      task.View() == After(ops) && loop.callbackQueue == old(loop.callbackQueue) + Tagged(task.id, Posts(ops))
  {
    OpsUnfold(Threw(size > 0 && mallocOk), fault);
    task.hasError := true;
    if size > 0 && mallocOk {
      task.serializedResult := true;
      task.serializedResultSize := size;
      task.hasError := true;
    } else {
      loop.EnqueueCallback(Callback(task.id, RejectNow));   // from the handler if Early
      if fault == Early {
        return;
      }
    }
    loop.EnqueueCallback(Callback(task.id, LastPost(fault)));  // from the handler unless NoFault
  }

  method HandleResult(task: DeferredTask, loop: Loop.EventLoop<Callback>, size: nat, mallocOk: bool, fault: Fault)
    requires task.View() == Fresh && !task.serializedResult
    modifies task, loop`callbackQueue
    ensures var ops := Ops(Returned(size > 0 && mallocOk), fault);
      task.View() == After(ops) && loop.callbackQueue == old(loop.callbackQueue) + Tagged(task.id, Posts(ops))
  {
    OpsUnfold(Returned(size > 0 && mallocOk), fault);
    if size > 0 && mallocOk {
      task.serializedResult := true;
      task.serializedResultSize := size;
      task.hasError := false;
    } else {
      task.hasError := false;
      task.serializedResult := false;
      task.serializedResultSize := 0;
    }
    loop.EnqueueCallback(Callback(task.id, LastPost(fault)));
  }

  function Tagged(d: nat, ks: seq<Kind>): seq<Callback> {
    seq(|ks|, i requires 0 <= i < |ks| => Callback(d, ks[i]))
  }

  /** The body of the Settle callback. */
  method RunSettle(task: DeferredTask, readable: bool) returns (call: Call)
    modifies task
    ensures call == Call(task.id, SettleCall(old(task.View()), readable))
    ensures task.View() == old(task.View()).(hasResult := false)
  {
    if task.hasError {
      if task.serializedResult && task.serializedResultSize > 0 {
        if readable {
          call := Call(task.id, Rejected(Original));
        } else {
          call := Call(task.id, Rejected(Fallback));
        }
      } else {
        call := Call(task.id, Rejected(Fallback));
      }
    } else {
      if task.serializedResult && task.serializedResultSize > 0 {
        if readable {
          call := Call(task.id, Resolved(Original));
        } else {
          call := Call(task.id, Resolved(Fallback));
        }
      } else {
        call := Call(task.id, Resolved(Fallback));
      }
    }
    if task.serializedResult {
      task.serializedResult := false;
      task.serializedResultSize := 0;
    }
  }
}
