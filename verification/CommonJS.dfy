/** CommonJSLoader::require for file modules (src/modules/CommonJSLoader.cpp): a module object
    is cached before its body runs, replaced by its exports when the body completes, and erased
    when the body throws.

    A body is a decision tree of nested requires, chosen freely for every execution of every
    file, so cycles, caught and uncaught failures, and bodies that behave differently on a
    second execution are all covered. */
module CommonJS {
  import Common

  type Path = string

  /** What a body does next: require a resolved path (None: nothing resolves) and go on by the
      outcome, or end. An exception that is not caught is onError == Throw. */
  datatype Script =
    | Return
    | Throw
    | Require(target: Target, onValue: Script, onError: Script)

  datatype Target = None | File(path: Path)

  /** Partial: the module object put in before execution. Exports: its exports object.
      Identities number the module objects in creation order. */
  datatype Value = Partial(id: nat) | Exports(id: nat)

  datatype Result = Ok(value: Value) | Exception

  /** The file system and the behaviour of the k-th execution of each file. */
  datatype Env = Env(files: set<Path>, body: (Path, nat) -> Script)

  /** stack is the chain of bodies being executed, cached the keys of the cache at that moment. */
  datatype Event =
    | Start(path: Path, stack: seq<Path>, cached: set<Path>)
    | Finish(path: Path, ok: bool, id: nat)
    | Hit(path: Path, value: Value)   // a require answered from the cache

  datatype State = State(
    moduleCache: map<Path, Value>,
    created: nat,              // module objects created so far
    stack: seq<Path>,
    log: seq<Event>)

  const Initial := State(map[], 0, [], [])

  function Starts(log: seq<Event>, p: Path): nat {
    if log == [] then 0
    else Starts(log[..|log| - 1], p) + (if log[|log| - 1].Start? && log[|log| - 1].path == p then 1 else 0)
  }

  predicate Completes(e: Event, p: Path) {
    e.Finish? && e.ok && e.path == p
  }

  function Successes(log: seq<Event>, p: Path): nat {
    if log == [] then 0
    else Successes(log[..|log| - 1], p) + (if Completes(log[|log| - 1], p) then 1 else 0)
  }

  /** Old entries stay as they are. */
  ghost predicate Extends(before: map<Path, Value>, after: map<Path, Value>) {
    forall p :: p in before ==> p in after && after[p] == before[p]
  }

  function Uncached(env: Env, s: State): nat {
    |env.files - s.moduleCache.Keys|
  }

  lemma UncachedMonotone(env: Env, a: map<Path, Value>, b: map<Path, Value>)
    requires Extends(a, b)
    ensures |env.files - b.Keys| <= |env.files - a.Keys|
    ensures (exists p :: p in env.files && p !in a && p in b) ==> |env.files - b.Keys| < |env.files - a.Keys|
  {
    Common.SubsetSize(env.files - b.Keys, env.files - a.Keys);
  }

  function Before(env: Env, s: State, p: Path): State {
    State(s.moduleCache[p := Partial(s.created)], s.created + 1, s.stack + [p],
          s.log + [Start(p, s.stack, s.moduleCache.Keys)])
  }

  /** t is the state in which the body of p, started in s, has ended. */
  function After(s: State, p: Path, t: State, ok: bool): State {
    State(if ok then t.moduleCache[p := Exports(s.created)] else t.moduleCache - {p}, t.created, s.stack,
          t.log + [Finish(p, ok, s.created)])
  }

  function Size(sc: Script): nat {
    if sc.Require? then 1 + Size(sc.onValue) + Size(sc.onError) else 0
  }

  /** require of a resolved path. It terminates because every nested execution has one more file
      in the cache, which a call never loses. */
  function RequireFile(env: Env, s: State, p: Path): (r: (State, Result))
    ensures Extends(s.moduleCache, r.0.moduleCache)
    decreases Uncached(env, s), 0
  {
    if p in s.moduleCache then
      (s.(log := s.log + [Hit(p, s.moduleCache[p])]), Ok(s.moduleCache[p]))
    else if p !in env.files then (s, Exception)
    else
      UncachedMonotone(env, s.moduleCache, Before(env, s, p).moduleCache);
      var (t, ok) := RunScript(env, Before(env, s, p), env.body(p, Starts(s.log, p)));
      (After(s, p, t, ok), if ok then Ok(Exports(s.created)) else Exception)
  }

  function RequireTarget(env: Env, s: State, t: Target): (r: (State, Result))
    ensures Extends(s.moduleCache, r.0.moduleCache)
    decreases Uncached(env, s), 1
  {
    if t.None? then (s, Exception) else RequireFile(env, s, t.path)
  }

  function RunScript(env: Env, s: State, sc: Script): (r: (State, bool))
    ensures Extends(s.moduleCache, r.0.moduleCache)
    decreases Uncached(env, s), 2 + Size(sc)
  {
    match sc
    case Return => (s, true)
    case Throw => (s, false)
    case Require(target, onValue, onError) =>
      var (t, res) := RequireTarget(env, s, target);
      UncachedMonotone(env, s.moduleCache, t.moduleCache);
      RunScript(env, t, if res.Ok? then onValue else onError)
  }

  // ---------------------------------------------------------------- what require answers

  /** Following the answers through the body (true to onValue, false to onError) uses all of them
      and stops at Return exactly when ok. */
  predicate Ends(sc: Script, answers: seq<bool>, ok: bool)
    decreases answers
  {
    match sc
    case Return => answers == [] && ok
    case Throw => answers == [] && !ok
    case Require(_, onValue, onError) =>
      answers != [] && Ends(if answers[0] then onValue else onError, answers[1..], ok)
  }

  /** Which of the requires made by a body started in s return a value, in order. */
  function Answers(env: Env, s: State, sc: Script): seq<bool>
    decreases sc
  {
    if !sc.Require? then []
    else
      var (t, res) := RequireTarget(env, s, sc.target);
      [res.Ok?] + Answers(env, t, if res.Ok? then sc.onValue else sc.onError)
  }

  lemma {:induction false} BodyEnds(env: Env, s: State, sc: Script)
    ensures Ends(sc, Answers(env, s, sc), RunScript(env, s, sc).1)
    decreases sc
  {
    if sc.Require? {
      var (t, res) := RequireTarget(env, s, sc.target);
      var next := if res.Ok? then sc.onValue else sc.onError;
      BodyEnds(env, t, next);
      assert Answers(env, s, sc)[1..] == Answers(env, t, next);
    }
  }

  /** What a require answers: a cached file its entry; a path that cannot be opened an exception;
      any other file its exports, which are then in the cache, if its body, given the answers of
      its own requires, completes, and an exception, with nothing cached, if it throws. */
  lemma RequireAnswers(env: Env, s: State, p: Path)
    ensures var (t, r) := RequireFile(env, s, p);
      && (p in s.moduleCache ==> r == Ok(s.moduleCache[p]) && t.moduleCache == s.moduleCache)
      && (p !in s.moduleCache && p !in env.files ==> r == Exception && t == s)
      && (p !in s.moduleCache && p in env.files ==>
            var body := env.body(p, Starts(s.log, p));
            && t.log != [] && t.log[|t.log| - 1].Finish? && t.log[|t.log| - 1].path == p && t.log[|t.log| - 1].id == s.created
            && Ends(body, Answers(env, Before(env, s, p), body), t.log[|t.log| - 1].ok)
            && (if t.log[|t.log| - 1].ok then r == Ok(Exports(s.created)) && p in t.moduleCache && t.moduleCache[p] == Exports(s.created)
                else r == Exception && p !in t.moduleCache))
  {
    if p !in s.moduleCache && p in env.files {
      BodyEnds(env, Before(env, s, p), env.body(p, Starts(s.log, p)));
    }
  }

  /** The outcome that the answers lead to is the only one. */
  lemma {:induction false} OneEnd(sc: Script, answers: seq<bool>)
    ensures !(Ends(sc, answers, true) && Ends(sc, answers, false))
    decreases answers
  {
    if sc.Require? && answers != [] { OneEnd(if answers[0] then sc.onValue else sc.onError, answers[1..]); }
  }

  // ---------------------------------------------------------------- the invariant

  predicate NoRepeats(stack: seq<Path>) {
    forall i, j :: 0 <= i < j < |stack| ==> stack[i] != stack[j]
  }

  /** What must hold whenever a body starts. */
  predicate GoodEvent(env: Env, e: Event) {
    e.Start? ==>
      && e.path !in e.stack
      && e.path !in e.cached
      && NoRepeats(e.stack)
      && (forall p :: p in e.stack ==> p in e.cached && p in env.files)
      && e.path in env.files
  }

  /** The modules being executed are exactly the partial cache entries; a file has completed once
      if its entry is exports, and never otherwise. */
  ghost predicate Inv(env: Env, s: State) {
    && NoRepeats(s.stack)
    && (forall p :: p in s.stack <==> p in s.moduleCache && s.moduleCache[p].Partial?)
    && (forall p :: p in s.stack ==> p in env.files)
    && (forall p :: Successes(s.log, p) == if p in s.moduleCache && s.moduleCache[p].Exports? then 1 else 0)
    && (forall i :: 0 <= i < |s.log| ==> GoodEvent(env, s.log[i]))
    && Settled(s)
  }

  /** The exports of a completed file are what the cache holds and what every later event of the
      file returned from the cache. */
  ghost predicate Settled(s: State) {
    forall i :: 0 <= i < |s.log| && s.log[i].Finish? && s.log[i].ok ==>
      && s.log[i].path in s.moduleCache && s.moduleCache[s.log[i].path] == Exports(s.log[i].id)
      && (forall j :: i < j < |s.log| && s.log[j].path == s.log[i].path
            ==> s.log[j] == Hit(s.log[i].path, Exports(s.log[i].id)))
  }

  lemma InitialInv(env: Env)
    ensures Inv(env, Initial)
  {
  }

  /** How one event and one cache change bear on the counts. */
  lemma SuccessesSnoc(log: seq<Event>, e: Event, p: Path)
    ensures Successes(log + [e], p) == Successes(log, p) + if Completes(e, p) then 1 else 0
  {
    assert (log + [e])[..|log|] == log;
  }

  /** One more event, with the cache it leaves. */
  lemma Append(env: Env, s: State, n: State, e: Event)
    requires Inv(env, s) && n.log == s.log + [e] && GoodEvent(env, e)
    requires NoRepeats(n.stack) && forall p :: p in n.stack ==> p in env.files
    requires forall p :: p in n.stack <==> p in n.moduleCache && n.moduleCache[p].Partial?
    requires forall p | p in s.moduleCache && s.moduleCache[p].Exports? ::
      p in n.moduleCache && n.moduleCache[p] == s.moduleCache[p] && (e.path == p ==> e.Hit?)
    requires forall p | p in n.moduleCache && n.moduleCache[p].Exports? ::
      (p in s.moduleCache && s.moduleCache[p].Exports?) || Completes(e, p)
    requires e.Finish? && e.ok ==> e.path in n.moduleCache && n.moduleCache[e.path] == Exports(e.id)
    requires e.Hit? ==> e.path in s.moduleCache && s.moduleCache[e.path] == e.value
    ensures Inv(env, n)
  {
    forall q ensures Successes(n.log, q) == if q in n.moduleCache && n.moduleCache[q].Exports? then 1 else 0 {
      SuccessesSnoc(s.log, e, q);
      assert Successes(s.log, q) == if q in s.moduleCache && s.moduleCache[q].Exports? then 1 else 0;
    }
  }

  lemma StartKeeps(env: Env, s: State, p: Path)
    requires Inv(env, s) && p !in s.moduleCache && p in env.files
    ensures Inv(env, Before(env, s, p))
  {
    assert p !in s.stack;
    Append(env, s, Before(env, s, p), Start(p, s.stack, s.moduleCache.Keys));
  }

  lemma {:induction false} RequireFileKeeps(env: Env, s: State, p: Path)
    requires Inv(env, s)
    ensures Inv(env, RequireFile(env, s, p).0)
    ensures RequireFile(env, s, p).0.stack == s.stack
    decreases Uncached(env, s), 0
  {
    if p in s.moduleCache {
      Append(env, s, RequireFile(env, s, p).0, Hit(p, s.moduleCache[p]));
    } else if p in env.files {
      var b := Before(env, s, p);
      UncachedMonotone(env, s.moduleCache, b.moduleCache);
      StartKeeps(env, s, p);
      RunScriptKeeps(env, b, env.body(p, Starts(s.log, p)));
      var (t, ok) := RunScript(env, b, env.body(p, Starts(s.log, p)));
      FinishKeeps(env, s, p, t, ok);
    }
  }

  lemma FinishKeeps(env: Env, s: State, p: Path, t: State, ok: bool)
    requires Inv(env, s) && Inv(env, t) && p !in s.moduleCache && p in env.files && t.stack == s.stack + [p]
    ensures Inv(env, After(s, p, t, ok))
  {
    assert p in t.stack && p !in s.stack;
    assert forall q :: q in t.stack <==> q in s.stack || q == p;
    Append(env, t, After(s, p, t, ok), Finish(p, ok, s.created));
  }

  lemma {:induction false} RunScriptKeeps(env: Env, s: State, sc: Script)
    requires Inv(env, s)
    ensures Inv(env, RunScript(env, s, sc).0)
    ensures RunScript(env, s, sc).0.stack == s.stack
    decreases Uncached(env, s), 2 + Size(sc)
  {
    if sc.Require? {
      if sc.target.File? { RequireFileKeeps(env, s, sc.target.path); }
      var (t, res) := RequireTarget(env, s, sc.target);
      UncachedMonotone(env, s.moduleCache, t.moduleCache);
      RunScriptKeeps(env, t, if res.Ok? then sc.onValue else sc.onError);
    }
  }

  // ---------------------------------------------------------------- main results

  /** A whole run: any sequence of requires from the main program. */
  function RunAll(env: Env, s: State, ps: seq<Path>): State
    decreases ps
  {
    if ps == [] then s else RunAll(env, RequireFile(env, s, ps[0]).0, ps[1..])
  }

  lemma {:induction false} RunAllKeeps(env: Env, s: State, ps: seq<Path>)
    requires Inv(env, s) && s.stack == []
    ensures Inv(env, RunAll(env, s, ps)) && RunAll(env, s, ps).stack == []
    ensures Extends(s.moduleCache, RunAll(env, s, ps).moduleCache)
    decreases ps
  {
    if ps != [] {
      RequireFileKeeps(env, s, ps[0]);
      RunAllKeeps(env, RequireFile(env, s, ps[0]).0, ps[1..]);
    }
  }

  lemma {:induction false} DistinctFits(stack: seq<Path>, files: set<Path>)
    requires NoRepeats(stack) && forall p :: p in stack ==> p in files
    ensures |stack| <= |files|
  {
    if stack != [] {
      DistinctFits(stack[1..], files - {stack[0]});
    }
  }

  /** Re-entrancy: in any run, whenever a body starts it is not already being executed, every
      body being executed is in the cache, and the nesting is at most the number of files. */
  lemma NeverReentered(env: Env, ps: seq<Path>, i: nat)
    requires i < |RunAll(env, Initial, ps).log| && RunAll(env, Initial, ps).log[i].Start?
    ensures var e := RunAll(env, Initial, ps).log[i];
      && e.path !in e.stack
      && (forall p :: p in e.stack ==> p in e.cached)
      && |e.stack| + 1 <= |env.files|
  {
    InitialInv(env);
    RunAllKeeps(env, Initial, ps);
    var e := RunAll(env, Initial, ps).log[i];
    assert GoodEvent(env, e);
    DistinctFits(e.stack + [e.path], env.files);
  }

  /** A file is executed successfully at most once in any run. */
  lemma SucceedsAtMostOnce(env: Env, ps: seq<Path>, p: Path)
    ensures Successes(RunAll(env, Initial, ps).log, p) <= 1
  {
    InitialInv(env);
    RunAllKeeps(env, Initial, ps);
  }

  /** Once a file's body has completed, every later require of it in the run, made by the program
      or by any body at any depth, is answered with those same exports. */
  lemma SameExportsForever(env: Env, ps: seq<Path>, i: nat, j: nat)
    requires var log := RunAll(env, Initial, ps).log;
      i < j < |log| && log[i].Finish? && log[i].ok && log[j].path == log[i].path
    ensures var log := RunAll(env, Initial, ps).log;
      log[j] == Hit(log[i].path, Exports(log[i].id))
  {
    InitialInv(env);
    RunAllKeeps(env, Initial, ps);
  }

  // ---------------------------------------------------------------- the object

  class CommonJSLoader {
    var moduleCache: map<Path, Value>
    var created: nat
    var executions: map<Path, nat>   // not the loader's: tells the environment which execution this is
    ghost var model: State

    ghost predicate Valid()
      reads this
    {
      moduleCache == model.moduleCache && created == model.created && Counts(executions, model.log)
    }

    constructor ()
      ensures Valid() && model == Initial
    {
      moduleCache, created, executions, model := map[], 0, map[], Initial;
    }

    method CreateModuleObject() returns (id: nat)
      modifies this`created
      ensures id == old(created) && created == old(created) + 1
    {
      id := created;
      created := created + 1;
    }

    /** require, from the resolved path on. */
    method Require(env: Env, p: Path) returns (r: Result)
      requires Valid()
      modifies this
      ensures Valid() && (model, r) == RequireFile(env, old(model), p)
      decreases Uncached(env, model), 0, 1
    {
      ghost var s := model;
      if p in moduleCache {
        NotAStart(s.log, Hit(p, moduleCache[p]), executions);
        model := RequireFile(env, s, p).0;
        return Ok(moduleCache[p]);
      }
      if p !in env.files {
        return Exception;
      }
      r := Execute(env, p);
    }

    /** The rest of require, when the cache has no entry: cache, run the body, then replace or erase. */
    method Execute(env: Env, p: Path) returns (r: Result)
      requires Valid() && p !in moduleCache && p in env.files
      modifies this
      ensures Valid() && (model, r) == RequireFile(env, old(model), p)
      decreases Uncached(env, model), 0, 0
    {
      ghost var s := model;
      var id, k := CacheModule(env, p);
      UncachedMonotone(env, s.moduleCache, model.moduleCache);
      var ok := WrapModule(env, env.body(p, k));
      UpdateCache(p, id, ok, s);
      r := if ok then Ok(Exports(id)) else Exception;
    }

    /** Caching before execution; k counts the executions of p so far. */
    method CacheModule(env: Env, p: Path) returns (id: nat, k: nat)
      requires Valid()
      modifies this
      ensures Valid() && model == Before(env, old(model), p)
      ensures id == old(created) && k == Starts(old(model).log, p)
    {
      id := CreateModuleObject();
      moduleCache := moduleCache[p := Partial(id)];
      k := if p in executions then executions[p] else 0;
      StartsSnoc(model.log, Start(p, model.stack, model.moduleCache.Keys), executions, p);
      executions := executions[p := k + 1];
      model := Before(env, model, p);
    }

    /** After execution: the exports, or nothing if it failed. */
    method UpdateCache(p: Path, id: nat, ok: bool, ghost s: State)
      requires Valid() && id == s.created
      modifies this
      ensures Valid() && model == After(s, p, old(model), ok)
    {
      NotAStart(model.log, Finish(p, ok, id), executions);
      if ok {
        moduleCache := moduleCache[p := Exports(id)];
      } else {
        moduleCache := moduleCache - {p};
      }
      model := After(s, p, model, ok);
    }

    /** The body, as wrapModule runs it. */
    method WrapModule(env: Env, sc: Script) returns (ok: bool)
      requires Valid()
      modifies this
      ensures Valid() && (model, ok) == RunScript(env, old(model), sc)
      decreases Uncached(env, model), 2 + Size(sc)
    {
      match sc
      case Return => ok := true;
      case Throw => ok := false;
      case Require(target, onValue, onError) =>
        ghost var s := model;
        var res := Exception;
        if target.File? {
          res := Require(env, target.path);
        }
        UncachedMonotone(env, s.moduleCache, model.moduleCache);
        ok := WrapModule(env, if res.Ok? then onValue else onError);
    }
  }

  /** executions counts the bodies started so far, file by file. */
  ghost predicate Counts(executions: map<Path, nat>, log: seq<Event>) {
    forall p :: Starts(log, p) == if p in executions then executions[p] else 0
  }

  lemma StartsSnoc(log: seq<Event>, e: Event, executions: map<Path, nat>, p: Path)
    requires Counts(executions, log) && e.Start? && e.path == p
    ensures Counts(executions[p := Starts(log, p) + 1], log + [e])
  {
    assert (log + [e])[..|log|] == log;
  }

  lemma NotAStart(log: seq<Event>, e: Event, executions: map<Path, nat>)
    requires Counts(executions, log) && !e.Start?
    ensures Counts(executions, log + [e])
  {
    assert (log + [e])[..|log|] == log;
  }
}
