/** ESModuleLoader::loadModule (src/modules/ESModuleLoader.cpp): a memoised depth-first load that
    stores a module in the cache only after its dependencies were loaded and it was evaluated.
    The depth of the C++ recursion is bounded by a stack parameter; None means it ran out. */
module ESModules {
  import opened Common

  type Path = string

  datatype Resolution = NotFound | OtherType(path: Path) | Module(path: Path)

  /** Resolution, the readable files, each file's import list and whether evaluating it throws. */
  datatype Env = Env(
    resolve: (string, Path) -> Resolution,
    readable: set<Path>,
    imports: Path -> seq<string>,
    throws: Path -> bool)

  datatype Entry = Entry(specifier: string, importer: Path, file: Path)

  datatype Result = Namespace(id: nat) | Exception

  /** log: the evaluations, in order. Namespace objects are numbered by it. */
  datatype State = State(cache: map<string, nat>, log: seq<Entry>)

  const Initial := State(map[], [])

  function Key(specifier: string, importer: Path): string {
    specifier + ":" + importer
  }

  /** An ES module that can be opened. */
  predicate Loads(env: Env, specifier: string, importer: Path) {
    env.resolve(specifier, importer).Module? && env.resolve(specifier, importer).path in env.readable
  }

  function Load(env: Env, stack: nat, s: State, specifier: string, importer: Path): Option<(State, Result)>
    decreases stack, 0
  {
    if stack == 0 then None
    else if Key(specifier, importer) in s.cache then Some((s, Namespace(s.cache[Key(specifier, importer)])))
    else if !Loads(env, specifier, importer) then Some((s, Exception))
    else
      var f := env.resolve(specifier, importer).path;
      match LoadAll(env, stack - 1, s, f, env.imports(f))
      case None => None
      case Some(t) => Some((Store(t, specifier, importer, f), Namespace(|t.log|)))
  }

  function LoadAll(env: Env, stack: nat, s: State, f: Path, specs: seq<string>): Option<State>
    decreases stack, 1, |specs|
  {
    if specs == [] then Some(s)
    else if !env.resolve(specs[0], f).Module? then LoadAll(env, stack, s, f, specs[1..])
    else match Load(env, stack, s, specs[0], f)
      case None => None
      case Some((t, _)) => LoadAll(env, stack, t, f, specs[1..])
  }

  function Store(t: State, specifier: string, importer: Path, f: Path): State {
    State(t.cache[Key(specifier, importer) := |t.log|], t.log + [Entry(specifier, importer, f)])
  }

  // ---------------------------------------------------------------- what the cache and the log say

  predicate HasKey(log: seq<Entry>, n: int, key: string) {
    exists j :: 0 <= j < n && j < |log| && Key(log[j].specifier, log[j].importer) == key
  }

  /** Every entry's dependencies were stored before it, and the cache is what the log stored. */
  ghost predicate Inv(env: Env, s: State) {
    && (forall key :: key in s.cache <==> HasKey(s.log, |s.log|, key))
    && (forall key :: key in s.cache ==> s.cache[key] < |s.log| && Key(s.log[s.cache[key]].specifier, s.log[s.cache[key]].importer) == key)
    && (forall i :: 0 <= i < |s.log| ==> EntryOk(env, s.log, i))
  }

  ghost predicate EntryOk(env: Env, log: seq<Entry>, i: nat)
    requires i < |log|
  {
    var e := log[i];
    && env.resolve(e.specifier, e.importer) == Module(e.file) && e.file in env.readable
    && forall d :: d in env.imports(e.file) && Loads(env, d, e.file) ==> HasKey(log, i, Key(d, e.file))
  }

  ghost predicate Grows(s: State, t: State) {
    s.log <= t.log && s.cache.Keys <= t.cache.Keys
  }

  lemma HasKeyMonotone(log: seq<Entry>, more: seq<Entry>, n: nat, m: nat, key: string)
    requires HasKey(log, n, key) && n <= m && log <= more
    ensures HasKey(more, m, key)
  {
    var j :| 0 <= j < n && j < |log| && Key(log[j].specifier, log[j].importer) == key;
    assert more[j] == log[j];
  }

  lemma {:induction false} LoadKeeps(env: Env, stack: nat, s: State, specifier: string, importer: Path)
    requires Inv(env, s) && Load(env, stack, s, specifier, importer).Some?
    ensures var t := Load(env, stack, s, specifier, importer).value.0;
      Inv(env, t) && Grows(s, t) && (Loads(env, specifier, importer) ==> Key(specifier, importer) in t.cache)
    decreases stack, 0
  {
    if Key(specifier, importer) !in s.cache && Loads(env, specifier, importer) {
      var f := env.resolve(specifier, importer).path;
      LoadAllKeeps(env, stack - 1, s, f, env.imports(f));
      StoreKeeps(env, LoadAll(env, stack - 1, s, f, env.imports(f)).value, specifier, importer);
    }
  }

  lemma StoreKeeps(env: Env, t: State, specifier: string, importer: Path)
    requires Inv(env, t) && Loads(env, specifier, importer)
    requires var f := env.resolve(specifier, importer).path;
      forall d :: d in env.imports(f) && Loads(env, d, f) ==> Key(d, f) in t.cache
    ensures Inv(env, Store(t, specifier, importer, env.resolve(specifier, importer).path))
  {
    var u := Store(t, specifier, importer, env.resolve(specifier, importer).path);
    forall i | 0 <= i < |u.log| ensures EntryOk(env, u.log, i) {
      if i < |t.log| {
        assert EntryOk(env, t.log, i);
        forall d | d in env.imports(u.log[i].file) && Loads(env, d, u.log[i].file)
          ensures HasKey(u.log, i, Key(d, u.log[i].file))
        {
          HasKeyMonotone(t.log, u.log, i, i, Key(d, u.log[i].file));
        }
      } else {
        forall d | d in env.imports(u.log[i].file) && Loads(env, d, u.log[i].file)
          ensures HasKey(u.log, i, Key(d, u.log[i].file))
        {
          HasKeyMonotone(t.log, u.log, i, i, Key(d, u.log[i].file));
        }
      }
    }
    forall key ensures key in u.cache <==> HasKey(u.log, |u.log|, key) {
      if key in t.cache { HasKeyMonotone(t.log, u.log, |t.log|, |u.log|, key); }
      if HasKey(u.log, |u.log|, key) && key != Key(specifier, importer) {
        var j :| 0 <= j < |u.log| && Key(u.log[j].specifier, u.log[j].importer) == key;
        assert HasKey(t.log, |t.log|, key);
      }
      assert Key(u.log[|t.log|].specifier, u.log[|t.log|].importer) == Key(specifier, importer);
    }
  }

  lemma {:induction false} LoadAllKeeps(env: Env, stack: nat, s: State, f: Path, specs: seq<string>)
    requires Inv(env, s) && LoadAll(env, stack, s, f, specs).Some?
    ensures var t := LoadAll(env, stack, s, f, specs).value;
      Inv(env, t) && Grows(s, t) && forall d :: d in specs && Loads(env, d, f) ==> Key(d, f) in t.cache
    decreases stack, 1, |specs|
  {
    if specs != [] {
      if !env.resolve(specs[0], f).Module? {
        LoadAllKeeps(env, stack, s, f, specs[1..]);
      } else {
        LoadKeeps(env, stack, s, specs[0], f);
        LoadAllKeeps(env, stack, Load(env, stack, s, specs[0], f).value.0, f, specs[1..]);
      }
    }
  }

  // ---------------------------------------------------------------- what loadModule answers

  /** An exception exactly if nothing is cached and the import names no module that can be opened;
      otherwise the namespace of the evaluation that the cache then holds under the key, which on a
      fresh load is the file's own. */
  lemma LoadAnswers(env: Env, stack: nat, s: State, specifier: string, importer: Path)
    requires Inv(env, s) && Load(env, stack, s, specifier, importer).Some?
    ensures var (t, r) := Load(env, stack, s, specifier, importer).value; var key := Key(specifier, importer);
      && (r == Exception <==> key !in s.cache && !Loads(env, specifier, importer))
      && (r != Exception ==> key in t.cache && r == Namespace(t.cache[key]) && t.cache[key] < |t.log|)
      && (key in s.cache ==> t == s)
      && (key !in s.cache && Loads(env, specifier, importer) ==>
            t.log[t.cache[key]] == Entry(specifier, importer, env.resolve(specifier, importer).path))
  {
  }

  // ---------------------------------------------------------------- reachable imports and their keys

  /** A chain of imports from root on: each comes from the file that the one before it resolves to. */
  ghost predicate Chain(env: Env, root: (string, Path), c: seq<(string, Path)>) {
    && c != [] && c[0] == root
    && forall k :: 0 < k < |c| ==> Follows(env, c[k - 1], c[k])
  }

  predicate Follows(env: Env, a: (string, Path), b: (string, Path)) {
    Loads(env, a.0, a.1) && env.resolve(a.0, a.1).path == b.1 && b.0 in env.imports(b.1)
  }

  /** Read off the import graph: some chain from root ends with f importing d. */
  ghost predicate Reaches(env: Env, root: (string, Path), d: string, f: Path) {
    exists c :: Chain(env, root, c) && c[|c| - 1] == (d, f)
  }

  /** Reachable imports that share a cache key mean the same file. */
  ghost predicate ReachAgree(env: Env, root: (string, Path)) {
    forall d, f, d', f' | Reaches(env, root, d, f) && Reaches(env, root, d', f') && Key(d, f) == Key(d', f') ::
      Loads(env, d, f) && Loads(env, d', f') ==> env.resolve(d, f).path == env.resolve(d', f').path
  }

  lemma RootReached(env: Env, root: (string, Path))
    ensures Reaches(env, root, root.0, root.1)
  {
    assert Chain(env, root, [root]);
  }

  lemma ReachesNext(env: Env, root: (string, Path), d: string, f: Path, d': string)
    requires Reaches(env, root, d, f) && Loads(env, d, f) && d' in env.imports(env.resolve(d, f).path)
    ensures Reaches(env, root, d', env.resolve(d, f).path)
  {
    var c :| Chain(env, root, c) && c[|c| - 1] == (d, f);
    var next := (d', env.resolve(d, f).path);
    assert Follows(env, c[|c| - 1], next);
    assert Chain(env, root, c + [next]);
  }

  /** Specifiers without a colon: then the cache key determines the pair it was made from. */
  ghost predicate ColonFree(env: Env) {
    forall f, d :: d in env.imports(f) ==> ':' !in d
  }

  lemma FirstColon(a: string, b: Path)
    requires ':' !in a
    ensures Key(a, b)[|a|] == ':' && forall i :: 0 <= i < |a| ==> Key(a, b)[i] != ':'
  {
    assert forall i :: 0 <= i < |a| ==> Key(a, b)[i] == a[i];
  }

  lemma KeyInjective(a: string, b: Path, c: string, d: Path)
    requires ':' !in a && ':' !in c && Key(a, b) == Key(c, d)
    ensures a == c && b == d
  {
    FirstColon(a, b);
    FirstColon(c, d);
    assert |a| == |c|;
    assert Key(a, b)[..|a|] == a && Key(c, d)[..|c|] == c;
    assert Key(a, b)[|a| + 1..] == b && Key(c, d)[|c| + 1..] == d;
  }

  lemma ColonFreeAgrees(env: Env, root: (string, Path))
    requires ColonFree(env) && ':' !in root.0
    ensures ReachAgree(env, root)
    ensures forall d, f, d', f' | Reaches(env, root, d, f) && Reaches(env, root, d', f') ::
      Key(d, f) == Key(d', f') ==> (d, f) == (d', f')
  {
    forall d, f, d', f' | Reaches(env, root, d, f) && Reaches(env, root, d', f') && Key(d, f) == Key(d', f')
      ensures (d, f) == (d', f')
    {
      ReachedIsColonFree(env, root, d, f);
      ReachedIsColonFree(env, root, d', f');
      KeyInjective(d, f, d', f');
    }
  }

  lemma ReachedIsColonFree(env: Env, root: (string, Path), d: string, f: Path)
    requires ColonFree(env) && ':' !in root.0 && Reaches(env, root, d, f)
    ensures ':' !in d
  {
    var c :| Chain(env, root, c) && c[|c| - 1] == (d, f);
    if |c| > 1 {
      assert Follows(env, c[|c| - 2], c[|c| - 1]);
    }
  }

  // ---------------------------------------------------------------- order of evaluation

  ghost predicate AllReached(env: Env, root: (string, Path), log: seq<Entry>) {
    forall i :: 0 <= i < |log| ==> Reaches(env, root, log[i].specifier, log[i].importer)
  }

  /** Whatever a load evaluates is reachable. */
  lemma {:induction false} LoadReaches(env: Env, root: (string, Path), stack: nat, s: State, specifier: string, importer: Path)
    requires AllReached(env, root, s.log) && Reaches(env, root, specifier, importer)
    requires Load(env, stack, s, specifier, importer).Some?
    ensures AllReached(env, root, Load(env, stack, s, specifier, importer).value.0.log)
    decreases stack, 0
  {
    if Key(specifier, importer) !in s.cache && Loads(env, specifier, importer) {
      var f := env.resolve(specifier, importer).path;
      forall d | d in env.imports(f) ensures Reaches(env, root, d, f) {
        ReachesNext(env, root, specifier, importer, d);
      }
      LoadAllReaches(env, root, stack - 1, s, f, env.imports(f));
    }
  }

  lemma {:induction false} LoadAllReaches(env: Env, root: (string, Path), stack: nat, s: State, f: Path, specs: seq<string>)
    requires AllReached(env, root, s.log) && forall d :: d in specs ==> Reaches(env, root, d, f)
    requires LoadAll(env, stack, s, f, specs).Some?
    ensures AllReached(env, root, LoadAll(env, stack, s, f, specs).value.log)
    decreases stack, 1, |specs|
  {
    if specs != [] {
      if !env.resolve(specs[0], f).Module? {
        LoadAllReaches(env, root, stack, s, f, specs[1..]);
      } else {
        LoadReaches(env, root, stack, s, specs[0], f);
        LoadAllReaches(env, root, stack, Load(env, stack, s, specs[0], f).value.0, f, specs[1..]);
      }
    }
  }

  /** g is an ES module that f imports. */
  ghost predicate Imports(env: Env, f: Path, g: Path) {
    exists d :: d in env.imports(f) && Loads(env, d, f) && env.resolve(d, f).path == g
  }

  predicate EvaluatedBefore(log: seq<Entry>, n: int, f: Path) {
    exists j :: 0 <= j < n && j < |log| && log[j].file == f
  }

  ghost predicate DependenciesBefore(env: Env, log: seq<Entry>) {
    forall i, g :: 0 <= i < |log| && Imports(env, log[i].file, g) ==> EvaluatedBefore(log, i, g)
  }

  lemma ImportsCameBefore(env: Env, root: (string, Path), s: State, i: nat, g: Path)
    requires Inv(env, s) && ReachAgree(env, root) && AllReached(env, root, s.log)
    requires i < |s.log| && Imports(env, s.log[i].file, g)
    ensures EvaluatedBefore(s.log, i, g)
  {
    var f := s.log[i].file;
    var d :| d in env.imports(f) && Loads(env, d, f) && env.resolve(d, f).path == g;
    assert EntryOk(env, s.log, i);
    assert HasKey(s.log, i, Key(d, f));
    var j :| 0 <= j < i && Key(s.log[j].specifier, s.log[j].importer) == Key(d, f);
    assert EntryOk(env, s.log, j);
    ReachesNext(env, root, s.log[i].specifier, s.log[i].importer, d);
    assert Reaches(env, root, s.log[j].specifier, s.log[j].importer);
  }

  /** If reachable imports that share a key mean the same file, a load that returns has evaluated
      every ES module dependency of every evaluated file before that file, and every cached key's
      file. */
  lemma DependenciesFirst(env: Env, stack: nat, specifier: string, importer: Path)
    requires ReachAgree(env, (specifier, importer))
    requires Load(env, stack, Initial, specifier, importer).Some?
    ensures var t := Load(env, stack, Initial, specifier, importer).value.0;
      && DependenciesBefore(env, t.log)
      && (forall key | key in t.cache :: t.cache[key] < |t.log|
            && env.resolve(t.log[t.cache[key]].specifier, t.log[t.cache[key]].importer) == Module(t.log[t.cache[key]].file)
            && Key(t.log[t.cache[key]].specifier, t.log[t.cache[key]].importer) == key)
      && (Loads(env, specifier, importer) ==> EvaluatedBefore(t.log, |t.log|, env.resolve(specifier, importer).path))
  {
    var root := (specifier, importer);
    var t := Load(env, stack, Initial, specifier, importer).value.0;
    RootReached(env, root);
    LoadKeeps(env, stack, Initial, specifier, importer);
    LoadReaches(env, root, stack, Initial, specifier, importer);
    forall i, g | 0 <= i < |t.log| && Imports(env, t.log[i].file, g) ensures EvaluatedBefore(t.log, i, g) {
      ImportsCameBefore(env, root, t, i, g);
    }
    forall key | key in t.cache
      ensures env.resolve(t.log[t.cache[key]].specifier, t.log[t.cache[key]].importer) == Module(t.log[t.cache[key]].file)
    {
      assert EntryOk(env, t.log, t.cache[key]);
    }
    if Loads(env, specifier, importer) {
      ReachedIsEvaluated(env, root, t, specifier, importer);
    }
  }

  /** A cached import is served the evaluation of its own file. */
  lemma ReachedIsEvaluated(env: Env, root: (string, Path), t: State, d: string, f: Path)
    requires Inv(env, t) && ReachAgree(env, root) && AllReached(env, root, t.log)
    requires Reaches(env, root, d, f) && Loads(env, d, f) && Key(d, f) in t.cache
    ensures t.cache[Key(d, f)] < |t.log| && t.log[t.cache[Key(d, f)]].file == env.resolve(d, f).path
  {
    var j := t.cache[Key(d, f)];
    assert EntryOk(env, t.log, j);
    assert Reaches(env, root, t.log[j].specifier, t.log[j].importer);
  }

  // ---------------------------------------------------------------- colliding keys

  /** The file whose evaluation the cache holds under a key. */
  function CachedFile(t: State, key: string): Option<Path> {
    if key in t.cache && t.cache[key] < |t.log| then Some(t.log[t.cache[key]].file) else None
  }

  /** Every reachable import finds the module of its own file in the cache. */
  ghost predicate ServedRight(env: Env, root: (string, Path), t: State) {
    forall d, f | Reaches(env, root, d, f) ::
      Loads(env, d, f) ==> CachedFile(t, Key(d, f)) == Some(env.resolve(d, f).path)
  }

  /** Along a chain every import is cached: its importer has been evaluated. */
  lemma {:induction false} ChainIsServed(env: Env, root: (string, Path), t: State, c: seq<(string, Path)>)
    requires Inv(env, t) && ReachAgree(env, root) && AllReached(env, root, t.log)
    requires Loads(env, root.0, root.1) ==> Key(root.0, root.1) in t.cache
    requires Chain(env, root, c) && Loads(env, c[|c| - 1].0, c[|c| - 1].1)
    ensures var (d, f) := c[|c| - 1];
      CachedFile(t, Key(d, f)) == Some(env.resolve(d, f).path)
    decreases |c|
  {
    var (d, f) := c[|c| - 1];
    assert Reaches(env, root, d, f);
    if |c| > 1 {
      var before := c[..|c| - 1];
      var (d0, f0) := before[|before| - 1];
      assert Follows(env, c[|c| - 2], c[|c| - 1]);
      ChainIsServed(env, root, t, before);
      var j := t.cache[Key(d0, f0)];
      assert EntryOk(env, t.log, j);
      HasKeyMonotone(t.log, t.log, j, |t.log|, Key(d, f));
    }
    ReachedIsEvaluated(env, root, t, d, f);
  }

  /** After a load that returns, every reachable import is served the module of its own file if and
      only if no two reachable imports share a key while meaning different files: a condition on
      the import graph alone. */
  lemma ServedRightIff(env: Env, stack: nat, root: (string, Path))
    requires Load(env, stack, Initial, root.0, root.1).Some?
    ensures ServedRight(env, root, Load(env, stack, Initial, root.0, root.1).value.0) <==> ReachAgree(env, root)
  {
    var t := Load(env, stack, Initial, root.0, root.1).value.0;
    RootReached(env, root);
    LoadKeeps(env, stack, Initial, root.0, root.1);
    LoadReaches(env, root, stack, Initial, root.0, root.1);
    if ReachAgree(env, root) {
      forall d, f | Reaches(env, root, d, f) && Loads(env, d, f)
        ensures CachedFile(t, Key(d, f)) == Some(env.resolve(d, f).path)
      {
        var c :| Chain(env, root, c) && c[|c| - 1] == (d, f);
        ChainIsServed(env, root, t, c);
      }
    }
    if ServedRight(env, root, t) {
      ServedAgrees(env, root, t);
    }
  }

  lemma ServedAgrees(env: Env, root: (string, Path), t: State)
    requires ServedRight(env, root, t)
    ensures ReachAgree(env, root)
  {
  }

  lemma KeysCollide()
    ensures Key("a:b", "c") == Key("a", "b:c")
  {
    assert Key("a:b", "c") == "a:b:c" == Key("a", "b:c");
  }

  /** R imports c and b:c; c imports X as "a:b", b:c imports Y as "a", and Y imports b:c. */
  function CollidingEnv(): Env {
    Env((d, f) => if d == "r" then Module("R") else if d == "c" then Module("c") else if d == "b" then Module("b:c")
                  else if d == "a:b" then Module("X") else if d == "a" then Module("Y") else NotFound,
        {"R", "c", "b:c", "X", "Y"},
        f => if f == "R" then ["c", "b"] else if f == "c" then ["a:b"] else if f == "b:c" then ["a"]
             else if f == "Y" then ["b"] else [],
        f => false)
  }

  /** With colons two imports can share a key: here b:c is evaluated, its dependency Y never is. */
  lemma CollisionLosesADependency()
    ensures var env := CollidingEnv(); var r := Load(env, 4, Initial, "r", "");
      && r.Some?
      && EvaluatedBefore(r.value.0.log, |r.value.0.log|, "b:c") && Imports(env, "b:c", "Y")
      && !EvaluatedBefore(r.value.0.log, |r.value.0.log|, "Y")
  {
    var env := CollidingEnv();
    KeysCollide();
    var s1 := Store(Initial, "a:b", "c", "X");
    var s2 := Store(s1, "c", "R", "c");
    var s3 := Store(s2, "b", "R", "b:c");
    var s4 := Store(s3, "r", "", "R");
    assert Load(env, 2, Initial, "a:b", "c") == Some((s1, Namespace(0)));
    assert ["a:b"][1..] == [];
    assert LoadAll(env, 2, Initial, "c", ["a:b"]) == LoadAll(env, 2, s1, "c", []) == Some(s1);
    assert Key("c", "R")[0] == 'c';
    assert Load(env, 3, Initial, "c", "R") == Some((s2, Namespace(1)));
    assert Load(env, 2, s2, "a", "b:c") == Some((s2, Namespace(0)));
    assert ["a"][1..] == [];
    assert LoadAll(env, 2, s2, "b:c", ["a"]) == LoadAll(env, 2, s2, "b:c", []) == Some(s2);
    assert Key("b", "R")[0] == 'b' && Key("a:b", "c")[0] == 'a';
    assert Load(env, 3, s2, "b", "R") == Some((s3, Namespace(2)));
    assert ["c", "b"][1..] == ["b"] && ["b"][1..] == [];
    assert LoadAll(env, 3, s2, "R", ["b"]) == LoadAll(env, 3, s3, "R", []) == Some(s3);
    assert LoadAll(env, 3, Initial, "R", ["c", "b"]) == LoadAll(env, 3, s2, "R", ["b"]) == Some(s3);
    assert Load(env, 4, Initial, "r", "") == Some((s4, Namespace(3)));
    assert s4.log[2].file == "b:c";
    assert "a" in env.imports("b:c") && Loads(env, "a", "b:c");
  }

  /** The same files have a cycle below R, and still the load returns: Y is never looked into. */
  lemma CollisionHidesACycle()
    ensures Load(CollidingEnv(), 4, Initial, "r", "").Some?
    ensures !exists rank :: Ranking(CollidingEnv(), "R", rank)
  {
    var env := CollidingEnv();
    CollisionLosesADependency();
    assert "b" in env.imports("R") && Loads(env, "b", "R");
    assert "b" in env.imports("Y") && Loads(env, "b", "Y");
    assert Imports(env, "R", "b:c") && Imports(env, "b:c", "Y") && Imports(env, "Y", "b:c");
  }

  /** F imports b:c, which imports Y under the key that F itself is loaded under. */
  function NestedEnv(): Env {
    Env((d, f) => if d == "a:b" then Module("F") else if d == "x" then Module("b:c") else if d == "a" then Module("Y") else NotFound,
        {"F", "b:c", "Y"},
        f => if f == "F" then ["x"] else if f == "b:c" then ["a"] else [],
        f => false)
  }

  /** There one key is evaluated twice in a load. */
  lemma CollisionEvaluatesTwice()
    ensures var r := Load(NestedEnv(), 4, Initial, "a:b", "c");
      && r.Some? && |r.value.0.log| == 3
      && r.value.0.log[0].file == "Y" && r.value.0.log[2].file == "F"
      && Key(r.value.0.log[0].specifier, r.value.0.log[0].importer) == Key(r.value.0.log[2].specifier, r.value.0.log[2].importer)
  {
    var env := NestedEnv();
    KeysCollide();
    var s1 := Store(Initial, "a", "b:c", "Y");
    var s2 := Store(s1, "x", "F", "b:c");
    assert Load(env, 2, Initial, "a", "b:c") == Some((s1, Namespace(0)));
    assert ["a"][1..] == [] && ["x"][1..] == [];
    assert LoadAll(env, 2, Initial, "b:c", ["a"]) == LoadAll(env, 2, s1, "b:c", []) == Some(s1);
    assert Load(env, 3, Initial, "x", "F") == Some((s2, Namespace(1)));
    assert LoadAll(env, 3, Initial, "F", ["x"]) == LoadAll(env, 3, s2, "F", []) == Some(s2);
  }

  // ---------------------------------------------------------------- termination

  /** A ranking of root and everything it imports in which imports go down: the import graph
      reachable from root has no cycle. */
  ghost predicate Ranking(env: Env, root: Path, rank: map<Path, nat>) {
    root in rank && forall f, g :: f in rank && Imports(env, f, g) ==> g in rank && rank[g] < rank[f]
  }

  lemma {:induction false} RankedLoads(env: Env, rank: map<Path, nat>, stack: nat, s: State, specifier: string, importer: Path)
    requires Loads(env, specifier, importer) ==> Ranking(env, env.resolve(specifier, importer).path, rank)
    requires stack > (if Loads(env, specifier, importer) then rank[env.resolve(specifier, importer).path] + 1 else 0)
    ensures Load(env, stack, s, specifier, importer).Some?
    decreases stack, 0
  {
    if Key(specifier, importer) !in s.cache && Loads(env, specifier, importer) {
      var f := env.resolve(specifier, importer).path;
      RankedLoadsAll(env, rank, stack - 1, s, f, env.imports(f), env.imports(f));
    }
  }

  lemma {:induction false} RankedLoadsAll(env: Env, rank: map<Path, nat>, stack: nat, s: State, f: Path, all: seq<string>, specs: seq<string>)
    requires Ranking(env, f, rank) && stack > rank[f] && all == env.imports(f)
    requires forall d :: d in specs ==> d in all
    ensures LoadAll(env, stack, s, f, specs).Some?
    decreases stack, 1, |specs|
  {
    if specs != [] {
      if !env.resolve(specs[0], f).Module? {
        RankedLoadsAll(env, rank, stack, s, f, all, specs[1..]);
      } else {
        assert Loads(env, specs[0], f) ==> Imports(env, f, env.resolve(specs[0], f).path);
        RankedLoads(env, rank, stack, s, specs[0], f);
        RankedLoadsAll(env, rank, stack, Load(env, stack, s, specs[0], f).value.0, f, all, specs[1..]);
      }
    }
  }

  /** Position of the first evaluation of f. */
  function First(log: seq<Entry>, f: Path): (n: nat)
    ensures n <= |log| && (n < |log| ==> log[n].file == f)
    ensures forall j :: 0 <= j < n ==> log[j].file != f
  {
    if log == [] || log[0].file == f then 0 else 1 + First(log[1..], f)
  }

  /** Loading a module from an empty cache returns, with enough stack, if and only if the import
      graph below it has no cycle. */
  lemma TerminatesIffAcyclic(env: Env, specifier: string, importer: Path)
    requires ReachAgree(env, (specifier, importer)) && Loads(env, specifier, importer)
    ensures (exists stack :: Load(env, stack, Initial, specifier, importer).Some?)
       <==> (exists rank :: Ranking(env, env.resolve(specifier, importer).path, rank))
  {
    var root := env.resolve(specifier, importer).path;
    if rank :| Ranking(env, root, rank) {
      RankedLoads(env, rank, rank[root] + 2, Initial, specifier, importer);
    }
    if stack :| Load(env, stack, Initial, specifier, importer).Some? {
      LoadedRanks(env, stack, specifier, importer);
    }
  }

  /** The order of evaluation ranks the files. */
  lemma LoadedRanks(env: Env, stack: nat, specifier: string, importer: Path)
    requires ReachAgree(env, (specifier, importer)) && Loads(env, specifier, importer)
    requires Load(env, stack, Initial, specifier, importer).Some?
    ensures exists rank :: Ranking(env, env.resolve(specifier, importer).path, rank)
  {
    var root := env.resolve(specifier, importer).path;
    DependenciesFirst(env, stack, specifier, importer);
    var log := Load(env, stack, Initial, specifier, importer).value.0.log;
    var files := set e | e in log :: e.file;
    var rank := map f | f in files :: First(log, f);
    forall f, g | f in rank && Imports(env, f, g) ensures g in rank && rank[g] < rank[f] {
      FirstAt(log, f);
      assert EvaluatedBefore(log, rank[f], g);
    }
    var j :| 0 <= j < |log| && log[j].file == root;
    assert Ranking(env, root, rank);
  }

  lemma FirstAt(log: seq<Entry>, f: Path)
    requires exists e :: e in log && e.file == f
    ensures First(log, f) < |log|
  {
    var e :| e in log && e.file == f;
    var j :| 0 <= j < |log| && log[j] == e;
  }

  /** How much stack there is does not change what a load that returns does. */
  lemma {:induction false} StackIrrelevant(env: Env, stack: nat, s: State, specifier: string, importer: Path)
    requires Load(env, stack, s, specifier, importer).Some?
    ensures Load(env, stack + 1, s, specifier, importer) == Load(env, stack, s, specifier, importer)
    decreases stack, 0
  {
    if Key(specifier, importer) !in s.cache && Loads(env, specifier, importer) {
      var f := env.resolve(specifier, importer).path;
      StackIrrelevantAll(env, stack - 1, s, f, env.imports(f));
    }
  }

  lemma {:induction false} StackIrrelevantAll(env: Env, stack: nat, s: State, f: Path, specs: seq<string>)
    requires LoadAll(env, stack, s, f, specs).Some?
    ensures LoadAll(env, stack + 1, s, f, specs) == LoadAll(env, stack, s, f, specs)
    decreases stack, 1, |specs|
  {
    if specs != [] {
      if !env.resolve(specs[0], f).Module? {
        StackIrrelevantAll(env, stack, s, f, specs[1..]);
      } else {
        StackIrrelevant(env, stack, s, specs[0], f);
        StackIrrelevantAll(env, stack, Load(env, stack, s, specs[0], f).value.0, f, specs[1..]);
      }
    }
  }

  // ---------------------------------------------------------------- once per key

  ghost predicate KeysDistinct(log: seq<Entry>) {
    forall i, j :: 0 <= i < j < |log| ==>
      Key(log[i].specifier, log[i].importer) != Key(log[j].specifier, log[j].importer)
  }

  function KeyOf(a: (string, Path)): string {
    Key(a.0, a.1)
  }

  /** No chain of imports that can be loaded meets a key again. */
  ghost predicate NoKeyTwice(env: Env, root: (string, Path)) {
    forall c: seq<(string, Path)>, i, j | Chain(env, root, c) && 0 <= i < j < |c| :: Loads(env, c[j].0, c[j].1) ==> KeyOf(c[i]) != KeyOf(c[j])
  }

  ghost predicate Avoids(log: seq<Entry>, from: nat, c: seq<(string, Path)>) {
    forall i, k | from <= i < |log| && 0 <= k < |c| :: Key(log[i].specifier, log[i].importer) != KeyOf(c[k])
  }

  /** What a load adds has none of the keys of the loads that it is nested in. */
  lemma {:induction false} LoadDistinct(env: Env, root: (string, Path), c: seq<(string, Path)>, stack: nat, s: State,
                                        specifier: string, importer: Path)
    requires Inv(env, s) && NoKeyTwice(env, root) && KeysDistinct(s.log)
    requires Chain(env, root, c) && c[|c| - 1] == (specifier, importer)
    requires Load(env, stack, s, specifier, importer).Some?
    ensures var t := Load(env, stack, s, specifier, importer).value.0;
      s.log <= t.log && KeysDistinct(t.log) && Avoids(t.log, |s.log|, c[..|c| - 1])
    decreases stack, 0
  {
    if Key(specifier, importer) !in s.cache && Loads(env, specifier, importer) {
      var f := env.resolve(specifier, importer).path;
      LoadAllDistinct(env, root, c, stack - 1, s, f, env.imports(f));
      var t := LoadAll(env, stack - 1, s, f, env.imports(f)).value;
      forall i | 0 <= i < |t.log|
        ensures Key(t.log[i].specifier, t.log[i].importer) != Key(specifier, importer)
      {
        if i < |s.log| {
          assert t.log[i] == s.log[i];
          assert HasKey(s.log, |s.log|, Key(t.log[i].specifier, t.log[i].importer));
        } else {
          assert KeyOf(c[|c| - 1]) == Key(specifier, importer);
        }
      }
    }
  }

  lemma {:induction false} LoadAllDistinct(env: Env, root: (string, Path), c: seq<(string, Path)>, stack: nat, s: State,
                                           f: Path, specs: seq<string>)
    requires Inv(env, s) && NoKeyTwice(env, root) && KeysDistinct(s.log)
    requires Chain(env, root, c) && forall d :: d in specs ==> Follows(env, c[|c| - 1], (d, f))
    requires LoadAll(env, stack, s, f, specs).Some?
    ensures var t := LoadAll(env, stack, s, f, specs).value;
      s.log <= t.log && KeysDistinct(t.log) && Avoids(t.log, |s.log|, c)
    decreases stack, 1, |specs|
  {
    if specs != [] {
      if !env.resolve(specs[0], f).Module? {
        LoadAllDistinct(env, root, c, stack, s, f, specs[1..]);
      } else {
        var longer := c + [(specs[0], f)];
        assert Chain(env, root, longer) && longer[..|longer| - 1] == c;
        LoadDistinct(env, root, longer, stack, s, specs[0], f);
        LoadKeeps(env, stack, s, specs[0], f);
        var t := Load(env, stack, s, specs[0], f).value.0;
        LoadAllDistinct(env, root, c, stack, t, f, specs[1..]);
      }
    }
  }

  /** A load that returns has evaluated once per distinct cache key, if no chain of imports meets a
      key again. */
  lemma EvaluatesOncePerKey(env: Env, stack: nat, specifier: string, importer: Path)
    requires NoKeyTwice(env, (specifier, importer))
    requires Load(env, stack, Initial, specifier, importer).Some?
    ensures KeysDistinct(Load(env, stack, Initial, specifier, importer).value.0.log)
  {
    var root := (specifier, importer);
    assert Chain(env, root, [root]);
    LoadDistinct(env, root, [root], stack, Initial, specifier, importer);
  }

  /** That is so whenever the load returns and reachable imports that share a key mean the same file. */
  lemma AgreeingKeysDoNotRepeat(env: Env, stack: nat, specifier: string, importer: Path)
    requires ReachAgree(env, (specifier, importer))
    requires Load(env, stack, Initial, specifier, importer).Some?
    ensures NoKeyTwice(env, (specifier, importer))
  {
    var root := (specifier, importer);
    forall c: seq<(string, Path)>, i, j | Chain(env, root, c) && 0 <= i < j < |c| && Loads(env, c[j].0, c[j].1)
      ensures KeyOf(c[i]) != KeyOf(c[j])
    {
      assert Follows(env, c[0], c[1]) && c[0] == root;
      LoadedRanks(env, stack, specifier, importer);
      var rank :| Ranking(env, env.resolve(specifier, importer).path, rank);
      ChainDescends(env, root, rank, c, i, j);
      assert Follows(env, c[i], c[i + 1]);
      PrefixReached(env, root, c, i);
      PrefixReached(env, root, c, j);
    }
  }

  lemma PrefixReached(env: Env, root: (string, Path), c: seq<(string, Path)>, i: nat)
    requires Chain(env, root, c) && i < |c|
    ensures Reaches(env, root, c[i].0, c[i].1)
  {
    var b := c[..i + 1];
    assert forall k :: 0 < k < |b| ==> Follows(env, c[k - 1], c[k]);
    assert Chain(env, root, b) && b[|b| - 1] == c[i];
  }

  lemma {:induction false} ChainDescends(env: Env, root: (string, Path), rank: map<Path, nat>, c: seq<(string, Path)>, i: nat, j: nat)
    requires Chain(env, root, c) && i <= j < |c| && Loads(env, c[j].0, c[j].1)
    requires Loads(env, root.0, root.1) ==> Ranking(env, env.resolve(root.0, root.1).path, rank)
    ensures Loads(env, c[i].0, c[i].1) && env.resolve(c[i].0, c[i].1).path in rank && env.resolve(c[j].0, c[j].1).path in rank
    ensures i < j ==> rank[env.resolve(c[j].0, c[j].1).path] < rank[env.resolve(c[i].0, c[i].1).path]
    decreases j
  {
    if j > 0 {
      assert Follows(env, c[j - 1], c[j]) && Follows(env, c[0], c[1]);
      ChainDescends(env, root, rank, c, if i < j then i else j - 1, j - 1);
      var f := env.resolve(c[j - 1].0, c[j - 1].1).path;
      assert Imports(env, f, env.resolve(c[j].0, c[j].1).path);
    }
  }

  /** So a first load answers with the namespace of the module it was asked for. */
  lemma AnswersItsModule(env: Env, stack: nat, specifier: string, importer: Path)
    requires Load(env, stack, Initial, specifier, importer).Some?
    ensures var (t, r) := Load(env, stack, Initial, specifier, importer).value;
      if Loads(env, specifier, importer) then
        r.Namespace? && r.id < |t.log| && t.log[r.id].file == env.resolve(specifier, importer).path && r.id == |t.log| - 1
      else r == Exception
  {
    LoadAnswers(env, stack, Initial, specifier, importer);
  }

  /** What the loader is for, all at once: after a load that returns, every reachable import is
      served its own module, every dependency of an evaluated file was evaluated before it, and no
      key was evaluated twice, if and only if reachable imports that share a key mean the same file. */
  lemma LoadIsRightIff(env: Env, stack: nat, root: (string, Path))
    requires Load(env, stack, Initial, root.0, root.1).Some?
    ensures var t := Load(env, stack, Initial, root.0, root.1).value.0;
      ServedRight(env, root, t) && DependenciesBefore(env, t.log) && KeysDistinct(t.log) <==> ReachAgree(env, root)
  {
    ServedRightIff(env, stack, root);
    if ReachAgree(env, root) {
      assert root == (root.0, root.1);
      DependenciesFirst(env, stack, root.0, root.1);
      AgreeingKeysDoNotRepeat(env, stack, root.0, root.1);
      EvaluatesOncePerKey(env, stack, root.0, root.1);
    }
  }

  // ---------------------------------------------------------------- the object

  class ESModuleRecord {
    const specifier: string
    const filePath: Path
    const dependencies: seq<string>
    var isEvaluated: bool
    var isEvaluating: bool

    constructor (specifier: string, filePath: Path, dependencies: seq<string>)
      ensures this.specifier == specifier && this.filePath == filePath && this.dependencies == dependencies
      ensures !isEvaluated && !isEvaluating
    {
      this.specifier, this.filePath, this.dependencies := specifier, filePath, dependencies;
      isEvaluated, isEvaluating := false, false;
    }
  }

  class ESModuleLoader {
    var cache: map<string, nat>
    var log: seq<Entry>

    constructor ()
      ensures View() == Initial
    {
      cache, log := map[], [];
    }

    ghost function View(): State
      reads this
    {
      State(cache, log)
    }

    /** loadModule; None when the stack is exhausted. */
    method LoadModule(env: Env, stack: nat, specifier: string, importer: Path) returns (r: Option<Result>)
      modifies this
      ensures match Load(env, stack, old(View()), specifier, importer)
        case None => r == None
        case Some((t, res)) => r == Some(res) && View() == t
      decreases stack, 0
    {
      if stack == 0 {
        return None;
      }
      var cacheKey := specifier + ":" + importer;
      assert cacheKey == Key(specifier, importer);
      if cacheKey in cache {
        return Some(Namespace(cache[cacheKey]));
      }
      var resolved := env.resolve(specifier, importer);
      if resolved.NotFound? {
        return Some(Exception);
      }
      if !resolved.Module? {
        return Some(Exception);
      }
      if resolved.path !in env.readable {
        return Some(Exception);
      }
      var record := new ESModuleRecord(specifier, resolved.path, env.imports(resolved.path));
      var ok := ResolveDependencies(env, stack - 1, record);
      if !ok {
        return None;
      }
      var id := |log|;
      EvaluateModule(env, record, importer);
      cache := cache[cacheKey := id];
      return Some(Namespace(id));
    }

    method ResolveDependencies(env: Env, stack: nat, record: ESModuleRecord) returns (ok: bool)
      modifies this
      ensures var t := LoadAll(env, stack, old(View()), record.filePath, record.dependencies);
        ok == t.Some? && (ok ==> View() == t.value)
      decreases stack, 1
    {
      ghost var all := LoadAll(env, stack, View(), record.filePath, record.dependencies);
      for i := 0 to |record.dependencies|
        invariant LoadAll(env, stack, View(), record.filePath, record.dependencies[i..]) == all
      {
        var dep := record.dependencies[i];
        assert record.dependencies[i..][1..] == record.dependencies[i + 1..];
        var resolved := env.resolve(dep, record.filePath);
        if !resolved.NotFound? {
          if resolved.Module? {
            var r := LoadModule(env, stack, dep, record.filePath);
            if r.None? {
              return false;
            }
          }
        }
      }
      return true;
    }

    /** A thrown exception is printed and otherwise ignored: the module stays unevaluated but its
        evaluation has taken place. */
    method EvaluateModule(env: Env, record: ESModuleRecord, importer: Path)
      modifies this`log, record
      ensures !old(record.isEvaluated) && !old(record.isEvaluating) ==>
        log == old(log) + [Entry(record.specifier, importer, record.filePath)]
        && !record.isEvaluating && (record.isEvaluated <==> !env.throws(record.filePath))
      ensures old(record.isEvaluated) || old(record.isEvaluating) ==> log == old(log) && unchanged(record)
    {
      if record.isEvaluated {
        return;
      }
      if record.isEvaluating {
        return;
      }
      record.isEvaluating := true;
      log := log + [Entry(record.specifier, importer, record.filePath)];
      if env.throws(record.filePath) {
        record.isEvaluating := false;
        return;
      }
      record.isEvaluating := false;
      record.isEvaluated := true;
    }
  }
}
