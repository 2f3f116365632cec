# protoJS: a verified model

protoJS runs JavaScript on QuickJS and protoCore. Around those two libraries it has a concurrent
execution core, two module loaders, parsers and printers for its package tools, byte codecs, a test
runner and a metrics store. This project models those parts and proves what they are for.

| file | what it models |
|---|---|
| `ThreadPool.dfy` | `ThreadPoolExecutor`: every interleaving of submitters, workers, `shutdown` and `shutdownNow`, one action for each critical section |
| `EventLoop.dfy` | the callback queue: enqueue, swap, drain |
| `Deferred.dfy` | the life of a `Deferred`: pool and event loop interleaved with the single writes and posts of the worker's code |
| `CommonJS.dfy` | `require` of file modules: cache before executing, replace on success, erase on failure |
| `ESModules.dfy` | `loadModule`: memoised depth-first loading with a cache keyed by specifier and importer |
| `Json.dfy` | the recursive descent JSON parser, the concrete syntax of RFC 8259, and a printer |
| `Semver.dfy` | version parsing, comparison, ranges, selection and normalisation |
| `Utf8.dfy` | the UTF-8 encoder, and a decoder for the layout of section 3 of RFC 3629 |
| `Codecs.dfy` | hex and base64 |
| `Buffers.dfy` | byte search, slice and concatenation |
| `Baseline.dfy` | the benchmark baseline file |
| `TestRunner.dfy` | the sequential and the parallel compatibility test runner |
| `Histogram.dfy` | histogram metrics |
| `Common.dfy` | bytes, options and character classes used by several of the above |

How the parts are written:

- Code that changes state is a class or a method with loops; its `ensures` ties the result or the new
  state to a specification function of the inputs or of the old state. What the code promises is
  proved about those functions.
- A concurrent protocol is a `State` with an `Action` for every atomic step of the original and a
  guard for every wait. `Run` applies a sequence of actions; the theorems speak of all sequences.
  The classes `ThreadPoolExecutor` and `EventLoop` perform the same steps on the original's fields.
- What a foreign library decides (does a body throw, does a buffer serialise, which file does a
  specifier resolve to) is a parameter, so every answer is covered.
- C++ exceptions are results: `Threw` for `substr` out of range, `Exception` for a JavaScript
  exception, `false` or `null` where the caller only needs to know.

Where the code and its own words disagree, the model follows the code:

- `^1.2.3` and `~1.2.3` are not quite the intervals that the comments in `Semver.cpp` give
  (`CaretMeetsItsComment`, `TildeMeetsItsComment`; at inputs: `CaretAdmitsLower`, `TildeAdmitsLower`).
- `Semver::parse` throws when the first `+` comes before the first `-` (`ThrowsIff`,
  `ParseThrows`), so `normalize` can return a text that `parse` cannot take (`NormalForm`, `NormalFormLost`).
- A candidate that does not parse compares as equal to every version (`FindsFirstMaximal`,
  `JunkSatisfies`, `JunkIsChosen`).
- `loadBaseline` unescapes a name twice (`LoadSave`, `BackslashIsLost`).
- The JSON parser reads `\uXXXX` as a question mark and `\b`, `\f` as letters (`StringFaithful`,
  `BackspaceIsLost`).
- Base64 decoding loses the bits of a padded group (`Base64RoundTrip`, `LoneByteIsLost`).
- The ES module cache key joins specifier and importer with a colon, so two imports can share one
  (`LoadIsRightIff`, `CollisionLosesADependency`, `CollisionHidesACycle`,
  `CollisionEvaluatesTwice`).
- A function whose exception cannot be serialised has its Deferred rejected twice (`ExpectedShape`,
  `RejectedTwice`).

## Model

| member | source | states |
|---|---|---|
| `ThreadPool.StepInv` | src/ThreadPoolExecutor.cpp:78-115 | every critical section, taken from any state that satisfies the invariant, keeps it: started, queued and abandoned tasks are the accepted ones in order, each start is finished or in flight exactly once, `activeCount` counts the workers between pop and decrement, and a worker is gone only if the pool is closed and the queue empty |
| `ThreadPool.AcceptedInOrder` | src/ThreadPoolExecutor.h:51-61 | in every reachable state of every interleaving the accepted tasks are those submitted before the first shutdown call, and they equal started, then queued, then abandoned tasks in submission order; tasks are abandoned only if `shutdownNow` ran |
| `ThreadPool.AcceptedGrows` | src/ThreadPoolExecutor.h:54-60 | from any state, a run accepts exactly the tasks submitted before it closes the pool, in order, and none once the flag is up |
| `ThreadPool.DrainStep` | src/ThreadPoolExecutor.cpp:85-111 | once the flag is up every worker step lowers three times the queue plus what the workers owe by exactly one, and no other step raises it |
| `ThreadPool.DrainBound` | src/ThreadPoolExecutor.cpp:27-39 | after the flag, all workers together take at most that many more steps, whatever submitters and other closers do in between |
| `ThreadPool.DrainProgress` | src/ThreadPoolExecutor.cpp:85-97 | while that count is positive some worker step is enabled, given at least one thread |
| `ThreadPool.DrainReachesJoin` | src/ThreadPoolExecutor.cpp:41-45 | from every reachable closed state the workers alone reach a state where all have exited and every accepted task has finished or was abandoned |
| `ThreadPool.DrainedIsDone` | src/ThreadPoolExecutor.cpp:41-45 | when the count is zero all workers have exited and nothing accepted is missing |
| `ThreadPool.NoEarlyExit` | src/ThreadPoolExecutor.cpp:89-91 | in no reachable state has a worker left its loop while the queue is non-empty |
| `ThreadPool.FinishedAfterWait` | src/ThreadPoolExecutor.cpp:34-39 | when `shutdown` passes its wait every accepted task has finished (without `shutdownNow`, all of them), and no later step changes that |
| `ThreadPool.AtMostN` | src/ThreadPoolExecutor.cpp:17-20 | at every moment of every interleaving a pool of n threads has n workers and at most n active tasks |
| `ThreadPool.RunTogether` | src/ThreadPoolExecutor.cpp:78-111 | and any number of tasks up to n can run at once: some interleaving leads to the first workers running exactly the submitted tasks while the others wait |
| `ThreadPool.ThreadPoolExecutor.Create` | src/ThreadPoolExecutor.cpp:7-21 | construction fails exactly for zero threads, and otherwise gives a pool with that many idle workers and nothing queued |
| `ThreadPool.ThreadPoolExecutor.Submit` | src/ThreadPoolExecutor.h:41-65 | performs the Submit step; it is refused exactly when the pool is shut down |
| `ThreadPool.ThreadPoolExecutor.LeaveWait` | src/ThreadPoolExecutor.cpp:82-98 | performs a worker's critical section: leaves the loop or takes the front task and counts it |
| `ThreadPool.ThreadPoolExecutor.Release` | src/ThreadPoolExecutor.cpp:110 | performs the decrement outside the lock; it never goes below zero |
| `ThreadPool.ThreadPoolExecutor.RaiseFlag` | src/ThreadPoolExecutor.cpp:28-31 | performs the first critical section of `shutdown` |
| `ThreadPool.ThreadPoolExecutor.ShutdownNow` | src/ThreadPoolExecutor.cpp:49-58 | raises both flags and empties the queue in place, abandoning exactly what was queued |
| `EventLoop.RunsInOrder` | src/EventLoop.cpp:12-41 | at every point of every interleaving the callbacks run so far, then the rest of the batch, then the queue, are the callbacks enqueued, in order |
| `EventLoop.StepInOrder` | src/EventLoop.cpp:12-31 | every single step keeps that order |
| `EventLoop.BatchIsFixed` | src/EventLoop.cpp:23-41 | between two swaps only callbacks of the batch run, and what is enqueued meanwhile waits: a batch of n ends after n calls even if every callback enqueues itself again |
| `EventLoop.DrainAsActions` | src/EventLoop.cpp:20-41 | the loop of `processCallbacks` is one of those interleavings, with the same result |
| `EventLoop.EventLoop.EnqueueCallback` | src/EventLoop.cpp:12-18 | appends the callback to the queue |
| `EventLoop.EventLoop.ProcessCallbacks` | src/EventLoop.cpp:20-41 | runs what was queued on entry, each once and in order; afterwards the queue holds exactly what was enqueued meanwhile; an exception stops nothing |
| `EventLoop.ProducedAt` | src/EventLoop.cpp:28-40 | what a batch leaves in the queue, call by call: what arrived before the call, then what the callback itself enqueued |
| `EventLoop.ThrownIff` | src/EventLoop.cpp:32-39 | the callbacks reported are exactly those that throw |
| `Deferred.ExpectedShape` | src/Deferred.cpp:198-427 | every path settles, none both ways, none resolves twice; it resolves exactly when the function returned and no C++ exception intervened, and rejects twice exactly on the fall-through after an error that could not be serialised or copied |
| `Deferred.RejectedTwice` | src/Deferred.cpp:291-357 | an interleaving after which `reject` has been called twice for one Deferred |
| `Deferred.PathsSettle` | src/Deferred.cpp:357-427 | the writes and posts of each path, run as callbacks, make the calls listed for that path |
| `Deferred.StepInv` | src/Deferred.cpp:189-428 | every step of every thread keeps the invariant that ties each started Deferred's posts and calls to its path |
| `Deferred.SettleRunsOnFinalFields` | src/Deferred.cpp:357-415 | when a settlement callback runs, the worker has made its last write to the task's fields |
| `Deferred.NeverContradicts` | src/Deferred.cpp:198-427 | at every moment of every interleaving the calls made for a Deferred are a beginning of what its path leads to; one that never started has none |
| `Deferred.NothingBlocks` | src/Deferred.cpp:193-195 | a worker holding a task and a batch holding callbacks can always take their next step |
| `Deferred.EverySettled` | src/Deferred.cpp:189-428 | once the pool has drained and no callback is left, every accepted Deferred that `shutdownNow` did not abandon has been settled exactly as its path says, and an abandoned one not at all |
| `Deferred.WorkEnds` | src/Deferred.cpp:189-428 | no schedule takes more than a stated number of steps without a new submission, and one that cannot go on has reached that quiet state |
| `Deferred.SettledWhenNothingWorks` | src/Deferred.cpp:189-428 | from every reachable state, any schedule of workers and event loop that goes on until nothing can work gets there within that bound and leaves every accepted Deferred settled as its path says, unless it was abandoned |
| `Deferred.WorkerThreadExecution` | src/Deferred.cpp:198-428 | in each branch, the task's fields and the posted callbacks are those of the path taken |
| `Deferred.RunSettle` | src/Deferred.cpp:357-415 | resolves or rejects by the task's fields, with the result, the error or the fallback, and drops the buffer |
| `CommonJS.RequireFile` | src/modules/CommonJSLoader.cpp:118-197 | `require` terminates for any pattern of cycles and failures, and the cache after it extends the cache before it |
| `CommonJS.RequireAnswers` | src/modules/CommonJSLoader.cpp:118-197 | what `require` answers: a cached file its entry, a path that cannot be opened an exception, any other file its exports, cached, if its body, given the answers of its own requires, comes to its end, and an exception with nothing cached if it throws |
| `CommonJS.BodyEnds` | src/modules/CommonJSLoader.cpp:341-346 | the outcome of a body is where the answers of its requires lead |
| `CommonJS.OneEnd` | src/modules/CommonJSLoader.cpp:341-346 | and the answers lead to one outcome only |
| `CommonJS.RequireFileKeeps` | src/modules/CommonJSLoader.cpp:118-197 | `require` keeps the invariant: the files being executed are exactly the partial cache entries, a file has completed once exactly if its entry is exports, and completed entries never change |
| `CommonJS.RunScriptKeeps` | src/modules/CommonJSLoader.cpp:291-347 | so does a whole body with all its nested requires, caught failures included |
| `CommonJS.NeverReentered` | src/modules/CommonJSLoader.cpp:169-192 | in any run, whenever a body starts it is not being executed already, every body being executed is in the cache, and the nesting is at most the number of files |
| `CommonJS.SucceedsAtMostOnce` | src/modules/CommonJSLoader.cpp:121-127 | a file's body completes at most once in any run |
| `CommonJS.SameExportsForever` | src/modules/CommonJSLoader.cpp:184-192 | after it has, every later event of that file, at any depth, is a cache hit with those same exports |
| `CommonJS.CommonJSLoader.Require` | src/modules/CommonJSLoader.cpp:118-127 | on the loader's own map, `require` does what the specification says, from the resolved path on |
| `CommonJS.CommonJSLoader.Execute` | src/modules/CommonJSLoader.cpp:165-197 | caches the module object, runs the body, then replaces the entry by the exports or erases it |
| `CommonJS.CommonJSLoader.CacheModule` | src/modules/CommonJSLoader.cpp:165-173 | puts the new module object in the cache before the body runs |
| `CommonJS.CommonJSLoader.UpdateCache` | src/modules/CommonJSLoader.cpp:175-192 | replaces the entry by the exports of the same module object, or erases it if the body threw |
| `CommonJS.CommonJSLoader.WrapModule` | src/modules/CommonJSLoader.cpp:291-347 | runs the body with its nested requires as specified |
| `ESModules.DependenciesFirst` | src/modules/ESModuleLoader.cpp:138-151 | if reachable imports that share a cache key mean the same file, a load that returns has evaluated every ES module dependency of every evaluated file before that file, and the file of every cached key |
| `ESModules.TerminatesIffAcyclic` | src/modules/ESModuleLoader.cpp:12-74 | under that condition loading from an empty cache returns, for some stack depth, if and only if the import graph below the module has no cycle |
| `ESModules.RankedLoads` | src/modules/ESModuleLoader.cpp:12-74 | with any ranking of the files in which imports go down, a stack of the rank plus two is enough, for every cache and whatever the keys |
| `ESModules.EvaluatesOncePerKey` | src/modules/ESModuleLoader.cpp:18-22 | if no chain of imports from the root meets a cache key again, no two evaluations of a load have the same key |
| `ESModules.AgreeingKeysDoNotRepeat` | src/modules/ESModuleLoader.cpp:18-22 | no chain does when the load returns and reachable imports that share a key mean the same file |
| `ESModules.CollisionEvaluatesTwice` | src/modules/ESModuleLoader.cpp:18-73 | three files for which a load evaluates under one key twice |
| `ESModules.StackIrrelevant` | src/modules/ESModuleLoader.cpp:12-74 | a load that returns does the same with more stack |
| `ESModules.ColonFreeAgrees` | src/modules/ESModuleLoader.cpp:18 | if no specifier has a colon, reachable imports with the same key are the same import, and so that condition is met |
| `ESModules.LoadIsRightIff` | src/modules/ESModuleLoader.cpp:12-74 | after a load that returns, every reachable import is served its own module and dependencies came first and no key was evaluated twice, all at once, if and only if no two reachable imports share a key while meaning different files |
| `ESModules.ServedRightIff` | src/modules/ESModuleLoader.cpp:18-22 | after a load that returns, every import reachable from the root is served the module of its own file if and only if no two reachable imports share a key while meaning different files, which is read off the import graph alone |
| `ESModules.CollisionLosesADependency` | src/modules/ESModuleLoader.cpp:18-22 | files with imports for which a file is evaluated and its dependency never is |
| `ESModules.CollisionHidesACycle` | src/modules/ESModuleLoader.cpp:12-74 | the same files have an import cycle below the root, and the load returns all the same |
| `ESModules.LoadKeeps` | src/modules/ESModuleLoader.cpp:56-73 | a load from any consistent cache keeps it consistent, only adds to it, and stores the key it was asked for |
| `ESModules.LoadAnswers` | src/modules/ESModuleLoader.cpp:12-74 | what `loadModule` answers from any consistent cache: an exception exactly if nothing is cached and the import names no module that can be opened, and otherwise the namespace that the cache then holds under the key, on a fresh load that of the file itself |
| `ESModules.AnswersItsModule` | src/modules/ESModuleLoader.cpp:61-73 | a first load answers with the namespace of the module it was asked for, evaluated last |
| `ESModules.ESModuleLoader.LoadModule` | src/modules/ESModuleLoader.cpp:12-74 | the method on the loader's cache returns and leaves what the specification says |
| `ESModules.ESModuleLoader.ResolveDependencies` | src/modules/ESModuleLoader.cpp:138-151 | loads the record's ES module dependencies in order and skips the others |
| `ESModules.ESModuleLoader.EvaluateModule` | src/modules/ESModuleLoader.cpp:76-120 | evaluates once; an exception leaves the record neither evaluated nor evaluating |
| `Json.PValue` | src/npm/JsonParser.cpp:51-62 | on every text, malformed or cut short, the mutually recursive parsers terminate and never leave more input than they got |
| `Json.Parser.ParseValue` | src/npm/JsonParser.cpp:51-62 | on every text the position never moves back or past the end, and value and rest are the specification's |
| `Json.Parser.ParseObject` | src/npm/JsonParser.cpp:64-84 | likewise for objects, for all four ways to leave the loop; later members of a name win |
| `Json.Parser.ParseArray` | src/npm/JsonParser.cpp:86-99 | likewise for arrays |
| `Json.Parser.ParseString` | src/npm/JsonParser.cpp:101-122 | likewise for strings, unterminated ones included |
| `Json.Parser.ParseEscape` | src/npm/JsonParser.cpp:107-118 | likewise for an escape, with up to four characters dropped after `\u` |
| `Json.Parser.ParseNumber` | src/npm/JsonParser.cpp:124-138 | takes exactly the longest run of number characters as the lexeme |
| `Json.Parser.ExpectWord` | src/npm/JsonParser.cpp:140-142 | drops the word, or what matches of it and one character more |
| `Json.Parser.Parse` | src/npm/JsonParser.cpp:33-37 | the whole text's value; null for blank texts |
| `Json.ValueBack` | src/npm/JsonParser.cpp:51-99 | reading any written document, with any text after it, gives its value and leaves that text |
| `Json.ParsesEveryText` | src/npm/JsonParser.cpp:147-150 | every JSON text of RFC 8259, with whitespace at every position where section 2 allows it, parses to its value |
| `Json.LooseClose` | src/npm/JsonParser.cpp:64-99 | an array or object that is cut off, or closed by any character but a comma, has the elements or members read so far |
| `Json.TrailingComma` | src/npm/JsonParser.cpp:73-95 | a comma before the closing bracket adds a null; before the closing brace it leaves the brace unread |
| `Json.NoColon` | src/npm/JsonParser.cpp:74-76 | a name without a colon is dropped and ends the object |
| `Json.Unterminated` | src/npm/JsonParser.cpp:101-122 | a string that is cut off has the characters read so far |
| `Json.Misspelt` | src/npm/JsonParser.cpp:140-142 | of a misspelt word the characters up to the first wrong one are taken, of one cut off all |
| `Json.FirstLetter` | src/npm/JsonParser.cpp:58-60 | words are known by their first letter |
| `Json.AnyNumber` | src/npm/JsonParser.cpp:124-138 | the longest run of number characters is taken, well formed or not |
| `Json.Stranger` | src/npm/JsonParser.cpp:53-61 | at any other character, or at the end, the value is null and nothing is taken |
| `Json.ParsesAsRfc` | src/npm/JsonParser.cpp:147-150 | every JSON text whose strings and names use only the escapes that the parser handles parses to the value that RFC 8259 gives it, surrogate pairs joined; a text in which no object names a member twice parses to that value if and only if they do |
| `Json.PrintParse` | src/npm/JsonParser.cpp:147-150 | printing any printable value gives a JSON text, whose value by RFC 8259 is the one printed, and parsing it gives that value back |
| `Json.PrintableIff` | src/npm/JsonParser.cpp:101-122 | a value is printable if and only if some JSON text is read as it: no escape gives a control character other than newline, return and tab |
| `Json.TextAppends` | src/npm/JsonParser.cpp:51-99 | the text of a document does not depend on what follows it |
| `Json.StringFaithful` | src/npm/JsonParser.cpp:101-122 | a written string is read as section 7 of RFC 8259 says, surrogate pairs joined, if and only if it has no `\b`, no `\f` and no `\u` escape but the question mark's |
| `Json.BackspaceIsLost` | src/npm/JsonParser.cpp:117-118 | a concrete string that is read differently |
| `Semver.ParseVersion` | src/npm/Semver.cpp:9-44 | the in-place steps give the specified parts, failure or exception |
| `Semver.TakeApart` | src/npm/Semver.cpp:21-33 | the texts of numbers, prerelease and build, or the exception |
| `Semver.ParseIff` | src/npm/Semver.cpp:9-44 | the texts that parse, and to what: after an optional `v`, three numbers that fit an int, with dots and any whitespace before any of the five and anything after them, then a prerelease from the first dash and a build from the first plus |
| `Semver.SplitPartsIff` | src/npm/Semver.cpp:21-33 | how the text is cut at the first dash and the first plus |
| `Semver.ReadNumbersIff` | src/npm/Semver.cpp:35-41 | which texts the stream reads as three numbers, and as which |
| `Semver.StripVMeans` | src/npm/Semver.cpp:15-19 | one leading `v` is dropped and nothing else |
| `Semver.Decimal` | src/npm/Semver.cpp:160-161 | numbers are written in decimal |
| `Semver.ThrowsIff` | src/npm/Semver.cpp:22-33 | `parse` throws if and only if there is a `-` and the first `+` comes before it |
| `Semver.ParseThrows` | src/npm/Semver.cpp:22-33 | `parse` throws on `1.2.3+a-b` |
| `Semver.ParsedParts` | src/npm/Semver.cpp:35-43 | parsed numbers fit an int and a parsed prerelease has no `+` |
| `Semver.ComparePreorder` | src/npm/Semver.cpp:46-82 | comparison is antisymmetric, transitive (also strictly) and total, and 0 exactly for versions equal up to the build |
| `Semver.CompareIsOrder` | src/npm/Semver.cpp:46-82 | the sign of `compare`: by major, minor and patch, then a prerelease below the release, then prereleases by the first character in which they differ |
| `Semver.LessIff` | src/npm/Semver.cpp:77-82 | the string order by the first difference, a proper prefix first |
| `Semver.LessTotal` | src/npm/Semver.cpp:77-82 | the string order on prereleases is total and irreflexive |
| `Semver.LessTransitive` | src/npm/Semver.cpp:77-82 | and transitive |
| `Semver.RangeBlank` | src/npm/Semver.cpp:171-178 | `parseRange` finds nothing if and only if the text is blank |
| `Semver.RangeIgnoresSpaces` | src/npm/Semver.cpp:172-174 | whitespace in a range never matters, wherever it stands |
| `Semver.RangeReads` | src/npm/Semver.cpp:181-201 | an operator and a target without spaces in it, with any whitespace around both, are read as that operator and target (after `>` and `<` the target must not begin with `=`) |
| `Semver.RangeOfTarget` | src/npm/Semver.cpp:202-207 | a target that begins with no operator is read as an exact match |
| `Semver.SatisfiesMeans` | src/npm/Semver.cpp:84-138 | for versions that parse, each operator admits what it means in terms of the order and the numbers |
| `Semver.OperatorsMean` | src/npm/Semver.cpp:98-135 | `=`, `>`, `>=`, `<` and `<=` by that order, and `^` as `~` for a major of 0 |
| `Semver.CaretMeetsItsComment` | src/npm/Semver.cpp:120-135 | for a major of at least 1, `^` is the interval its comment gives if and only if the version is neither a lower one of the same major nor a prerelease of the next major |
| `Semver.CaretAdmitsLower` | src/npm/Semver.cpp:120-135 | `1.0.0` satisfies `^1.2.3`, which it is below |
| `Semver.TildeMeetsItsComment` | src/npm/Semver.cpp:108-119 | `~` is the interval its comment gives if and only if the version is neither a lower prerelease of the target nor a prerelease of the next minor |
| `Semver.TildeAdmitsLower` | src/npm/Semver.cpp:108-119 | `1.2.3-a` satisfies `~1.2.3`, which it is below |
| `Semver.FindHighest` | src/npm/Semver.cpp:140-150 | the loop computes the specified selection, exceptions included |
| `Semver.FindHighestExactly` | src/npm/Semver.cpp:140-150 | the result for every list and range: an exception if the range check of some candidate or the comparison of a later satisfying one throws; otherwise the first satisfying non-empty candidate if that does not parse, the first maximal one among the satisfying candidates that parse if it does, and the empty string if there is none |
| `Semver.FindsFirstMaximal` | src/npm/Semver.cpp:140-150 | unless it throws, the result is the first maximal version among the satisfying candidates that parse (empty if no non-empty candidate satisfies) if and only if the first satisfying non-empty candidate parses |
| `Semver.BestOfIsFirstMaximal` | src/npm/Semver.cpp:140-150 | a running best is the first maximal one, whatever the list |
| `Semver.SeriesChoiceNotBelow` | src/npm/Semver.cpp:108-150 | with `^` or `~` and any target that parses, whenever some candidate parses, is admitted and is not below the target, the version chosen parses, is admitted and is not below it either, unless the call throws; the other candidates do not matter |
| `Semver.CaretChoiceNotBelow` | src/npm/Semver.cpp:120-150 | for `^` and a target major of at least 1, unless the call throws: whenever some candidate parses with that major and is not below the target, so does the version chosen |
| `Semver.JunkSatisfies` | src/npm/Semver.cpp:84-138 | a version that does not parse satisfies exactly the ranges without operator or with `=`, `>=`, `<=`, and blank ranges, `*` and `latest` |
| `Semver.JunkIsNeverReplaced` | src/npm/Semver.cpp:140-150 | unless the call throws, a first satisfying non-empty candidate that does not parse is the result, however high the others are |
| `Semver.JunkIsChosen` | src/npm/Semver.cpp:140-150 | `x` is chosen over `1.0.0` under `*` |
| `Semver.Normalize` | src/npm/Semver.cpp:152-169 | the steps give the normal form, the text itself if it does not parse, or the exception |
| `Semver.NormalForm` | src/npm/Semver.cpp:152-169 | parsing the normal form gives the same version if and only if it has a prerelease or its build has no `-`; then normalising again changes nothing and comparison says equal; otherwise `parse` throws on it |
| `Semver.NormalFormParses` | src/npm/Semver.cpp:9-44 | the same for any version with parsable parts |
| `Semver.NormalFormLost` | src/npm/Semver.cpp:152-169 | `1.2.3-+a-b` parses, and `parse` throws on its normal form |
| `Semver.Texts` | src/npm/Semver.cpp:160-168 | how the versions of the concrete inputs are written |
| `Utf8.EncodeLoop` | src/TypeBridge.cpp:282-304 | the loop appends exactly the encoding of the code points |
| `Utf8.OneBack` | src/TypeBridge.cpp:290-303 | the bytes of a code point follow the layout of section 3 of RFC 3629, carry its bits and end where it ends |
| `Utf8.DecodeEncode` | src/TypeBridge.cpp:282-304 | decoding the encoding of any code points up to 10FFFF gives them back |
| `Utf8.EncodeInjective` | src/TypeBridge.cpp:282-304 | different sequences of code points up to 10FFFF have different encodings |
| `Utf8.EncodeConcat` | src/TypeBridge.cpp:282-304 | encoding distributes over concatenation |
| `Utf8.SplitsAtBoundary` | src/TypeBridge.cpp:282-304 | a prefix of an encoded text that is an encoded text ends at a code point boundary, and the rest is the encoding of the rest |
| `Utf8.EncodeDecode` | src/TypeBridge.cpp:290-303 | every byte sequence that follows the layout is an output of the encoder |
| `Utf8.ValidIffNoSurrogate` | src/TypeBridge.cpp:290-303 | the output is valid UTF-8 if and only if no code point is a surrogate |
| `Codecs.EncodeHex` | src/modules/buffer/BufferModule.cpp:667-672 | the loop writes two digits for every byte |
| `Codecs.DecodeHex` | src/modules/buffer/BufferModule.cpp:707-713 | the loop reads pairs of characters by the rules of `strtoul` and drops an odd one |
| `Codecs.HexRoundTrip` | src/modules/buffer/BufferModule.cpp:667-713 | decoding undoes encoding for every byte sequence (section 8 of RFC 4648) |
| `Codecs.HexDigitsAt` | src/modules/buffer/BufferModule.cpp:667-672 | every byte is written as its upper and its lower half, in lower-case digits |
| `Codecs.HexIgnoresCase` | src/modules/buffer/BufferModule.cpp:707-713 | decoding does not tell upper-case digits from lower-case ones |
| `Codecs.OddPairs` | src/modules/buffer/BufferModule.cpp:709-711 | what `strtoul` makes of pairs that are not two digits |
| `Codecs.EncodeBase64` | src/modules/buffer/BufferModule.cpp:673-687 | the loop encodes group by group, padding the last |
| `Codecs.DecodeBase64` | src/modules/buffer/BufferModule.cpp:714-732 | the loop decodes group by group, for every text |
| `Codecs.GroupsBack` | src/modules/buffer/BufferModule.cpp:673-732 | decoding an encoding gives the complete groups and then what becomes of the padded one |
| `Codecs.Base64RoundTrip` | src/modules/buffer/BufferModule.cpp:673-732 | it always has the original length and agrees on every complete group; it is the original if and only if the bytes of the padded group are all zero |
| `Codecs.AlphabetIs` | src/modules/buffer/BufferModule.cpp:675 | the alphabet of RFC 4648, each character at one place |
| `Codecs.StrangersAddNothing` | src/modules/buffer/BufferModule.cpp:720-723 | characters outside the alphabet are skipped |
| `Codecs.Vectors` | src/modules/buffer/BufferModule.cpp:677-686 | test vectors of section 10 of RFC 4648 |
| `Codecs.LoneByteIsLost` | src/modules/buffer/BufferModule.cpp:673-732 | the byte 1 alone comes back as 0 |
| `Buffers.BufferIndexOf` | src/modules/buffer/BufferModule.cpp:614-643 | the result is i if and only if the non-empty pattern occurs at i and at no earlier place from the normalised offset, and -1 otherwise |
| `Buffers.BufferIncludes` | src/modules/buffer/BufferModule.cpp:646-660 | true if and only if the non-empty pattern occurs somewhere from the offset on |
| `Buffers.NegativeOffset` | src/modules/buffer/BufferModule.cpp:618-627 | a search from -k starts k bytes before the end, or at the beginning |
| `Buffers.BufferSlice` | src/modules/buffer/BufferModule.cpp:420-435 | a new array with the bytes of the slice, for all integer arguments |
| `Buffers.SlicesMakeTheBuffer` | src/modules/buffer/BufferModule.cpp:420-435 | for every integer k, `slice(0, k)` and `slice(k)` make the buffer up |
| `Buffers.SliceMeaning` | src/modules/buffer/BufferModule.cpp:420-435 | inside the buffer a slice is the subrange, and negative indices count from the end |
| `Buffers.SliceIsBetween` | src/modules/buffer/BufferModule.cpp:420-435 | for all indices a slice is what lies between the two places they point to, and nothing if those are the wrong way round |
| `Buffers.BufferConcat` | src/modules/buffer/BufferModule.cpp:289-317 | a new array with the buffers' bytes one after the other |
| `Buffers.FlattenConcat` | src/modules/buffer/BufferModule.cpp:301-311 | the parts follow one another |
| `Baseline.EscapeField` | src/benchmarking/BenchmarkRunner.cpp:251-258 | the loop computes the escaped field |
| `Baseline.EscapeMeans` | src/benchmarking/BenchmarkRunner.cpp:251-258 | exactly line feeds, carriage returns, commas and backslashes get a backslash |
| `Baseline.UnescapeField` | src/benchmarking/BenchmarkRunner.cpp:260-267 | the loop computes the unescaped field |
| `Baseline.UnescapeEscape` | src/benchmarking/BenchmarkRunner.cpp:251-267 | unescaping undoes escaping for every string |
| `Baseline.NextField` | src/benchmarking/BenchmarkRunner.cpp:294-302 | the reader returns the unescaped field and the place after its comma |
| `Baseline.NextEscape` | src/benchmarking/BenchmarkRunner.cpp:294-302 | on an escaped field it gives the original back and stops at the comma that follows |
| `Baseline.SaveBaseline` | src/benchmarking/BenchmarkRunner.cpp:269-282 | writes the header and one line for each record |
| `Baseline.LoadBaseline` | src/benchmarking/BenchmarkRunner.cpp:284-317 | reads the records, skipping blank and unreadable lines; nothing under another header |
| `Baseline.LinesReadAlone` | src/benchmarking/BenchmarkRunner.cpp:290-314 | every line is read on its own, and a blank or unreadable one gives no record and does no harm |
| `Baseline.LineBackWith` | src/benchmarking/BenchmarkRunner.cpp:294-312 | a line is read back column by column, with its name unescaped once more; it is a success if and only if the last column is a 1, perhaps with one line end |
| `Baseline.SavedRecord` | src/benchmarking/BenchmarkRunner.cpp:272-280 | the order of the columns, at a record |
| `Baseline.HeaderIs` | src/benchmarking/BenchmarkRunner.cpp:272 | the header line |
| `Baseline.SaveBack` | src/benchmarking/BenchmarkRunner.cpp:269-317 | loading saved records without newlines in their names gives them back with the names unescaped once more |
| `Baseline.UnescapeFixed` | src/benchmarking/BenchmarkRunner.cpp:260-267 | unescaping leaves a string alone if and only if no backslash in it has a successor |
| `Baseline.LoadSave` | src/benchmarking/BenchmarkRunner.cpp:269-317 | loading what was saved gives the records back if and only if no name has a newline or a backslash before its last character |
| `Baseline.BackslashIsLost` | src/benchmarking/BenchmarkRunner.cpp:269-317 | a record named `a\b` comes back as `ab` |
| `TestRunner.NodeJSTestRunner.RunTestInternal` | src/testing/NodeJSTestRunner.cpp:28-59 | the result does not depend on the cache or on whether it is enabled |
| `TestRunner.NodeJSTestRunner.RunTestSuite` | src/testing/NodeJSTestRunner.cpp:65-93 | the report is the summary of the files' results |
| `TestRunner.NodeJSTestRunner.RunBatch` | src/testing/NodeJSTestRunner.cpp:106-115 | for every order of the concurrent tests' cache accesses and writes, each slot of the batch is written once, with that file's result, and no other slot changes |
| `TestRunner.NodeJSTestRunner.RunTestSuiteParallel` | src/testing/NodeJSTestRunner.cpp:95-134 | for every limit and every schedule the report is the sequential one; every index is written once and no batch exceeds the limit |
| `TestRunner.NodeJSTestRunner.Summarise` | src/testing/NodeJSTestRunner.cpp:118-133 | counts, rate, issues and priority are those of the results |
| `TestRunner.CountsAddUp` | src/testing/NodeJSTestRunner.cpp:74-79 | passed tests and issues add up to all tests, and all passed exactly when each did |
| `TestRunner.SummaryMeans` | src/testing/NodeJSTestRunner.cpp:82-90 | rate, counts and priority of a report in terms of the number of passed tests: the rate times the number of tests is a hundred times that number, High below 80 per cent, Low from 95 per cent on |
| `TestRunner.IssuesMean` | src/testing/NodeJSTestRunner.cpp:74-79 | the issues are the names and messages of the failed tests, each once and in their order |
| `TestRunner.PassedIff` | src/testing/NodeJSTestRunner.cpp:311-322 | a test passes if and only if both outputs are the same up to blanks at the end |
| `TestRunner.TrimIff` | src/testing/NodeJSTestRunner.cpp:314-318 | exactly the blanks at the end are taken away |
| `Histogram.Metrics.RecordHistogram` | src/monitoring/Metrics.cpp:110-192 | after any sequence of calls the stored statistics of every key are a recount of the values recorded under it |
| `Histogram.Metrics.IncrementBucket` | src/monitoring/Metrics.cpp:174-187 | exactly the first bucket whose bound the value does not exceed is incremented, if there is one |
| `Histogram.Metrics.GetHistogram` | src/monitoring/Metrics.cpp:194-227 | each prefix sum of the counts is the number of recorded values up to that bound, and sum and count match; an unknown key reads as empty |
| `Histogram.PrefixCounts` | src/monitoring/Metrics.cpp:174-187 | prefix sums of bucket counts count the values up to each bound, for any ascending bounds |
| `Histogram.DefaultBuckets` | src/monitoring/Metrics.cpp:13-28 | which values fall into which of the nine default buckets |
| `Histogram.AtMostIsCount` | src/monitoring/Metrics.cpp:194-227 | the prefix sums are numbers of recorded values |
| `Histogram.SumAdds` | src/monitoring/Metrics.cpp:158-160 | the sum is additive |

## Left out

- ThreadPool: wake-ups. A wait is a step guarded by its predicate; that a notification reaches the waiter is not claimed (the decrement at src/ThreadPoolExecutor.cpp:110 is outside the lock). Joins are the state in which all workers have exited, and the endless loop of `workerThread` is a sequence of actions rather than a method.
- ThreadPool: the futures returned by `submit`, the pool's name and the size queries.
- EventLoop: `run`, `stop` and the `running` flag (callbacks may remain after `stop`), and the query `hasPendingCallbacks`. One thread drains, and callbacks do not call `processCallbacks` themselves.
- Deferred: QuickJS values and serialisation, who owns and frees the buffers, delivery to `then` and `catch`, and C++ exceptions raised outside the try block or by the handler itself.
- CommonJS: built-in, UMD and native modules, the resolver, `require.cache`, the content of exports (`wrapModule` makes a module object of its own), and bodies that never end.
- ESModules: extracting imports with regular expressions, `topologicalSort` and `detectCycle` (stubs), namespace content, and modules that QuickJS itself loads during an evaluation.
- DependenciesFirst: assumes that reachable imports sharing a cache key mean the same file. `CollisionLosesADependency` shows that it fails otherwise; it is one direction, since with colliding keys the order can still come out right when the lost file happens to be loaded by another import. Exact are `ServedRightIff` and `LoadIsRightIff`.
- ParsesAsRfc: one direction for texts in which an object names a member twice, where a mishandled escape can be hidden by a later member of the same name.
- TerminatesIffAcyclic: the same assumption, needed only for the direction from returning to acyclic (`CollisionHidesACycle`); `RankedLoads` is the other one without it. The size of the native stack is a parameter.
- EvaluatesOncePerKey: assumes that no chain of imports meets a key again; `CollisionEvaluatesTwice` shows that it can fail otherwise. One direction, since a chain that repeats a key does no harm when its end was cached before.
- Json: the double that `std::stod` makes of a lexeme; strings are sequences of characters rather than of UTF-8 bytes; the depth of the native stack. Of texts outside RFC 8259 the rows above name the main kinds; the rest, unescaped control characters included, is read as the parser's contracts say.
- Semver: precedence of prerelease identifiers by clause 11.4 of Semantic Versioning 2.0.0, which the code does not implement (it compares strings).
- Utf8: what the loop writes for numbers above 10FFFF, which are no code points, and what `JS_NewString` does with a NUL among the bytes.
- Codecs: the encodings that copy bytes (utf8, latin1) or mask them (ascii).
- Buffers: reading the JavaScript arguments, array members that are no buffers, and sizes beyond the range of an int.
- Baseline: formatting of numbers (they are tokens without comma, backslash or newline) and failing file operations.
- TestRunner: timings, running the two programs, tests whose output varies from run to run, and the rounding of the pass rate (a real number here).
- Histogram: rounding and NaN (values are reals), collisions of key hashes, counters, gauges and exports.
- GCBridge: its two-way map shares one hash-keyed list and its pointer extraction is a stub.
- Sockets, HTTP, DNS, processes, file system, crypto, the npm registry client and installer, loggers, profilers, debugger and REPL: plumbing to the outside.
