# node-disposer, modelled in Dafny

`src/index.js` wraps a caller's use of a resource so that the resource is
cleaned up exactly once: by the asynchronous `dispose(reference)` when `use`
returns or throws, or by the synchronous `dispose_on_exit(reference)` when the
process receives `SIGTERM` or `SIGINT` while `use` is still pending. The
coordination lives in process-wide state shared by every disposer: the `Map`
`exit_dispose_fns` of emergency callbacks, keyed by a fresh `Symbol()` per
invocation, and one `handle_exit_signal` listener per handled signal, attached
once at module load.

The model has four modules:

- `Outcomes` (`outcomes.dfy`): the outcome of an awaited call (`Value` or
  `Failure`) and `TryFinally`, the completion rule of `try ... finally` that
  decides what a disposer invocation returns.
- `InsertionOrderedMap` (`ordered_map.dfy`): the JavaScript `Map` as a
  sequence of key/value bindings in insertion order with distinct keys;
  `Set` and `Delete` are `Map.prototype.set` and `Map.prototype.delete`.
  `Symbol()` is modelled by a counter, which gives the same uniqueness.
- `ExitRegistry` (`exit_registry.dfy`): the class `Process` holds the module's
  state (the registry, the attached listeners, how the process ended) and
  ghost logs of which invocations called `use`, `dispose` and their emergency
  callback. Each `await` of an invocation is a step boundary: `Start` runs up
  to `await use(reference)`, `Finish` is the `finally` block up to
  `await dispose(reference)`, `Settle` is the invocation's completion, and
  `Deliver` is the arrival of a signal. `Valid()` states the invariant as
  value predicates: `Registered` says the registry binds each token to its own
  invocation's callback, with distinct keys growing in the order the
  invocations started, and holds exactly the invocations that have not
  reached `finally`; `Disposed` says `dispose` was logged once
  for each of the others; `ShutdownConsistent` says that while the process
  runs exactly the two listeners are attached, however many disposers and
  invocations exist, and that after a signal the emergency calls are the
  registry's entries in order: all of them when the signal was re-sent, a
  non-empty prefix when the handler ended on an uncaught error. Which callback
  threw, and that its error is the one the process ended with, is stated by
  `Deliver` through `Drain`, not by the invariant. `StartKeepsTracked`, `FinishKeepsTracked` and `SettleKeepsTracked`
  prove each step keeps it. `Drain` specifies the handler's loop and
  `RunExitCallbacks` is that loop.
- `Scenarios` (`scenarios.dfy`): the situations of `src/index.spec.js`,
  played out step by step on the model, from module load.

Behaviour of the code worth knowing, some of it contrary to what its tests
expect:

- Only `SIGTERM` and `SIGINT` have a listener (`src/index.js:18-19`). A
  `SIGHUP` or `SIGUSR2` ends the process by its default action with no
  cleanup (`Scenarios.UnhandledSignalWhileUsing`), although the tests at
  `src/index.spec.js:138-206` expect the file to be removed.
- The drain loop has no `try` (`src/index.js:11-13`): the first emergency
  callback that throws ends the loop and the handler, so later callbacks do
  not run and the signal is not re-sent (`Termination.Uncaught`,
  `Scenarios.ThrowingCallbackAbortsDrain`). The drain is not best-effort.
- The handler does not remove entries from the registry; after it has run
  the registry still holds them.
- A failing `dispose` replaces the outcome of `use` (plain `finally`
  semantics); it is not chained with the failure of `use`.

## Model

| member | source | states |
|---|---|---|
| `Outcomes.TryFinally` | src/index.js:25-30 | a cleanup that succeeds lets the body's value or failure through unchanged; a failing cleanup replaces it with its own failure; the result is a value exactly when both succeeded |
| `InsertionOrderedMap.Set` | src/index.js:24 | `Map.set`: a fresh key is appended at the end of the insertion order; an existing key keeps its place and gets the new value; keys stay distinct and gain the new key |
| `InsertionOrderedMap.Delete` | src/index.js:28 | `Map.delete`: the keys lose exactly the deleted key and stay distinct; an absent key changes nothing |
| `InsertionOrderedMap.DeleteSplice` | src/index.js:28 | deleting a present key takes out only its binding: the table becomes the bindings before it followed by those after it, in their order |
| `InsertionOrderedMap.DeleteKeepsOtherBindings` | src/index.js:28 | after a deletion the table holds exactly the bindings whose key is not the deleted one |
| `InsertionOrderedMap.DeleteUndoesFreshSet` | src/index.js:24-28 | registering under a fresh token and deregistering it gives back the registry as it was |
| `InsertionOrderedMap.DeleteInsideKeepsNeighbours` | src/index.js:24-28 | deregistering one invocation leaves the entries registered before and after it, in order |
| `InsertionOrderedMap.AppendAboveKeepsIncreasing` | src/index.js:24 | appending under a token above every registered token keeps the tokens growing along the insertion order |
| `InsertionOrderedMap.DeleteKeepsIncreasing` | src/index.js:28 | deleting an entry keeps the remaining tokens growing along the insertion order |
| `InsertionOrderedMap.DeleteCommutes` | src/index.js:28 | two invocations reaching `finally` in either order leave the same registry |
| `ExitRegistry.Drain` | src/index.js:11-13 | callbacks run in insertion order; none failing iff every callback was run; otherwise the loop stops right after the first failing callback, whose error it carries |
| `ExitRegistry.DrainStopsAtThrowingFirst` | src/index.js:11-15 | when the first registered callback throws, exactly one callback ran and its error ends the handler |
| `ExitRegistry.RunExitCallbacks` | src/index.js:11-13 | the `for ... of` loop calls the callbacks of the registry in insertion order and stops at the first that throws, exactly as `Drain` says |
| `ExitRegistry.StartKeepsTracked` | src/index.js:23-24 | registering a new invocation under the next token keeps the registry invariant: the token is fresh, and the registry still binds every pending invocation, and only those, to its own callback |
| `ExitRegistry.FinishKeepsTracked` | src/index.js:27-29 | deregistering a pending invocation in `finally` and calling `dispose` keeps the invariant: its entry was present and is the only one removed, and `dispose` is logged once for it |
| `ExitRegistry.SettleKeepsTracked` | src/index.js:25-30 | the completion of an invocation after `dispose` keeps the invariant |
| `ExitRegistry.Process.constructor` | src/index.js:6-19 | at module load the registry is empty and exactly the `SIGTERM` and `SIGINT` listeners are attached |
| `ExitRegistry.Process.CreateDisposer` | src/index.js:21-22 | creating a disposer attaches no listener and leaves the registry unchanged |
| `ExitRegistry.Process.Start` | src/index.js:22-26 | one entry is appended under a token absent from the registry, bound to a callback over this invocation's reference; `use` is called with that same reference; listeners unchanged |
| `ExitRegistry.Process.Finish` | src/index.js:27-29 | entered whatever `use` produced: only the invocation's own entry is deleted, the others keep their order, and `dispose` is called once with the invocation's reference |
| `ExitRegistry.Process.Settle` | src/index.js:25-30 | the invocation returns `use`'s value, or re-raises `use`'s failure, unchanged when `dispose` succeeds, and `dispose`'s failure when it fails |
| `ExitRegistry.Process.Deliver` | src/index.js:8-16 | for `SIGTERM`/`SIGINT` both listeners are detached, then the callbacks registered at that moment run in insertion order as `Drain` says, and the signal is re-sent unless a callback threw; any other signal runs no callback |
| `ExitRegistry.CleanupsAreExclusive` | src/index.js:8-30 | no invocation gets both `dispose` and its emergency callback |
| `ExitRegistry.ReraisedCleansEachInvocationOnce` | src/index.js:8-30 | after a drain that reached the re-raise, every invocation ever started got exactly one of the two cleanups, once |
| `ExitRegistry.ExitCallsInStartOrder` | src/index.js:11-13 | the handler calls the emergency callbacks in the order their invocations started |
| `Scenarios.UseResolves` | src/index.spec.js:20-30 | `use` resolves: its value is returned, `dispose` ran once for the reference, nothing stays registered |
| `Scenarios.UseThrows` | src/index.spec.js:32-47 | `use` throws: the same error is re-raised after `dispose` ran once for the reference |
| `Scenarios.SignalWhileUsing` | src/index.spec.js:68-136 | `SIGINT`/`SIGTERM` during `use`: the emergency callback ran, `dispose` did not, the signal was re-sent |
| `Scenarios.UnhandledSignalWhileUsing` | src/index.spec.js:138-206 | `SIGHUP`/`SIGUSR2` during `use`: no cleanup runs and the entry stays registered |
| `Scenarios.SignalAfterDeregistration` | src/index.js:27-29 | a signal after `finally` was entered finds no entry: only `dispose` was called |
| `Scenarios.ThrowingCallbackAbortsDrain` | src/index.js:11-15 | a throwing first callback stops the drain: the second callback never runs and the signal is not re-sent |

## Left out

- The Node calls `process.on`, `process.off` and `process.kill` are state
  changes of `Process` (`listeners`, `exit`); the operating system's signal
  disposition and exit codes are not modelled.
- Assumed: no other `SIGTERM` or `SIGINT` listener exists in the process, so
  the signal re-sent by `process.kill` (`src/index.js:15`) ends it and no step
  follows `Deliver`; every step requires a running process. With another
  listener the process would survive, and a later `finally` would call
  `dispose` for an invocation whose emergency callback had already run.
- CleanupsAreExclusive, ReraisedCleansEachInvocationOnce: hold only under the
  assumption above that the re-sent signal ends the process.
- A second `SIGTERM` or `SIGINT` arriving while the handler's loop runs
  (`src/index.js:11-13`): once `process.off` (`src/index.js:9-10`) has removed
  the listeners, its default action ends the process mid-drain. `Deliver` is
  one atomic step and does not model this.
- An exception thrown by an emergency callback escapes the signal listener;
  that Node then ends the process as an uncaught exception is assumed
  (`Termination.Uncaught`), not modelled.
- Asynchronous scheduling and promises: each `await` is a step boundary, and
  interleavings are whatever order a caller issues the steps in.
- The collaborators `use`, `dispose` and `dispose_on_exit` are abstract: the
  outcome of `use` and `dispose` is a parameter of `Settle`, that of each
  `dispose_on_exit` is given by the `onExit` parameter of `Deliver`, and their
  calls are recorded in ghost logs; their effects (file removal in the tests)
  are not modelled.
- Between `Finish` and `Settle` an invocation has deregistered and `dispose`
  is pending; a signal then runs no callback for it, and `dispose` may never
  complete. The model records that `dispose` was called, not that it finished.
- `Symbol()` is a natural-number counter; Symbol identity is not modelled.
- The test setup (child processes, the 500 ms delay, `zora`) and the
  filesystem helpers it uses (`rm`, `rmSync`, `readFile`, `writeFile`,
  `randomBytes`, `tmpdir`, path joining) are not part of this model.
