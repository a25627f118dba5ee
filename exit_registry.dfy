/**
 * The process-wide exit registry of `src/index.js` and the disposer that
 * drives it.
 *
 * The module-level `Map` of emergency callbacks, the `SIGTERM`/`SIGINT`
 * listeners attached at module load, and the `handle_exit_signal` handler are
 * the state of one `Process` object. Each `await` of a disposer invocation is
 * a step boundary: `Start` runs up to `await use(reference)`, `Finish` is the
 * `finally` block up to `await dispose(reference)`, and `Settle` is the
 * completion of the invocation once `dispose` has settled. A signal is the
 * step `Deliver`. The collaborators `use`, `dispose` and `dispose_on_exit` are
 * abstract: their outcomes are parameters and their calls are recorded in
 * ghost logs.
 */
module ExitRegistry {
  import opened Outcomes
  import opened InsertionOrderedMap

  datatype Signal = SigTerm | SigInt | SigHup | SigUsr2

  /** The signals `handle_exit_signal` is attached to at module load. */
  const HandledSignals: set<Signal> := {SigTerm, SigInt}

  /** The emergency callback `() => dispose_on_exit(reference)`: which
      disposer's `dispose_on_exit` it calls and the reference it closes over. */
  datatype Callback<R> = Callback(disposer: nat, reference: R)

  /** How far one disposer invocation has got: awaiting `use`, awaiting
      `dispose` inside `finally`, or settled. */
  datatype Phase = Using | Disposing | Settled

  /** How the process ended, if it has. */
  datatype Termination<E> =
    | Running
      /** `handle_exit_signal` ran every callback and re-sent the signal. */
    | Reraised(signal: Signal)
      /** No listener for the signal: its default action ended the process. */
    | DefaultAction(signal: Signal)
      /** A callback threw inside the handler; the exception was never caught. */
    | Uncaught(error: E)

  /** What the drain loop did: how many callbacks it called and, if one threw,
      the error that ended the loop. */
  datatype DrainResult<E> = DrainResult(ran: nat, failure: Option<E>)

  /** The `for...of` loop of `handle_exit_signal` over the registry: callbacks
      are called in insertion order, and, as the loop has no `try`, the first
      one that throws ends it. */
  function Drain<V, E>(s: seq<Binding<V>>, run: Binding<V> -> Outcome<(), E>): (r: DrainResult<E>)
    ensures r.ran <= |s|
    ensures r.failure.None? <==> forall i :: 0 <= i < |s| ==> run(s[i]).Value?
    ensures r.failure.None? ==> r.ran == |s|
    ensures r.failure.Some? ==>
      && 0 < r.ran
      && run(s[r.ran - 1]) == Failure(r.failure.value)
      && forall i :: 0 <= i < r.ran - 1 ==> run(s[i]).Value?
  {
    if s == [] then DrainResult(0, None)
    else
      match run(s[0])
      case Failure(e) => DrainResult(1, Some(e))
      case Value(_) =>
        var rest := Drain(s[1..], run);
        assert forall i :: 1 <= i < |s| ==> s[i] == s[1..][i - 1];
        DrainResult(rest.ran + 1, rest.failure)
  }

  /** A first callback that throws is the only one the loop calls. */
  lemma DrainStopsAtThrowingFirst<V, E>(s: seq<Binding<V>>, run: Binding<V> -> Outcome<(), E>)
    requires 0 < |s| && run(s[0]).Failure?
    ensures Drain(s, run) == DrainResult(1, Some(run(s[0]).error))
  {
  }

  /** The loop of `handle_exit_signal`: calls each registered callback in
      turn, in insertion order, and stops at the first one that throws.
      Returns the callbacks it called, in call order, and that error. */
  method RunExitCallbacks<V, E>(entries: seq<Binding<V>>, run: Binding<V> -> Outcome<(), E>)
    returns (called: seq<Binding<V>>, failure: Option<E>)
    ensures called == entries[..Drain(entries, run).ran]
    ensures failure == Drain(entries, run).failure
  {
    called, failure := [], None;
    var i := 0;
    while i < |entries| && failure.None?
      invariant 0 <= i <= |entries|
      invariant called == entries[..i]
      invariant failure.None? ==> forall j :: 0 <= j < i ==> run(entries[j]).Value?
      invariant failure.Some? ==>
        && 0 < i
        && run(entries[i - 1]) == Failure(failure.value)
        && forall j :: 0 <= j < i - 1 ==> run(entries[j]).Value?
    {
      called := called + [entries[i]];
      match run(entries[i]) {
        case Failure(e) => failure := Some(e);
        case Value(_) =>
      }
      i := i + 1;
    }
    ghost var d := Drain(entries, run);
    assert d.ran == i && d.failure == failure;
  }

  /** Every invocation started so far (invocation `t` is `invocations[t]`,
      whose token is `t`) and where it stands: each was made by an existing
      disposer, the registry holds exactly those that have not reached
      `finally`, and `dispose` was called once for each of the others. */
  ghost predicate Tracked<R>(disposers: nat, invocations: seq<Callback<R>>, phases: seq<Phase>,
                             registry: seq<Binding<Callback<R>>>, disposeCalls: seq<Binding<Callback<R>>>)
  {
    && |phases| == |invocations|
    && (forall t :: 0 <= t < |invocations| ==> invocations[t].disposer < disposers)
    && Registered(invocations, phases, registry)
    && Disposed(invocations, phases, disposeCalls)
  }

  /** The registry binds each token to its own invocation's callback, lists
      the invocations in the order they started, and holds exactly those that
      have not reached `finally`. */
  ghost predicate Registered<R>(invocations: seq<Callback<R>>, phases: seq<Phase>, registry: seq<Binding<Callback<R>>>)
    requires |phases| == |invocations|
  {
    && DistinctKeys(registry)
    && KeysIncreasing(registry)
    && (forall i :: 0 <= i < |registry| ==>
          registry[i].key < |invocations| && registry[i].value == invocations[registry[i].key])
    && (forall t :: 0 <= t < |invocations| ==> (t in Keys(registry) <==> phases[t] == Using))
  }

  /** `dispose` was called once, with its own invocation's reference, for
      each invocation that has reached `finally`, and for no other. */
  ghost predicate Disposed<R>(invocations: seq<Callback<R>>, phases: seq<Phase>, disposeCalls: seq<Binding<Callback<R>>>)
    requires |phases| == |invocations|
  {
    && DistinctKeys(disposeCalls)
    && (forall i :: 0 <= i < |disposeCalls| ==>
          disposeCalls[i].key < |invocations| && disposeCalls[i].value == invocations[disposeCalls[i].key])
    && (forall t :: 0 <= t < |invocations| ==> (t in Keys(disposeCalls) <==> phases[t] != Using))
  }

  /** The listeners and the emergency calls, by how the process stands: while
      it runs, both listeners are attached and no callback has run; after the
      handler, the callbacks that ran are a prefix of the registry in
      insertion order, all of it if the signal was re-sent. */
  ghost predicate ShutdownConsistent<R, E>(exit: Termination<E>, listeners: set<Signal>,
                                           exitCalls: seq<Binding<Callback<R>>>, registry: seq<Binding<Callback<R>>>)
  {
    && (exit.Running? ==> listeners == HandledSignals && exitCalls == [])
    && (exit.DefaultAction? ==> listeners == HandledSignals && exitCalls == [])
    && (exit.Reraised? ==> listeners == {} && exitCalls == registry)
    && (exit.Uncaught? ==> listeners == {} && 0 < |exitCalls| <= |registry| && exitCalls == registry[..|exitCalls|])
  }

  /** Registering a new invocation under the next token keeps the bookkeeping:
      the token is not yet a key, and the new entry is the only change. */
  lemma StartKeepsTracked<R>(disposers: nat, invocations: seq<Callback<R>>, phases: seq<Phase>,
                             registry: seq<Binding<Callback<R>>>, disposeCalls: seq<Binding<Callback<R>>>,
                             c: Callback<R>)
    requires Tracked(disposers, invocations, phases, registry, disposeCalls) && c.disposer < disposers
    ensures |invocations| !in Keys(registry)
    ensures Tracked(disposers, invocations + [c], phases + [Using],
                    Set(registry, Binding(|invocations|, c)), disposeCalls)
  {
    KeysBelow(registry, |invocations|);
    StartKeepsRegistered(invocations, phases, registry, c);
    StartKeepsDisposed(invocations, phases, disposeCalls, c);
  }

  /** The registry part of `StartKeepsTracked`: the new binding is appended. */
  lemma StartKeepsRegistered<R>(invocations: seq<Callback<R>>, phases: seq<Phase>,
                                registry: seq<Binding<Callback<R>>>, c: Callback<R>)
    requires |phases| == |invocations| && Registered(invocations, phases, registry)
    requires |invocations| !in Keys(registry)
    ensures Registered(invocations + [c], phases + [Using], registry + [Binding(|invocations|, c)])
  {
    var t := |invocations|;
    var reg := registry + [Binding(t, c)];
    var inv := invocations + [c];
    var ph := phases + [Using];
    AppendFreshKey(registry, Binding(t, c));
    AppendAboveKeepsIncreasing(registry, Binding(t, c));
    forall i | 0 <= i < |reg| ensures reg[i].key < |inv| && reg[i].value == inv[reg[i].key] {
      if i < |registry| {
        assert reg[i] == registry[i];
      }
    }
    forall u | 0 <= u < |inv| ensures (u in Keys(reg) <==> ph[u] == Using) {
      if u < t {
        assert ph[u] == phases[u];
      }
    }
  }

  /** The `dispose` part of `StartKeepsTracked`: a new invocation has not
      called `dispose`. */
  lemma StartKeepsDisposed<R>(invocations: seq<Callback<R>>, phases: seq<Phase>,
                              disposeCalls: seq<Binding<Callback<R>>>, c: Callback<R>)
    requires |phases| == |invocations| && Disposed(invocations, phases, disposeCalls)
    ensures Disposed(invocations + [c], phases + [Using], disposeCalls)
  {
    var t := |invocations|;
    var inv := invocations + [c];
    var ph := phases + [Using];
    KeysBelow(disposeCalls, t);
    forall i | 0 <= i < |disposeCalls|
      ensures disposeCalls[i].key < |inv| && disposeCalls[i].value == inv[disposeCalls[i].key]
    {
    }
    forall u | 0 <= u < |inv| ensures (u in Keys(disposeCalls) <==> ph[u] != Using) {
      if u < t {
        assert ph[u] == phases[u];
      }
    }
  }

  /** Deregistering an invocation that is using its resource, and calling
      `dispose` for it, keeps the bookkeeping: its token was a key, and it
      moves from the registry to the `dispose` calls. */
  lemma FinishKeepsTracked<R>(disposers: nat, invocations: seq<Callback<R>>, phases: seq<Phase>,
                              registry: seq<Binding<Callback<R>>>, disposeCalls: seq<Binding<Callback<R>>>,
                              t: Key)
    requires Tracked(disposers, invocations, phases, registry, disposeCalls)
    requires t < |invocations| && phases[t] == Using
    ensures t in Keys(registry)
    ensures Tracked(disposers, invocations, phases[t := Disposing], Delete(registry, t),
                    disposeCalls + [Binding(t, invocations[t])])
  {
    var reg := Delete(registry, t);
    AppendFreshKey(disposeCalls, Binding(t, invocations[t]));
    DeleteKeepsOtherBindings(registry, t);
    DeleteKeepsIncreasing(registry, t);
    forall i | 0 <= i < |reg| ensures reg[i].key < |invocations| && reg[i].value == invocations[reg[i].key] {
      var j :| 0 <= j < |registry| && registry[j] == reg[i];
    }
  }

  /** Settling an invocation whose `dispose` was called keeps the bookkeeping. */
  lemma SettleKeepsTracked<R>(disposers: nat, invocations: seq<Callback<R>>, phases: seq<Phase>,
                              registry: seq<Binding<Callback<R>>>, disposeCalls: seq<Binding<Callback<R>>>,
                              t: Key)
    requires Tracked(disposers, invocations, phases, registry, disposeCalls)
    requires t < |invocations| && phases[t] == Disposing
    ensures Tracked(disposers, invocations, phases[t := Settled], registry, disposeCalls)
  {
  }

  class Process<R, E> {
    /** `exit_dispose_fns`. */
    var registry: seq<Binding<Callback<R>>>
    /** Source of fresh tokens, standing for `Symbol()`. */
    var nextToken: nat
    /** Number of disposers made by `create_disposer`. */
    var disposers: nat
    /** Signals that currently have `handle_exit_signal` attached. */
    var listeners: set<Signal>
    var exit: Termination<E>
    /** Invocation `t` called `use` with `invocations[t].reference`. */
    ghost var invocations: seq<Callback<R>>
    ghost var phases: seq<Phase>
    /** Calls of `dispose`, keyed by the invocation's token, in call order. */
    ghost var disposeCalls: seq<Binding<Callback<R>>>
    /** Emergency callbacks called by the handler, in call order. */
    ghost var exitCalls: seq<Binding<Callback<R>>>

    ghost predicate Valid()
      reads this
    {
      && nextToken == |invocations|
      && Tracked(disposers, invocations, phases, registry, disposeCalls)
      && ShutdownConsistent(exit, listeners, exitCalls, registry)
    }

    /** Module load: an empty registry and one listener for each of `SIGTERM`
        and `SIGINT`. */
    constructor ()
      ensures Valid()
      ensures registry == [] && listeners == HandledSignals && exit == Running
      ensures disposers == 0 && invocations == [] && disposeCalls == [] && exitCalls == []
    {
      registry := [];
      nextToken := 0;
      disposers := 0;
      listeners := HandledSignals;
      exit := Running;
      invocations := [];
      phases := [];
      disposeCalls := [];
      exitCalls := [];
    }

    /** `create_disposer`: binds a `dispose`/`dispose_on_exit` pair, named here
        by the number it returns. It attaches no listener and touches no entry. */
    method CreateDisposer() returns (d: nat)
      requires Valid()
      modifies this`disposers
      ensures Valid()
      ensures d == old(disposers) && disposers == d + 1
      ensures listeners == old(listeners) && registry == old(registry)
    {
      d := disposers;
      disposers := disposers + 1;
    }

    /** A disposer invocation up to `await use(reference)`: the emergency
        callback over `reference` is registered under a fresh token, then `use`
        is called with that same reference. */
    method Start(d: nat, reference: R) returns (token: Key)
      requires Valid() && exit.Running? && d < disposers
      modifies this`nextToken, this`registry, this`invocations, this`phases
      ensures Valid()
      ensures token == old(nextToken) && token !in old(Keys(registry))
      ensures registry == old(registry) + [Binding(token, Callback(d, reference))]
      ensures invocations == old(invocations) + [Callback(d, reference)]
      ensures phases == old(phases) + [Using]
      ensures listeners == old(listeners)
    {
      StartKeepsTracked(disposers, invocations, phases, registry, disposeCalls, Callback(d, reference));
      token := nextToken;
      nextToken := nextToken + 1;
      registry := Set(registry, Binding(token, Callback(d, reference)));
      invocations := invocations + [Callback(d, reference)];
      phases := phases + [Using];
    }

    /** The `finally` block up to `await dispose(reference)`, entered the same
        way whether `use` returned or threw: the invocation's own entry is
        deleted and `dispose` is called with its reference. */
    method Finish(token: Key)
      requires Valid() && exit.Running? && token < nextToken && phases[token] == Using
      modifies this`registry, this`disposeCalls, this`phases
      ensures Valid()
      ensures token in old(Keys(registry)) && Keys(registry) == old(Keys(registry)) - {token}
      ensures var i := IndexOf(old(registry), token);
        registry == old(registry)[..i] + old(registry)[i + 1..]
      ensures disposeCalls == old(disposeCalls) + [Binding(token, invocations[token])]
      ensures phases == old(phases)[token := Disposing]
    {
      FinishKeepsTracked(disposers, invocations, phases, registry, disposeCalls, token);
      DeleteSplice(registry, token);
      registry := Delete(registry, token);
      disposeCalls := disposeCalls + [Binding(token, invocations[token])];
      phases := phases[token := Disposing];
    }

    /** The invocation's result once `dispose` has settled: `use`'s value or
        failure unchanged when `dispose` succeeds, `dispose`'s failure when it
        throws. */
    method Settle<V>(token: Key, useOutcome: Outcome<V, E>, disposeOutcome: Outcome<(), E>)
      returns (r: Outcome<V, E>)
      requires Valid() && exit.Running? && token < nextToken && phases[token] == Disposing
      modifies this`phases
      ensures Valid()
      ensures disposeOutcome.Value? ==> r == useOutcome
      ensures disposeOutcome.Failure? ==> r == Failure(disposeOutcome.error)
      ensures phases == old(phases)[token := Settled]
    {
      SettleKeepsTracked(disposers, invocations, phases, registry, disposeCalls, token);
      r := TryFinally(useOutcome, disposeOutcome);
      phases := phases[token := Settled];
    }

    /** Delivery of a signal. For `SIGTERM` and `SIGINT`, `handle_exit_signal`
        detaches both listeners, calls the registered emergency callbacks in
        insertion order, and re-sends the signal; a callback that throws ends
        the loop and the handler. The model assumes that no other listener for
        `SIGTERM` or `SIGINT` exists in the process, so the re-sent signal
        meets none and ends the process, and no step follows this one. A
        second signal arriving during the loop is not modelled: the handler
        is one step. Any other signal meets no listener and its default action
        ends the process without calling any callback. `onExit` gives the
        outcome of each `dispose_on_exit` call. */
    method Deliver(s: Signal, onExit: Binding<Callback<R>> -> Outcome<(), E>)
      requires Valid() && exit.Running?
      modifies this`listeners, this`exit, this`exitCalls
      ensures Valid()
      ensures s !in HandledSignals ==>
        exit == DefaultAction(s) && exitCalls == [] && listeners == old(listeners)
      ensures s in HandledSignals ==>
        && listeners == {}
        && var d := Drain(old(registry), onExit);
        && exitCalls == old(registry)[..d.ran]
        && exit == (if d.failure.None? then Reraised(s) else Uncaught(d.failure.value))
    {
      if s !in listeners {
        exit := DefaultAction(s);
        return;
      }
      listeners := listeners - {SigTerm};
      listeners := listeners - {SigInt};
      var called, failure := RunExitCallbacks(registry, onExit);
      exitCalls := called;
      exit := if failure.None? then Reraised(s) else Uncaught(failure.value);
    }
  }

  /** No invocation gets both cleanups: an emergency callback only runs for an
      invocation still in the registry, which has not called `dispose`, and
      no step follows the handler (under the assumption stated at `Deliver`
      that the re-sent signal ends the process). */
  lemma CleanupsAreExclusive<R, E>(p: Process<R, E>)
    requires p.Valid()
    ensures Keys(p.disposeCalls) !! Keys(p.exitCalls)
  {
  }

  /** When the handler ran to the re-raise, every invocation ever started got
      exactly one cleanup call: `dispose` if it had reached `finally`, its
      emergency callback otherwise. Like `CleanupsAreExclusive`, this rests
      on the re-sent signal ending the process. */
  lemma ReraisedCleansEachInvocationOnce<R, E>(p: Process<R, E>)
    requires p.Valid() && p.exit.Reraised?
    ensures forall t :: 0 <= t < p.nextToken ==> (t in Keys(p.disposeCalls) <==> t !in Keys(p.exitCalls))
    ensures DistinctKeys(p.disposeCalls) && DistinctKeys(p.exitCalls)
  {
  }

  /** The handler calls the emergency callbacks in the order their
      invocations started: the calls are a prefix of the registry, whose
      tokens grow along its insertion order. */
  lemma ExitCallsInStartOrder<R, E>(p: Process<R, E>)
    requires p.Valid()
    ensures forall i, j :: 0 <= i < j < |p.exitCalls| ==> p.exitCalls[i].key < p.exitCalls[j].key
  {
    forall i, j | 0 <= i < j < |p.exitCalls| ensures p.exitCalls[i].key < p.exitCalls[j].key {
      assert p.exitCalls[i] == p.registry[i] && p.exitCalls[j] == p.registry[j];
    }
  }
}
