/**
 * The situations exercised by `src/index.spec.js`, played out step by step on
 * the model from module load onwards. Each method states what the process has done once the
 * scenario is over.
 */
module Scenarios {
  import opened Outcomes
  import opened InsertionOrderedMap
  import opened ExitRegistry

  /** `use` resolves: its value is returned, `dispose` ran once for the
      reference, and nothing is left registered. */
  method UseResolves<R, V, E>(reference: R, v: V) returns (p: Process<R, E>, r: Outcome<V, E>)
    ensures r == Value(v)
    ensures p.registry == [] && p.exitCalls == []
    ensures p.disposeCalls == [Binding(0, Callback(0, reference))]
  {
    p := new Process();
    var d := p.CreateDisposer();
    var t := p.Start(d, reference);
    p.Finish(t);
    r := p.Settle(t, Value(v), Value(()));
  }

  /** `use` throws: the same error reaches the caller after `dispose` ran
      once for the reference. */
  method UseThrows<R, V, E>(reference: R, e: E) returns (p: Process<R, E>, r: Outcome<V, E>)
    ensures r == Failure(e)
    ensures p.registry == [] && p.exitCalls == []
    ensures p.disposeCalls == [Binding(0, Callback(0, reference))]
  {
    p := new Process();
    var d := p.CreateDisposer();
    var t := p.Start(d, reference);
    p.Finish(t);
    r := p.Settle(t, Failure(e), Value(()));
  }

  /** `SIGINT` or `SIGTERM` while `use` is pending: the emergency callback ran
      for the reference, `dispose` never did, and the signal was re-sent. */
  method SignalWhileUsing<R, E>(reference: R, s: Signal) returns (p: Process<R, E>)
    requires s in HandledSignals
    ensures p.exit == Reraised(s) && p.listeners == {}
    ensures p.exitCalls == [Binding(0, Callback(0, reference))] && p.disposeCalls == []
  {
    p := new Process();
    var d := p.CreateDisposer();
    var _ := p.Start(d, reference);
    p.Deliver(s, (b: Binding<Callback<R>>) => Value(()));
  }

  /** `SIGHUP` or `SIGUSR2` while `use` is pending: no listener exists for
      them, so the process ends by the signal's default action and no
      cleanup of either kind runs. */
  method UnhandledSignalWhileUsing<R, E>(reference: R, s: Signal) returns (p: Process<R, E>)
    requires s !in HandledSignals
    ensures p.exit == DefaultAction(s)
    ensures p.registry == [Binding(0, Callback(0, reference))]
    ensures p.exitCalls == [] && p.disposeCalls == []
  {
    p := new Process();
    var d := p.CreateDisposer();
    var _ := p.Start(d, reference);
    p.Deliver(s, (b: Binding<Callback<R>>) => Value(()));
  }

  /** A signal after an invocation has reached `finally` (here, in the window
      where `dispose` is still pending) finds no entry for it: only `dispose`
      was called for that reference. */
  method SignalAfterDeregistration<R, E>(reference: R, s: Signal) returns (p: Process<R, E>)
    requires s in HandledSignals
    ensures p.exit == Reraised(s)
    ensures p.exitCalls == [] && p.disposeCalls == [Binding(0, Callback(0, reference))]
  {
    p := new Process();
    var d := p.CreateDisposer();
    var t := p.Start(d, reference);
    p.Finish(t);
    p.Deliver(s, (b: Binding<Callback<R>>) => Value(()));
  }

  /** Two invocations in flight, and the first emergency
      callback throws: the second is never called and the signal is not
      re-sent. */
  method ThrowingCallbackAbortsDrain<R, E>(first: R, second: R, e: E, s: Signal) returns (p: Process<R, E>)
    requires s in HandledSignals
    ensures p.exit == Uncaught(e) && p.listeners == {}
    ensures p.exitCalls == [Binding(0, Callback(0, first))]
    ensures p.registry == [Binding(0, Callback(0, first)), Binding(1, Callback(0, second))]
  {
    p := new Process();
    var d := p.CreateDisposer();
    var _ := p.Start(d, first);
    assert p.registry == [Binding(0, Callback(0, first))];
    var _ := p.Start(d, second);
    ghost var registered := [Binding(0, Callback(0, first)), Binding(1, Callback(0, second))];
    assert p.registry == registered;
    var onExit := (b: Binding<Callback<R>>) => if b.key == 0 then Failure(e) else Value(());
    DrainStopsAtThrowingFirst(registered, onExit);
    p.Deliver(s, onExit);
    assert p.exitCalls == registered[..1];
  }
}
