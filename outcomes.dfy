/**
 * Outcomes of the caller-supplied collaborators of a disposer (`use`,
 * `dispose`, `dispose_on_exit`) and the completion rule of JavaScript's
 * `try { ... } finally { ... }` that the disposer relies on.
 */
module Outcomes {

  datatype Option<+T> = None | Some(value: T)

  /** What a call produced once awaited: a value, or a thrown error (a
      synchronous throw and a rejected promise look the same after `await`). */
  datatype Outcome<+V, +E> = Value(value: V) | Failure(error: E)

  /** The completion of `try { return await body } finally { await cleanup }`:
      a cleanup that throws replaces whatever the body produced, and a cleanup
      that completes normally lets the body's value or failure through
      unchanged (ECMAScript, section 14.15.3, TryStatement: try Block Finally). */
  function TryFinally<V, E>(body: Outcome<V, E>, cleanup: Outcome<(), E>): (r: Outcome<V, E>)
    ensures cleanup.Value? ==> r == body
    ensures cleanup.Failure? ==> r == Failure(cleanup.error)
    ensures r.Value? <==> body.Value? && cleanup.Value?
  {
    match cleanup
    case Value(_) => body
    case Failure(e) => Failure(e)
  }
}
