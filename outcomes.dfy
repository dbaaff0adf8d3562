/** Values shared by every part of the model: what a fallible asynchronous
    call can do, and how a JavaScript promise settles. */
module Outcomes {

  /** A thrown JavaScript error; only its message is observable to the code. */
  datatype Error = Error(message: string)

  /** What one invocation of a browser-driving operation does: it resolves, or it throws. */
  datatype Outcome = Success | Failure(error: Error)

  /** How an `await retryOperation(...)` ends: it returns normally, or it throws.
      Kept apart from `Settled` on purpose: a `Completion` is observed inside
      `postponePost`, where the catch block absorbs a `Threw`, while `Settled`
      is what the caller of a top-level `async function` sees, after every
      catch has run. `Outcome` is the oracle's input for one attempt, before
      any retrying. */
  datatype Completion = Returned | Threw(error: Error)

  /** How the promise of an `async function` settles. */
  datatype Settled = Resolved | Rejected(error: Error)

  datatype Option<+T> = None | Some(value: T)
}
