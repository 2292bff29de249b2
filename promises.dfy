/**
 * The part of a JavaScript Promise the core relies on: it settles at most
 * once. The first call of `resolve` or `reject` decides its state; every
 * later call is ignored.
 */
module Promises {

  /** The state of a promise: still pending, fulfilled with a value, or
      rejected with an error, represented by the error's message. */
  datatype Settlement<+T> = Pending | Fulfilled(value: T) | Rejected(reason: string)

  class Promise<T> {
    var state: Settlement<T>

    /** `new Promise((resolve, reject) => …)` starts out pending. */
    constructor ()
      ensures state == Pending
    {
      state := Pending;
    }

    /** `resolve(v)`: fulfils a pending promise, leaves a settled one alone. */
    method Resolve(v: T)
      modifies this
      ensures state == if old(state).Pending? then Fulfilled(v) else old(state)
    {
      if state.Pending? {
        state := Fulfilled(v);
      }
    }

    /** `reject(new Error(reason))`: rejects a pending promise, leaves a
        settled one alone. */
    method Reject(reason: string)
      modifies this
      ensures state == if old(state).Pending? then Rejected(reason) else old(state)
    {
      if state.Pending? {
        state := Rejected(reason);
      }
    }
  }
}
