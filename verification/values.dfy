/** Values shared by both handler registries and the plugin loader.

    The registries never look inside the application's callbacks (`run`,
    `getUser`, `authCheck`); they only pass values in and react to how the
    awaited call settled. This module fixes the vocabulary for that. */
module Values {

  /** An optional value: an optional callback, or an optional map entry. */
  datatype Option<+T> = None | Some(value: T)

  /** An object reference. Handlers and callbacks are told apart by the
      reference alone, never by the contents of the object. */
  type Ref = nat

  /** A JavaScript value handed to or produced by a callback whose body is
      not modelled. `Undefined` is kept apart because the registries produce
      it themselves: an absent `getUser` yields it, and so does an event
      nobody handles. */
  datatype JsValue = Undefined | Value(id: nat)

  /** How an awaited callback settled: it returned (or its promise resolved),
      or it threw (or its promise rejected) with some value. */
  datatype Settled<+T> = Returned(value: T) | Threw(error: JsValue)
}
