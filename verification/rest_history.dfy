/** Sequences of registry calls on the REST registry and what they leave
    behind: how many bindings each handler has, which handlers are live,
    and which `getUser` is current. */
module RESTHistory {
  import opened Values
  import opened RESTRegistry

  /** A call the application makes on the REST registry. */
  datatype Op = Add(handler: RESTHandler) | Remove(handler: RESTHandler) | ReplaceGetUser(getter: Ref)

  /** The registry after one call. */
  function Step(s: Registry, op: Op): Registry
  {
    match op
    case Add(h) => AddHandler(s, h)
    case Remove(h) => RemoveHandler(s, h)
    case ReplaceGetUser(g) => SetGetUser(s, g)
  }

  /** The registry after the calls `ops`, made in order. */
  function Replay(s: Registry, ops: seq<Op>): Registry
    decreases |ops|
  {
    if |ops| == 0 then s else Step(Replay(s, ops[..|ops| - 1]), ops[|ops| - 1])
  }

  /** Number of `addHandler` calls in `ops` for the handler `r`. */
  function AddCount(ops: seq<Op>, r: Ref): nat
    decreases |ops|
  {
    if |ops| == 0 then 0
    else AddCount(ops[..|ops| - 1], r) + (if ops[|ops| - 1].Add? && ops[|ops| - 1].handler.ref == r then 1 else 0)
  }

  /** Whether the last `addHandler`/`removeHandler` call in `ops` for the
      handler `r` added it (`Some(true)`) or removed it (`Some(false)`);
      `None` if there was no such call. */
  function LastTouch(ops: seq<Op>, r: Ref): Option<bool>
    decreases |ops|
  {
    if |ops| == 0 then None
    else
      var op := ops[|ops| - 1];
      if (op.Add? || op.Remove?) && op.handler.ref == r then Some(op.Add?)
      else LastTouch(ops[..|ops| - 1], r)
  }

  /** The getter of the last `setGetUser` call in `ops`, if any. */
  function LastGetter(ops: seq<Op>): Option<Ref>
    decreases |ops|
  {
    if |ops| == 0 then None
    else if ops[|ops| - 1].ReplaceGetUser? then Some(ops[|ops| - 1].getter)
    else LastGetter(ops[..|ops| - 1])
  }

  /** Bindings are never taken away: the bindings before the calls are a
      prefix of the bindings after them. */
  lemma {:induction false} BindingsOnlyGrow(s: Registry, ops: seq<Op>)
    ensures s.bindings <= Replay(s, ops).bindings
    decreases |ops|
  {
    if |ops| > 0 {
      BindingsOnlyGrow(s, ops[..|ops| - 1]);
    }
  }

  /** A handler has exactly as many bindings as `addHandler` calls made for
      it; removals do not lower the count. */
  lemma {:induction false} BindingsCountAdds(s: Registry, ops: seq<Op>, r: Ref)
    ensures BindingCount(Replay(s, ops).bindings, r) == BindingCount(s.bindings, r) + AddCount(ops, r)
    decreases |ops|
  {
    if |ops| > 0 {
      var before := Replay(s, ops[..|ops| - 1]);
      BindingsCountAdds(s, ops[..|ops| - 1], r);
      match ops[|ops| - 1]
      case Add(h) => AddHandlerCountsOneBinding(before, h, r);
      case Remove(h) =>
      case ReplaceGetUser(g) =>
    }
  }

  /** A handler is live exactly when its last add/remove call added it, or
      there was none and it was live to begin with. */
  lemma {:induction false} LiveIffLastTouchAdded(s: Registry, ops: seq<Op>, r: Ref)
    ensures r in Replay(s, ops).live <==> LastTouch(ops, r) == Some(true) || (LastTouch(ops, r) == None && r in s.live)
    decreases |ops|
  {
    if |ops| > 0 {
      LiveIffLastTouchAdded(s, ops[..|ops| - 1], r);
    }
  }

  /** The user-resolution callback in force is the one of the last
      `setGetUser` call, or the constructor's if there was none. */
  lemma {:induction false} GetUserIsLastReplacement(s: Registry, ops: seq<Op>)
    ensures Replay(s, ops).getUser == if LastGetter(ops).Some? then LastGetter(ops) else s.getUser
    decreases |ops|
  {
    if |ops| > 0 {
      GetUserIsLastReplacement(s, ops[..|ops| - 1]);
    }
  }

  /** Every sequence of calls keeps every live handler bound to a binding
      installed for its own route. */
  lemma {:induction false} ReplayKeepsValid(s: Registry, ops: seq<Op>)
    requires Valid(s)
    ensures Valid(Replay(s, ops))
    decreases |ops|
  {
    if |ops| > 0 {
      var before := Replay(s, ops[..|ops| - 1]);
      ReplayKeepsValid(s, ops[..|ops| - 1]);
      match ops[|ops| - 1]
      case Add(h) => AddHandlerKeepsValid(before, h);
      case Remove(h) =>
      case ReplaceGetUser(g) =>
    }
  }

  /** Once the last add/remove call for a handler removed it, no request
      runs that handler, however many bindings it still has. */
  lemma RemovedHandlerStaysSilent(s: Registry, ops: seq<Op>, r: Ref, matches: Matcher, req: Request, env: Env)
    requires LastTouch(ops, r) == Some(false)
    ensures forall c :: c in Route(Replay(s, ops), matches, req, env).calls && c.RunCalled? ==> c.handler != r
    ensures !Route(Replay(s, ops), matches, req, env).outcome.Ran? || Route(Replay(s, ops), matches, req, env).outcome.handler != r
  {
    LiveIffLastTouchAdded(s, ops, r);
  }
}
