/** The REST handler registry.

    The registry keeps a live set of handler references and an append-only
    list of route bindings, one per `addHandler` call. A binding never goes
    away: removing a handler only takes its reference out of the live set,
    and from then on the binding checks membership, finds nothing and passes
    the request on with a bare `next()`. The web framework's router is a
    parameter (`Matcher`), and so is everything the callbacks do (`Env`). */
module RESTRegistry {
  import opened Values

  /** The HTTP methods a handler can be bound with. */
  datatype RESTMethod = GET | POST | PUT | DELETE | PATCH | OPTIONS | HEAD | CONNECT | TRACE | ALL

  /** The string value of each method; it names the routing method of the
      web framework that the binding is installed with. */
  function MethodName(m: RESTMethod): string
  {
    match m
    case GET => "get"
    case POST => "post"
    case PUT => "put"
    case DELETE => "delete"
    case PATCH => "patch"
    case OPTIONS => "options"
    case HEAD => "head"
    case CONNECT => "connect"
    case TRACE => "trace"
    case ALL => "all"
  }

  /** No two methods share a string value, so each binding is installed
      with the routing method of its own handler's method. */
  lemma MethodNamesDistinct(m1: RESTMethod, m2: RESTMethod)
    ensures MethodName(m1) == MethodName(m2) <==> m1 == m2
  {
  }

  /** A handler object. `ref` is its identity: two handlers with the same
      path and method are still two handlers. `run` is not a field here;
      what it does is supplied by `Env`. */
  datatype RESTHandler = RESTHandler(ref: Ref, path: string, httpMethod: RESTMethod, sendUser: bool)

  /** A route binding installed by `addHandler`: the route it was installed
      for and the handler object its callback closes over. */
  datatype Binding = Binding(httpMethod: RESTMethod, path: string, handler: RESTHandler)

  /** The registry: live handler references, the bindings in installation
      order, and the current user-resolution callback, if any. */
  datatype Registry = Registry(live: set<Ref>, bindings: seq<Binding>, getUser: Option<Ref>)

  /** An inbound request, as far as the registry is concerned. */
  datatype Request = Request(httpMethod: string, path: string, payload: nat)

  /** The user argument `run` receives: none at all when the handler does
      not ask for the user, otherwise whatever user resolution produced. */
  datatype UserArg = NoUser | WithUser(user: JsValue)

  /** How the callbacks settle when awaited: `getUser` (by reference) on a
      request, and a handler's `run` (by handler reference) on a request
      and user argument. */
  datatype Env = Env(getUser: (Ref, Request) -> Settled<JsValue>, run: (Ref, Request, UserArg) -> Settled<JsValue>)

  /** A callback the registry invoked while dispatching. */
  datatype Invocation = GetUserCalled(getter: Ref) | RunCalled(handler: Ref, user: UserArg)

  /** The invocation `c` threw when awaited on request `req`. */
  predicate ThrewOn(env: Env, req: Request, c: Invocation)
  {
    match c
    case GetUserCalled(g) => env.getUser(g, req).Threw?
    case RunCalled(x, u) => env.run(x, req, u).Threw?
  }

  /** How a binding's callback ended: the request fell through with a bare
      `next()`; `run` completed; or an error was passed on with `next(e)`. */
  datatype Outcome = FallThrough | Ran(handler: Ref, user: UserArg) | Forwarded(error: JsValue)

  /** The callbacks invoked, in order, and how the dispatch ended. */
  datatype Dispatch = Dispatch(calls: seq<Invocation>, outcome: Outcome)

  /** The router of the web framework: whether a binding installed for a
      method and a path receives a request. Path patterns and `ALL` are
      its business, not the registry's. */
  type Matcher = (RESTMethod, string, Request) -> bool

  /** A binding's route is the one of the handler it closes over. */
  predicate BindingFitsHandler(b: Binding)
  {
    b.httpMethod == b.handler.httpMethod && b.path == b.handler.path
  }

  /** Some binding closes over a handler with reference `r`. */
  predicate IsBound(s: Registry, r: Ref)
  {
    exists i :: 0 <= i < |s.bindings| && s.bindings[i].handler.ref == r
  }

  /** Every binding was installed for its handler's route, and every live
      handler has a binding to answer through. */
  predicate Valid(s: Registry)
  {
    && (forall i :: 0 <= i < |s.bindings| ==> BindingFitsHandler(s.bindings[i]))
    && (forall r :: r in s.live ==> IsBound(s, r))
  }

  /** Number of bindings closing over a handler with reference `r`. */
  function BindingCount(bs: seq<Binding>, r: Ref): nat
  {
    if |bs| == 0 then 0
    else BindingCount(bs[..|bs| - 1], r) + (if bs[|bs| - 1].handler.ref == r then 1 else 0)
  }

  /** Appending a binding adds one to its handler's count and nothing to
      any other handler's count. */
  lemma BindingCountAppend(bs: seq<Binding>, b: Binding, r: Ref)
    ensures BindingCount(bs + [b], r) == BindingCount(bs, r) + (if b.handler.ref == r then 1 else 0)
  {
    assert (bs + [b])[..|bs|] == bs;
  }

  /** The registry as the constructor leaves it: nothing live, nothing
      bound, and the `getUser` option if one was given. */
  function Init(getUser: Option<Ref>): (r: Registry)
    ensures Valid(r)
    ensures r.live == {} && r.getUser == getUser
    ensures forall h: Ref :: !IsBound(r, h)
  {
    Registry({}, [], getUser)
  }

  /** Replaces the user-resolution callback for every later dispatch. */
  function SetGetUser(s: Registry, g: Ref): (r: Registry)
    ensures r.getUser == Some(g)
    ensures r.live == s.live && r.bindings == s.bindings
    ensures Valid(s) ==> Valid(r)
  {
    s.(getUser := Some(g))
  }

  /** Makes `h` live and installs one more binding for its route; the
      bindings already installed stay as they are. */
  function AddHandler(s: Registry, h: RESTHandler): (r: Registry)
    ensures r.live == s.live + {h.ref}
    ensures |r.bindings| == |s.bindings| + 1
    ensures r.bindings[..|s.bindings|] == s.bindings
    ensures r.bindings[|s.bindings|] == Binding(h.httpMethod, h.path, h)
    ensures r.getUser == s.getUser
  {
    var r := s.(live := s.live + {h.ref}, bindings := s.bindings + [Binding(h.httpMethod, h.path, h)]);
    assert r.bindings[..|s.bindings|] == s.bindings;
    r
  }

  /** Each `addHandler` call adds exactly one binding for its handler and
      none for any other. */
  lemma AddHandlerCountsOneBinding(s: Registry, h: RESTHandler, x: Ref)
    ensures BindingCount(AddHandler(s, h).bindings, x) == BindingCount(s.bindings, x) + (if x == h.ref then 1 else 0)
  {
    BindingCountAppend(s.bindings, Binding(h.httpMethod, h.path, h), x);
  }

  /** `addHandler` keeps every live handler bound, the new one included. */
  lemma AddHandlerKeepsValid(s: Registry, h: RESTHandler)
    requires Valid(s)
    ensures Valid(AddHandler(s, h))
  {
    var r := AddHandler(s, h);
    forall x | x in r.live ensures IsBound(r, x) {
      if x == h.ref {
        assert r.bindings[|s.bindings|].handler.ref == x;
      } else {
        var i :| 0 <= i < |s.bindings| && s.bindings[i].handler.ref == x;
        assert r.bindings[i] == s.bindings[i];
      }
    }
  }

  /** Takes `h` out of the live set. Its bindings stay installed. */
  function RemoveHandler(s: Registry, h: RESTHandler): (r: Registry)
    ensures r.live == s.live - {h.ref}
    ensures r.bindings == s.bindings && r.getUser == s.getUser
    ensures Valid(s) ==> Valid(r)
  {
    s.(live := s.live - {h.ref})
  }

  /** Adding a handler that is already live leaves the live set as it is
      but stacks a second binding for it. */
  lemma AddLiveHandlerStacksBinding(s: Registry, h: RESTHandler)
    requires h.ref in s.live
    ensures AddHandler(s, h).live == s.live
    ensures BindingCount(AddHandler(AddHandler(s, h), h).bindings, h.ref) == BindingCount(s.bindings, h.ref) + 2
  {
    AddHandlerCountsOneBinding(s, h, h.ref);
    AddHandlerCountsOneBinding(AddHandler(s, h), h, h.ref);
  }

  /** Removing a handler and adding it back is the same as adding it again
      while it is live: the old binding and a new one both answer. */
  lemma ReAddAfterRemoveIsDuplicateAdd(s: Registry, h: RESTHandler)
    requires h.ref in s.live
    ensures AddHandler(RemoveHandler(s, h), h) == AddHandler(s, h)
  {
  }

  /** Settles a call of `run` on handler `h` into a dispatch outcome; a
      throw becomes `next(e)`. */
  function Invoke(h: RESTHandler, req: Request, user: UserArg, before: seq<Invocation>, env: Env): (r: Dispatch)
    ensures r.calls == before + [RunCalled(h.ref, user)]
    ensures r.outcome.Ran? <==> env.run(h.ref, req, user).Returned?
    ensures r.outcome.Ran? ==> r.outcome == Ran(h.ref, user)
    ensures r.outcome.Forwarded? ==> env.run(h.ref, req, user) == Threw(r.outcome.error)
    ensures env.run(h.ref, req, user).Threw? ==> r.outcome == Forwarded(env.run(h.ref, req, user).error)
  {
    match env.run(h.ref, req, user)
    case Returned(_) => Dispatch(before + [RunCalled(h.ref, user)], Ran(h.ref, user))
    case Threw(e) => Dispatch(before + [RunCalled(h.ref, user)], Forwarded(e))
  }

  /** What the callback of binding `i` does with a request it receives:
      check membership now, resolve the user now if asked to, run, and
      funnel every throw into `next(e)`. */
  function DispatchAt(s: Registry, i: nat, req: Request, env: Env): (r: Dispatch)
    requires i < |s.bindings|
    // An inert binding falls through, and only an inert one does.
    ensures r.outcome.FallThrough? <==> s.bindings[i].handler.ref !in s.live
    ensures r.outcome.FallThrough? ==> r.calls == []
    ensures !r.outcome.FallThrough? ==> 1 <= |r.calls|
    // Only this binding's handler runs, at most once, and only as the last call.
    ensures forall k :: 0 <= k < |r.calls| && r.calls[k].RunCalled? ==> r.calls[k].handler == s.bindings[i].handler.ref && k == |r.calls| - 1
    ensures |r.calls| <= 2
    // The getter is called at most once, and only first: every later call is run.
    ensures forall k :: 1 <= k < |r.calls| ==> r.calls[k].RunCalled?
    ensures r.outcome.Ran? ==> r.outcome.handler == s.bindings[i].handler.ref && r.calls[|r.calls| - 1] == RunCalled(r.outcome.handler, r.outcome.user)
    // A handler that does not ask for the user never triggers user resolution.
    ensures !s.bindings[i].handler.sendUser ==> forall c :: c in r.calls ==> c == RunCalled(s.bindings[i].handler.ref, NoUser)
    // A handler that asks for the user gets the one the current getUser yields.
    ensures s.bindings[i].handler.sendUser && s.getUser.None? ==> forall c :: c in r.calls ==> c == RunCalled(s.bindings[i].handler.ref, WithUser(Undefined))
    ensures s.bindings[i].handler.sendUser && s.getUser.Some? && s.bindings[i].handler.ref in s.live ==>
      && r.calls[0] == GetUserCalled(s.getUser.value)
      && forall u :: RunCalled(s.bindings[i].handler.ref, u) in r.calls ==> u.WithUser? && env.getUser(s.getUser.value, req) == Returned(u.user)
    // Every error ends up in next(e), and only an error does: it is what the last callback threw.
    ensures !r.outcome.FallThrough? ==> (r.outcome.Forwarded? <==> ThrewOn(env, req, r.calls[|r.calls| - 1]))
    ensures r.outcome.Forwarded? ==>
      match r.calls[|r.calls| - 1]
      case GetUserCalled(g) => env.getUser(g, req) == Threw(r.outcome.error)
      case RunCalled(x, u) => env.run(x, req, u) == Threw(r.outcome.error)
    ensures r.outcome.Ran? ==> env.run(r.outcome.handler, req, r.outcome.user).Returned?
  {
    var h := s.bindings[i].handler;
    if h.ref !in s.live then Dispatch([], FallThrough)
    else if !h.sendUser then Invoke(h, req, NoUser, [], env)
    else
      match s.getUser
      case None => Invoke(h, req, WithUser(Undefined), [], env)
      case Some(g) =>
        match env.getUser(g, req)
        case Threw(e) => Dispatch([GetUserCalled(g)], Forwarded(e))
        case Returned(u) => Invoke(h, req, WithUser(u), [GetUserCalled(g)], env)
  }

  /** Binding `k` receives the request and its handler is live. */
  predicate Answers(s: Registry, matches: Matcher, req: Request, k: nat)
    requires k < |s.bindings|
  {
    matches(s.bindings[k].httpMethod, s.bindings[k].path, req) && s.bindings[k].handler.ref in s.live
  }

  /** Offers a request to the bindings from index `i` on, in installation
      order: a binding that does not receive it, or falls through, passes
      it on; the first one whose handler is live settles it. Falling off
      the end leaves the request to the framework's own fallback. */
  function RouteFrom(s: Registry, matches: Matcher, req: Request, env: Env, i: nat): (r: Dispatch)
    requires i <= |s.bindings|
    ensures r.outcome.FallThrough? ==> r.calls == []
    ensures r.outcome.Ran? ==> r.outcome.handler in s.live
    ensures forall c :: c in r.calls && c.RunCalled? ==> c.handler in s.live
    decreases |s.bindings| - i
  {
    if i == |s.bindings| then Dispatch([], FallThrough)
    else if !matches(s.bindings[i].httpMethod, s.bindings[i].path, req) then RouteFrom(s, matches, req, env, i + 1)
    else
      var d := DispatchAt(s, i, req, env);
      if d.outcome.FallThrough? then RouteFrom(s, matches, req, env, i + 1) else d
  }

  /** A request arriving at the web framework. */
  function Route(s: Registry, matches: Matcher, req: Request, env: Env): (r: Dispatch)
    ensures r.outcome.FallThrough? ==> r.calls == []
    ensures forall c :: c in r.calls && c.RunCalled? ==> c.handler in s.live
  {
    RouteFrom(s, matches, req, env, 0)
  }

  /** The request is settled by the first binding from `i` on that both
      receives it and has a live handler. */
  lemma {:induction false} RouteReachesFirstAnswer(s: Registry, matches: Matcher, req: Request, env: Env, i: nat, j: nat)
    requires i <= j < |s.bindings|
    requires Answers(s, matches, req, j)
    requires forall k :: i <= k < j ==> !Answers(s, matches, req, k)
    ensures RouteFrom(s, matches, req, env, i) == DispatchAt(s, j, req, env)
    decreases j - i
  {
    if i < j {
      assert !Answers(s, matches, req, i);
      RouteReachesFirstAnswer(s, matches, req, env, i + 1, j);
    }
  }

  /** When no binding from `i` on both receives the request and has a live
      handler, the request falls through and no callback is invoked. */
  lemma {:induction false} RouteFallsThroughWithoutAnswer(s: Registry, matches: Matcher, req: Request, env: Env, i: nat)
    requires i <= |s.bindings|
    requires forall k :: i <= k < |s.bindings| ==> !Answers(s, matches, req, k)
    ensures RouteFrom(s, matches, req, env, i) == Dispatch([], FallThrough)
    decreases |s.bindings| - i
  {
    if i < |s.bindings| {
      assert !Answers(s, matches, req, i);
      RouteFallsThroughWithoutAnswer(s, matches, req, env, i + 1);
    }
  }

  /** A removed handler is never run, whatever bindings it has. */
  lemma RemovedHandlerNeverRuns(s: Registry, h: RESTHandler, matches: Matcher, req: Request, env: Env)
    ensures forall c :: c in Route(RemoveHandler(s, h), matches, req, env).calls && c.RunCalled? ==> c.handler != h.ref
    ensures !Route(RemoveHandler(s, h), matches, req, env).outcome.Ran? || Route(RemoveHandler(s, h), matches, req, env).outcome.handler != h.ref
  {
  }

  /** `s` with binding `b` inserted at position `k`. */
  function InsertBinding(s: Registry, k: nat, b: Binding): (r: Registry)
    requires k <= |s.bindings|
    ensures |r.bindings| == |s.bindings| + 1 && r.bindings[k] == b
    ensures forall j :: 0 <= j < k ==> r.bindings[j] == s.bindings[j]
    ensures forall j :: k <= j < |s.bindings| ==> r.bindings[j + 1] == s.bindings[j]
    ensures r.live == s.live && r.getUser == s.getUser
  {
    s.(bindings := s.bindings[..k] + [b] + s.bindings[k..])
  }

  /** Past the inserted binding, routing in the larger registry is routing
      in the smaller one, one position further on. */
  lemma {:induction false} RouteFromPastInsert(s: Registry, k: nat, b: Binding, matches: Matcher, req: Request, env: Env, j: nat)
    requires k <= j <= |s.bindings|
    ensures RouteFrom(InsertBinding(s, k, b), matches, req, env, j + 1) == RouteFrom(s, matches, req, env, j)
    decreases |s.bindings| - j
  {
    var t := InsertBinding(s, k, b);
    if j < |s.bindings| {
      assert t.bindings[j + 1] == s.bindings[j];
      assert DispatchAt(t, j + 1, req, env) == DispatchAt(s, j, req, env);
      RouteFromPastInsert(s, k, b, matches, req, env, j + 1);
    }
  }

  /** Up to the inserted binding, routing is unchanged as well. */
  lemma {:induction false} RouteFromBeforeInsert(s: Registry, k: nat, b: Binding, matches: Matcher, req: Request, env: Env, i: nat)
    requires b.handler.ref !in s.live
    requires i <= k <= |s.bindings|
    ensures RouteFrom(InsertBinding(s, k, b), matches, req, env, i) == RouteFrom(s, matches, req, env, i)
    decreases k - i
  {
    var t := InsertBinding(s, k, b);
    if i == k {
      if matches(b.httpMethod, b.path, req) {
        assert DispatchAt(t, i, req, env).outcome.FallThrough?;
      }
      RouteFromPastInsert(s, k, b, matches, req, env, k);
    } else {
      assert t.bindings[i] == s.bindings[i];
      assert DispatchAt(t, i, req, env) == DispatchAt(s, i, req, env);
      RouteFromBeforeInsert(s, k, b, matches, req, env, i + 1);
    }
  }

  /** A binding whose handler is not live, wherever it sits in the list,
      does not change how any request is routed. */
  lemma InertBindingIsInvisible(s: Registry, k: nat, b: Binding, matches: Matcher, req: Request, env: Env)
    requires b.handler.ref !in s.live
    requires k <= |s.bindings|
    ensures Route(InsertBinding(s, k, b), matches, req, env) == Route(s, matches, req, env)
  {
    RouteFromBeforeInsert(s, k, b, matches, req, env, 0);
  }

  /** Adding a handler and removing it again leaves routing exactly as
      removing it alone would: the extra binding stays but is inert. */
  lemma AddThenRemoveRoutesAsRemove(s: Registry, h: RESTHandler, matches: Matcher, req: Request, env: Env)
    ensures |RemoveHandler(AddHandler(s, h), h).bindings| == |s.bindings| + 1
    ensures Route(RemoveHandler(AddHandler(s, h), h), matches, req, env) == Route(RemoveHandler(s, h), matches, req, env)
  {
    var removed := RemoveHandler(s, h);
    var b := Binding(h.httpMethod, h.path, h);
    assert removed.bindings[..|removed.bindings|] + [b] + removed.bindings[|removed.bindings|..] == removed.bindings + [b];
    assert RemoveHandler(AddHandler(s, h), h) == InsertBinding(removed, |removed.bindings|, b);
    InertBindingIsInvisible(removed, |removed.bindings|, b, matches, req, env);
  }

  /** A freshly added handler answers a request its route receives when no
      earlier binding does, through the new binding: `run` is invoked at
      most once, and exactly once unless the getter it asks for throws. */
  lemma AddedHandlerAnswers(s: Registry, h: RESTHandler, matches: Matcher, req: Request, env: Env)
    requires matches(h.httpMethod, h.path, req)
    requires forall k :: 0 <= k < |s.bindings| ==> !Answers(AddHandler(s, h), matches, req, k)
    ensures Route(AddHandler(s, h), matches, req, env) == DispatchAt(AddHandler(s, h), |s.bindings|, req, env)
    ensures !Route(AddHandler(s, h), matches, req, env).outcome.FallThrough?
    ensures var d := DispatchAt(AddHandler(s, h), |s.bindings|, req, env);
      forall k :: 0 <= k < |d.calls| - 1 ==> d.calls[k].GetUserCalled?
    ensures !(h.sendUser && s.getUser.Some? && env.getUser(s.getUser.value, req).Threw?) ==>
      var d := DispatchAt(AddHandler(s, h), |s.bindings|, req, env);
      var user := if !h.sendUser then NoUser
        else if s.getUser.None? then WithUser(Undefined)
        else WithUser(env.getUser(s.getUser.value, req).value);
      d.calls[|d.calls| - 1] == RunCalled(h.ref, user)
  {
    var t := AddHandler(s, h);
    assert Answers(t, matches, req, |s.bindings|);
    RouteReachesFirstAnswer(t, matches, req, env, 0, |s.bindings|);
  }

  /** Replacing `getUser` after a handler was registered changes what its
      binding calls on the very next dispatch. */
  lemma SetGetUserTakesEffect(s: Registry, g: Ref, i: nat, req: Request, env: Env)
    requires i < |s.bindings|
    requires s.bindings[i].handler.ref in s.live && s.bindings[i].handler.sendUser
    ensures DispatchAt(SetGetUser(s, g), i, req, env).calls[0] == GetUserCalled(g)
    ensures env.getUser(g, req).Returned? ==>
      DispatchAt(SetGetUser(s, g), i, req, env).calls == [GetUserCalled(g), RunCalled(s.bindings[i].handler.ref, WithUser(env.getUser(g, req).value))]
  {
  }
}
