/** The socket handler registry.

    Handlers are kept in a map from event name to handler, so at most one
    handler answers an event and a later registration replaces an earlier
    one. The handler is looked up when an event is dispatched, not when a
    socket is connected. Connecting a socket only runs the optional
    authentication gate; attaching the catch-all listener that feeds
    `handleSocket` is the separate `listenToSocket` call. The effects on the
    socket transport (catch-all listeners attached, `disconnect()` calls)
    are recorded in `Transport`. */
module SocketRegistry {
  import opened Values

  /** A socket of the transport, by identity. */
  type SocketId = nat

  /** A socket handler object. What its `run` does is supplied by `Env`. */
  datatype SocketHandler = SocketHandler(ref: Ref, event: string, sendUser: bool)

  /** The listener `listenToSocket` records: `handleSocket` bound to the
      registry and to one socket. */
  datatype Listener = HandleSocketBoundTo(socket: SocketId)

  /** What the registry has done to the transport's sockets: the catch-all
      listeners attached with `onAny`, counted per socket, and the sockets
      it disconnected. A disconnected socket delivers no more events. */
  datatype Transport = Transport(catchAll: multiset<SocketId>, disconnected: set<SocketId>)

  /** The registry state. `forceAuth` is false when the option is omitted. */
  datatype Registry = Registry(
    handlers: map<string, SocketHandler>,
    listeners: map<SocketId, Listener>,
    getUser: Option<Ref>,
    forceAuth: bool,
    authCheck: Option<Ref>,
    transport: Transport)

  /** How the callbacks settle when awaited: `getUser` and `authCheck` (by
      reference) on a socket, and a handler's `run` (by handler reference)
      on its argument list. `authCheck` settles to the truthiness of what it
      returned. */
  datatype Env = Env(
    getUser: (Ref, SocketId) -> Settled<JsValue>,
    authCheck: (Ref, SocketId) -> Settled<bool>,
    run: (Ref, seq<JsValue>) -> Settled<JsValue>)

  /** A callback the registry invoked while handling an event. */
  datatype Invocation = GetUserCalled(getter: Ref) | RunCalled(handler: Ref, args: seq<JsValue>)

  /** The callbacks invoked, in order, and how the promise `handleSocket`
      returns settles. Nothing catches a throw: it settles that promise. */
  datatype SocketDispatch = SocketDispatch(calls: seq<Invocation>, result: Settled<JsValue>)

  /** How the connection gate ended: the socket was let through, it was
      disconnected, or `authCheck` threw and the gate's promise rejected
      before doing anything. */
  datatype ConnectOutcome = Admitted | Rejected | AuthThrew(error: JsValue)

  datatype Connected = Connected(registry: Registry, outcome: ConnectOutcome)

  /** Each handler sits under its own event name, and each recorded
      listener is bound to its own socket, which carries it as a catch-all. */
  predicate Valid(s: Registry)
  {
    && (forall e :: e in s.handlers ==> s.handlers[e].event == e)
    && (forall k :: k in s.listeners ==> s.listeners[k] == HandleSocketBoundTo(k) && k in s.transport.catchAll)
  }

  /** The registry as the constructor leaves it: no handlers, no listeners,
      and the options as given. */
  function Init(getUser: Option<Ref>, forceAuth: bool, authCheck: Option<Ref>): (r: Registry)
    ensures Valid(r)
    ensures r.getUser == getUser && r.forceAuth == forceAuth && r.authCheck == authCheck
    ensures forall e: string :: e !in r.handlers
    ensures forall k: SocketId :: k !in r.listeners && k !in r.transport.catchAll && k !in r.transport.disconnected
  {
    Registry(map[], map[], getUser, forceAuth, authCheck, Transport(multiset{}, {}))
  }

  /** Registers `h` under its event, replacing whatever was there; no other
      event and nothing else changes. */
  function AddHandler(s: Registry, h: SocketHandler): (r: Registry)
    ensures h.event in r.handlers && r.handlers[h.event] == h
    ensures forall e :: e != h.event ==> (e in r.handlers <==> e in s.handlers)
    ensures forall e :: e != h.event && e in s.handlers ==> r.handlers[e] == s.handlers[e]
    ensures r.(handlers := s.handlers) == s
    ensures Valid(s) ==> Valid(r)
  {
    s.(handlers := s.handlers[h.event := h])
  }

  /** Unregisters whatever handler sits under `event`; an absent event is
      left alone. No other event and nothing else changes. */
  function RemoveHandlerByEvent(s: Registry, event: string): (r: Registry)
    ensures event !in r.handlers
    ensures forall e :: e != event ==> (e in r.handlers <==> e in s.handlers)
    ensures forall e :: e != event && e in s.handlers ==> r.handlers[e] == s.handlers[e]
    ensures event !in s.handlers ==> r == s
    ensures r.(handlers := s.handlers) == s
    ensures Valid(s) ==> Valid(r)
  {
    s.(handlers := s.handlers - {event})
  }

  /** Unregisters by the event `h` names, even when the handler under that
      event is a different object. */
  function RemoveHandler(s: Registry, h: SocketHandler): (r: Registry)
    ensures r == RemoveHandlerByEvent(s, h.event)
    ensures h.event !in r.handlers
  {
    s.(handlers := s.handlers - {h.event})
  }

  /** Attaches one more catch-all listener to `socket` and records it as the
      socket's only listener entry, overwriting an earlier entry. */
  function ListenToSocket(s: Registry, socket: SocketId): (r: Registry)
    ensures socket in r.listeners && r.listeners[socket] == HandleSocketBoundTo(socket)
    ensures forall k :: k != socket ==> (k in r.listeners <==> k in s.listeners)
    ensures forall k :: k != socket && k in s.listeners ==> r.listeners[k] == s.listeners[k]
    ensures r.transport.catchAll[socket] == s.transport.catchAll[socket] + 1
    ensures forall k :: k != socket ==> r.transport.catchAll[k] == s.transport.catchAll[k]
    ensures r.(listeners := s.listeners, transport := s.transport) == s
    ensures r.transport.disconnected == s.transport.disconnected
    ensures Valid(s) ==> Valid(r)
  {
    s.(listeners := s.listeners[socket := HandleSocketBoundTo(socket)],
       transport := s.transport.(catchAll := s.transport.catchAll + multiset{socket}))
  }

  /** The connection gate. Without `forceAuth` it does nothing. With it, a
      missing `authCheck` or a falsy result disconnects the socket and drops
      its listener entry. It never attaches a listener itself. */
  function SocketConnect(s: Registry, socket: SocketId, env: Env): (r: Connected)
    ensures !s.forceAuth ==> r.outcome == Admitted
    ensures r.outcome.Rejected? <==>
      s.forceAuth && (s.authCheck.None? || env.authCheck(s.authCheck.value, socket) == Returned(false))
    ensures r.outcome.AuthThrew? ==>
      s.forceAuth && s.authCheck.Some? && env.authCheck(s.authCheck.value, socket) == Threw(r.outcome.error)
    ensures s.forceAuth && s.authCheck.Some? && env.authCheck(s.authCheck.value, socket).Threw? ==>
      r.outcome == AuthThrew(env.authCheck(s.authCheck.value, socket).error)
    ensures !r.outcome.Rejected? ==> r.registry == s
    ensures r.outcome.Rejected? ==>
      && socket in r.registry.transport.disconnected
      && socket !in r.registry.listeners
      && (forall k :: k != socket ==> (k in r.registry.listeners <==> k in s.listeners))
      && (forall k :: k != socket && k in s.listeners ==> r.registry.listeners[k] == s.listeners[k])
      && r.registry.transport.disconnected == s.transport.disconnected + {socket}
      && r.registry.(listeners := s.listeners, transport := s.transport) == s
    ensures r.registry.transport.catchAll == s.transport.catchAll
    ensures Valid(s) ==> Valid(r.registry)
  {
    if !s.forceAuth then Connected(s, Admitted)
    else
      var auth := match s.authCheck
        case None => Returned(false)
        case Some(a) => env.authCheck(a, socket);
      match auth
      case Threw(e) => Connected(s, AuthThrew(e))
      case Returned(ok) =>
        if ok then Connected(s, Admitted)
        else
          var disconnected := s.transport.(disconnected := s.transport.disconnected + {socket});
          Connected(s.(listeners := s.listeners - {socket}, transport := disconnected), Rejected)
  }

  /** `handleSocket(socket, event, ...args)`: looks the event up now; an
      unhandled event does nothing and settles to `undefined`. */
  function HandleSocket(s: Registry, socket: SocketId, event: string, args: seq<JsValue>, env: Env): (r: SocketDispatch)
    // No handler: no callback at all, and the result is undefined.
    ensures event !in s.handlers ==> r.calls == [] && r.result == Returned(Undefined)
    ensures event in s.handlers ==> 1 <= |r.calls| <= 2
    // Only the handler registered now runs, at most once, as the last call,
    // and its promise is what handleSocket's promise settles to.
    ensures forall k :: 0 <= k < |r.calls| && r.calls[k].RunCalled? ==>
      && event in s.handlers
      && r.calls[k].handler == s.handlers[event].ref
      && k == |r.calls| - 1
      && r.result == env.run(r.calls[k].handler, r.calls[k].args)
    // The event's arguments are passed on, after the user if it is asked for.
    ensures forall c :: c in r.calls && c.RunCalled? ==>
      if s.handlers[event].sendUser then |c.args| == |args| + 1 && c.args[1..] == args else c.args == args
    ensures event in s.handlers && !s.handlers[event].sendUser ==> r.calls == [RunCalled(s.handlers[event].ref, args)]
    // The user comes from the getUser current now, or is undefined without one.
    ensures event in s.handlers && s.handlers[event].sendUser && s.getUser.None? ==>
      r.calls == [RunCalled(s.handlers[event].ref, [Undefined] + args)]
    ensures event in s.handlers && s.handlers[event].sendUser && s.getUser.Some? ==>
      && r.calls[0] == GetUserCalled(s.getUser.value)
      && (forall c :: c in r.calls && c.RunCalled? ==> env.getUser(s.getUser.value, socket) == Returned(c.args[0]))
      && (env.getUser(s.getUser.value, socket).Threw? ==> r.result == env.getUser(s.getUser.value, socket) && |r.calls| == 1)
    // A resolved user is passed to run, ahead of the event's arguments.
    ensures event in s.handlers && s.handlers[event].sendUser && s.getUser.Some? && env.getUser(s.getUser.value, socket).Returned? ==>
      r.calls == [GetUserCalled(s.getUser.value),
                  RunCalled(s.handlers[event].ref, [env.getUser(s.getUser.value, socket).value] + args)]
  {
    if event !in s.handlers then SocketDispatch([], Returned(Undefined))
    else
      var h := s.handlers[event];
      if !h.sendUser then SocketDispatch([RunCalled(h.ref, args)], env.run(h.ref, args))
      else
        match s.getUser
        case None => SocketDispatch([RunCalled(h.ref, [Undefined] + args)], env.run(h.ref, [Undefined] + args))
        case Some(g) =>
          match env.getUser(g, socket)
          case Threw(e) => SocketDispatch([GetUserCalled(g)], Threw(e))
          case Returned(u) => SocketDispatch([GetUserCalled(g), RunCalled(h.ref, [u] + args)], env.run(h.ref, [u] + args))
  }

  /** An event arriving on `socket`: every catch-all listener attached to a
      connected socket calls `handleSocket` once; a disconnected socket
      delivers nothing. */
  function Deliver(s: Registry, socket: SocketId, event: string, args: seq<JsValue>, env: Env): (r: seq<SocketDispatch>)
    ensures socket in s.transport.disconnected ==> r == []
    ensures socket !in s.transport.catchAll ==> r == []
    ensures socket !in s.transport.disconnected ==> |r| == s.transport.catchAll[socket]
    ensures forall d :: d in r ==> d == HandleSocket(s, socket, event, args, env)
  {
    if socket in s.transport.disconnected then []
    else seq(s.transport.catchAll[socket], _ => HandleSocket(s, socket, event, args, env))
  }

  /** Registering a second handler for an event replaces the first: only
      the latest one can run on the next dispatch. */
  lemma LatestRegistrationWins(s: Registry, h1: SocketHandler, h2: SocketHandler, socket: SocketId, args: seq<JsValue>, env: Env)
    requires h1.event == h2.event
    ensures AddHandler(AddHandler(s, h1), h2).handlers == AddHandler(s, h2).handlers
    ensures forall c :: c in HandleSocket(AddHandler(AddHandler(s, h1), h2), socket, h2.event, args, env).calls && c.RunCalled? ==> c.handler == h2.ref
  {
  }

  /** Registry changes take effect on the very next dispatch: an added
      handler answers its event with the user the current getter resolves
      (or `undefined` without one), and a removed event is dropped. */
  lemma ChangesApplyImmediately(s: Registry, h: SocketHandler, socket: SocketId, args: seq<JsValue>, env: Env)
    ensures !h.sendUser ==> RunCalled(h.ref, args) in HandleSocket(AddHandler(s, h), socket, h.event, args, env).calls
    ensures h.sendUser && s.getUser.None? ==>
      RunCalled(h.ref, [Undefined] + args) in HandleSocket(AddHandler(s, h), socket, h.event, args, env).calls
    ensures h.sendUser && s.getUser.Some? && env.getUser(s.getUser.value, socket).Returned? ==>
      RunCalled(h.ref, [env.getUser(s.getUser.value, socket).value] + args) in HandleSocket(AddHandler(s, h), socket, h.event, args, env).calls
    ensures HandleSocket(RemoveHandler(s, h), socket, h.event, args, env) == SocketDispatch([], Returned(Undefined))
  {
  }

  /** Listening to a socket twice keeps one listener entry but attaches two
      catch-all listeners, so each event on it is handled twice. */
  lemma ListenTwiceHandlesTwice(s: Registry, socket: SocketId, event: string, args: seq<JsValue>, env: Env)
    requires socket !in s.transport.catchAll && socket !in s.transport.disconnected
    ensures ListenToSocket(ListenToSocket(s, socket), socket).listeners == ListenToSocket(s, socket).listeners
    ensures |Deliver(ListenToSocket(s, socket), socket, event, args, env)| == 1
    ensures |Deliver(ListenToSocket(ListenToSocket(s, socket), socket), socket, event, args, env)| == 2
  {
  }
}
