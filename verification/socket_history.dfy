/** Sequences of calls on the socket registry, connection events included,
    and what they leave behind: which handler sits under an event, how many
    catch-all listeners a socket carries, and that a socket turned away at
    the gate never reaches a handler again. */
module SocketHistory {
  import opened Values
  import opened SocketRegistry

  /** A call on the socket registry, or a socket connecting. */
  datatype Op =
    | Add(handler: SocketHandler)
    | Remove(handler: SocketHandler)
    | RemoveByEvent(event: string)
    | Listen(socket: SocketId)
    | Connect(socket: SocketId)

  /** The registry after one call. */
  function Step(s: Registry, op: Op, env: Env): Registry
  {
    match op
    case Add(h) => AddHandler(s, h)
    case Remove(h) => RemoveHandler(s, h)
    case RemoveByEvent(e) => RemoveHandlerByEvent(s, e)
    case Listen(k) => ListenToSocket(s, k)
    case Connect(k) => SocketConnect(s, k, env).registry
  }

  /** The registry after the calls `ops`, made in order. */
  function Replay(s: Registry, ops: seq<Op>, env: Env): Registry
    decreases |ops|
  {
    if |ops| == 0 then s else Step(Replay(s, ops[..|ops| - 1], env), ops[|ops| - 1], env)
  }

  /** The event a registry call touches, if any. */
  function EventOf(op: Op): Option<string>
  {
    match op
    case Add(h) => Some(h.event)
    case Remove(h) => Some(h.event)
    case RemoveByEvent(e) => Some(e)
    case Listen(_) => None
    case Connect(_) => None
  }

  /** What the last call touching `event` left under it: `Some(Some(h))`
      after registering `h`, `Some(None)` after a removal, `None` when no
      call touched it. */
  function LastForEvent(ops: seq<Op>, event: string): Option<Option<SocketHandler>>
    decreases |ops|
  {
    if |ops| == 0 then None
    else
      var op := ops[|ops| - 1];
      if EventOf(op) == Some(event) then Some(if op.Add? then Some(op.handler) else None)
      else LastForEvent(ops[..|ops| - 1], event)
  }

  /** Number of `listenToSocket` calls on `socket` in `ops`. */
  function ListenCount(ops: seq<Op>, socket: SocketId): nat
    decreases |ops|
  {
    if |ops| == 0 then 0
    else ListenCount(ops[..|ops| - 1], socket) + (if ops[|ops| - 1] == Listen(socket) then 1 else 0)
  }

  /** The handler under an event is the one the last call touching that
      event registered; a later removal, by handler or by event, leaves it
      empty; untouched events keep what they had. */
  lemma {:induction false} HandlerIsLastRegistration(s: Registry, ops: seq<Op>, env: Env, event: string)
    ensures LastForEvent(ops, event) == Some(None) ==> event !in Replay(s, ops, env).handlers
    ensures LastForEvent(ops, event).Some? && LastForEvent(ops, event).value.Some? ==>
      event in Replay(s, ops, env).handlers && Replay(s, ops, env).handlers[event] == LastForEvent(ops, event).value.value
    ensures LastForEvent(ops, event).None? ==>
      (event in Replay(s, ops, env).handlers <==> event in s.handlers)
      && (event in s.handlers ==> Replay(s, ops, env).handlers[event] == s.handlers[event])
    decreases |ops|
  {
    if |ops| > 0 {
      HandlerIsLastRegistration(s, ops[..|ops| - 1], env, event);
    }
  }

  /** Only the handler of the last registration for an event ever runs for
      it, in every connection, whatever was registered before. */
  lemma OnlyLatestHandlerRuns(s: Registry, ops: seq<Op>, env: Env, socket: SocketId, event: string, args: seq<JsValue>, h: SocketHandler)
    requires LastForEvent(ops, event) == Some(Some(h))
    ensures forall c :: c in HandleSocket(Replay(s, ops, env), socket, event, args, env).calls && c.RunCalled? ==> c.handler == h.ref
    ensures !h.sendUser ==> HandleSocket(Replay(s, ops, env), socket, event, args, env).calls == [RunCalled(h.ref, args)]
  {
    HandlerIsLastRegistration(s, ops, env, event);
  }

  /** Each `listenToSocket` call attaches one more catch-all listener;
      nothing else attaches one, connecting included. */
  lemma {:induction false} CatchAllCountsListens(s: Registry, ops: seq<Op>, env: Env, socket: SocketId)
    ensures Replay(s, ops, env).transport.catchAll[socket] == s.transport.catchAll[socket] + ListenCount(ops, socket)
    decreases |ops|
  {
    if |ops| > 0 {
      CatchAllCountsListens(s, ops[..|ops| - 1], env, socket);
    }
  }

  /** A disconnected socket stays disconnected. */
  lemma {:induction false} DisconnectedOnlyGrows(s: Registry, ops: seq<Op>, env: Env)
    ensures s.transport.disconnected <= Replay(s, ops, env).transport.disconnected
    decreases |ops|
  {
    if |ops| > 0 {
      DisconnectedOnlyGrows(s, ops[..|ops| - 1], env);
    }
  }

  /** A socket the gate turns away never reaches a handler, whatever the
      application registers or listens to afterwards. */
  lemma RejectedSocketReachesNoHandler(s: Registry, socket: SocketId, env: Env, ops: seq<Op>, event: string, args: seq<JsValue>)
    requires SocketConnect(s, socket, env).outcome.Rejected?
    ensures Deliver(Replay(SocketConnect(s, socket, env).registry, ops, env), socket, event, args, env) == []
  {
    DisconnectedOnlyGrows(SocketConnect(s, socket, env).registry, ops, env);
  }

  /** Connecting alone never dispatches: a socket on which
      `listenToSocket` was never called delivers no event to any handler,
      even once the gate has admitted it. */
  lemma UnlistenedSocketReachesNoHandler(s: Registry, ops: seq<Op>, env: Env, socket: SocketId, event: string, args: seq<JsValue>)
    requires socket !in s.transport.catchAll
    requires ListenCount(ops, socket) == 0
    ensures Deliver(Replay(s, ops, env), socket, event, args, env) == []
  {
    CatchAllCountsListens(s, ops, env, socket);
  }

  /** A connected socket handles each event once per `listenToSocket`
      call made on it, even though it keeps a single listener entry. */
  lemma {:induction false} EventsHandledOncePerListen(s: Registry, ops: seq<Op>, env: Env, socket: SocketId, event: string, args: seq<JsValue>)
    requires socket !in s.transport.catchAll
    requires socket !in Replay(s, ops, env).transport.disconnected
    ensures |Deliver(Replay(s, ops, env), socket, event, args, env)| == ListenCount(ops, socket)
  {
    CatchAllCountsListens(s, ops, env, socket);
  }

  /** Every sequence of calls keeps handlers under their own events and
      listener entries bound to their own sockets. */
  lemma {:induction false} ReplayKeepsValid(s: Registry, ops: seq<Op>, env: Env)
    requires Valid(s)
    ensures Valid(Replay(s, ops, env))
    decreases |ops|
  {
    if |ops| > 0 {
      ReplayKeepsValid(s, ops[..|ops| - 1], env);
    }
  }
}
