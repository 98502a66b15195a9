/** Two concrete walks through the registries: a `/ping` route that is
    registered, answers, and is removed; and an `echo` event on a socket
    that was admitted and listened to. */
module Scenarios {
  import opened Values
  import REST = RESTRegistry
  import Socket = SocketRegistry

  /** A router that receives a request when its path is the binding's path
      and its method is the binding's method. */
  function ExactRoute(m: REST.RESTMethod, path: string, req: REST.Request): bool
  {
    path == req.path && REST.MethodName(m) == req.httpMethod
  }

  /** GET `/ping` runs the handler once, without a user, and it answers;
      after removal the same request falls through and nothing runs. */
  lemma PingAnswersUntilRemoved(pong: JsValue)
    ensures
      var ping := REST.RESTHandler(1, "/ping", REST.GET, false);
      var s := REST.AddHandler(REST.Init(None), ping);
      var req := REST.Request("get", "/ping", 0);
      var env := REST.Env((g, q) => Returned(Undefined), (h, q, u) => Returned(pong));
      && REST.Route(s, ExactRoute, req, env) == REST.Dispatch([REST.RunCalled(1, REST.NoUser)], REST.Ran(1, REST.NoUser))
      && REST.Route(REST.RemoveHandler(s, ping), ExactRoute, req, env) == REST.Dispatch([], REST.FallThrough)
  {
    var ping := REST.RESTHandler(1, "/ping", REST.GET, false);
    var s := REST.AddHandler(REST.Init(None), ping);
    var req := REST.Request("get", "/ping", 0);
    var env := REST.Env((g, q) => Returned(Undefined), (h, q, u) => Returned(pong));
    assert REST.Answers(s, ExactRoute, req, 0);
    REST.RouteReachesFirstAnswer(s, ExactRoute, req, env, 0, 0);
    REST.RouteFallsThroughWithoutAnswer(REST.RemoveHandler(s, ping), ExactRoute, req, env, 0);
  }

  /** With `forceAuth` off, a connecting socket is admitted untouched; once
      listened to, `echo 1 2` runs the echo handler with exactly those
      arguments, and an unregistered event runs nothing. */
  lemma EchoOnAdmittedSocket(result: Settled<JsValue>)
    ensures
      var echo := Socket.SocketHandler(1, "echo", false);
      var env := Socket.Env((g, k) => Returned(Undefined), (a, k) => Returned(true), (h, args) => result);
      var s := Socket.AddHandler(Socket.Init(None, false, None), echo);
      var c := Socket.SocketConnect(s, 5, env);
      var t := Socket.ListenToSocket(c.registry, 5);
      && c.outcome == Socket.Admitted
      && Socket.Deliver(t, 5, "echo", [Value(1), Value(2)], env)
           == [Socket.SocketDispatch([Socket.RunCalled(1, [Value(1), Value(2)])], result)]
      && Socket.Deliver(t, 5, "noop", [], env) == [Socket.SocketDispatch([], Returned(Undefined))]
  {
  }
}
