# Handler registries of a REST + socket server boilerplate, in Dafny

This project models the request-dispatch core of a small TypeScript server
library. The library has two registries and one plugin loader:

- **The REST registry** (`RESTServer`). It keeps a live set of handler objects
  and installs one route binding per `addHandler` call. A binding closes over its
  handler object. On every request the binding first checks whether that object
  is still in the live set:
  - if it is not, the binding calls a bare `next()`;
  - if it is, the binding resolves the user through the *current* `getUser`
    (only when the handler asks for one), awaits `run`, and turns every throw
    into `next(e)`.

  Bindings are never uninstalled. Removing a handler makes its bindings inert.
  Adding a handler that is already live stacks a second binding.
- **The plugin loader** (`import` / `_import`). It walks a directory tree and
  loads every `.ts` or `.js` file. Each default export it finds is registered.
  Every other loaded file records exactly one failure message:
  `"<file> is not a REST handler"` or `"<file> failed to import"`.
- **The socket registry** (`SocketServer`). It keeps a map from event name to
  handler, so a later registration for an event replaces the earlier one. A
  handler is looked up when the event is dispatched. The connection gate
  (`socketConnect`) disconnects a socket when `forceAuth` is set and
  `authCheck` is absent or falsy. Attaching the catch-all listener that
  dispatches events is the separate call `listenToSocket`.

Every registry is an immutable record, and every operation is a pure function
from one state to the next. Dispatch functions return the callbacks they
invoked, in order, together with how the dispatch ended. What the
application's callbacks (`run`, `getUser`, `authCheck`) do is a parameter
(`Env`): for each call, did it return a value or throw one? The web
framework's router is a parameter too (`Matcher`). The socket transport's side
effects are recorded in the state: the catch-all listeners attached with
`onAny`, and the sockets disconnected.

Modules:
- `Values` holds the shared vocabulary: `Option`, object references, JS values,
  and how a callback settled.
- `RESTRegistry` holds the REST registry, the per-binding dispatch and routing.
- `RESTHistory` holds lemmas about any sequence of REST registry calls.
- `PluginLoader` holds the directory scan and the import into the REST registry.
- `SocketRegistry` holds the socket registry, the gate, and the dispatch.
- `SocketHistory` holds lemmas about any sequence of socket registry calls.
- `Scenarios` holds two concrete walks: a `/ping` route and an `echo` event.

Behaviour of the code worth knowing before reading the model:

- The socket handler's `run` receives `(user, ...args)` when it asks for the
  user, and `(...args)` otherwise. The socket is never passed to it.
- `socketConnect` never calls `listenToSocket`. An admitted socket therefore
  dispatches nothing until the application calls `listenToSocket` itself
  (`SocketHistory.UnlistenedSocketReachesNoHandler`).
- Each `listenToSocket` call attaches one more catch-all listener, while the
  listener map keeps a single entry per socket. A socket listened to twice
  handles every event twice (`SocketHistory.EventsHandledOncePerListen`).
- A handler added twice has two bindings, not one
  (`RESTHistory.BindingsCountAdds`).
- The failure message reads "is not a REST handler".
- `import(directory)` lists its argument with `readdir` first. A root that is
  not a directory registers nothing (`PluginLoader.ScanRoot`).

## Model

| member | source | states |
|---|---|---|
| RESTRegistry.MethodNamesDistinct | src/RESTServer.ts:17-28 | the ten string values of the methods (`MethodName`) are pairwise distinct, so the datatype represents the enum one-to-one |
| RESTRegistry.Init | src/RESTServer.ts:40-45 | a new registry has nothing live and nothing bound, keeps the given `getUser` option, and satisfies the registry invariant |
| RESTRegistry.SetGetUser | src/RESTServer.ts:61-63 | `setGetUser` installs the getter and changes nothing else |
| RESTRegistry.AddHandler | src/RESTServer.ts:64-66 | `addHandler` makes the handler live and appends exactly one binding for its method and path; earlier bindings are unchanged |
| RESTRegistry.AddHandlerCountsOneBinding | src/RESTServer.ts:64-66 | each `addHandler` adds one binding for its handler and none for any other |
| RESTRegistry.AddHandlerKeepsValid | src/RESTServer.ts:64-66 | after `addHandler`, every live handler still has a binding installed for its own route |
| RESTRegistry.RemoveHandler | src/RESTServer.ts:80-82 | `removeHandler` removes only that handler from the live set and never touches the bindings |
| RESTRegistry.AddLiveHandlerStacksBinding | src/RESTServer.ts:64-66 | adding a handler that is already live leaves the live set unchanged but adds a second binding |
| RESTRegistry.ReAddAfterRemoveIsDuplicateAdd | src/RESTServer.ts:64-82 | removing a live handler and adding it back gives the same state as adding it again while live |
| RESTRegistry.Invoke | src/RESTServer.ts:71-77 | `run` is called once; a return completes the dispatch and a throw becomes `next(e)` with the thrown value |
| RESTRegistry.DispatchAt | src/RESTServer.ts:66-78 | a binding falls through with no callback exactly when its handler is not live. Only its own handler runs, at most once, as the last call; the getter is called at most once, before it. `sendUser = false` never calls `getUser`. `sendUser = true` calls the getter current at dispatch time and passes its result, or `undefined` when there is no getter. A dispatch becomes `next(e)` exactly when the last callback threw, and `e` is what it threw |
| RESTRegistry.RouteFrom | src/RESTServer.ts:66-67 | a request offered to the bindings in installation order runs only live handlers, and falls through without any callback |
| RESTRegistry.Route | src/RESTServer.ts:66-67 | a request never runs a handler outside the live set |
| RESTRegistry.RouteReachesFirstAnswer | src/RESTServer.ts:66-67 | the request is settled by the first binding that both receives it and has a live handler (every thrown value counted as an error, see "Left out") |
| RESTRegistry.RouteFallsThroughWithoutAnswer | src/RESTServer.ts:67 | with no receiving binding whose handler is live, the request falls through and no callback runs |
| RESTRegistry.RemovedHandlerNeverRuns | src/RESTServer.ts:80-82 | after `removeHandler(h)`, no request runs `h`, whatever bindings it has |
| RESTRegistry.InertBindingIsInvisible | src/RESTServer.ts:67 | a binding whose handler is not live, inserted at any position of the list, changes no routing outcome |
| RESTRegistry.AddThenRemoveRoutesAsRemove | src/RESTServer.ts:64-82 | add-then-remove leaves one more binding but routes every request exactly as remove alone |
| RESTRegistry.AddedHandlerAnswers | src/RESTServer.ts:64-78 | a freshly added handler whose route receives the request answers through its new binding when no earlier binding does: only getter calls precede `run`, which is invoked at most once, and exactly once (as the last call, with the right user argument) unless the getter it asks for throws |
| RESTRegistry.SetGetUserTakesEffect | src/RESTServer.ts:61-71 | after `setGetUser(g)`, the next dispatch of a live `sendUser` handler calls `g` and passes its user to `run` |
| RESTHistory.BindingsOnlyGrow | src/RESTServer.ts:64-82 | over any sequence of calls, the earlier bindings stay a prefix of the later ones |
| RESTHistory.BindingsCountAdds | src/RESTServer.ts:64-82 | a handler's binding count is exactly its number of `addHandler` calls; removals do not lower it |
| RESTHistory.LiveIffLastTouchAdded | src/RESTServer.ts:64-82 | a handler is live exactly when its last add/remove call was an add, or it was untouched and live before |
| RESTHistory.GetUserIsLastReplacement | src/RESTServer.ts:40-45 | the getter in force is the one from the last `setGetUser`, or the constructor's when there was none |
| RESTHistory.ReplayKeepsValid | src/RESTServer.ts:64-82 | every sequence of calls keeps every live handler bound for its own route |
| RESTHistory.RemovedHandlerStaysSilent | src/RESTServer.ts:67 | once the last add/remove call for a handler removed it, no request runs it |
| PluginLoader.ModuleFileExamples | src/RESTServer.ts:97-99 | `.ts` and `.js` names, `a.d.ts` included, are loaded; `.md`, `.tsx` and bare `ts` are not |
| PluginLoader.FailureMessagesIdentifyFile | src/RESTServer.ts:104-114 | a failure message determines its file name and its kind of failure |
| PluginLoader.LoadFile | src/RESTServer.ts:97-115 | a non-module file is ignored. A module yields one registration (a default export) or one failure, with the message for a falsy default or for a throw |
| PluginLoader.LoadAll | src/RESTServer.ts:100-115 | over a listing, registrations count the files with a default export, and failures count the other module files |
| PluginLoader.LoadAllContents | src/RESTServer.ts:100-115 | a handler is registered exactly as many times as module files of the listing export it by default, and a failure message is recorded exactly as many times as module files fail with it; so each registration and each failure comes from a file |
| PluginLoader.LoadAllAppend | src/RESTServer.ts:89-92 | loading two listings gives the union of their outcomes |
| PluginLoader.ScanEntry | src/RESTServer.ts:88-99 | scanning an entry gives exactly the outcome of loading every file reachable through readable directories |
| PluginLoader.ScanChildren | src/RESTServer.ts:89-117 | scanning a directory's entries gives exactly the outcome of loading every file below them |
| PluginLoader.ScanAccountsForEveryModule | src/RESTServer.ts:88-118 | registrations plus failures equal the number of `.ts`/`.js` files the scan reaches |
| PluginLoader.ScanChildrenAppend | src/RESTServer.ts:89-92 | splitting a directory listing splits the scan outcome |
| PluginLoader.ScanChildrenMoveToFront | src/RESTServer.ts:89-92 | moving one entry to the front of a listing leaves the outcome unchanged |
| PluginLoader.ScanIgnoresListingOrder | src/RESTServer.ts:89-92 | every reordering of a directory's entries gives the same registrations and failures |
| PluginLoader.AddAll | src/RESTServer.ts:108 | registering handlers in some order adds exactly their references to the live set and appends one binding each, in that order |
| PluginLoader.AddAllKeepsValid | src/RESTServer.ts:64-66 | registering handlers one after another keeps every binding on its handler's route and every live handler bound |
| PluginLoader.AddAllBindsInOrder | src/RESTServer.ts:64-66 | the `k`-th binding appended belongs to the `k`-th handler registered and is installed for its method and path |
| PluginLoader.ScanRoot | src/RESTServer.ts:83-92 | the scan `import` starts loads exactly the files below the root's entries; a root that is not a directory yields no registration and no failure |
| PluginLoader.Import | src/RESTServer.ts:83-118 | a completed import records the scan's failures. In any completion order, the live set gains exactly the registered handlers' references; after the earlier bindings comes one binding per registered handler, in completion order, for that handler's route; bindings added plus failures equal the module files reached; a root that is not a directory changes nothing; the registry invariant is kept |
| SocketRegistry.Init | src/SocketServer.ts:28-36 | a new registry has no handlers, no listeners and no disconnected socket, keeps the given `getUser`, `forceAuth` and `authCheck` options, and satisfies the registry invariant |
| SocketRegistry.AddHandler | src/SocketServer.ts:63-65 | `addHandler` puts the handler under its event, replacing any earlier one; other events and all other state are unchanged |
| SocketRegistry.RemoveHandlerByEvent | src/SocketServer.ts:69-71 | `removeHandlerByEvent(e)` deletes only `e`; it is a no-op when `e` is absent |
| SocketRegistry.RemoveHandler | src/SocketServer.ts:66-68 | `removeHandler(h)` deletes the key `h.event`, whichever handler object is stored there |
| SocketRegistry.ListenToSocket | src/SocketServer.ts:47-51 | `listenToSocket(s)` leaves exactly one listener entry for `s` and attaches one more catch-all listener; other sockets are unchanged |
| SocketRegistry.SocketConnect | src/SocketServer.ts:37-46 | the socket is rejected exactly when `forceAuth` is set and `authCheck` is absent or falsy. Rejection disconnects it and drops its listener entry. Rejection leaves every other socket's listener entry as it was. Otherwise nothing changes, and the gate never attaches a listener. A throwing `authCheck` is exactly the `AuthThrew` outcome, with the thrown value, and changes nothing |
| SocketRegistry.HandleSocket | src/SocketServer.ts:52-62 | an unhandled event settles to `undefined` with no callback. Otherwise only the handler registered now runs, once, with the event's arguments, prefixed by the current getter's user when it asks for one (`undefined` with no getter). A resolving getter is called, then `run` with its user. A throwing `getUser` stops before `run` and rejects the result |
| SocketRegistry.Deliver | src/SocketServer.ts:47-62 | a disconnected socket, or one without catch-all listeners, delivers nothing; otherwise every delivery is the `handleSocket` call |
| SocketRegistry.LatestRegistrationWins | src/SocketServer.ts:63-65 | a second registration for an event replaces the first, and only the latest handler runs |
| SocketRegistry.ChangesApplyImmediately | src/SocketServer.ts:52-68 | an added handler runs on the very next dispatch of its event, with the user the current getter resolves (or `undefined` without a getter) when it asks for one; a removed event is dropped on the very next dispatch |
| SocketRegistry.ListenTwiceHandlesTwice | src/SocketServer.ts:47-51 | listening twice keeps one listener entry but handles each event twice |
| SocketHistory.HandlerIsLastRegistration | src/SocketServer.ts:63-71 | the handler under an event is the one from the last call touching that event; a later removal empties it; untouched events keep what they had |
| SocketHistory.OnlyLatestHandlerRuns | src/SocketServer.ts:52-65 | only the handler of the last registration for an event runs for it |
| SocketHistory.CatchAllCountsListens | src/SocketServer.ts:37-51 | a socket carries one catch-all listener per `listenToSocket` call, and connecting attaches none |
| SocketHistory.DisconnectedOnlyGrows | src/SocketServer.ts:37-46 | a disconnected socket stays disconnected through any sequence of calls |
| SocketHistory.RejectedSocketReachesNoHandler | src/SocketServer.ts:37-46 | a socket the gate rejected never reaches any handler, whatever is registered or listened to later |
| SocketHistory.UnlistenedSocketReachesNoHandler | src/SocketServer.ts:37-51 | a socket never passed to `listenToSocket` delivers no event, admitted or not |
| SocketHistory.EventsHandledOncePerListen | src/SocketServer.ts:47-51 | a connected socket handles each event once per `listenToSocket` call made on it |
| SocketHistory.ReplayKeepsValid | src/SocketServer.ts:37-71 | every sequence of calls keeps handlers under their own event and listener entries bound to their own socket |
| Scenarios.PingAnswersUntilRemoved | src/RESTServer.ts:64-82 | GET `/ping` runs its handler once without a user; after removal the same request falls through with no callback |
| Scenarios.EchoOnAdmittedSocket | src/SocketServer.ts:37-65 | without `forceAuth` the socket is admitted unchanged. Once listened to, `echo 1 2` runs the echo handler with exactly `1, 2`, and an unregistered event runs nothing |

## Left out

- Construction of the web server (`express()`, the JSON and CORS middleware, HTTPS versus plain `listen`, the port): this configures external libraries. Only the `getUser` option is modelled (`RESTRegistry.Init`).
- Route matching: path patterns and the meaning of `ALL` belong to the web framework's router, which is the `Matcher` parameter.
- The socket.io server, its `connection` event wiring, `onAny` and `disconnect()`. Connecting is the `Connect` step. `onAny` and `disconnect()` are recorded as effects in `Transport`.
- `fs.readdir`, `fs.lstat`, dynamic `import()` and console logging. The file system is the `Entry` tree, whose files carry the outcome of loading them. A listing or `lstat` that rejects is an `Unreadable` entry. Its rejection is not caught by the source, so it contributes nothing and records no message. A root that is not a directory is treated the same way.
- Timing and interleaving. `import` returns its failure list before the scan fills it, and the import promise is not awaited. Only the final outcome of a completed scan is modelled, as multisets; the order in which loaded handlers register is the `completion` parameter of `PluginLoader.Import`. Events that arrive while `authCheck` is pending, and handlers interleaving with one another, are not modelled.
- The bodies of `run`, `getUser` and `authCheck`. What they return or throw is the `Env` parameter. A `run` that calls `next` itself is not modelled: a `run` that returns counts as having answered the request.
- How the web framework treats the value passed to `next(e)`. A falsy thrown value (`undefined`, `null`, `false`, `0`, `""`, `NaN`) or the string `"route"` makes Express continue with the next matching route, and the string `"router"` makes the request leave the router. `Route` treats every thrown value as an error that ends routing (`Forwarded`). So `RouteReachesFirstAnswer`, `AddThenRemoveRoutesAsRemove` and the other routing lemmas describe Express only for thrown values that are truthy and not `"route"`/`"router"`.
- Mutation of a handler object after registration. The model reads `method`, `path` and `sendUser` from the object as it was when it was registered.
- A truthy default export that is not a handler. There `addHandler` inserts it into the live set, then throws, and the loader records "failed to import". A `Default` module in the model always carries a well-formed handler.
- PluginLoader.Import: states the failure list of a completed scan. The list the source returns is still being filled at that point.
- Unhandled promise rejections. The rejections of `readdir`/`lstat` in `_import` (whose promise `import` drops), of `authCheck` in the async `connection` listener, and of `getUser` or `run` in the async `onAny` listener are never caught. Since Node.js 15 such a rejection ends the process by default. The model assumes the process survives them: its claims that sibling entries still load, that a throwing `authCheck` changes nothing, and that later events are still delivered hold only under that assumption.
- `index.ts`: it only re-exports names.

