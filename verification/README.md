# easytcp router and session manager, modelled in Dafny

This project models two sequential cores of the easytcp message server.

- **The Router** (`router.dfy`, module `Router`). It holds four things:
  - a table from message ID to handler;
  - a table from message ID to a per-ID middleware list;
  - a global middleware list;
  - an optional not-found handler.

  Registration (`register`, `registerMiddleware`, `setNotFoundHandler`) updates this state. Dispatch (`handleRequest`) does three things:
  - it resolves a handler, falling back from the bound handler to the not-found handler and then to `nilHandler`;
  - it builds the list `global ++ perId`;
  - it wraps that list right-to-left around the handler, giving `m1(m2(...mn(h)))`.

  Handlers and middlewares are symbolic names (type parameters `H` and `M`). A possibly-nil Go argument is an `Options.Option`, with `None` for nil. The composed stack is the term `Chain = Base(target) | Wrap(m, next)`. `Semantics` maps the names to `HandlerFunc`s and middleware functions, and `Run` gives the function a stack denotes. `Trace` lists the enter, invoke and leave events of one call. It is used to state the entry and exit order.
- **The Session Manager** (`session_manager.dfy`, module `SessionManager`). It is a directory from session ID to session. In Go it is backed by `sync.Map`. Here it is a `map<string, Session<P>>`. A `Session` shows only its `id`; `impl` stands for the rest of a concrete session. The lazily created `Sessions()` singleton is the package state `Singleton`, which holds an optional manager.

`options.dfy` holds `Option` and the comma-ok map lookup `Lookup`.

Two behaviours of the code are worth stating plainly:

- `register` replaces the ID's per-ID middleware list and does not extend it (router.go:105-107). It does so only when at least one non-nil middleware remains. `Router.LastRegistrationWins` states the replacing behaviour.
- `setNotFoundHandler` is a plain assignment (router.go:134), so passing nil clears the fallback. `Router.NotFoundServesUnbound` covers both cases.

## Model

| member | source | states |
|---|---|---|
| Router.NewRouter | router.go:11-16 | A fresh router has no bound handler, no per-ID list, no globals and no not-found handler, and satisfies the invariant "no per-ID list is empty" that registration keeps. |
| Router.NonNil | router.go:99-104 | The filtered list keeps only non-nil middlewares and keeps all of them: every element comes from a `Some` argument, and every `Some` argument appears in it. |
| Router.NonNilAppend | router.go:99-104 | Filtering distributes over concatenation, so the non-nil middlewares keep their relative order. |
| Router.Register | router.go:95-108 | A non-nil handler becomes the ID's binding. A nil handler leaves the binding as it was. The per-ID list is replaced by exactly the non-nil middlewares, and is left unchanged when none remain. Entries for other IDs, the globals and the not-found handler do not change. The invariant "no per-ID list is empty" is preserved. |
| Router.RegisterMiddleware | router.go:111-117 | Appending one argument at a time, as the Go loop does, gives `old globals ++ non-nil arguments`. The old globals stay a prefix, and the other fields do not change. |
| Router.NotFoundServesUnbound | router.go:133-135 | After `setNotFoundHandler(h)`, bound IDs still resolve to their own handler. Unbound IDs resolve to `h`, or to `nilHandler` when `h` is nil, because the plain assignment clears the fallback. |
| Router.SetNotFoundHandler | router.go:133-135 | The not-found handler becomes exactly the argument, nil included. The handler table, the per-ID lists and the globals do not change. |
| Router.Fallback | router.go:80-85 | The resolved handler is the one passed in if non-nil, else the not-found handler. It is `nilHandler` exactly when both are nil. |
| Router.Middlewares | router.go:64-67 | The effective list has the globals as a prefix. It is followed by the ID's per-ID list, or by nothing when the ID has none. Under the registration invariant, an ID with a per-ID list gets at least one layer beyond the globals. |
| Router.Compose | router.go:76-92 | Composition puts `ms[0]` outermost: the stack's layers, read from the outside in, are exactly `ms`, and its innermost handler is the target. |
| Router.ComposeOfParts | router.go:76-92 | Every stack equals the composition of its own layers around its own innermost handler, so the layers and the innermost handler determine a composed stack. |
| Router.WrapHandlers | router.go:79-92 | The downward loop over `middles`, after the fallback, builds exactly `Compose(fallback, middles)`. Its layers are `middles`, and it ends in `nilHandler` exactly when neither the handler nor the not-found handler is set. |
| Router.HandleRequest | router.go:55-58 | A context without a request entry returns success and runs nothing. |
| Router.UnboundWithoutFallbackSucceeds | router.go:49-51 | An ID with no bound handler, on a router with no not-found handler, resolves to `nilHandler`. The dispatch then succeeds whenever none of its middlewares fails on its own, that is, each succeeds whenever its `next` always does. By `Router.PassThroughNeverFails`, every pass-through middleware meets this requirement, so it is weaker than asking for pass-through. |
| Router.NeverFailingStack | router.go:49-51 | Middlewares that never fail on their own, wrapped around `nilHandler`, give a stack that succeeds on every context. |
| Router.PassThroughStack | router.go:70-73 | Pass-through middlewares around a handler leave its outcome unchanged: the chain's result is returned as is. |
| Router.NewRouterSucceeds | router.go:11-16 | On a fresh router, every request dispatches to success. |
| Router.NewRouterResolvesNil | router.go:11-16 | On a fresh router, every ID's stack is `nilHandler` with no middleware around it. |
| Router.ComposeOrder | router.go:76-92 | The call structure of the composed stack `m1(...mn(t))`: `m1..mn` are entered in order, `t` sits innermost, and `mn..m1` are left in reverse. |
| Router.DispatchOrder | router.go:59-73 | The call structure of the stack a dispatch builds: the globals in registration order are entered first, then the per-ID middlewares, the resolved handler sits innermost, and all layers are left in reverse order. |
| Router.RegisterRoutes | router.go:95-108 | After `register(id, h, m...)` with at least one non-nil middleware, a request for `id` runs `globals ++ nonNil(m)` around `h`. |
| Router.LastRegistrationWins | router.go:95-108 | A second registration for an ID replaces the first one's handler and middleware list. The list is replaced, not extended. |
| Router.RegisterNilHandlerKeepsRoute | router.go:96-98 | A nil handler never unbinds. The ID resolves as before, and with no non-nil middlewares its whole stack is as before. |
| Router.RegisterLeavesOtherRoutes | router.go:95-108 | Registering for one ID leaves the stack of every other ID unchanged. |
| Router.GlobalsRunFirst | router.go:111-117 | Globals registered after the per-ID middlewares still run before them. Handler resolution is unaffected. |
| SessionManager.Get | session/manager.go:37-43 | `Get` finds a session exactly when the ID is stored, and returns the stored one. Under the manager invariant, that session carries the ID it was asked for. A missing ID gives nil. |
| SessionManager.Add | session/manager.go:26-31 | `Add(nil)` leaves the manager unchanged. Otherwise the session is afterwards found under its own ID, other IDs are untouched, and the invariant "stored under own ID" is kept. |
| SessionManager.Remove | session/manager.go:33-35 | After `Remove(id)`, `id` is not found. Other IDs are untouched, and removing an absent ID changes nothing. |
| SessionManager.SameAnswersSameManager | session/manager.go:37-43 | Two managers that give the same answer to every `Get` are equal, so the `Get`-based contracts determine the results completely. |
| SessionManager.AddThenRemove | session/manager.go:26-35 | Adding a session and then removing its ID leaves the same manager as only removing it. |
| SessionManager.LastAddWins | session/manager.go:30 | A second `Add` with the same ID overwrites the first. |
| SessionManager.AnswersAt | session/manager.go:45-49 | Each recorded visitor answer is what the visitor returns for that entry, in the state that the earlier calls left. |
| SessionManager.Range | session/manager.go:45-49 | Each call gets a stored entry's own key and value, and no key is visited twice. Every answer is the visitor's own. No call follows a `false`. Unless the last answer was `false`, every stored entry was visited. |
| SessionManager.Sessions | session/manager.go:19-24 | The first call creates an empty manager and stores it. A later call returns the stored manager and leaves the package state alone. |
| SessionManager.SessionsOnce | session/manager.go:19-24 | Any number of successive calls all return the first call's manager. The package state is set only by the first call. |

## Left out

- `printHandlers` (router.go:119-131): it prints a route table to standard output and names handlers by reflection. It is diagnostic only and changes no state.
- `server/udp_server.go` as a whole: socket I/O, goroutine fan-out per datagram, channel signalling and `Stop`. This is I/O and concurrency, not sequential logic.
- Concurrency of `sync.Map` and `sync.Once`: only sequential behaviour is modelled. There is no weakly consistent `Range` under concurrent mutation and no initialisation race.
- Go slice aliasing in `append(r.globalMiddlewares, v...)` (router.go:66). This can write into spare capacity of the globals' backing array, which matters only under concurrent dispatch. Lists here are immutable sequences.
- The contents of `routeContext`, the packer and the codec, and concrete `Session` implementations. These are external. A context is modelled by its request entry only, and handler and middleware behaviour enters only through `Semantics`.
- The iteration order of `sync.Map` in `Range` is unspecified. The model picks the next key nondeterministically, so the contract of `Range` holds for every order. The Go visitor is a closure; it is modelled as a pure function over an explicit state `A` that the caller supplies.
- `Stop` in the server closes the `stopped` channel without a guard, so a second call would panic. Like the rest of the server, it is not modelled.
- SessionManager.Sessions: Go returns a pointer, so later callers share one mutable object. The model returns the stored manager value, so pointer identity is shown as "the same stored value, never re-created". No operation writes a changed manager back into `Singleton`, so an `Add` or `Remove` applied to the returned manager is not seen by a later `Sessions()` call, whereas in Go it is.
- Router.UnboundWithoutFallbackSucceeds: a middleware may itself fail, so success is proved only when no middleware fails on its own.
- Router.DispatchOrder: `Trace` describes the composed stack's layering and assumes every middleware calls `next` exactly once. It is not derived from `Run`; a middleware that returns without calling `next`, or calls it twice, runs differently from its trace. The same holds for `Router.ComposeOrder`.
