/** The message router: a table from message ID to handler, a table from
    message ID to per-ID middlewares, a global middleware list and an optional
    not-found handler; registration updates them, and dispatch resolves a
    handler and wraps it in `global ++ perId` middlewares, right to left.

    Handlers (`H`) and middlewares (`M`) are symbolic names. Where the Go code
    accepts a possibly-nil function, the model takes an `Option`. The composed
    call stack is the term `Chain`; `Semantics` gives the names a meaning as
    functions so that a dispatch can be run. */
module Router {
  import opened Options

  // ------------------------------------------------------------------ state

  /** What a composed stack ends in: a handler of the caller's, or the
      package's `nilHandler`, which succeeds without doing anything. */
  datatype Target<H> = Handler(h: H) | NilHandler

  /** A composed stack: `Wrap(m1, Wrap(m2, Base(t)))` is `m1(m2(t))`. */
  datatype Chain<H, M> = Base(target: Target<H>) | Wrap(middleware: M, next: Chain<H, M>)

  /** The four fields of a router. Registration never stores a nil handler
      or middleware, so the tables hold plain names. */
  datatype RouterState<Id, H, M> = RouterState(
    handlerMapper: map<Id, H>,
    middlewaresMapper: map<Id, seq<M>>,
    globalMiddlewares: seq<M>,
    notFoundHandler: Option<H>)

  /** The invariant registration keeps: a per-ID middleware list is never empty. */
  predicate Valid<Id, H, M>(r: RouterState<Id, H, M>) {
    forall id | id in r.middlewaresMapper :: r.middlewaresMapper[id] != []
  }

  // ---------------------------------------------------------- registration

  /** `newRouter`: empty tables, no globals, no not-found handler; every ID
      then resolves to `nilHandler` with no middleware around it. */
  function NewRouter<Id, H, M>(): (r: RouterState<Id, H, M>)
    ensures Valid(r)
    ensures r.handlerMapper.Keys == {} && r.middlewaresMapper.Keys == {}
    ensures r.globalMiddlewares == [] && r.notFoundHandler.None?
  {
    RouterState(map[], map[], [], None)
  }

  /** The non-nil entries of `ms`, in their original order: the filtering
      loops of `register` and `registerMiddleware`. */
  function NonNil<M>(ms: seq<Option<M>>): (r: seq<M>)
    ensures |r| <= |ms|
    ensures forall i | 0 <= i < |r| :: Some(r[i]) in ms
    ensures forall i | 0 <= i < |ms| && ms[i].Some? :: ms[i].value in r
  {
    if ms == [] then []
    else if ms[0].Some? then [ms[0].value] + NonNil(ms[1..])
    else NonNil(ms[1..])
  }

  /** Filtering commutes with concatenation, so it keeps the relative order. */
  lemma {:induction false} NonNilAppend<M>(a: seq<Option<M>>, b: seq<Option<M>>)
    ensures NonNil(a + b) == NonNil(a) + NonNil(b)
  {
    if a == [] {
      assert a + b == b;
    } else {
      assert (a + b)[1..] == a[1..] + b;
      NonNilAppend(a[1..], b);
    }
  }

  /** `register(id, h, m...)`. */
  function Register<Id, H, M>(r: RouterState<Id, H, M>, id: Id, h: Option<H>, m: seq<Option<M>>)
    : (r': RouterState<Id, H, M>)
    // a non-nil handler becomes the binding; a nil one leaves the binding alone
    ensures h.Some? ==> Lookup(r'.handlerMapper, id) == h
    ensures h.None? ==> Lookup(r'.handlerMapper, id) == Lookup(r.handlerMapper, id)
    // the per-ID list is replaced by exactly the non-nil middlewares, if any remain
    ensures NonNil(m) != [] ==> Lookup(r'.middlewaresMapper, id) == Some(NonNil(m))
    ensures NonNil(m) == [] ==> Lookup(r'.middlewaresMapper, id) == Lookup(r.middlewaresMapper, id)
    // nothing else changes
    ensures r'.handlerMapper - {id} == r.handlerMapper - {id}
    ensures r'.middlewaresMapper - {id} == r.middlewaresMapper - {id}
    ensures r'.globalMiddlewares == r.globalMiddlewares
    ensures r'.notFoundHandler == r.notFoundHandler
    ensures Valid(r) ==> Valid(r')
  {
    var ms := NonNil(m);
    RouterState(
      if h.Some? then r.handlerMapper[id := h.value] else r.handlerMapper,
      if ms != [] then r.middlewaresMapper[id := ms] else r.middlewaresMapper,
      r.globalMiddlewares,
      r.notFoundHandler)
  }

  /** `registerMiddleware(m...)`, one argument at a time as the Go loop does:
      each non-nil middleware is appended to the globals. */
  function RegisterMiddleware<Id, H, M>(r: RouterState<Id, H, M>, m: seq<Option<M>>)
    : (r': RouterState<Id, H, M>)
    ensures r'.globalMiddlewares == r.globalMiddlewares + NonNil(m)
    ensures r.globalMiddlewares <= r'.globalMiddlewares
    ensures r'.handlerMapper == r.handlerMapper
    ensures r'.middlewaresMapper == r.middlewaresMapper
    ensures r'.notFoundHandler == r.notFoundHandler
    decreases |m|
  {
    if m == [] then r
    else
      var r1 := if m[0].Some? then r.(globalMiddlewares := r.globalMiddlewares + [m[0].value]) else r;
      assert r1.globalMiddlewares + NonNil(m[1..]) == r.globalMiddlewares + NonNil(m);
      RegisterMiddleware(r1, m[1..])
  }

  /** `setNotFoundHandler(handler)`: a plain assignment, so a nil argument
      clears the fallback. */
  function SetNotFoundHandler<Id, H, M>(r: RouterState<Id, H, M>, h: Option<H>): (r': RouterState<Id, H, M>)
    ensures r'.notFoundHandler == h
    ensures r'.handlerMapper == r.handlerMapper
    ensures r'.middlewaresMapper == r.middlewaresMapper
    ensures r'.globalMiddlewares == r.globalMiddlewares
  {
    r.(notFoundHandler := h)
  }

  // -------------------------------------------------------------- dispatch

  /** The fallback at the head of `wrapHandlers`: the handler passed in,
      else the not-found handler, else `nilHandler`. */
  function Fallback<Id, H, M>(r: RouterState<Id, H, M>, handler: Option<H>): (t: Target<H>)
    ensures handler.Some? ==> t == Handler(handler.value)
    ensures handler.None? && r.notFoundHandler.Some? ==> t == Handler(r.notFoundHandler.value)
    ensures t == NilHandler <==> handler.None? && r.notFoundHandler.None?
  {
    match handler
    case Some(h) => Handler(h)
    case None =>
      match r.notFoundHandler
      case Some(nf) => Handler(nf)
      case None => NilHandler
  }

  /** The handler a request for `id` ends in. */
  function Resolve<Id, H, M>(r: RouterState<Id, H, M>, id: Id): Target<H> {
    Fallback(r, Lookup(r.handlerMapper, id))
  }

  /** The per-ID middlewares of `id`, or none. */
  function PerId<Id, H, M>(r: RouterState<Id, H, M>, id: Id): seq<M> {
    if id in r.middlewaresMapper then r.middlewaresMapper[id] else []
  }

  /** The middleware list `handleRequest` builds for `id`. */
  function Middlewares<Id, H, M>(r: RouterState<Id, H, M>, id: Id): (ms: seq<M>)
    ensures r.globalMiddlewares <= ms
    ensures id !in r.middlewaresMapper ==> ms == r.globalMiddlewares
    ensures id in r.middlewaresMapper ==> ms[|r.globalMiddlewares|..] == r.middlewaresMapper[id]
    // registration never stores an empty per-ID list, so such an ID adds at least one layer
    ensures Valid(r) && id in r.middlewaresMapper ==> |ms| > |r.globalMiddlewares|
  {
    var mws := r.globalMiddlewares;
    match Lookup(r.middlewaresMapper, id)
    case Some(v) => mws + v
    case None => mws
  }

  /** The middleware names of a stack, outermost first. */
  function Layers<H, M>(c: Chain<H, M>): seq<M> {
    match c
    case Base(_) => []
    case Wrap(m, next) => [m] + Layers(next)
  }

  /** The handler at the bottom of a stack. */
  function Innermost<H, M>(c: Chain<H, M>): Target<H> {
    match c
    case Base(t) => t
    case Wrap(_, next) => Innermost(next)
  }

  /** `m1(m2(...mn(t)))` for `ms == [m1, ..., mn]`. */
  function Compose<H, M>(t: Target<H>, ms: seq<M>): (c: Chain<H, M>)
    ensures Layers(c) == ms
    ensures Innermost(c) == t
  {
    if ms == [] then Base(t) else Wrap(ms[0], Compose(t, ms[1..]))
  }

  /** Every stack is the composition of its own layers around its own
      innermost handler, so `Compose` is the only way to build one. */
  lemma {:induction false} ComposeOfParts<H, M>(c: Chain<H, M>)
    ensures Compose(Innermost(c), Layers(c)) == c
  {
    match c
    case Base(_) =>
    case Wrap(m, next) =>
      ComposeOfParts(next);
      assert Layers(c)[1..] == Layers(next);
  }

  /** `wrapHandlers(handler, middles)`: the fallback, then the loop that
      wraps from the last middleware to the first. */
  method WrapHandlers<Id, H, M>(r: RouterState<Id, H, M>, handler: Option<H>, middles: seq<M>)
    returns (wrapped: Chain<H, M>)
    ensures wrapped == Compose(Fallback(r, handler), middles)
    ensures Layers(wrapped) == middles
    ensures Innermost(wrapped) == NilHandler <==> handler.None? && r.notFoundHandler.None?
  {
    var h := handler;
    if h.None? {
      h := r.notFoundHandler;
    }
    var t := if h.Some? then Handler(h.value) else NilHandler;
    wrapped := Base(t);
    var i := |middles|;
    while i > 0
      invariant 0 <= i <= |middles|
      invariant wrapped == Compose(t, middles[i..])
    {
      i := i - 1;
      assert middles[i..][1..] == middles[i + 1..];
      wrapped := Wrap(middles[i], wrapped);
    }
  }

  /** The stack `handleRequest` builds for `id`. */
  function ChainFor<Id, H, M>(r: RouterState<Id, H, M>, id: Id): Chain<H, M> {
    Compose(Resolve(r, id), Middlewares(r, id))
  }

  // ------------------------------------------------------------- execution

  /** The outcome of a handler: Go's `error`, where nil is success. */
  datatype Outcome<E> = Success | Failure(err: E)

  /** An inbound message entry; routing reads only its ID. */
  datatype Entry<Id, D> = Entry(ID: Id, data: D)

  /** The part of a route context the router reads: the request entry, which may be nil. */
  datatype RouteContext<Id, D> = RouteContext(reqEntry: Option<Entry<Id, D>>)

  type HandlerFunc<!Id, !D, E> = RouteContext<Id, D> -> Outcome<E>

  /** What the handler and middleware names stand for: a `HandlerFunc` and a
      `MiddlewareFunc` (a function from handler to handler). */
  datatype Semantics<!Id, !D, !E, !H, !M> = Semantics(
    handle: H -> HandlerFunc<Id, D, E>,
    wrap: M -> HandlerFunc<Id, D, E> -> HandlerFunc<Id, D, E>)

  /** The function a stack denotes. */
  function Run<Id, D, E, H, M>(sem: Semantics<Id, D, E, H, M>, c: Chain<H, M>): HandlerFunc<Id, D, E> {
    match c
    case Base(Handler(h)) => sem.handle(h)
    case Base(NilHandler) => (ctx: RouteContext<Id, D>) => Success
    case Wrap(m, next) => sem.wrap(m)(Run(sem, next))
  }

  /** `handleRequest(ctx)`: nothing to do without a request entry; otherwise
      the stack for the entry's ID is built and called, and its outcome is
      returned as it is. */
  function HandleRequest<Id, D, E, H, M>(r: RouterState<Id, H, M>, sem: Semantics<Id, D, E, H, M>, ctx: RouteContext<Id, D>)
    : (o: Outcome<E>)
    ensures ctx.reqEntry.None? ==> o == Success
  {
    match ctx.reqEntry
    case None => Success
    case Some(e) => Run(sem, ChainFor(r, e.ID))(ctx)
  }

  /** A middleware that calls `next` and hands its outcome back untouched. */
  ghost predicate PassThrough<Id(!new), D(!new), E(!new), H, M>(sem: Semantics<Id, D, E, H, M>, m: M) {
    forall f: HandlerFunc<Id, D, E>, ctx: RouteContext<Id, D> :: sem.wrap(m)(f)(ctx) == f(ctx)
  }

  /** Wrapping only pass-through middlewares around a handler changes
      nothing about its outcome. */
  lemma {:induction false} PassThroughStack<Id(!new), D(!new), E(!new), H, M>(
    sem: Semantics<Id, D, E, H, M>, t: Target<H>, ms: seq<M>, ctx: RouteContext<Id, D>)
    requires forall i | 0 <= i < |ms| :: PassThrough(sem, ms[i])
    ensures Run(sem, Compose(t, ms))(ctx) == Run(sem, Base(t))(ctx)
  {
    if ms != [] {
      PassThroughStack(sem, t, ms[1..], ctx);
      assert PassThrough(sem, ms[0]);
      var inner := Run(sem, Compose(t, ms[1..]));
      assert sem.wrap(ms[0])(inner)(ctx) == inner(ctx);
    }
  }

  /** A middleware that never fails on its own: whatever it does to the
      context or to the outcome, it succeeds whenever `next` always does. */
  ghost predicate NeverFails<Id(!new), D(!new), E(!new), H, M>(sem: Semantics<Id, D, E, H, M>, m: M) {
    forall f: HandlerFunc<Id, D, E>, ctx: RouteContext<Id, D> ::
      (forall c: RouteContext<Id, D> :: f(c) == Success) ==> sem.wrap(m)(f)(ctx) == Success
  }

  /** A pass-through middleware is one that never fails on its own. */
  lemma PassThroughNeverFails<Id(!new), D(!new), E(!new), H, M>(sem: Semantics<Id, D, E, H, M>, m: M)
    requires PassThrough(sem, m)
    ensures NeverFails(sem, m)
  {
  }

  /** Middlewares that never fail on their own, around `nilHandler`, give a
      stack that succeeds on every context. */
  lemma {:induction false} NeverFailingStack<Id(!new), D(!new), E(!new), H, M>(
    sem: Semantics<Id, D, E, H, M>, ms: seq<M>)
    requires forall i | 0 <= i < |ms| :: NeverFails(sem, ms[i])
    ensures forall ctx: RouteContext<Id, D> :: Run(sem, Compose(NilHandler, ms))(ctx) == Success
  {
    if ms != [] {
      NeverFailingStack(sem, ms[1..]);
      assert NeverFails(sem, ms[0]);
    }
  }

  /** A request for an ID with no handler, on a router with no not-found
      handler, ends in `nilHandler` and succeeds when none of its
      middlewares fails on its own. */
  lemma UnboundWithoutFallbackSucceeds<Id(!new), D(!new), E(!new), H, M>(
    r: RouterState<Id, H, M>, sem: Semantics<Id, D, E, H, M>, ctx: RouteContext<Id, D>)
    requires ctx.reqEntry.Some?
    requires ctx.reqEntry.value.ID !in r.handlerMapper
    requires r.notFoundHandler.None?
    requires forall m | m in Middlewares(r, ctx.reqEntry.value.ID) :: NeverFails(sem, m)
    ensures Resolve(r, ctx.reqEntry.value.ID) == NilHandler
    ensures HandleRequest(r, sem, ctx) == Success
  {
    var id := ctx.reqEntry.value.ID;
    var ms := Middlewares(r, id);
    forall i | 0 <= i < |ms|
      ensures NeverFails(sem, ms[i])
    {
      assert ms[i] in ms;
    }
    NeverFailingStack(sem, ms);
  }

  /** A fresh router answers every request with success. */
  lemma NewRouterSucceeds<Id, D, E, H, M>(sem: Semantics<Id, D, E, H, M>, ctx: RouteContext<Id, D>)
    ensures HandleRequest(NewRouter<Id, H, M>(), sem, ctx) == Success
  {
  }

  /** On a fresh router every ID resolves to `nilHandler` with no middleware. */
  lemma NewRouterResolvesNil<Id, H, M>(id: Id)
    ensures ChainFor(NewRouter<Id, H, M>(), id) == Base(NilHandler)
  {
  }

  // ----------------------------------------------------------- call order

  /** What a stack does, seen from middlewares that act both before and
      after calling `next`. */
  datatype Event<H, M> = Enter(m: M) | Invoke(t: Target<H>) | Leave(m: M)

  /** The events of one call of a stack, in the order they happen. */
  function Trace<H, M>(c: Chain<H, M>): seq<Event<H, M>> {
    match c
    case Base(t) => [Invoke(t)]
    case Wrap(m, next) => [Enter(m)] + Trace(next) + [Leave(m)]
  }

  function Enters<H, M>(ms: seq<M>): (es: seq<Event<H, M>>)
    ensures |es| == |ms|
    ensures forall i | 0 <= i < |ms| :: es[i] == Enter(ms[i])
  {
    seq(|ms|, i requires 0 <= i < |ms| => Enter(ms[i]))
  }

  function Leaves<H, M>(ms: seq<M>): (es: seq<Event<H, M>>)
    ensures |es| == |ms|
    ensures forall i | 0 <= i < |ms| :: es[i] == Leave(ms[i])
  {
    seq(|ms|, i requires 0 <= i < |ms| => Leave(ms[i]))
  }

  function Reverse<T>(s: seq<T>): (r: seq<T>)
    ensures |r| == |s|
    ensures forall i | 0 <= i < |s| :: r[i] == s[|s| - 1 - i]
  {
    if s == [] then [] else Reverse(s[1..]) + [s[0]]
  }

  /** A composed stack enters its middlewares first to last, then calls the
      handler, then leaves them last to first. */
  lemma {:induction false} ComposeOrder<H, M>(t: Target<H>, ms: seq<M>)
    ensures Trace(Compose(t, ms)) == Enters<H, M>(ms) + [Invoke(t)] + Leaves<H, M>(Reverse(ms))
  {
    if ms != [] {
      ComposeOrder(t, ms[1..]);
      var m := ms[0];
      assert Enters<H, M>(ms) == [Enter(m)] + Enters<H, M>(ms[1..]);
      assert Leaves<H, M>(Reverse(ms)) == Leaves<H, M>(Reverse(ms[1..])) + [Leave(m)];
    }
  }

  lemma EventsAppend<H, M>(a: seq<M>, b: seq<M>)
    ensures Enters<H, M>(a + b) == Enters<H, M>(a) + Enters<H, M>(b)
    ensures Leaves<H, M>(a + b) == Leaves<H, M>(a) + Leaves<H, M>(b)
  {
  }

  lemma ReverseAppend<T>(a: seq<T>, b: seq<T>)
    ensures Reverse(a + b) == Reverse(b) + Reverse(a)
  {
  }

  /** A dispatch for `id` enters the globals in registration order, then the
      per-ID middlewares, calls the resolved handler, and leaves them all in
      the reverse order. */
  lemma DispatchOrder<Id, H, M>(r: RouterState<Id, H, M>, id: Id)
    ensures var g := r.globalMiddlewares; var p := PerId(r, id);
      Trace(ChainFor(r, id)) ==
        Enters<H, M>(g) + Enters<H, M>(p) + [Invoke(Resolve(r, id))] + Leaves<H, M>(Reverse(p)) + Leaves<H, M>(Reverse(g))
  {
    var g := r.globalMiddlewares;
    var p := PerId(r, id);
    var t := Resolve(r, id);
    MiddlewaresSplit(r, id);
    ComposeOrder(t, g + p);
    EventsAppend<H, M>(g, p);
    ReverseAppend(g, p);
    EventsAppend<H, M>(Reverse(p), Reverse(g));
    calc {
      Trace(ChainFor(r, id));
      Trace(Compose(t, g + p));
      Enters<H, M>(g + p) + [Invoke(t)] + Leaves<H, M>(Reverse(g + p));
      (Enters<H, M>(g) + Enters<H, M>(p)) + [Invoke(t)] + (Leaves<H, M>(Reverse(p)) + Leaves<H, M>(Reverse(g)));
      Enters<H, M>(g) + Enters<H, M>(p) + [Invoke(t)] + Leaves<H, M>(Reverse(p)) + Leaves<H, M>(Reverse(g));
    }
  }

  lemma MiddlewaresSplit<Id, H, M>(r: RouterState<Id, H, M>, id: Id)
    ensures Middlewares(r, id) == r.globalMiddlewares + PerId(r, id)
  {
  }

  // ------------------------------------------ registration seen by dispatch

  /** After `register` with a handler and at least one non-nil middleware,
      a request for `id` runs the globals, then exactly those middlewares,
      around that handler. */
  lemma RegisterRoutes<Id, H, M>(r: RouterState<Id, H, M>, id: Id, h: H, m: seq<Option<M>>)
    requires NonNil(m) != []
    ensures ChainFor(Register(r, id, Some(h), m), id) == Compose(Handler(h), r.globalMiddlewares + NonNil(m))
  {
  }

  /** The last registration for an ID wins: its handler replaces the earlier
      one, and its middlewares replace (not extend) the earlier list. */
  lemma LastRegistrationWins<Id, H, M>(
    r: RouterState<Id, H, M>, id: Id, h1: Option<H>, m1: seq<Option<M>>, h2: H, m2: seq<Option<M>>)
    requires NonNil(m2) != []
    ensures ChainFor(Register(Register(r, id, h1, m1), id, Some(h2), m2), id)
         == Compose(Handler(h2), r.globalMiddlewares + NonNil(m2))
  {
  }

  /** A nil handler never unbinds: the ID still resolves as before, and with
      no non-nil middlewares the whole stack is as before. */
  lemma RegisterNilHandlerKeepsRoute<Id, H, M>(r: RouterState<Id, H, M>, id: Id, m: seq<Option<M>>)
    ensures Resolve(Register(r, id, None, m), id) == Resolve(r, id)
    ensures NonNil(m) == [] ==> ChainFor(Register(r, id, None, m), id) == ChainFor(r, id)
  {
  }

  /** Registering for one ID does not change what any other ID dispatches to. */
  lemma RegisterLeavesOtherRoutes<Id, H, M>(
    r: RouterState<Id, H, M>, id: Id, h: Option<H>, m: seq<Option<M>>, other: Id)
    requires other != id
    ensures ChainFor(Register(r, id, h, m), other) == ChainFor(r, other)
  {
  }

  /** Globals registered later still run before every per-ID middleware. */
  lemma GlobalsRunFirst<Id, H, M>(r: RouterState<Id, H, M>, m: seq<Option<M>>, id: Id)
    ensures Middlewares(RegisterMiddleware(r, m), id) == r.globalMiddlewares + NonNil(m) + PerId(r, id)
    ensures Resolve(RegisterMiddleware(r, m), id) == Resolve(r, id)
  {
  }

  /** The not-found handler only serves IDs with no bound handler. */
  lemma NotFoundServesUnbound<Id, H, M>(r: RouterState<Id, H, M>, h: Option<H>, id: Id)
    ensures id in r.handlerMapper ==> Resolve(SetNotFoundHandler(r, h), id) == Handler(r.handlerMapper[id])
    ensures id !in r.handlerMapper && h.Some? ==> Resolve(SetNotFoundHandler(r, h), id) == Handler(h.value)
    ensures id !in r.handlerMapper && h.None? ==> Resolve(SetNotFoundHandler(r, h), id) == NilHandler
  {
  }
}
