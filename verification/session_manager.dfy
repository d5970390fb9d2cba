/** The session manager: a process-wide directory from session ID to live
    session, created lazily on first use.

    The Go type keeps its entries in a `sync.Map`; sequentially that is a
    finite map, which is what `Manager` holds. A session is seen only through
    its ID; `impl` stands for the rest of a concrete session. */
module SessionManager {
  import opened Options

  /** A live session as the manager sees it. */
  datatype Session<P> = Session(id: string, impl: P)

  /** The manager's directory, keyed by `Session.ID()`. */
  datatype Manager<P> = Manager(sessions: map<string, Session<P>>)

  /** The invariant `Add` keeps: every session is stored under its own ID. */
  predicate Valid<P>(m: Manager<P>) {
    forall id | id in m.sessions :: m.sessions[id].id == id
  }

  /** `&Manager{}`: an empty directory. */
  function Empty<P>(): (m: Manager<P>)
    ensures Valid(m)
    ensures m.sessions.Keys == {}
  {
    Manager(map[])
  }

  /** `Get(id)`: the session stored under `id`, or `None` (Go's nil) when
      there is none. */
  function Get<P>(m: Manager<P>, id: string): (r: Option<Session<P>>)
    ensures r.Some? <==> id in m.sessions
    ensures r.Some? ==> r.value == m.sessions[id]
    ensures Valid(m) && r.Some? ==> r.value.id == id
  {
    Lookup(m.sessions, id)
  }

  /** `Add(s)`: a nil session is ignored; otherwise `s` is stored under its
      ID, replacing whatever was stored there. */
  function Add<P>(m: Manager<P>, s: Option<Session<P>>): (m': Manager<P>)
    ensures s.None? ==> m' == m
    ensures s.Some? ==> Get(m', s.value.id) == s
    ensures s.Some? ==> m'.sessions - {s.value.id} == m.sessions - {s.value.id}
    ensures Valid(m) ==> Valid(m')
  {
    match s
    case None => m
    case Some(sess) => Manager(m.sessions[sess.id := sess])
  }

  /** `Remove(id)`: afterwards `id` is not found; other entries stay, and
      removing an absent ID changes nothing. */
  function Remove<P>(m: Manager<P>, id: string): (m': Manager<P>)
    ensures Get(m', id) == None
    ensures m'.sessions - {id} == m.sessions - {id}
    ensures id !in m.sessions ==> m' == m
    ensures Valid(m) ==> Valid(m')
  {
    Manager(m.sessions - {id})
  }

  /** Two managers that answer every `Get` alike are the same manager, so
      the contracts above, stated through `Get`, pin the results down. */
  lemma SameAnswersSameManager<P>(m1: Manager<P>, m2: Manager<P>)
    requires forall id :: Get(m1, id) == Get(m2, id)
    ensures m1 == m2
  {
    assert m1.sessions.Keys == m2.sessions.Keys by {
      forall id ensures id in m1.sessions <==> id in m2.sessions {
        assert Get(m1, id) == Get(m2, id);
      }
    }
    forall id | id in m1.sessions
      ensures m1.sessions[id] == m2.sessions[id]
    {
      assert Get(m1, id) == Get(m2, id);
    }
  }

  /** Adding then removing a session's ID leaves what removing alone leaves. */
  lemma AddThenRemove<P>(m: Manager<P>, s: Session<P>)
    ensures Remove(Add(m, Some(s)), s.id) == Remove(m, s.id)
  {
    assert Add(m, Some(s)).sessions - {s.id} == m.sessions - {s.id};
  }

  /** The last `Add` for an ID wins. */
  lemma LastAddWins<P>(m: Manager<P>, s1: Session<P>, s2: Session<P>)
    requires s1.id == s2.id
    ensures Add(Add(m, Some(s1)), Some(s2)) == Add(m, Some(s2))
  {
  }

  // ------------------------------------------------------------------ Range

  /** One call of the visitor: the pair it was given and what it answered. */
  datatype Visit<P> = Visit(id: string, session: Session<P>, next: bool)

  /** The visitor's state after the calls recorded in `vs`. The visitor is
      a pure function of that state: `(state, id, session)` to
      `(state', next)`; the state stands for whatever the Go closure
      captures. */
  function StateAfter<A, P>(visit: (A, string, Session<P>) -> (A, bool), init: A, vs: seq<Visit<P>>): A
    decreases |vs|
  {
    if vs == [] then init
    else
      var last := vs[|vs| - 1];
      visit(StateAfter(visit, init, vs[..|vs| - 1]), last.id, last.session).0
  }

  /** Every answer recorded in `vs` is the one the visitor gives for that
      entry, in the state the earlier calls left it in. */
  predicate Answers<A, P>(visit: (A, string, Session<P>) -> (A, bool), init: A, vs: seq<Visit<P>>)
    decreases |vs|
  {
    vs == [] ||
      var prefix := vs[..|vs| - 1];
      var last := vs[|vs| - 1];
      && Answers(visit, init, prefix)
      && last.next == visit(StateAfter(visit, init, prefix), last.id, last.session).1
  }

  /** The recursive `Answers` read call by call. */
  lemma {:induction false} AnswersAt<A, P>(visit: (A, string, Session<P>) -> (A, bool), init: A, vs: seq<Visit<P>>, i: nat)
    requires Answers(visit, init, vs)
    requires i < |vs|
    ensures vs[i].next == visit(StateAfter(visit, init, vs[..i]), vs[i].id, vs[i].session).1
    decreases |vs|
  {
    var prefix := vs[..|vs| - 1];
    if i < |vs| - 1 {
      AnswersAt(visit, init, prefix, i);
      assert prefix[..i] == vs[..i];
    }
  }

  /** Recording one more call, answered as the visitor answers it, keeps
      `Answers` and advances the state by that call. */
  lemma AnswersSnoc<A, P>(visit: (A, string, Session<P>) -> (A, bool), init: A, vs: seq<Visit<P>>, v: Visit<P>)
    requires Answers(visit, init, vs)
    requires v.next == visit(StateAfter(visit, init, vs), v.id, v.session).1
    ensures Answers(visit, init, vs + [v])
    ensures StateAfter(visit, init, vs + [v]) == visit(StateAfter(visit, init, vs), v.id, v.session).0
  {
    assert (vs + [v])[..|vs|] == vs;
  }

  /** The IDs the visitor was called with. */
  function VisitedIds<P>(vs: seq<Visit<P>>): set<string>
    decreases |vs|
  {
    if vs == [] then {} else VisitedIds(vs[..|vs| - 1]) + {vs[|vs| - 1].id}
  }

  /** Where a walk over `m` stands: `vs` were visited, each once and with
      its own stored pair, and `rest` are the entries still to come. */
  ghost predicate Walked<P>(m: Manager<P>, rest: set<string>, vs: seq<Visit<P>>) {
    && rest !! VisitedIds(vs)
    && rest + VisitedIds(vs) == m.sessions.Keys
    && (forall i | 0 <= i < |vs| :: vs[i].id in m.sessions && vs[i].id !in rest && vs[i].session == m.sessions[vs[i].id])
    && (forall i, j | 0 <= i < j < |vs| :: vs[i].id != vs[j].id)
  }

  /** Visiting one of the remaining entries moves it from `rest` to the
      visited ones. */
  lemma WalkStep<P>(m: Manager<P>, rest: set<string>, vs: seq<Visit<P>>, k: string, next: bool)
    requires Walked(m, rest, vs)
    requires k in rest
    ensures Walked(m, rest - {k}, vs + [Visit(k, m.sessions[k], next)])
  {
    var v := Visit(k, m.sessions[k], next);
    assert (vs + [v])[..|vs|] == vs;
    assert VisitedIds(vs + [v]) == VisitedIds(vs) + {k};
  }

  /** What a walk has done so far, read off its state. */
  lemma WalkedFacts<P>(m: Manager<P>, rest: set<string>, vs: seq<Visit<P>>)
    requires Walked(m, rest, vs)
    ensures forall i | 0 <= i < |vs| :: vs[i].id in m.sessions && vs[i].session == m.sessions[vs[i].id]
    ensures forall i, j | 0 <= i < j < |vs| :: vs[i].id != vs[j].id
    ensures rest == {} ==> VisitedIds(vs) == m.sessions.Keys
  {
  }

  /** Where `Range` stands between calls: the walk so far, each answer the
      visitor's own, the visitor's state after them, and no `false` yet. */
  ghost predicate RangeInv<A, P>(m: Manager<P>, visit: (A, string, Session<P>) -> (A, bool), init: A,
                                 rest: set<string>, vs: seq<Visit<P>>, state: A) {
    && Walked(m, rest, vs)
    && Answers(visit, init, vs)
    && state == StateAfter(visit, init, vs)
    && (forall i | 0 <= i < |vs| :: vs[i].next)
  }

  /** One call of the visitor on a remaining entry `k`: the walk, the answers
      and the state all advance by that call, and the walk may go on when
      the answer is `true`. */
  lemma RangeStep<A, P>(m: Manager<P>, visit: (A, string, Session<P>) -> (A, bool), init: A,
                        rest: set<string>, vs: seq<Visit<P>>, state: A, k: string)
    requires RangeInv(m, visit, init, rest, vs, state)
    requires k in rest
    ensures var answer := visit(state, k, m.sessions[k]);
      var vs' := vs + [Visit(k, m.sessions[k], answer.1)];
      && Walked(m, rest - {k}, vs')
      && Answers(visit, init, vs')
      && answer.0 == StateAfter(visit, init, vs')
      && (forall i | 0 <= i < |vs'| - 1 :: vs'[i].next)
      && (answer.1 ==> RangeInv(m, visit, init, rest - {k}, vs', answer.0))
  {
    var answer := visit(state, k, m.sessions[k]);
    var v := Visit(k, m.sessions[k], answer.1);
    WalkStep(m, rest, vs, k, answer.1);
    AnswersSnoc(visit, init, vs, v);
  }

  /** `Range(fn)`: calls the visitor on the stored entries, in an order the
      underlying map chooses, until it answers `false` or the entries run out. */
  method Range<A, P>(m: Manager<P>, visit: (A, string, Session<P>) -> (A, bool), init: A)
    returns (visits: seq<Visit<P>>, state: A)
    // each call gets a stored entry's own key and value, and no key twice
    ensures forall i | 0 <= i < |visits| :: visits[i].id in m.sessions && visits[i].session == m.sessions[visits[i].id]
    ensures forall i, j | 0 <= i < j < |visits| :: visits[i].id != visits[j].id
    // each recorded answer is the visitor's, given the state built so far
    ensures Answers(visit, init, visits)
    ensures state == StateAfter(visit, init, visits)
    // no call after a `false`
    ensures forall i | 0 <= i < |visits| - 1 :: visits[i].next
    // unless the last call answered `false`, every stored entry was visited
    ensures (visits == [] || visits[|visits| - 1].next) ==> VisitedIds(visits) == m.sessions.Keys
  {
    visits := [];
    state := init;
    var rest := m.sessions.Keys;
    while rest != {}
      invariant RangeInv(m, visit, init, rest, visits, state)
      decreases rest
    {
      var k :| k in rest;
      var s := m.sessions[k];
      var answer := visit(state, k, s);
      RangeStep(m, visit, init, rest, visits, state, k);
      state := answer.0;
      visits := visits + [Visit(k, s, answer.1)];
      rest := rest - {k};
      if !answer.1 {
        WalkedFacts(m, rest, visits);
        return;
      }
    }
    WalkedFacts(m, rest, visits);
  }

  // -------------------------------------------------------------- Sessions

  /** The package variables `managerOnce` and `manager`: no manager until
      the first call of `Sessions()`. */
  datatype Singleton<P> = Singleton(manager: Option<Manager<P>>)

  /** `Sessions()`: the first call creates an empty manager; every later
      call returns the one stored by that first call. No operation here
      writes the package state back, so `Add` or `Remove` applied to a
      returned manager is not seen by a later call. */
  function Sessions<P>(g: Singleton<P>): (r: (Singleton<P>, Manager<P>))
    ensures r.0.manager == Some(r.1)
    ensures g.manager.Some? ==> r.0 == g
    ensures g.manager.None? ==> r.1 == Empty()
  {
    match g.manager
    case Some(m) => (g, m)
    case None =>
      var m := Empty();
      (Singleton(Some(m)), m)
  }

  /** The managers returned by `n` successive calls of `Sessions()`, and the
      package state after them. */
  function CallSessions<P>(g: Singleton<P>, n: nat): (Singleton<P>, seq<Manager<P>>)
    decreases n
  {
    if n == 0 then (g, [])
    else
      var (g1, m) := Sessions(g);
      var (gn, ms) := CallSessions(g1, n - 1);
      (gn, [m] + ms)
  }

  /** Any number of calls all return the first call's manager, and the
      package state is set once, by the first call. */
  lemma {:induction false} SessionsOnce<P>(g: Singleton<P>, n: nat)
    requires n > 0
    decreases n
    ensures |CallSessions(g, n).1| == n
    ensures forall i | 0 <= i < n :: CallSessions(g, n).1[i] == Sessions(g).1
    ensures CallSessions(g, n).0 == Sessions(g).0
  {
    var (g1, m) := Sessions(g);
    if n > 1 {
      SessionsOnce(g1, n - 1);
      assert Sessions(g1) == (g1, m);
    }
  }
}
