/** Dispatch: the handlers of the matched routes are called in turn until one of them settles the request. */
module Dispatch {
  import opened Routes
  import Tree = Registration

  const SKIP_CHILD_ROUTES: int := -2
  const NOT_FOUND: int := 404

  /** What a handler does is outside the model: here it is an answer for every hit. */
  datatype App = App(answer: Hit -> int, hasRoot: bool, rootAnswer: int, respond: int -> bool)

  datatype Event = Called(hit: Hit) | CalledRoot | Responded(code: int)

  datatype Skip = Nothing | ChildrenOf(id: nat)

  /** How the loop over the hits ends: the last answer, and whether processing goes on. */
  datatype Scan = Scan(log: seq<Event>, rv: int, ok: bool, refused: bool)

  datatype Outcome = Outcome(ok: bool, log: seq<Event>)

  function Prepend(log: seq<Event>, s: Scan): Scan {
    s.(log := log + s.log)
  }

  function Skipped(h: Hit, pr: Skip): bool {
    pr.ChildrenOf? && h.info.parent == pr.id
  }

  function Loop(app: App, hits: seq<Hit>, pr: Skip, rv: int): Scan
    decreases |hits|
  {
    if hits == [] then Scan([], rv, true, false)
    else if Skipped(hits[0], pr) then Loop(app, hits[1..], pr, rv)
    else
      var a := app.answer(hits[0]);
      Prepend([Called(hits[0])],
        if a > 1 then Scan([Responded(a)], a, app.respond(a), false)
        else if a == 1 then Scan([], 1, true, false)
        else if a == 0 then Loop(app, hits[1..], Nothing, 0)
        else if a == SKIP_CHILD_ROUTES then Loop(app, hits[1..], ChildrenOf(hits[0].info.id), a)
        else Scan([], a, false, true))
  }

  /** The root route takes what nobody handled, and what it leaves is not found. */
  function Rest(app: App, s: Scan): Outcome {
    if s.refused || !s.ok || s.rv != 0 then Outcome(s.ok, s.log)
    else
      var root := if app.hasRoot then [CalledRoot] else [];
      var rv := if app.hasRoot then app.rootAnswer else 0;
      if rv > 1 then Outcome(app.respond(rv), s.log + root + [Responded(rv)])
      else if rv < 0 then Outcome(false, s.log + root)
      else if rv == 0 then Outcome(app.respond(NOT_FOUND), s.log + root + [Responded(NOT_FOUND)])
      else Outcome(true, s.log + root)
  }

  // ------------------------------------------------------------------ the loop

  /** One handler call: either it settles the request, or the loop goes on with its answer. */
  method Call(app: App, hit: Hit, log: seq<Event>) returns (settled: bool, s: Scan, pr: Skip)
    ensures settled ==> forall rest, p, rv ::
      !Skipped(hit, p) ==> s == Prepend(log, Loop(app, [hit] + rest, p, rv))
    ensures !settled ==> forall rest, p, rv ::
      !Skipped(hit, p) ==> Prepend(log, Loop(app, [hit] + rest, p, rv)) == Prepend(s.log, Loop(app, rest, pr, s.rv))
  {
    var rv := app.answer(hit);
    s, pr := Scan(log + [Called(hit)], rv, true, false), Nothing;
    settled := true;
    if rv > 1 {
      s := Scan(s.log + [Responded(rv)], rv, app.respond(rv), false);
    } else if rv < 0 {
      if rv == SKIP_CHILD_ROUTES {
        pr, settled := ChildrenOf(hit.info.id), false;
      } else {
        s := Scan(s.log, rv, false, true);
      }
    } else if rv == 0 {
      settled := false;
    }
    forall rest, p, before | !Skipped(hit, p)
      ensures settled ==> s == Prepend(log, Loop(app, [hit] + rest, p, before))
      ensures !settled ==> Prepend(log, Loop(app, [hit] + rest, p, before)) == Prepend(s.log, Loop(app, rest, pr, s.rv))
    {
      assert ([hit] + rest)[1..] == rest;
      PrependPrepend(log, [Called(hit)], Loop(app, rest, pr, s.rv));
    }
  }

  method CallHandlers(q: Request, root: Route, app: App) returns (s: Scan)
    requires Bounded(q) && root.Node? && root.next.Null? && Height(root) < STACK_SIZE
    ensures s == Loop(app, Matches(q, root.child, 0), Nothing, 0)
  {
    var it := NewIterator(q, root);
    ghost var ahead := Matches(q, root.child, 0);
    var r := NextHit(it, ahead);
    s := Scan([], 0, true, false);
    var pr := Nothing;
    ghost var all := Loop(app, ahead, pr, 0);
    while r.Node?
      invariant fresh(it) && fresh(it.stack) && fresh(it.mlen)
      invariant r.Null? ==> ahead == []
      invariant r.Node? ==> ahead != [] && ahead[0] == Hit(r.info, it.matched, it.unmatched) && Yields(it, ahead[1..])
      invariant s.ok && !s.refused && all == Prepend(s.log, Loop(app, ahead, pr, s.rv))
      decreases |ahead|
    {
      var hit := Hit(r.info, it.matched, it.unmatched);
      ghost var rest := ahead[1..];
      assert ahead == [hit] + rest;
      if !Skipped(hit, pr) {
        var settled, next, skip := Call(app, hit, s.log);
        s, pr := next, skip;
        if settled {
          return;
        }
        s := s.(ok := true, refused := false);
      }
      ahead := rest;
      r := NextHit(it, rest);
    }
  }

  lemma PrependPrepend(a: seq<Event>, b: seq<Event>, s: Scan)
    ensures Prepend(a, Prepend(b, s)) == Prepend(a + b, s)
  {
    assert a + (b + s.log) == (a + b) + s.log;
  }

  /** Dispatch of one request over the routes it matches. */
  method Process(q: Request, root: Route, app: App) returns (ok: bool, log: seq<Event>)
    requires Bounded(q) && root.Node? && root.next.Null? && Height(root) < STACK_SIZE
    ensures Outcome(ok, log) == Rest(app, Loop(app, Matches(q, root.child, 0), Nothing, 0))
  {
    var s := CallHandlers(q, root, app);
    ok, log := s.ok, s.log;
    if !s.refused && ok && s.rv == 0 {
      var rv := 0;
      if app.hasRoot {
        log := log + [CalledRoot];
        rv := app.rootAnswer;
        if rv > 1 {
          log := log + [Responded(rv)];
          ok := app.respond(rv);
        } else if rv < 0 {
          ok := false;
        }
      }
      if rv == 0 {
        log := log + [Responded(NOT_FOUND)];
        ok := app.respond(NOT_FOUND);
      }
    }
  }

  // ------------------------------------------------------------------ handlers that never skip

  function Calls(hits: seq<Hit>): seq<Event> {
    seq(|hits|, i requires 0 <= i < |hits| => Called(hits[i]))
  }

  /** The position of the first handler that does not answer 0. */
  function FirstSettled(app: App, hits: seq<Hit>): (k: nat)
    ensures k <= |hits|
    ensures forall i :: 0 <= i < k ==> app.answer(hits[i]) == 0
    ensures k < |hits| ==> app.answer(hits[k]) != 0
  {
    if hits == [] || app.answer(hits[0]) != 0 then 0 else 1 + FirstSettled(app, hits[1..])
  }

  lemma {:induction false} LoopWithoutSkip(app: App, hits: seq<Hit>)
    requires forall h :: h in hits ==> app.answer(h) != SKIP_CHILD_ROUTES
    ensures var k, s := FirstSettled(app, hits), Loop(app, hits, Nothing, 0);
      if k == |hits| then s == Scan(Calls(hits), 0, true, false)
      else
        var a := app.answer(hits[k]);
        && s.log == Calls(hits[..k + 1]) + (if a > 1 then [Responded(a)] else [])
        && s.rv == a && s.refused == (a < 0) && s.ok == (a == 1 || (a > 1 && app.respond(a)))
    decreases |hits|
  {
    var k := FirstSettled(app, hits);
    if hits == [] {
    } else if k == 0 {
      assert Calls(hits[..1]) == [Called(hits[0])];
    } else {
      LoopWithoutSkip(app, hits[1..]);
      assert Calls(hits) == [Called(hits[0])] + Calls(hits[1..]);
      if k < |hits| {
        assert hits[..k + 1] == [hits[0]] + hits[1..][..k];
        assert Calls(hits[..k + 1]) == [Called(hits[0])] + Calls(hits[1..][..k]);
      }
    }
  }

  /** When no handler asks to skip children: the handlers run in match order up to the first one that does
      not answer 0, and a number above 1 is responded once. If all answer 0, the root handler runs once, if
      there is one, and the request is not found exactly when it is absent or answers 0 as well. */
  lemma DispatchWithoutSkip(app: App, hits: seq<Hit>)
    requires forall h :: h in hits ==> app.answer(h) != SKIP_CHILD_ROUTES
    ensures var o, k := Rest(app, Loop(app, hits, Nothing, 0)), FirstSettled(app, hits);
      if k < |hits| then
        var a := app.answer(hits[k]);
        && o.log == Calls(hits[..k + 1]) + (if a > 1 then [Responded(a)] else [])
        && (o.ok <==> a == 1 || (a > 1 && app.respond(a)))
      else
        var unhandled := !app.hasRoot || app.rootAnswer == 0;
        var code := if unhandled then NOT_FOUND else app.rootAnswer;
        && o.log == Calls(hits) + (if app.hasRoot then [CalledRoot] else [])
          + (if code > 1 then [Responded(code)] else [])
        && (o.ok <==> code == 1 || (code > 1 && app.respond(code)))
  {
    LoopWithoutSkip(app, hits);
  }

  // ------------------------------------------------------------------ handlers that skip

  predicate AllChildren(hits: seq<Hit>, id: nat) {
    forall h :: h in hits ==> h.info.parent == id
  }

  /** The hits that follow are passed over as long as they are children of the skipped route. */
  lemma {:induction false} PassOver(app: App, inner: seq<Hit>, rest: seq<Hit>, id: nat, rv: int)
    requires AllChildren(inner, id)
    ensures Loop(app, inner + rest, ChildrenOf(id), rv) == Loop(app, rest, ChildrenOf(id), rv)
    decreases |inner|
  {
    if inner == [] {
      assert inner + rest == rest;
    } else {
      assert (inner + rest)[1..] == inner[1..] + rest;
      PassOver(app, inner[1..], rest, id, rv);
    }
  }

  /** The hits below a route that asks to skip its child routes are all passed over if and only if they are
      children of that route; otherwise the first one that lies deeper is the next to be called. */
  lemma SkipReachesOnlyChildren(app: App, h: Hit, below: seq<Hit>, rest: seq<Hit>)
    requires app.answer(h) == SKIP_CHILD_ROUTES
    ensures var s := Loop(app, [h] + (below + rest), Nothing, 0);
      if AllChildren(below, h.info.id) then
        s == Prepend([Called(h)], Loop(app, rest, ChildrenOf(h.info.id), SKIP_CHILD_ROUTES))
      else
        exists k :: 0 <= k < |below| && AllChildren(below[..k], h.info.id) && below[k].info.parent != h.info.id
          && [Called(h), Called(below[k])] <= s.log
  {
    var id := h.info.id;
    var hits := [h] + (below + rest);
    assert hits[1..] == below + rest;
    if AllChildren(below, id) {
      PassOver(app, below, rest, id, SKIP_CHILD_ROUTES);
    } else {
      var k := FirstDeeper(below, id);
      var tail := below[k..] + rest;
      assert below + rest == below[..k] + tail;
      PassOver(app, below[..k], tail, id, SKIP_CHILD_ROUTES);
      assert tail[0] == below[k];
    }
  }

  // Which hits are children, in a tree of registered routes.

  lemma {:induction false} SiblingsAreIds(r: Route, id: nat)
    ensures id in Tree.Siblings(r) ==> id in Tree.Ids(r)
    decreases r
  {
    if r.Node? {
      SiblingsAreIds(r.next, id);
    }
  }

  /** A hit is a route of the tree, and so is its parent unless it is at the top. */
  lemma {:induction false} HitInTree(q: Request, r: Route, at: nat, h: Hit, parent: nat)
    requires Bounded(q) && at <= |q.path| && h in Matches(q, r, at) && Tree.Linked(r, parent)
    ensures h.info.id in Tree.Ids(r) && (h.info.parent == parent || h.info.parent in Tree.Ids(r))
    decreases r
  {
    MatchInPath(q, r.info, at);
    var to := at + Taken(MatchLen(q, r.info, at));
    MatchesParts(q, r, at, to, h);
    if h in Matches(q, r.next, at) {
      HitInTree(q, r.next, at, h, parent);
    } else if h in Matches(q, r.child, to) {
      HitInTree(q, r.child, to, h, r.info.id);
    }
  }

  /** Among the hits of a list of siblings and all that lies below them, the children of the route above are the
      siblings. */
  lemma {:induction false} ChildrenAreSiblings(q: Request, r: Route, at: nat, h: Hit, parent: nat)
    requires Bounded(q) && at <= |q.path| && h in Matches(q, r, at)
    requires Tree.Linked(r, parent) && Tree.UniqueIds(r) && parent !in Tree.Ids(r)
    ensures h.info.parent == parent <==> h.info.id in Tree.Siblings(r)
    decreases r
  {
    MatchInPath(q, r.info, at);
    var to := at + Taken(MatchLen(q, r.info, at));
    MatchesParts(q, r, at, to, h);
    Tree.UniqueTail(r);
    Tree.IdParts(r, h.info.id);
    Tree.IdParts(r, h.info.parent);
    Tree.IdParts(r, parent);
    if h in Matches(q, r.next, at) {
      HitInTree(q, r.next, at, h, parent);
      ChildrenAreSiblings(q, r.next, at, h, parent);
    } else if h in Matches(q, r.child, to) {
      HitInTree(q, r.child, to, h, r.info.id);
      SiblingsAreIds(r.next, h.info.id);
    }
  }

  lemma SkipReachesOnly(app: App, h: Hit, below: seq<Hit>, rest: seq<Hit>, kids: seq<nat>)
    requires app.answer(h) == SKIP_CHILD_ROUTES
    requires forall x :: x in below ==> (x.info.parent == h.info.id <==> x.info.id in kids)
    ensures var s := Loop(app, [h] + (below + rest), Nothing, 0);
      if forall x :: x in below ==> x.info.id in kids then
        s == Prepend([Called(h)], Loop(app, rest, ChildrenOf(h.info.id), SKIP_CHILD_ROUTES))
      else
        exists k ::
          && 0 <= k < |below| && (forall x :: x in below[..k] ==> x.info.id in kids) && below[k].info.id !in kids
          && [Called(h), Called(below[k])] <= s.log
  {
    SkipReachesOnlyChildren(app, h, below, rest);
    if !AllChildren(below, h.info.id) {
      var s := Loop(app, [h] + (below + rest), Nothing, 0);
      var k :| 0 <= k < |below| && AllChildren(below[..k], h.info.id) && below[k].info.parent != h.info.id
        && [Called(h), Called(below[k])] <= s.log;
      assert below[k] in below;
      forall x | x in below[..k]
        ensures x.info.id in kids
      {
        assert x in below;
      }
    }
  }

  lemma MatchesHere(q: Request, r: Route, at: nat, to: nat)
    requires Bounded(q) && at <= |q.path| && r.Node? && r.info.handler && MatchLen(q, r.info, at) != 0
    requires to == at + Taken(MatchLen(q, r.info, at)) <= |q.path|
    ensures Matches(q, r, at) == [Hit(r.info, at, to)] + (Matches(q, r.child, to) + Matches(q, r.next, at))
  {
  }

  /** A matched route that asks to skip its child routes, in a tree of registered routes: the handlers below it
      are all passed over if and only if they belong to its direct children; otherwise the first handler that
      lies deeper is the next to be called. */
  lemma SkipInTree(app: App, q: Request, r: Route, at: nat, to: nat)
    requires Bounded(q) && at <= |q.path| && r.Node? && r.info.handler && MatchLen(q, r.info, at) != 0
    requires to == at + Taken(MatchLen(q, r.info, at)) <= |q.path|
    requires Tree.Linked(r.child, r.info.id) && Tree.UniqueIds(r.child) && r.info.id !in Tree.Ids(r.child)
    requires app.answer(Hit(r.info, at, to)) == SKIP_CHILD_ROUTES
    ensures var h, below := Hit(r.info, at, to), Matches(q, r.child, to);
      var s := Loop(app, Matches(q, r, at), Nothing, 0);
      if forall x :: x in below ==> x.info.id in Tree.Siblings(r.child) then
        s == Prepend([Called(h)], Loop(app, Matches(q, r.next, at), ChildrenOf(r.info.id), SKIP_CHILD_ROUTES))
      else
        exists k ::
          && 0 <= k < |below| && (forall x :: x in below[..k] ==> x.info.id in Tree.Siblings(r.child))
          && below[k].info.id !in Tree.Siblings(r.child) && [Called(h), Called(below[k])] <= s.log
  {
    var h, below, rest := Hit(r.info, at, to), Matches(q, r.child, to), Matches(q, r.next, at);
    forall x | x in below
      ensures x.info.parent == r.info.id <==> x.info.id in Tree.Siblings(r.child)
    {
      ChildrenAreSiblings(q, r.child, to, x, r.info.id);
    }
    MatchesHere(q, r, at, to);
    SkipReachesOnly(app, h, below, rest, Tree.Siblings(r.child));
  }

  lemma {:induction false} FirstDeeper(hits: seq<Hit>, id: nat) returns (k: nat)
    requires !AllChildren(hits, id)
    ensures k < |hits| && AllChildren(hits[..k], id) && hits[k].info.parent != id
    decreases |hits|
  {
    if hits[0].info.parent != id {
      k := 0;
    } else {
      assert hits == [hits[0]] + hits[1..];
      k := FirstDeeper(hits[1..], id);
      k := k + 1;
      assert hits[..k] == [hits[0]] + hits[1..][..k - 1];
    }
  }

  /** A grandchild route is called although the route at the top asked to skip its child routes. */
  lemma SkipMissesGrandchildren(q: Request)
    requires q.path == "" && q.verbs == {Get} && Bounded(q)
    ensures
      var leaf := Node(Info(3, 2, {Get}, false, Empty, true), Null, Null);
      var mid := Node(Info(2, 1, {Get}, true, Empty, true), leaf, Null);
      var top := Node(Info(1, 0, {Get}, true, Empty, true), mid, Null);
      var app := App((h: Hit) => if h.info.id == 1 then SKIP_CHILD_ROUTES else 1, false, 0, _ => true);
      && Matches(q, top, 0) == [Hit(top.info, 0, 0), Hit(mid.info, 0, 0), Hit(leaf.info, 0, 0)]
      && Loop(app, Matches(q, top, 0), Nothing, 0).log == [Called(Hit(top.info, 0, 0)), Called(Hit(leaf.info, 0, 0))]
  {
    var leaf := Node(Info(3, 2, {Get}, false, Empty, true), Null, Null);
    var mid := Node(Info(2, 1, {Get}, true, Empty, true), leaf, Null);
    var top := Node(Info(1, 0, {Get}, true, Empty, true), mid, Null);
    var app := App((h: Hit) => if h.info.id == 1 then SKIP_CHILD_ROUTES else 1, false, 0, _ => true);
    var hits := [Hit(top.info, 0, 0), Hit(mid.info, 0, 0), Hit(leaf.info, 0, 0)];
    assert Get in q.verbs * {Get};
    assert Matches(q, leaf, 0) == [hits[2]];
    assert Matches(q, mid, 0) == [hits[1]] + Matches(q, leaf, 0);
    assert Matches(q, top, 0) == [hits[0]] + Matches(q, mid, 0);
    assert hits[1..][1..] == [hits[2]];
    assert Loop(app, [hits[2]], ChildrenOf(1), SKIP_CHILD_ROUTES).log == [Called(hits[2])];
  }

  /** A loop that ends by running out of hits. */
  predicate AllPass(app: App, hits: seq<Hit>) {
    forall h :: h in hits ==> app.answer(h) == 0 || app.answer(h) == SKIP_CHILD_ROUTES
  }

  /** Which of the first n hits is the last one to be called, or -1: a hit is passed over when the last one called
      before it asked to skip its child routes and is its parent. */
  function LastCalled(app: App, hits: seq<Hit>, n: nat): (c: int)
    requires n <= |hits|
    ensures -1 <= c < n
  {
    if n == 0 then -1
    else
      var c := LastCalled(app, hits, n - 1);
      var passed := c >= 0 && app.answer(hits[c]) == SKIP_CHILD_ROUTES && hits[n - 1].info.parent == hits[c].info.id;
      if passed then c else n - 1
  }

  function AnswerAt(app: App, hits: seq<Hit>, c: int): int
    requires -1 <= c < |hits|
  {
    if c < 0 then 0 else app.answer(hits[c])
  }

  function SkipAt(app: App, hits: seq<Hit>, c: int): Skip
    requires -1 <= c < |hits|
  {
    if AnswerAt(app, hits, c) == SKIP_CHILD_ROUTES then ChildrenOf(hits[c].info.id) else Nothing
  }

  lemma {:induction false} PassingLoop(app: App, hits: seq<Hit>, n: nat)
    requires AllPass(app, hits) && n <= |hits|
    ensures var c := LastCalled(app, hits, n);
      var s := Loop(app, hits[n..], SkipAt(app, hits, c), AnswerAt(app, hits, c));
      && s.ok && !s.refused && s.rv == AnswerAt(app, hits, LastCalled(app, hits, |hits|))
      && (forall e :: e in s.log ==> e.Called?)
    decreases |hits| - n
  {
    if n < |hits| {
      assert hits[n..][0] == hits[n] && hits[n..][1..] == hits[n + 1..];
      assert hits[n] in hits;
      PassingLoop(app, hits, n + 1);
    }
  }

  /** When every handler passes the request on, the root handler and the 404 response are reached if and only if
      no handler was called or the last one called did so with 0: after a skip nothing answers the client. */
  lemma UnhandledIsAnsweredIff(app: App, hits: seq<Hit>)
    requires AllPass(app, hits)
    ensures var c, o := LastCalled(app, hits, |hits|), Rest(app, Loop(app, hits, Nothing, 0));
      && ((exists e :: e in o.log && !e.Called?) <==> c < 0 || app.answer(hits[c]) == 0)
      && (c >= 0 && app.answer(hits[c]) != 0 ==> o.ok)
  {
    assert hits[0..] == hits;
    PassingLoop(app, hits, 0);
    var s := Loop(app, hits, Nothing, 0);
    var o := Rest(app, s);
    if s.rv == 0 {
      var e := o.log[|s.log|];
      assert e in o.log && !e.Called?;
    }
  }

  /** A request that matches one route, whose handler asks to skip its child routes, gets no answer. */
  lemma SkipAnswersNothing(q: Request, app: App)
    requires q.path == "" && q.verbs == {Get} && Bounded(q)
    requires app.answer(Hit(Info(1, 0, {Get}, true, Empty, true), 0, 0)) == SKIP_CHILD_ROUTES
    ensures var top := Node(Info(1, 0, {Get}, true, Empty, true), Null, Null);
      Rest(app, Loop(app, Matches(q, top, 0), Nothing, 0)) == Outcome(true, [Called(Hit(top.info, 0, 0))])
  {
    var top := Node(Info(1, 0, {Get}, true, Empty, true), Null, Null);
    var hit := Hit(top.info, 0, 0);
    assert Get in q.verbs * {Get};
    assert Matches(q, top, 0) == [hit];
    assert [hit][1..] == [];
    assert Loop(app, [hit], Nothing, 0) == Scan([Called(hit)], SKIP_CHILD_ROUTES, true, false);
  }
}
