/** Request routing: the route tree, the recursive meaning of matching a path against it, and the
    resumable iterator that walks it with an explicit stack. */
module Routes {
  import opened Folding

  datatype Verb = Get | Put | Post | Delete | Head | Options | Patch

  /** An empty pattern matches without consuming anything; a pattern that starts with '^' is a compiled
      expression, known by its number. */
  datatype Pattern = Empty | Literal(text: string) | Regex(re: nat)

  datatype Info = Info(id: nat, parent: nat, verbs: set<Verb>, prefix: bool, pattern: Pattern, handler: bool)

  /** A route with its first child and its next sibling. */
  datatype Route = Null | Node(info: Info, child: Route, next: Route)

  /** A request: its path, the flags of its method, and the matcher, which gives the length of the match of
      an expression at an offset, or a negative number. */
  datatype Request = Request(path: string, verbs: set<Verb>, match_: (nat, nat) -> int)

  /** The matcher never runs past the end of the path. */
  ghost predicate Bounded(q: Request) {
    forall re, at :: 0 <= at <= |q.path| ==> q.match_(re, at) <= |q.path| - at
  }

  /** How much of the path a route takes at an offset: -1 for the empty pattern, 0 for no match. */
  function MatchLen(q: Request, r: Info, at: nat): (n: int)
    requires at <= |q.path|
  {
    var left := |q.path| - at;
    if q.verbs * r.verbs == {} then 0
    else
      match r.pattern
      case Empty => -1
      case Literal(text) => if (r.prefix || left == |text|) && text <= q.path[at..] then |text| else 0
      case Regex(re) =>
        var n := q.match_(re, at);
        if n > 0 && (r.prefix || left == n) then n else 0
  }

  function Taken(mlen: int): nat {
    if mlen > 0 then mlen else 0
  }

  lemma MatchInPath(q: Request, r: Info, at: nat)
    requires Bounded(q) && at <= |q.path|
    ensures at + Taken(MatchLen(q, r, at)) <= |q.path|
  {
  }

  /** Request and route have a method in common. */
  ghost predicate Meets(q: Request, r: Info) {
    exists v :: v in q.verbs && v in r.verbs
  }

  /** A route takes `n` characters of the path from an offset on: none if it has no pattern; the text of a
      literal, which stands there; the match of an expression. A route that does not match by prefix takes the
      path to its end, unless it has no pattern. */
  predicate Takes(q: Request, r: Info, at: nat, n: nat) {
    match r.pattern
    case Empty => n == 0
    case Literal(text) =>
      && text != "" && n == |text| && at + n <= |q.path| && q.path[at..at + n] == text
      && (r.prefix || at + n == |q.path|)
    case Regex(re) => 0 < n == q.match_(re, at) && (r.prefix || at + n == |q.path|)
  }

  /** A route matches if and only if it has a method in common with the request and takes a piece of the path;
      that piece is what it is recorded with. */
  lemma MatchMeans(q: Request, r: Info, at: nat)
    requires Bounded(q) && at <= |q.path|
    ensures MatchLen(q, r, at) != 0 <==> Meets(q, r) && exists n :: Takes(q, r, at, n)
    ensures MatchLen(q, r, at) != 0 ==> Takes(q, r, at, Taken(MatchLen(q, r, at)))
  {
    if Meets(q, r) {
      var v :| v in q.verbs && v in r.verbs;
      assert v in q.verbs * r.verbs;
    } else {
      assert q.verbs * r.verbs == {};
    }
    if r.pattern.Literal? {
      var n := |r.pattern.text|;
      assert at + n <= |q.path| ==> q.path[at..][..n] == q.path[at..at + n];
    }
    assert MatchLen(q, r, at) != 0 ==> Takes(q, r, at, Taken(MatchLen(q, r, at)));
  }

  /** A matched route and the two path offsets that its handler sees. */
  datatype Hit = Hit(info: Info, matched: nat, unmatched: nat)

  /** The meaning of routing: every route is matched at the offset left by its ancestors; matched routes
      with a handler are reported in preorder, siblings in registration order, and only the children of a
      matched route are considered. */
  function Matches(q: Request, r: Route, at: nat): seq<Hit>
    requires Bounded(q) && at <= |q.path|
    decreases r
  {
    match r
    case Null => []
    case Node(info, child, next) =>
      MatchInPath(q, info, at);
      var n := MatchLen(q, info, at);
      (if n == 0 then []
       else (if info.handler then [Hit(info, at, at + Taken(n))] else []) + Matches(q, child, at + Taken(n)))
      + Matches(q, next, at)
  }

  function Max(a: nat, b: nat): nat {
    if a < b then b else a
  }

  /** The nesting depth of a list of siblings. */
  function Height(r: Route): nat {
    match r
    case Null => 0
    case Node(_, child, next) => Max(1 + Height(child), Height(next))
  }

  function Size(r: Route): nat {
    match r
    case Null => 1
    case Node(_, child, next) => 1 + Size(child) + Size(next)
  }

  // ------------------------------------------------------------------ stacks

  const STACK_SIZE := 127

  /** A stack slot: a route, or the end of a sibling list, and the length it matched. */
  datatype Frame = Frame(route: Route, mlen: int)

  datatype Stack = Bottom | On(below: Stack, top: Frame)

  function Depth(st: Stack): nat {
    if st.Bottom? then 0 else Depth(st.below) + 1
  }

  /** The offset behind everything the stacked routes have taken. */
  function Offset(st: Stack): nat {
    if st.Bottom? then 0 else Offset(st.below) + Taken(st.top.mlen)
  }

  /** A stack of matched routes, within the path and the nesting limit. */
  ghost predicate Path(q: Request, st: Stack) {
    && Bounded(q) && Offset(st) <= |q.path|
    && (st.On? ==>
          && Path(q, st.below) && st.top.route.Node? && st.top.mlen != 0
          && Depth(st.below) + Height(st.top.route) < STACK_SIZE)
  }

  /** The stack of a walk: a path, and on top of it the route that is being looked at. */
  ghost predicate Walk(q: Request, st: Stack) {
    st.On? ==>
      && Path(q, st.below) && Depth(st.below) + Height(st.top.route) < STACK_SIZE
      && (st.top.route.Node? ==> Offset(st) <= |q.path|)
  }

  /** What remains when the subtrees of all stacked routes are done. */
  ghost function Below(q: Request, st: Stack): seq<Hit>
    requires Path(q, st)
  {
    if st.Bottom? then [] else Matches(q, st.top.route.next, Offset(st.below)) + Below(q, st.below)
  }

  /** What a visited route leaves: its children if it matched, and its later siblings. */
  ghost function Visited(q: Request, f: Frame, at: nat): seq<Hit>
    requires Bounded(q) && at <= |q.path| && (f.route.Node? ==> at + Taken(f.mlen) <= |q.path|)
  {
    if f.route.Null? then []
    else (if f.mlen != 0 then Matches(q, f.route.child, at + Taken(f.mlen)) else []) + Matches(q, f.route.next, at)
  }

  /** What the walk has still to report. */
  ghost function Pending(q: Request, st: Stack): seq<Hit>
    requires Walk(q, st)
  {
    if st.Bottom? then [] else Visited(q, st.top, Offset(st.below)) + Below(q, st.below)
  }

  /** What visiting a route reports. */
  function Reported(f: Frame, at: nat): seq<Hit> {
    if f.route.Node? && f.mlen != 0 && f.route.info.handler then [Hit(f.route.info, at, at + Taken(f.mlen))] else []
  }

  lemma MatchesByVisit(q: Request, f: Frame, at: nat)
    requires Bounded(q) && at <= |q.path|
    requires f.route.Node? ==> f.mlen == MatchLen(q, f.route.info, at) && at + Taken(f.mlen) <= |q.path|
    ensures Matches(q, f.route, at) == Reported(f, at) + Visited(q, f, at)
  {
    if f.route.Node? && f.mlen != 0 {
      Regroup(Reported(f, at), Matches(q, f.route.child, at + Taken(f.mlen)), Matches(q, f.route.next, at));
    }
  }

  lemma Regroup(a: seq<Hit>, b: seq<Hit>, c: seq<Hit>)
    ensures a + b + c == a + (b + c)
  {
  }

  /** Visiting the next route of a walk: nothing is lost and nothing is repeated. */
  lemma VisitAccounts(q: Request, base: Stack, f: Frame)
    requires Path(q, base) && Depth(base) + Height(f.route) < STACK_SIZE
    requires f.route.Node? ==> f.mlen == MatchLen(q, f.route.info, Offset(base))
    ensures Walk(q, On(base, f))
    ensures Matches(q, f.route, Offset(base)) + Below(q, base) == Reported(f, Offset(base)) + Pending(q, On(base, f))
  {
    var at := Offset(base);
    if f.route.Node? {
      MatchInPath(q, f.route.info, at);
    }
    MatchesByVisit(q, f, at);
    Regroup(Reported(f, at), Visited(q, f, at), Below(q, base));
  }

  /** A matched route leaves its children and then what is below it. */
  lemma DescendAccounts(q: Request, st: Stack)
    requires Walk(q, st) && st.On? && st.top.route.Node? && st.top.mlen != 0
    ensures Path(q, st) && Pending(q, st) == Matches(q, st.top.route.child, Offset(st)) + Below(q, st)
  {
    var at := Offset(st.below);
    Regroup(Matches(q, st.top.route.child, Offset(st)), Matches(q, st.top.route.next, at), Below(q, st.below));
  }

  /** Bounds the routes that a walk has still to visit. */
  function WorkBelow(st: Stack): nat {
    if st.Bottom? then 0 else (if st.top.route.Node? then Size(st.top.route.next) else 0) + WorkBelow(st.below)
  }

  function Work(st: Stack): nat {
    if st.Bottom? then 0 else Size(st.top.route) - 1 + WorkBelow(st.below)
  }

  /** Route x is to be looked at on top of `base`, `ahead` is to be reported then, in fewer than `work` visits; kept
      folded. */
  ghost predicate Due(q: Request, x: Route, base: Stack, ahead: seq<Hit>, work: nat) {
    forall y: Stack :: Peek(y) && y == base ==>
        && Path(q, y) && Depth(y) + Height(x) < STACK_SIZE && Size(x) + WorkBelow(y) <= work
        && ahead == Matches(q, x, Offset(y)) + Below(q, y)
  }

  /** The visit of a route that is due. */
  lemma VisitDue(q: Request, base: Stack, f: Frame, at: nat, ahead: seq<Hit>, work: nat)
    requires Due(q, f.route, base, ahead, work) && Bounded(q) && at == Offset(base) <= |q.path|
    requires f.route.Node? ==> f.mlen == MatchLen(q, f.route.info, at)
    ensures Walk(q, On(base, f)) && ahead == Reported(f, at) + Pending(q, On(base, f)) && Work(On(base, f)) < work
  {
    assert Peek(base);
    VisitAccounts(q, base, f);
  }

  /** The end of a sibling list leaves the later siblings of the parent and what is below it. */
  lemma PopDue(q: Request, st: Stack)
    requires Walk(q, st) && st.On? && st.top.route.Null? && st.below.On?
    ensures Due(q, st.below.top.route.next, st.below.below, Pending(q, st), Work(st))
    ensures st.below.top.route.Node? && Offset(st.below.below) + Taken(st.below.top.mlen) == Offset(st.below)
    ensures Bounded(q) && Offset(st.below.below) <= |q.path|
  {
    assert Visited(q, st.top, Offset(st.below)) == [];
    assert Pending(q, st) == Below(q, st.below);
  }

  lemma LastPop(q: Request, st: Stack)
    requires Walk(q, st) && st.On? && st.top.route.Null? && st.below.Bottom?
    ensures Pending(q, st) == []
  {
  }

  lemma DescendDue(q: Request, st: Stack)
    requires Walk(q, st) && st.On? && st.top.route.Node? && st.top.mlen != 0
    ensures Due(q, st.top.route.child, st, Pending(q, st), Work(st)) && Bounded(q) && Offset(st) <= |q.path|
  {
    DescendAccounts(q, st);
  }

  lemma DescendFits(q: Request, st: Stack)
    requires Walk(q, st) && st.On? && st.top.route.Node? && st.top.route.child.Node?
    ensures Depth(st) < STACK_SIZE
  {
  }

  lemma SiblingDue(q: Request, st: Stack)
    requires Walk(q, st) && st.On? && st.top.route.Node? && (st.top.route.child.Null? || st.top.mlen == 0)
    ensures Due(q, st.top.route.next, st.below, Pending(q, st), Work(st))
    ensures Bounded(q) && Offset(st.below) <= |q.path|
  {
    var at := Offset(st.below);
    assert Visited(q, st.top, at) == Matches(q, st.top.route.next, at);
  }

  // ------------------------------------------------------------------ the iterator

  /** The stack held in the first `k` slots of the two arrays. */
  function Slots(routes: seq<Route>, mlens: seq<int>, k: nat): (st: Stack)
    requires k <= |routes| && k <= |mlens|
    ensures Depth(st) == k
  {
    if k == 0 then Bottom else On(Slots(routes, mlens, k - 1), Frame(routes[k - 1], mlens[k - 1]))
  }

  lemma {:induction false} SlotsSame(r1: seq<Route>, m1: seq<int>, r2: seq<Route>, m2: seq<int>, k: nat)
    requires k <= |r1| && k <= |m1| && k <= |r2| && k <= |m2|
    requires forall i :: 0 <= i < k ==> r1[i] == r2[i] && m1[i] == m2[i]
    ensures Slots(r1, m1, k) == Slots(r2, m2, k)
    decreases k
  {
    if k > 0 {
      SlotsSame(r1, m1, r2, m2, k - 1);
    }
  }

  class RouteIter {
    const q: Request
    const stack: array<Route>
    const mlen: array<int>
    var cnt: nat
    var prev: nat
    var matched: nat
    var unmatched: nat

    constructor (q: Request, root: Route)
      requires Bounded(q) && root.Node? && root.next.Null? && Height(root) < STACK_SIZE
      ensures this.q == q && Valid() && fresh(stack) && fresh(mlen)
      ensures Remaining() == Matches(q, root.child, 0)
    {
      this.q := q;
      stack := new Route[STACK_SIZE](_ => Null);
      mlen := new int[STACK_SIZE](_ => 0);
      cnt, prev, matched, unmatched := 1, 0, 0, 0;
      new;
      stack[0] := root;
      mlen[0] := -1;
      assert Frames(1) == On(Bottom, Frame(root, -1));
    }

    ghost function Frames(k: nat): Stack
      requires k <= stack.Length && k <= mlen.Length
      reads stack, mlen
    {
      Slots(stack[..], mlen[..], k)
    }

    ghost predicate Valid()
      reads this, stack, mlen
    {
      && stack.Length == STACK_SIZE && mlen.Length == STACK_SIZE && cnt <= STACK_SIZE
      && Walk(q, Frames(cnt))
      && (cnt > 0 ==> prev <= unmatched && unmatched - prev == Offset(Frames(cnt - 1)))
      && (cnt > 0 && stack[cnt - 1].Node? && mlen[cnt - 1] != 0 ==> prev == Taken(mlen[cnt - 1]))
      && (cnt > 0 && stack[cnt - 1].Null? ==> prev == 0)
    }

    /** The hits that the iterator has still to return. */
    ghost function Remaining(): seq<Hit>
      requires Valid()
      reads this, stack, mlen
    {
      Pending(q, Frames(cnt))
    }

    /** Matches the route in slot `pos` at the level offset. */
    method DoMatchNext(pos: nat, ghost at: nat) returns (m: bool)
      requires stack.Length == STACK_SIZE && mlen.Length == STACK_SIZE && pos < STACK_SIZE
      requires prev <= unmatched && unmatched - prev == at <= |q.path| && Bounded(q)
      modifies this`prev, this`matched, this`unmatched, mlen
      ensures forall i :: 0 <= i < STACK_SIZE && i != pos ==> mlen[i] == old(mlen[i])
      ensures matched == at && prev <= unmatched && unmatched - prev == at
      ensures stack[pos].Null? ==> !m && unmatched == at && mlen[pos] == old(mlen[pos])
      ensures stack[pos].Node? ==>
        mlen[pos] == MatchLen(q, stack[pos].info, at) && m == (mlen[pos] != 0) && (m ==> prev == Taken(mlen[pos]))
      ensures stack[pos].Node? ==>
        && (m <==> Meets(q, stack[pos].info) && exists n :: Takes(q, stack[pos].info, at, n))
        && (m ==> Takes(q, stack[pos].info, at, unmatched - matched))
    {
      var r := stack[pos];
      var pathUnmatched := unmatched - prev;
      matched := pathUnmatched;
      if r.Null? {
        unmatched := pathUnmatched;
        prev := 0;
        return false;
      }
      var n := 0;
      var left := |q.path| - pathUnmatched;
      if q.verbs * r.info.verbs != {} {
        match r.info.pattern {
          case Regex(re) =>
            var len := q.match_(re, pathUnmatched);
            if len > 0 && (r.info.prefix || left == len) {
              n := len;
            }
          case Literal(text) =>
            if (r.info.prefix || left == |text|) && text <= q.path[pathUnmatched..] {
              n := |text|;
            }
          case Empty =>
            n := -1;
        }
        if n != 0 {
          if n > 0 {
            pathUnmatched := pathUnmatched + n;
          }
          unmatched := pathUnmatched;
          prev := if n > 0 then n else 0;
        }
      }
      mlen[pos] := n;
      MatchMeans(q, r.info, at);
      return n != 0;
    }

    /** Puts a route into a slot and matches it; the slots below it stay. */
    method Place(pos: nat, x: Route, ghost base: Stack, ghost at: nat) returns (m: bool)
      requires stack.Length == STACK_SIZE && mlen.Length == STACK_SIZE && pos < STACK_SIZE
      requires base == Frames(pos) && Bounded(q) && prev <= unmatched && unmatched - prev == at <= |q.path|
      modifies this, stack, mlen
      ensures stack[pos] == x && cnt == pos + 1
      ensures Frames(pos) == base && Frames(cnt) == On(base, Frame(x, mlen[pos]))
      ensures matched == at && prev <= unmatched && unmatched - prev == at
      ensures x.Null? ==> !m && unmatched == at && prev == 0
      ensures x.Node? ==>
        mlen[pos] == MatchLen(q, x.info, at) && m == (mlen[pos] != 0) && (m ==> prev == Taken(mlen[pos]))
    {
      stack[pos] := x;
      cnt := pos + 1;
      m := DoMatchNext(pos, at);
      SlotsSame(stack[..], mlen[..], old(stack[..]), old(mlen[..]), pos);
    }

    /** The iterator stands for a walk with these hits to come, in fewer than `work` visits; kept folded. */
    ghost predicate Stands(hits: seq<Hit>, work: nat)
      reads this, stack, mlen
    {
      forall k: int :: Peek(k) ==> Valid() && Remaining() == hits && Work(Frames(cnt)) < work
    }

    /** Placing a route in the course of a walk. */
    method Enter(pos: nat, x: Route, ghost base: Stack, ghost at: nat, ghost ahead: seq<Hit>, ghost work: nat)
        returns (m: bool, ghost hits: seq<Hit>)
      requires stack.Length == STACK_SIZE && mlen.Length == STACK_SIZE && pos < STACK_SIZE
      requires base == Frames(pos) && Due(q, x, base, ahead, work) && Bounded(q)
      requires prev <= unmatched && unmatched - prev == at == Offset(base) <= |q.path|
      modifies this, stack, mlen
      ensures cnt == pos + 1 && stack[pos] == x && (m <==> x.Node? && mlen[pos] != 0) && Stands(hits, work)
      ensures ahead == (if m && x.info.handler then [Hit(x.info, matched, unmatched)] else []) + hits
    {
      m := Place(pos, x, base, at);
      hits := Entered(pos, base, Frame(x, mlen[pos]), at, ahead, work);
    }

    lemma Entered(pos: nat, base: Stack, f: Frame, at: nat, ahead: seq<Hit>, work: nat) returns (hits: seq<Hit>)
      requires stack.Length == STACK_SIZE && mlen.Length == STACK_SIZE && pos < STACK_SIZE && cnt == pos + 1
      requires Frames(cnt) == On(base, f) && Frames(pos) == base && stack[pos] == f.route && mlen[pos] == f.mlen
      requires Due(q, f.route, base, ahead, work) && Bounded(q) && at == Offset(base) <= |q.path|
      requires prev <= unmatched && unmatched - prev == at
      requires f.route.Node? ==> f.mlen == MatchLen(q, f.route.info, at) && (f.mlen != 0 ==> prev == Taken(f.mlen))
      requires f.route.Null? ==> prev == 0
      ensures Stands(hits, work) && ahead == Reported(f, at) + hits
    {
      VisitDue(q, base, f, at, ahead, work);
      hits := Pending(q, On(base, f));
    }

    /** The next sibling of the parent, whose slot is now the last one; `st` is the walk before. */
    method ParentNext(ghost st: Stack) returns (r: Route, ghost hits: seq<Hit>)
      requires stack.Length == STACK_SIZE && mlen.Length == STACK_SIZE && 0 < cnt < STACK_SIZE
      requires st == Frames(cnt + 1) && Walk(q, st) && st.top.route.Null? && unmatched == Offset(Frames(cnt))
      modifies this, stack, mlen
      ensures cnt == old(cnt) && r == stack[cnt - 1] && Stands(hits, Work(st))
      ensures Pending(q, st) ==
        (if r.Node? && mlen[cnt - 1] != 0 && r.info.handler then [Hit(r.info, matched, unmatched)] else []) + hits
    {
      ghost var base := Frames(cnt - 1);
      PopDue(q, st);
      r := stack[cnt - 1];
      prev := if mlen[cnt - 1] > 0 then mlen[cnt - 1] else 0;
      r := r.next;
      var m;
      m, hits := Enter(cnt - 1, r, base, Offset(base), Pending(q, st), Work(st));
    }

    /** The end of a sibling list: back to the parent and on to its next sibling. */
    method PopThenNext() returns (r: Route)
      requires Valid() && cnt > 0 && stack[cnt - 1].Null?
      modifies this, stack, mlen
      ensures Valid()
      ensures cnt == 0 ==> r.Null? && old(Remaining()) == []
      ensures cnt > 0 ==>
        && r == stack[cnt - 1] && Work(Frames(cnt)) < old(Work(Frames(cnt)))
        && old(Remaining()) == (if r.Node? && mlen[cnt - 1] != 0
          && r.info.handler then [Hit(r.info, matched, unmatched)] else []) + Remaining()
      ensures cnt < old(cnt)
    {
      ghost var st := Frames(cnt);
      cnt := cnt - 1;
      if cnt > 0 {
        ghost var hits;
        r, hits := ParentNext(st);
        assert Peek(0);
      } else {
        LastPop(q, st);
        prev := 0;
        r := Null;
      }
    }

    /** The first child of a matched route. */
    method Descend() returns (r: Route, m: bool)
      requires Valid() && cnt > 0 && stack[cnt - 1].Node? && stack[cnt - 1].child.Node? && mlen[cnt - 1] != 0
      modifies this, stack, mlen
      ensures Valid() && cnt > 0 && Work(Frames(cnt)) < old(Work(Frames(cnt))) && (m ==> r.Node?)
      ensures old(Remaining()) == (if m && r.info.handler then [Hit(r.info, matched, unmatched)] else []) + Remaining()
    {
      ghost var base := Frames(cnt);
      prev := 0;
      r := stack[cnt - 1].child;
      DescendDue(q, base);
      DescendFits(q, base);
      ghost var hits;
      m, hits := Enter(cnt, r, base, Offset(base), Pending(q, base), Work(base));
      assert Peek(0);
    }

    /** The next sibling of a route that has no children or did not match. */
    method Sibling() returns (r: Route, m: bool)
      requires Valid() && cnt > 0 && stack[cnt - 1].Node? && (stack[cnt - 1].child.Null? || mlen[cnt - 1] == 0)
      modifies this, stack, mlen
      ensures Valid() && cnt > 0 && Work(Frames(cnt)) < old(Work(Frames(cnt))) && (m ==> r.Node?)
      ensures old(Remaining()) == (if m && r.info.handler then [Hit(r.info, matched, unmatched)] else []) + Remaining()
    {
      ghost var st, base := Frames(cnt), Frames(cnt - 1);
      r := stack[cnt - 1].next;
      SiblingDue(q, st);
      ghost var hits;
      m, hits := Enter(cnt - 1, r, base, Offset(base), Pending(q, st), Work(st));
      assert Peek(0);
    }

    /** The next matching route that has a handler, or null. */
    method Next() returns (r: Route)
      requires Valid()
      modifies this, stack, mlen
      ensures Valid()
      ensures r.Null? ==> old(Remaining()) == [] && cnt == 0
      ensures r.Node? ==> old(Remaining()) == [Hit(r.info, matched, unmatched)] + Remaining()
    {
      ghost var all := Remaining();
      while cnt > 0
        invariant Valid() && Remaining() == all
        decreases Work(Frames(cnt)), cnt
      {
        var m;
        var p := stack[cnt - 1];
        if p.Null? {
          r := PopThenNext();
          m := r.Node? && mlen[cnt - 1] != 0;
        } else if p.child.Node? && mlen[cnt - 1] != 0 {
          r, m := Descend();
        } else {
          r, m := Sibling();
        }
        if m && r.info.handler {
          return;
        }
      }
      r := Null;
    }
  }

  // ------------------------------------------------------------------ what a hit is

  /** `chain` leads from a sibling list down to a route: each route is a child of the one before. */
  predicate Lineage(r: Route, chain: seq<Info>)
    decreases r
  {
    && r.Node? && chain != []
    && (|| (chain[0] == r.info && (|chain| == 1 || Lineage(r.child, chain[1..])))
        || Lineage(r.next, chain))
  }

  /** The offset behind a chain of routes, each matched where the one before it stopped. */
  function EndOf(q: Request, at: nat, chain: seq<Info>): nat
    requires Bounded(q) && at <= |q.path|
    decreases |chain|
  {
    if chain == [] then at
    else
      MatchInPath(q, chain[0], at);
      EndOf(q, at + Taken(MatchLen(q, chain[0], at)), chain[1..])
  }

  predicate AllMatch(q: Request, at: nat, chain: seq<Info>)
    requires Bounded(q) && at <= |q.path|
    decreases |chain|
  {
    chain == [] ||
    (MatchInPath(q, chain[0], at);
     MatchLen(q, chain[0], at) != 0 && AllMatch(q, at + Taken(MatchLen(q, chain[0], at)), chain[1..]))
  }

  /** A chain of matching routes explains a hit: it ends in the hit's route, which has a handler, and the
      offsets are those before and behind that route. */
  ghost predicate Explains(q: Request, r: Route, at: nat, chain: seq<Info>, h: Hit)
    requires Bounded(q) && at <= |q.path|
  {
    && Lineage(r, chain) && AllMatch(q, at, chain) && chain[|chain| - 1] == h.info && h.info.handler
    && h.matched == EndOf(q, at, chain[..|chain| - 1]) && h.unmatched == EndOf(q, at, chain)
  }

  ghost predicate Explained(q: Request, r: Route, at: nat, h: Hit)
    requires Bounded(q) && at <= |q.path|
  {
    exists chain :: Explains(q, r, at, chain, h)
  }

  /** Explained(q, r, at, h), kept folded. */
  ghost predicate HasChain(q: Request, r: Route, at: nat, h: Hit) {
    forall x :: Peek(x) && x == h ==> Bounded(q) && at <= |q.path| && Explained(q, r, at, x)
  }

  lemma ExplainedHere(q: Request, r: Route, at: nat, to: nat)
    requires Bounded(q) && at <= |q.path| && r.Node? && MatchLen(q, r.info, at) != 0 && r.info.handler
    requires to == at + Taken(MatchLen(q, r.info, at))
    ensures HasChain(q, r, at, Hit(r.info, at, to))
  {
    MatchInPath(q, r.info, at);
    var c := [r.info];
    assert c[1..] == [] && c[..|c| - 1] == [];
    assert EndOf(q, to, []) == to && EndOf(q, at, []) == at && AllMatch(q, to, []);
    assert EndOf(q, at, c) == EndOf(q, to, c[1..]) && AllMatch(q, at, c) && Lineage(r, c);
    assert Explains(q, r, at, c, Hit(r.info, at, to));
  }

  lemma ExplainedByNext(q: Request, r: Route, at: nat, h: Hit)
    requires r.Node? && HasChain(q, r.next, at, h)
    ensures HasChain(q, r, at, h)
  {
    assert Peek(h);
    var chain :| Explains(q, r.next, at, chain, h);
    assert Explains(q, r, at, chain, h);
  }

  lemma ExplainedByChild(q: Request, r: Route, at: nat, to: nat, h: Hit)
    requires Bounded(q) && at <= |q.path| && r.Node? && MatchLen(q, r.info, at) != 0
    requires to == at + Taken(MatchLen(q, r.info, at)) <= |q.path| && HasChain(q, r.child, to, h)
    ensures HasChain(q, r, at, h)
  {
    assert Peek(h);
    var chain :| Explains(q, r.child, to, chain, h);
    var c := [r.info] + chain;
    assert c[1..] == chain && c[..|c| - 1] == [r.info] + chain[..|chain| - 1];
    assert ([r.info] + chain[..|chain| - 1])[1..] == chain[..|chain| - 1];
    assert Explains(q, r, at, c, h);
  }

  /** The three sources of hits. */
  lemma MatchesParts(q: Request, r: Route, at: nat, to: nat, h: Hit)
    requires Bounded(q) && at <= |q.path| && r.Node?
    requires to == at + Taken(MatchLen(q, r.info, at)) <= |q.path|
    ensures h in Matches(q, r, at) <==>
      || h in Matches(q, r.next, at)
      || (MatchLen(q, r.info, at) != 0
          && (h in Matches(q, r.child, to) || (r.info.handler && h == Hit(r.info, at, to))))
  {
    var own := if r.info.handler then [Hit(r.info, at, to)] else [];
    assert Matches(q, r, at) ==
      (if MatchLen(q, r.info, at) == 0 then [] else own + Matches(q, r.child, to)) + Matches(q, r.next, at);
  }

  /** Every hit is explained by a chain of matching routes. */
  lemma {:induction false} HitsAreExplained(q: Request, r: Route, at: nat, h: Hit)
    requires Bounded(q) && at <= |q.path| && h in Matches(q, r, at)
    ensures HasChain(q, r, at, h)
    decreases r
  {
    MatchInPath(q, r.info, at);
    var to := at + Taken(MatchLen(q, r.info, at));
    MatchesParts(q, r, at, to, h);
    if h in Matches(q, r.next, at) {
      HitsAreExplained(q, r.next, at, h);
      ExplainedByNext(q, r, at, h);
    } else if h in Matches(q, r.child, to) {
      HitsAreExplained(q, r.child, to, h);
      ExplainedByChild(q, r, at, to, h);
    } else {
      ExplainedHere(q, r, at, to);
    }
  }

  /** Every chain of matching routes that ends in a route with a handler is reported. */
  lemma {:induction false} ExplainedAreHits(q: Request, r: Route, at: nat, chain: seq<Info>, h: Hit)
    requires Bounded(q) && at <= |q.path| && Explains(q, r, at, chain, h)
    ensures h in Matches(q, r, at)
    decreases r
  {
    MatchInPath(q, r.info, at);
    var end := at + Taken(MatchLen(q, r.info, at));
    MatchesParts(q, r, at, end, h);
    if Lineage(r.next, chain) {
      ExplainedAreHits(q, r.next, at, chain, h);
    } else if |chain| == 1 {
      ExplainedByOne(q, r, at, chain, h);
    } else {
      ExplainedBelow(q, r, at, chain, h);
      ExplainedAreHits(q, r.child, end, chain[1..], h);
    }
  }

  lemma ExplainedByOne(q: Request, r: Route, at: nat, chain: seq<Info>, h: Hit)
    requires Bounded(q) && at <= |q.path| && r.Node? && Explains(q, r, at, chain, h) && |chain| == 1
      && chain[0] == r.info
    ensures MatchLen(q, r.info, at) != 0 && h == Hit(r.info, at, at + Taken(MatchLen(q, r.info, at)))
  {
    MatchInPath(q, r.info, at);
    assert chain[1..] == [] && chain[..|chain| - 1] == [];
    assert EndOf(q, at, chain) == EndOf(q, at + Taken(MatchLen(q, r.info, at)), chain[1..]);
  }

  lemma ExplainedBelow(q: Request, r: Route, at: nat, chain: seq<Info>, h: Hit)
    requires Bounded(q) && at <= |q.path| && r.Node? && Explains(q, r, at, chain, h) && |chain| > 1
      && !Lineage(r.next, chain)
    requires at + Taken(MatchLen(q, r.info, at)) <= |q.path|
    ensures MatchLen(q, r.info, at) != 0 && Explains(q, r.child, at + Taken(MatchLen(q, r.info, at)), chain[1..], h)
  {
    var rest := chain[1..];
    assert chain[..|chain| - 1][1..] == rest[..|rest| - 1] && chain[..|chain| - 1][0] == r.info;
  }

  /** Path bookkeeping: a hit reported at the offsets (m, u) is a route with a handler such that all its
      ancestors and itself match in turn, m is what the ancestors have taken and u is that plus its own
      share; both lie within the path. */
  lemma HitOffsets(q: Request, root: Route, h: Hit)
    requires Bounded(q) && root.Node?
    ensures h in Matches(q, root.child, 0) <==> Explained(q, root.child, 0, h)
    ensures h in Matches(q, root.child, 0) ==> h.matched <= h.unmatched <= |q.path|
  {
    if h in Matches(q, root.child, 0) {
      HitsAreExplained(q, root.child, 0, h);
      assert Peek(h);
      var chain :| Explains(q, root.child, 0, chain, h);
      EndsInPath(q, 0, chain[..|chain| - 1], chain[|chain| - 1]);
      assert chain[..|chain| - 1] + [chain[|chain| - 1]] == chain;
    }
    forall chain | Explains(q, root.child, 0, chain, h)
      ensures h in Matches(q, root.child, 0)
    {
      ExplainedAreHits(q, root.child, 0, chain, h);
    }
  }

  lemma {:induction false} EndsInPath(q: Request, at: nat, chain: seq<Info>, last: Info)
    requires Bounded(q) && at <= |q.path|
    ensures EndOf(q, at, chain) <= EndOf(q, at, chain + [last]) <= |q.path|
    decreases |chain|
  {
    MatchInPath(q, last, at);
    if chain == [] {
      assert chain + [last] == [last] && [last][1..] == [];
    } else {
      MatchInPath(q, chain[0], at);
      assert (chain + [last])[1..] == chain[1..] + [last];
      EndsInPath(q, at + Taken(MatchLen(q, chain[0], at)), chain[1..], last);
    }
  }

  // ------------------------------------------------------------------ the iterator, kept folded

  /** The iterator will return these hits, in a form that the verifier does not unfold by itself. */
  ghost predicate Yields(it: RouteIter, hits: seq<Hit>)
    reads it, it.stack, it.mlen
  {
    forall k: int :: Peek(k) ==> it.Valid() && it.Remaining() == hits
  }

  method NewIterator(q: Request, root: Route) returns (it: RouteIter)
    requires Bounded(q) && root.Node? && root.next.Null? && Height(root) < STACK_SIZE
    ensures fresh(it) && fresh(it.stack) && fresh(it.mlen) && Yields(it, Matches(q, root.child, 0))
  {
    it := new RouteIter(q, root);
  }

  method NextHit(it: RouteIter, ghost hits: seq<Hit>) returns (r: Route)
    requires Yields(it, hits)
    modifies it, it.stack, it.mlen
    ensures r.Null? ==> hits == []
    ensures r.Node? ==> hits != [] && hits[0] == Hit(r.info, it.matched, it.unmatched) && Yields(it, hits[1..])
  {
    assert Peek(0);
    r := it.Next();
    if r.Node? {
      assert hits[1..] == it.Remaining();
    }
  }
}
