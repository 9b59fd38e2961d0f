/** What matching means for the text of the path: which piece of it a hit stands for, and which chains of
    literal routes a path reaches. */
module RoutePaths {
  import opened Folding
  import opened Routes
  import Tree = Registration

  lemma {:induction false} LastMatches(q: Request, at: nat, chain: seq<Info>)
    requires Bounded(q) && at <= |q.path| && chain != [] && AllMatch(q, at, chain)
    ensures var k := |chain| - 1;
      var m := EndOf(q, at, chain[..k]);
      m <= |q.path| && MatchLen(q, chain[k], m) != 0 && EndOf(q, at, chain) == m + Taken(MatchLen(q, chain[k], m))
    decreases |chain|
  {
    var k := |chain| - 1;
    MatchInPath(q, chain[0], at);
    var to := at + Taken(MatchLen(q, chain[0], at));
    if k == 0 {
      assert chain[..k] == [] && chain[1..] == [];
      assert EndOf(q, to, chain[1..]) == to;
    } else {
      LastMatches(q, to, chain[1..]);
      ButLast(chain);
    }
  }

  lemma ButLast(chain: seq<Info>)
    requires |chain| > 1
    ensures var k := |chain| - 1;
      chain[..k][1..] == chain[1..][..k - 1] && chain[1..][k - 1] == chain[k] && chain[..k][0] == chain[0]
  {
  }

  /** Every hit has a method in common with the request, and its two offsets enclose the piece of the path that
      its pattern stands for. Without the prefix flag the path ends there, except for a route without a pattern
      that is reached before the end. */
  lemma HitMeans(q: Request, root: Route, h: Hit)
    requires Bounded(q) && root.Node? && h in Matches(q, root.child, 0)
    ensures h.matched <= h.unmatched <= |q.path| && h.info.handler && Meets(q, h.info)
    ensures h.info.pattern.Literal? ==> q.path[h.matched..h.unmatched] == h.info.pattern.text != ""
    ensures h.info.pattern.Regex? ==> 0 < h.unmatched - h.matched == q.match_(h.info.pattern.re, h.matched)
    ensures h.info.pattern.Empty? ==> h.unmatched == h.matched
    ensures !h.info.prefix ==> (h.unmatched == |q.path| <==> !h.info.pattern.Empty? || h.matched == |q.path|)
  {
    HitOffsets(q, root, h);
    var chain :| Explains(q, root.child, 0, chain, h);
    LastMatches(q, 0, chain);
    MatchMeans(q, h.info, h.matched);
  }

  /** The flag alone does not do it: a route without a pattern and without the flag is reported at the beginning
      of a path that goes on. */
  lemma EmptyPatternInFront() returns (q: Request, root: Route, h: Hit)
    ensures Bounded(q) && root.Node? && h in Matches(q, root.child, 0) && !h.info.prefix && h.unmatched < |q.path|
  {
    q := Request("/", {Get}, (re, at) => 0);
    var i := Info(1, 0, {Get}, false, Empty, true);
    root := Node(Info(0, 0, {Get}, true, Empty, false), Node(i, Null, Null), Null);
    h := Hit(i, 0, 0);
    assert Get in q.verbs * i.verbs;
    assert MatchLen(q, i, 0) == -1;
    assert Matches(q, root.child, 0) == [h];
  }

  // ------------------------------------------------------------------ chains of literal routes

  /** What a route without an expression stands for. */
  function TextOf(r: Info): string {
    if r.pattern.Literal? then r.pattern.text else ""
  }

  function JoinedText(chain: seq<Info>): string {
    if chain == [] then "" else TextOf(chain[0]) + JoinedText(chain[1..])
  }

  predicate NoExpressions(chain: seq<Info>) {
    forall i :: 0 <= i < |chain| ==> !chain[i].pattern.Regex?
  }

  predicate Stands(path: string, at: nat, text: string) {
    at + |text| <= |path| && path[at..at + |text|] == text
  }

  /** A literal route, whose text is not empty, matches by prefix or ends the path. */
  predicate EndsWell(q: Request, r: Info, to: nat) {
    r.pattern.Literal? ==> r.pattern.text != "" && (r.prefix || to == |q.path|)
  }

  ghost predicate EveryRoute(q: Request, at: nat, chain: seq<Info>) {
    forall i :: 0 <= i < |chain| ==> Meets(q, chain[i]) && EndsWell(q, chain[i], at + |JoinedText(chain[..i + 1])|)
  }

  /** EveryRoute(q, at, chain), kept folded. */
  ghost predicate Good(q: Request, at: nat, chain: seq<Info>) {
    forall x :: Peek(x) && x == at ==> EveryRoute(q, x, chain)
  }

  /** The texts of the chain, joined, stand in the path from the offset on; every route has a method in common
      with the request and ends well. */
  ghost predicate Reaches(q: Request, at: nat, chain: seq<Info>) {
    Stands(q.path, at, JoinedText(chain)) && Good(q, at, chain)
  }

  lemma JoinedFirst(chain: seq<Info>)
    requires chain != []
    ensures JoinedText(chain[..1]) == TextOf(chain[0])
  {
    assert chain[..1][1..] == [];
  }

  lemma JoinedShift(chain: seq<Info>, i: nat)
    requires i < |chain| - 1
    ensures |JoinedText(chain[..i + 2])| == |TextOf(chain[0])| + |JoinedText(chain[1..][..i + 1])|
  {
    assert chain[..i + 2][1..] == chain[1..][..i + 1];
  }

  lemma StandsJoined(path: string, at: nat, a: string, b: string)
    ensures Stands(path, at, a + b) <==> Stands(path, at, a) && Stands(path, at + |a|, b)
  {
    if at + |a| + |b| <= |path| {
      var t := path[at..at + |a| + |b|];
      assert t[..|a|] == path[at..at + |a|] && t[|a|..] == path[at + |a|..at + |a| + |b|];
      assert t == t[..|a|] + t[|a|..];
      if t == a + b {
        assert t[..|a|] == a && t[|a|..] == b;
      }
    }
  }

  lemma GoodStep(q: Request, at: nat, chain: seq<Info>, to: nat)
    requires chain != [] && to == at + |TextOf(chain[0])|
    ensures Good(q, at, chain) <==> Meets(q, chain[0]) && EndsWell(q, chain[0], to) && Good(q, to, chain[1..])
  {
    assert Peek(at) && Peek(to);
    JoinedFirst(chain);
    var rest := chain[1..];
    if EveryRoute(q, to, rest) {
      forall i | 1 <= i < |chain|
        ensures Meets(q, chain[i]) && EndsWell(q, chain[i], at + |JoinedText(chain[..i + 1])|)
      {
        JoinedShift(chain, i - 1);
        assert rest[i - 1] == chain[i];
      }
    }
    if EveryRoute(q, at, chain) {
      forall i | 0 <= i < |rest|
        ensures Meets(q, rest[i]) && EndsWell(q, rest[i], to + |JoinedText(rest[..i + 1])|)
      {
        JoinedShift(chain, i);
        assert rest[i] == chain[i + 1];
      }
    }
  }

  /** A route without an expression matches at an offset; kept folded. */
  ghost predicate One(q: Request, r: Info, at: nat) {
    forall x :: Peek(x) && x == r ==> Meets(q, x) && Takes(q, x, at, |TextOf(x)|)
  }

  /** The texts of a chain stand in the path up to `end`; kept folded. */
  ghost predicate ReachesTo(q: Request, at: nat, chain: seq<Info>, end: nat) {
    forall x :: Peek(x) && x == chain ==> Reaches(q, at, x) && end == at + |JoinedText(x)|
  }

  /** The routes of a chain match in turn, up to `end`; kept folded. */
  ghost predicate MatchesTo(q: Request, at: nat, chain: seq<Info>, end: nat) {
    forall x :: Peek(x) && x == chain ==>
      Bounded(q) && at <= |q.path| && AllMatch(q, at, x) && EndOf(q, at, x) == end
  }

  lemma OneIs(q: Request, r: Info, at: nat)
    requires !r.pattern.Regex? && at <= |q.path|
    ensures One(q, r, at) <==> Meets(q, r) && EndsWell(q, r, at + |TextOf(r)|) && Stands(q.path, at, TextOf(r))
  {
    assert Peek(r);
  }

  lemma ReachesIs(q: Request, at: nat, chain: seq<Info>, end: nat, text: string)
    requires text == JoinedText(chain)
    ensures ReachesTo(q, at, chain, end) <==> Stands(q.path, at, text) && Good(q, at, chain) && end == at + |text|
  {
    assert Peek(chain);
  }

  /** One route of a chain, and the others behind it. */
  lemma ReachesStep(q: Request, at: nat, chain: seq<Info>, to: nat, end: nat)
    requires chain != [] && !chain[0].pattern.Regex? && to == at + |TextOf(chain[0])| && at <= |q.path|
    ensures ReachesTo(q, at, chain, end) <==> One(q, chain[0], at) && ReachesTo(q, to, chain[1..], end)
  {
    var a, b := TextOf(chain[0]), JoinedText(chain[1..]);
    StandsJoined(q.path, at, a, b);
    GoodStep(q, at, chain, to);
    OneIs(q, chain[0], at);
    ReachesIs(q, at, chain, end, a + b);
    ReachesIs(q, to, chain[1..], end, b);
  }

  lemma OneMatches(q: Request, r: Info, at: nat)
    requires Bounded(q) && at <= |q.path| && !r.pattern.Regex?
    ensures MatchLen(q, r, at) != 0 <==> One(q, r, at)
    ensures MatchLen(q, r, at) != 0 ==> Taken(MatchLen(q, r, at)) == |TextOf(r)| <= |q.path| - at
  {
    assert Peek(r);
    MatchInPath(q, r, at);
    MatchMeans(q, r, at);
  }

  lemma MatchesStep(q: Request, at: nat, chain: seq<Info>, to: nat, end: nat)
    requires chain != [] && !chain[0].pattern.Regex? && to == at + |TextOf(chain[0])| && Bounded(q) && at <= |q.path|
    ensures MatchesTo(q, at, chain, end) <==> One(q, chain[0], at) && MatchesTo(q, to, chain[1..], end)
  {
    assert Peek(chain) && Peek(chain[1..]);
    OneMatches(q, chain[0], at);
  }

  lemma NoRoutes(q: Request, at: nat, end: nat)
    requires Bounded(q) && at <= |q.path|
    ensures MatchesTo(q, at, [], end) <==> ReachesTo(q, at, [], end)
  {
    var none: seq<Info> := [];
    assert Peek(none);
    assert MatchesTo(q, at, none, end) <==> end == at;
    assert ReachesTo(q, at, none, end) <==> end == at;
  }

  /** The routes of a chain without expressions match in turn if and only if their texts stand in the path, and
      they end where the texts end. */
  lemma {:induction false} ChainMatchesIff(q: Request, at: nat, chain: seq<Info>, end: nat)
    requires Bounded(q) && at <= |q.path| && NoExpressions(chain)
    ensures MatchesTo(q, at, chain, end) <==> ReachesTo(q, at, chain, end)
    decreases |chain|
  {
    if chain == [] {
      NoRoutes(q, at, end);
    } else {
      var to := at + |TextOf(chain[0])|;
      ReachesStep(q, at, chain, to, end);
      MatchesStep(q, at, chain, to, end);
      if One(q, chain[0], at) {
        OneMatches(q, chain[0], at);
        ChainMatchesIff(q, to, chain[1..], end);
      }
    }
  }

  // ------------------------------------------------------------------ one chain for a route

  lemma {:induction false} LineageInTree(r: Route, chain: seq<Info>)
    requires Lineage(r, chain)
    ensures chain[|chain| - 1].id in Tree.Ids(r)
    decreases r
  {
    Tree.IdParts(r, chain[|chain| - 1].id);
    if Lineage(r.next, chain) {
      LineageInTree(r.next, chain);
    } else if |chain| > 1 {
      LineageInTree(r.child, chain[1..]);
      assert chain[1..][|chain| - 2] == chain[|chain| - 1];
    }
  }

  /** A chain leads on from its first route, or it is a chain of a later sibling; with unique numbers the number of
      its last route says which. */
  lemma LineageWhere(r: Route, chain: seq<Info>)
    requires Lineage(r, chain) && Tree.UniqueIds(r)
    ensures var x := chain[|chain| - 1].id;
      if x == r.info.id then chain == [r.info]
      else if x in Tree.Ids(r.child) then chain[0] == r.info && |chain| > 1 && Lineage(r.child, chain[1..])
      else Lineage(r.next, chain)
  {
    var x := chain[|chain| - 1].id;
    Tree.IdParts(r, x);
    if Lineage(r.next, chain) {
      LineageInTree(r.next, chain);
    } else if |chain| > 1 {
      LineageInTree(r.child, chain[1..]);
      assert chain[1..][|chain| - 2] == chain[|chain| - 1];
    }
  }

  /** In a tree of registered routes one chain leads to a route. */
  lemma {:induction false} LineageUnique(r: Route, a: seq<Info>, b: seq<Info>)
    requires Tree.UniqueIds(r) && Lineage(r, a) && Lineage(r, b) && a[|a| - 1].id == b[|b| - 1].id
    ensures a == b
    decreases r
  {
    LineageWhere(r, a);
    LineageWhere(r, b);
    Tree.UniqueTail(r);
    var x := a[|a| - 1].id;
    if x != r.info.id {
      if x in Tree.Ids(r.child) {
        assert a[1..][|a| - 2] == a[|a| - 1] && b[1..][|b| - 2] == b[|b| - 1];
        LineageUnique(r.child, a[1..], b[1..]);
        assert a == [a[0]] + a[1..] && b == [b[0]] + b[1..];
      } else {
        LineageUnique(r.next, a, b);
      }
    }
  }

  lemma LevelWhere(r: Route, x: nat)
    requires r.Node? && Tree.UniqueIds(r) && x in Tree.Ids(r)
    ensures Tree.Level(r, x) ==
      if x == r.info.id then 1 else if x in Tree.Ids(r.child) then 1 + Tree.Level(r.child, x) else Tree.Level(r.next, x)
  {
    Tree.IdParts(r, x);
    Tree.LevelPresent(r.child, x);
    Tree.LevelPresent(r.next, x);
  }

  lemma LevelDown(r: Route, chain: seq<Info>, x: nat)
    requires Tree.UniqueIds(r) && Lineage(r, chain) && x == chain[|chain| - 1].id
    ensures Tree.UniqueIds(r.child) && Tree.UniqueIds(r.next)
    ensures
      || (|chain| == 1 && Tree.Level(r, x) == 1)
      || (|chain| > 1 && Lineage(r.child, chain[1..]) && Tree.Level(r, x) == 1 + Tree.Level(r.child, x))
      || (Lineage(r.next, chain) && Tree.Level(r, x) == Tree.Level(r.next, x))
  {
    LineageWhere(r, chain);
    LineageInTree(r, chain);
    LevelWhere(r, x);
    Tree.UniqueTail(r);
  }

  /** The level that registration measures is the length of the chain that leads to the route. */
  lemma {:induction false} LevelIsChainLength(r: Route, chain: seq<Info>, x: nat)
    requires Tree.UniqueIds(r) && Lineage(r, chain) && x == chain[|chain| - 1].id
    ensures Tree.Level(r, x) == |chain|
    decreases r
  {
    LevelDown(r, chain, x);
    if |chain| > 1 && Lineage(r.child, chain[1..]) && Tree.Level(r, x) == 1 + Tree.Level(r.child, x) {
      LevelIsChainLength(r.child, chain[1..], x);
    } else if Lineage(r.next, chain) && Tree.Level(r, x) == Tree.Level(r.next, x) {
      LevelIsChainLength(r.next, chain, x);
    }
  }

  /** A route with a handler that is reached over routes without expressions is reported if and only if the texts
      of its chain, joined, stand at the beginning of the path, every route of the chain has a method in common
      with the request, and each literal route without the prefix flag ends the path; it is reported with the
      piece of the path that its own text stands for. */
  lemma ReportedIff(q: Request, root: Route, chain: seq<Info>)
    requires Bounded(q) && root.Node? && Tree.UniqueIds(root.child)
    requires Lineage(root.child, chain) && NoExpressions(chain) && chain[|chain| - 1].handler
    ensures var k := |chain| - 1;
      var here := Hit(chain[k], |JoinedText(chain[..k])|, |JoinedText(chain)|);
      && (here in Matches(q, root.child, 0) <==> Reaches(q, 0, chain))
      && (forall h :: h in Matches(q, root.child, 0) && h.info.id == chain[k].id ==> h == here)
  {
    var k := |chain| - 1;
    var here := Hit(chain[k], |JoinedText(chain[..k])|, |JoinedText(chain)|);
    if Reaches(q, 0, chain) {
      assert Peek(chain);
      ChainMatchesIff(q, 0, chain, |JoinedText(chain)|);
      BeginningMatches(q, chain);
      ExplainedAreHits(q, root.child, 0, chain, here);
    }
    forall h | h in Matches(q, root.child, 0) && h.info.id == chain[k].id
      ensures h == here && Reaches(q, 0, chain)
    {
      OnlyHit(q, root, chain, h);
    }
  }

  /** The chain matches from the beginning of the path, and the hit has its two last offsets; kept folded. */
  ghost predicate Describes(q: Request, chain: seq<Info>, h: Hit) {
    forall x :: Peek(x) && x == chain ==>
      && Bounded(q) && x != [] && AllMatch(q, 0, x) && x[|x| - 1] == h.info
      && h.matched == EndOf(q, 0, x[..|x| - 1]) && h.unmatched == EndOf(q, 0, x)
  }

  lemma ChainOf(q: Request, root: Route, h: Hit) returns (c: seq<Info>)
    requires Bounded(q) && root.Node? && h in Matches(q, root.child, 0)
    ensures Lineage(root.child, c) && c[|c| - 1] == h.info && Describes(q, c, h)
  {
    HitOffsets(q, root, h);
    c :| Explains(q, root.child, 0, c, h);
  }

  lemma DescribedHit(q: Request, chain: seq<Info>, h: Hit)
    requires Describes(q, chain, h) && chain != [] && NoExpressions(chain) && chain[|chain| - 1] == h.info
    ensures h == Hit(h.info, |JoinedText(chain[..|chain| - 1])|, |JoinedText(chain)|) && Reaches(q, 0, chain)
  {
    assert Peek(chain);
    BeginningMatches(q, chain);
  }

  lemma OnlyHit(q: Request, root: Route, chain: seq<Info>, h: Hit)
    requires Bounded(q) && root.Node? && Tree.UniqueIds(root.child) && Lineage(root.child, chain)
      && NoExpressions(chain)
    requires h in Matches(q, root.child, 0) && h.info.id == chain[|chain| - 1].id
    ensures h == Hit(chain[|chain| - 1], |JoinedText(chain[..|chain| - 1])|, |JoinedText(chain)|)
    ensures Reaches(q, 0, chain)
  {
    var c := ChainOf(q, root, h);
    LineageUnique(root.child, c, chain);
    DescribedHit(q, chain, h);
  }

  lemma BeginningMatches(q: Request, chain: seq<Info>)
    requires Bounded(q) && chain != [] && NoExpressions(chain) && AllMatch(q, 0, chain)
    ensures EndOf(q, 0, chain[..|chain| - 1]) == |JoinedText(chain[..|chain| - 1])|
    ensures EndOf(q, 0, chain) == |JoinedText(chain)| && Reaches(q, 0, chain)
  {
    BeginningAllMatch(q, 0, chain);
    var a := chain[..|chain| - 1];
    ChainMatchesIff(q, 0, a, EndOf(q, 0, a));
    ChainMatchesIff(q, 0, chain, EndOf(q, 0, chain));
    assert Peek(a) && Peek(chain);
  }

  lemma {:induction false} BeginningAllMatch(q: Request, at: nat, chain: seq<Info>)
    requires Bounded(q) && at <= |q.path| && chain != [] && AllMatch(q, at, chain)
    ensures AllMatch(q, at, chain[..|chain| - 1])
    decreases |chain|
  {
    var a := chain[..|chain| - 1];
    if a != [] {
      MatchInPath(q, chain[0], at);
      BeginningAllMatch(q, at + Taken(MatchLen(q, chain[0], at)), chain[1..]);
      assert a[1..] == chain[1..][..|chain| - 2];
    }
  }
}
