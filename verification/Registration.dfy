/** Registration of routes: every new route becomes the last child of its parent, the nesting limit is
    enforced here, and a route that gets a child matches by prefix from then on. */
module Registration {
  import opened Options
  import opened Routes

  datatype Parent = Root | Under(id: nat)

  datatype Spec = Spec(parent: Parent, verbs: set<Verb>, prefix: bool, pattern: Pattern, handler: bool)

  datatype Outcome = Registered(id: nat) | MaxNestedRoutes | ParentFromDifferentContext

  /** A route that names no method answers GET. */
  function Methods(verbs: set<Verb>): set<Verb> {
    if verbs == {} then {Get} else verbs
  }

  /** A pattern without text is no pattern. */
  function PatternOf(p: Pattern): Pattern {
    if p.Literal? && p.text == "" then Empty else p
  }

  function NewRoute(id: nat, parent: nat, spec: Spec): Info {
    Info(id, parent, Methods(spec.verbs), spec.prefix, PatternOf(spec.pattern), spec.handler)
  }

  /** The sibling list with one more route at its end. */
  function Append(siblings: Route, leaf: Info): Route {
    match siblings
    case Null => Node(leaf, Null, Null)
    case Node(info, child, next) => Node(info, child, Append(next, leaf))
  }

  function Attach(r: Route, p: nat, leaf: Info): Route {
    match r
    case Null => Null
    case Node(info, child, next) =>
      Node(info, if info.id == p then Append(child, leaf) else Attach(child, p, leaf), Attach(next, p, leaf))
  }

  function MarkPrefix(r: Route, p: nat): Route {
    match r
    case Null => Null
    case Node(info, child, next) =>
      Node(if info.id == p then info.(prefix := true) else info, MarkPrefix(child, p), MarkPrefix(next, p))
  }

  /** How many routes lead from the first level down to route p, itself included; 0 if it is not there. */
  function Level(r: Route, p: nat): nat {
    match r
    case Null => 0
    case Node(info, child, next) =>
      var below := Level(child, p);
      Max(if info.id == p then 1 else if below > 0 then 1 + below else 0, Level(next, p))
  }

  // ------------------------------------------------------------------ the shape of a tree

  function Ids(r: Route): multiset<nat> {
    match r
    case Null => multiset{}
    case Node(info, child, next) => multiset{info.id} + Ids(child) + Ids(next)
  }

  /** No number stands for two routes. */
  ghost predicate UniqueIds(r: Route) {
    forall i: nat :: Ids(r)[i] <= 1
  }

  lemma IdParts(r: Route, i: nat)
    requires r.Node?
    ensures Ids(r)[i] == (if i == r.info.id then 1 else 0) + Ids(r.child)[i] + Ids(r.next)[i]
  {
  }

  lemma UniqueTail(r: Route)
    requires r.Node? && UniqueIds(r)
    ensures UniqueIds(r.next) && UniqueIds(r.child)
  {
    forall i: nat
      ensures Ids(r.next)[i] <= 1 && Ids(r.child)[i] <= 1
    {
      IdParts(r, i);
    }
  }

  /** The route of that number. */
  function Find(r: Route, x: nat): Option<Info> {
    match r
    case Null => None
    case Node(info, child, next) =>
      if info.id == x then Some(info) else if Find(child, x).Some? then Find(child, x) else Find(next, x)
  }

  function Siblings(r: Route): seq<nat> {
    match r
    case Null => []
    case Node(info, child, next) => [info.id] + Siblings(next)
  }

  /** The children of route p, in the order in which they are matched. */
  function Children(r: Route, p: nat): seq<nat> {
    match r
    case Null => []
    case Node(info, child, next) =>
      (if info.id == p then Siblings(child) else []) + Children(child, p) + Children(next, p)
  }

  /** Every route knows the route above it. */
  predicate Linked(r: Route, parent: nat) {
    r.Node? ==> r.info.parent == parent && Linked(r.child, r.info.id) && Linked(r.next, parent)
  }

  // ------------------------------------------------------------------ what attaching does

  lemma {:induction false} AppendSiblings(s: Route, leaf: Info)
    ensures Siblings(Append(s, leaf)) == Siblings(s) + [leaf.id]
  {
    if s.Node? {
      AppendSiblings(s.next, leaf);
    }
  }

  lemma {:induction false} AppendIds(s: Route, leaf: Info)
    ensures Ids(Append(s, leaf)) == Ids(s) + multiset{leaf.id}
  {
    if s.Node? {
      AppendIds(s.next, leaf);
    }
  }

  lemma {:induction false} AppendChildren(s: Route, leaf: Info, x: nat)
    ensures Children(Append(s, leaf), x) == Children(s, x)
  {
    if s.Node? {
      AppendChildren(s.next, leaf, x);
    }
  }

  lemma {:induction false} AppendHeight(s: Route, leaf: Info)
    ensures Height(Append(s, leaf)) == Max(1, Height(s))
  {
    if s.Node? {
      AppendHeight(s.next, leaf);
    }
  }

  lemma {:induction false} AppendLinked(s: Route, leaf: Info, parent: nat)
    requires Linked(s, parent) && leaf.parent == parent
    ensures Linked(Append(s, leaf), parent)
  {
    if s.Node? {
      AppendLinked(s.next, leaf, parent);
    }
  }

  lemma {:induction false} AbsentHasNoChildren(r: Route, p: nat)
    requires p !in Ids(r)
    ensures Children(r, p) == []
  {
    if r.Node? {
      AbsentHasNoChildren(r.child, p);
      AbsentHasNoChildren(r.next, p);
    }
  }

  lemma {:induction false} LevelPresent(r: Route, p: nat)
    ensures Level(r, p) > 0 <==> p in Ids(r)
  {
    if r.Node? {
      LevelPresent(r.child, p);
      LevelPresent(r.next, p);
    }
  }

  lemma {:induction false} AttachAbsent(r: Route, p: nat, leaf: Info)
    requires p !in Ids(r)
    ensures Attach(r, p, leaf) == r
  {
    if r.Node? {
      AttachAbsent(r.child, p, leaf);
      AttachAbsent(r.next, p, leaf);
    }
  }

  lemma {:induction false} AttachIds(r: Route, p: nat, leaf: Info)
    requires Ids(r)[p] == 1
    ensures Ids(Attach(r, p, leaf)) == Ids(r) + multiset{leaf.id}
    ensures Siblings(Attach(r, p, leaf)) == Siblings(r)
  {
    if r.info.id == p {
      AppendIds(r.child, leaf);
      AttachAbsent(r.next, p, leaf);
    } else if p in Ids(r.child) {
      AttachIds(r.child, p, leaf);
      AttachAbsent(r.next, p, leaf);
    } else {
      AttachAbsent(r.child, p, leaf);
      AttachIds(r.next, p, leaf);
    }
  }

  lemma AttachHere(r: Route, p: nat, leaf: Info, x: nat)
    requires r.Node? && r.info.id == p && Ids(r)[p] == 1
    ensures Children(Attach(r, p, leaf), x) == Children(r, x) + (if x == p then [leaf.id] else [])
  {
    AppendSiblings(r.child, leaf);
    AppendChildren(r.child, leaf, x);
    AttachAbsent(r.next, p, leaf);
    AbsentHasNoChildren(r.child, p);
    AbsentHasNoChildren(r.next, p);
  }

  /** One level up: the change lies in the child list or behind it. */
  lemma AttachUp(r: Route, p: nat, leaf: Info, x: nat, more: seq<nat>)
    requires r.Node? && r.info.id != p && Siblings(Attach(r.child, p, leaf)) == Siblings(r.child)
    requires
      || (Children(Attach(r.child, p, leaf), x) == Children(r.child, x) + more && Attach(r.next, p, leaf) == r.next
          && (more == [] || Children(r.next, x) == []))
      || (Attach(r.child, p, leaf) == r.child && Children(Attach(r.next, p, leaf), x) == Children(r.next, x) + more)
    ensures Children(Attach(r, p, leaf), x) == Children(r, x) + more
  {
    var a := Attach(r, p, leaf);
    assert a.child == Attach(r.child, p, leaf) && a.next == Attach(r.next, p, leaf) && a.info == r.info;
    var own := if r.info.id == x then Siblings(r.child) else [];
    assert Children(a, x) == own + Children(a.child, x) + Children(a.next, x);
    AppendsLast(own, Children(r.child, x), Children(r.next, x), more);
  }

  lemma AppendsLast(a: seq<nat>, b: seq<nat>, c: seq<nat>, more: seq<nat>)
    ensures a + b + (c + more) == a + b + c + more
    ensures more == [] || c == [] ==> a + (b + more) + c == a + b + c + more
  {
  }

  /** The new route becomes the last child of its parent; no other list of children changes. */
  lemma {:induction false} AttachChildren(r: Route, p: nat, leaf: Info, x: nat)
    requires Ids(r)[p] == 1
    ensures Children(Attach(r, p, leaf), x) == Children(r, x) + (if x == p then [leaf.id] else [])
  {
    if r.info.id == p {
      AttachHere(r, p, leaf, x);
    } else {
      var more := if x == p then [leaf.id] else [];
      if p in Ids(r.child) {
        AttachIds(r.child, p, leaf);
        AttachChildren(r.child, p, leaf, x);
        AttachAbsent(r.next, p, leaf);
        AbsentHasNoChildren(r.next, p);
      } else {
        AttachAbsent(r.child, p, leaf);
        AttachChildren(r.next, p, leaf, x);
      }
      AttachUp(r, p, leaf, x, more);
    }
  }

  lemma {:induction false} AttachHeight(r: Route, p: nat, leaf: Info)
    ensures Height(Attach(r, p, leaf)) <= Max(Height(r), Level(r, p) + 1)
  {
    if r.Node? {
      AppendHeight(r.child, leaf);
      AttachHeight(r.child, p, leaf);
      AttachHeight(r.next, p, leaf);
      if Level(r.child, p) == 0 {
        LevelPresent(r.child, p);
        AttachAbsent(r.child, p, leaf);
      }
    }
  }

  lemma {:induction false} AttachLinked(r: Route, p: nat, leaf: Info, parent: nat)
    requires Linked(r, parent) && leaf.parent == p
    ensures Linked(Attach(r, p, leaf), parent)
  {
    if r.Node? {
      if r.info.id == p {
        AppendLinked(r.child, leaf, p);
      }
      AttachLinked(r.child, p, leaf, r.info.id);
      AttachLinked(r.next, p, leaf, parent);
    }
  }

  lemma {:induction false} FindPresent(r: Route, x: nat)
    ensures Find(r, x).Some? <==> x in Ids(r)
    ensures Find(r, x).Some? ==> Find(r, x).value.id == x
  {
    if r.Node? {
      FindPresent(r.child, x);
      FindPresent(r.next, x);
    }
  }

  lemma {:induction false} AppendFinds(s: Route, leaf: Info, x: nat)
    ensures Find(Append(s, leaf), x) == if x !in Ids(s) && x == leaf.id then Some(leaf) else Find(s, x)
  {
    if s.Node? {
      AppendFinds(s.next, leaf, x);
      FindPresent(s.child, x);
    }
  }

  lemma NewIdBelow(r: Route, leaf: Info)
    requires r.Node? && leaf.id !in Ids(r)
    ensures leaf.id != r.info.id && leaf.id !in Ids(r.child) && leaf.id !in Ids(r.next)
    ensures Find(r.child, leaf.id).None? && Find(r.next, leaf.id).None?
  {
    IdParts(r, leaf.id);
    FindPresent(r.child, leaf.id);
    FindPresent(r.next, leaf.id);
  }

  lemma AttachFindsHere(r: Route, p: nat, leaf: Info, x: nat)
    requires r.Node? && r.info.id == p && Ids(r)[p] == 1 && leaf.id !in Ids(r)
    ensures Find(Attach(r, p, leaf), x) == if x == leaf.id then Some(leaf) else Find(r, x)
  {
    IdParts(r, p);
    NewIdBelow(r, leaf);
    AppendFinds(r.child, leaf, x);
    AttachAbsent(r.next, p, leaf);
  }

  /** The new route is in the tree as it was made, and no other route changes. */
  lemma {:induction false} AttachFinds(r: Route, p: nat, leaf: Info, x: nat)
    requires Ids(r)[p] == 1 && leaf.id !in Ids(r)
    ensures Find(Attach(r, p, leaf), x) == if x == leaf.id then Some(leaf) else Find(r, x)
  {
    if r.info.id == p {
      AttachFindsHere(r, p, leaf, x);
    } else {
      IdParts(r, p);
      NewIdBelow(r, leaf);
      if p in Ids(r.child) {
        AttachFinds(r.child, p, leaf, x);
        AttachAbsent(r.next, p, leaf);
      } else {
        AttachAbsent(r.child, p, leaf);
        AttachFinds(r.next, p, leaf, x);
      }
    }
  }

  /** Nothing about a route changes, except that it matches by prefix from now on if it is marked. */
  predicate SameRoute(was: Info, now: Info, marked: bool) {
    && now.id == was.id && now.parent == was.parent && now.verbs == was.verbs && now.pattern == was.pattern
    && now.handler == was.handler && (now.prefix <==> was.prefix || marked)
  }

  /** A marked route matches by prefix; nothing else about it changes, and no other route. */
  lemma {:induction false} MarkFinds(r: Route, p: nat, x: nat)
    ensures Find(MarkPrefix(r, p), x).Some? <==> Find(r, x).Some?
    ensures Find(r, x).Some? ==>
      SameRoute(Find(r, x).value, Find(MarkPrefix(r, p), x).value, x == p)
  {
    if r.Node? {
      MarkFinds(r.child, p, x);
      MarkFinds(r.next, p, x);
    }
  }

  /** Matching by prefix is a flag: the shape stays. */
  lemma {:induction false} MarkKeepsIds(r: Route, p: nat)
    ensures Ids(MarkPrefix(r, p)) == Ids(r) && Siblings(MarkPrefix(r, p)) == Siblings(r)
    ensures Height(MarkPrefix(r, p)) == Height(r)
  {
    if r.Node? {
      MarkKeepsIds(r.child, p);
      MarkKeepsIds(r.next, p);
    }
  }

  lemma {:induction false} MarkKeepsChildren(r: Route, p: nat, x: nat)
    ensures Children(MarkPrefix(r, p), x) == Children(r, x) && Level(MarkPrefix(r, p), x) == Level(r, x)
  {
    if r.Node? {
      MarkKeepsIds(r.child, p);
      MarkKeepsChildren(r.child, p, x);
      MarkKeepsChildren(r.next, p, x);
    }
  }

  lemma {:induction false} MarkKeepsLinks(r: Route, p: nat, parent: nat)
    requires Linked(r, parent)
    ensures Linked(MarkPrefix(r, p), parent)
  {
    if r.Node? {
      MarkKeepsLinks(r.child, p, r.info.id);
      MarkKeepsLinks(r.next, p, parent);
    }
  }

  /** A registered route has the parent, the pattern, the flags and the methods it was given; it answers GET if
      it was given no method, and takes a pattern without text for none. */
  ghost predicate MadeBy(info: Info, spec: Spec, parent: nat) {
    && info.parent == parent && info.handler == spec.handler && info.prefix == spec.prefix
    && (forall v :: v in info.verbs <==> v in spec.verbs || (v == Get && forall w :: w !in spec.verbs))
    && (if spec.pattern == Literal("") then info.pattern == Empty else info.pattern == spec.pattern)
  }

  // ------------------------------------------------------------------ the context

  lemma AttachAll(r: Route, p: nat, leaf: Info)
    requires Ids(r)[p] == 1
    ensures forall x :: Children(Attach(r, p, leaf), x) == Children(r, x) + if x == p then [leaf.id] else []
  {
    forall x
      ensures Children(Attach(r, p, leaf), x) == Children(r, x) + if x == p then [leaf.id] else []
    {
      AttachChildren(r, p, leaf, x);
    }
  }

  lemma Made(id: nat, parent: nat, spec: Spec)
    ensures MadeBy(NewRoute(id, parent, spec), spec, parent)
  {
  }

  class Context {
    var root: Route
    var count: nat

    /** Every registered route is in the tree once and knows its parent; the iterator's stack suffices. */
    ghost predicate Valid()
      reads this
    {
      && root.Node? && root.next.Null? && root.info.id == 0 && count > 0
      && Height(root) < STACK_SIZE && Linked(root, 0)
      && forall i: nat :: Ids(root)[i] == if i < count then 1 else 0
    }

    constructor (spec: Spec)
      ensures Valid() && count == 1 && Children(root, 0) == [] && MadeBy(root.info, spec, 0)
    {
      root := Node(NewRoute(0, 0, spec), Null, Null);
      count := 1;
      new;
      Made(0, 0, spec);
      assert Ids(root) == multiset{0};
    }

    lemma AllFound()
      requires Valid()
      ensures forall x: nat :: x < count ==> Find(root, x).Some?
    {
      forall x: nat | x < count
        ensures Find(root, x).Some?
      {
        FindPresent(root, x);
      }
    }

    method Mark(p: nat)
      requires Valid()
      modifies this
      ensures Valid() && count == old(count) && root == MarkPrefix(old(root), p)
      ensures forall x :: Children(root, x) == old(Children(root, x))
      ensures forall x :: Level(root, x) == old(Level(root, x))
      ensures forall x: nat :: x < count ==>
        Find(root, x).Some? && old(Find(root, x)).Some?
            && SameRoute(old(Find(root, x)).value, Find(root, x).value, x == p)
    {
      MarkKeepsIds(root, p);
      MarkKeepsLinks(root, p, 0);
      forall x
        ensures Children(MarkPrefix(root, p), x) == Children(root, x)
        ensures Level(MarkPrefix(root, p), x) == Level(root, x)
      {
        MarkKeepsChildren(root, p, x);
      }
      forall x: nat | x < count
        ensures Find(MarkPrefix(root, p), x).Some? && Find(root, x).Some?
        ensures SameRoute(Find(root, x).value, Find(MarkPrefix(root, p), x).value, x == p)
      {
        FindPresent(root, x);
        MarkFinds(root, p, x);
      }
      root := MarkPrefix(root, p);
    }

    method Add(p: nat, leaf: Info)
      requires Valid() && p < count && leaf.id == count && leaf.parent == p && Level(root, p) < STACK_SIZE - 1
      modifies this
      ensures Valid() && count == old(count) + 1 && root == Attach(old(root), p, leaf)
      ensures forall x :: Children(root, x) == old(Children(root, x)) + if x == p then [leaf.id] else []
      ensures forall x: nat :: Find(root, x) == if x == leaf.id then Some(leaf) else old(Find(root, x))
    {
      AttachAll(root, p, leaf);
      forall x: nat
        ensures Find(Attach(root, p, leaf), x) == if x == leaf.id then Some(leaf) else Find(root, x)
      {
        AttachFinds(root, p, leaf, x);
      }
      AttachIds(root, p, leaf);
      AttachHeight(root, p, leaf);
      AttachLinked(root, p, leaf, 0);
      root := Attach(root, p, leaf);
      count := count + 1;
    }

    /** Registration fails if and only if the parent is not one of ours or lies 126 levels deep; the parent's
        prefix flag is set before that is known. A new route is the last child of its parent and the tree is
        otherwise as before, so siblings stay in registration order. */
    method Register(spec: Spec) returns (o: Outcome)
      requires Valid()
      modifies this
      ensures Valid()
      ensures var p := if spec.parent.Root? then 0 else spec.parent.id;
        && (o.Registered? <==> p < old(count) && Level(old(root), p) < STACK_SIZE - 1)
        && (o.ParentFromDifferentContext? <==> p >= old(count))
        && (o.Registered? ==> o.id == old(count))
        && count == old(count) + (if o.Registered? then 1 else 0)
        && (forall x :: Children(root, x) == old(Children(root, x)) + if o.Registered? && x == p then [o.id] else [])
      ensures var p := if spec.parent.Root? then 0 else spec.parent.id;
        var marked := if spec.parent.Under? && p < old(count) then MarkPrefix(old(root), p) else old(root);
        root == if o.Registered? then Attach(marked, p, NewRoute(old(count), p, spec)) else marked
      ensures var p := if spec.parent.Root? then 0 else spec.parent.id;
        && (o.Registered? ==> Find(root, o.id).Some? && MadeBy(Find(root, o.id).value, spec, p))
        && (forall x: nat :: x < old(count) ==>
              && Find(root, x).Some? && old(Find(root, x)).Some?
              && SameRoute(old(Find(root, x)).value, Find(root, x).value, spec.parent.Under? && x == p))
    {
      var p := if spec.parent.Root? then 0 else spec.parent.id;
      AllFound();
      if p >= count {
        return ParentFromDifferentContext;
      }
      if spec.parent.Under? {
        Mark(p);
      }
      if Level(root, p) >= STACK_SIZE - 1 {
        return MaxNestedRoutes;
      }
      Add(p, NewRoute(count, p, spec));
      Made(count - 1, p, spec);
      return Registered(count - 1);
    }
  }
}
