/** Flattening a tree of superiors into chains, in place: `tree2chains` in function/__init__.py, and the simpler
    `branch2lists` of flow_descriptions. */
module ChainLists {
  import opened Wrappers
  import opened Statements

  /** The dictionary of superiors of one entity, in insertion order: for each issuer None, or its statement and its own
      superiors. */
  type Tree = seq<Edge>

  datatype Edge = Edge(issuer: Entity, branch: Branch)

  datatype Branch = NoBranch | Branch(statement: Jws, superiors: Tree)

  /** A mutable list. */
  class TokenList {
    var items: seq<Jws>

    constructor (items: seq<Jws>)
      ensures this.items == items
    {
      this.items := items;
    }

    method Append(jws: Jws)
      modifies this
      ensures items == old(items) + [jws]
    {
      items := items + [jws];
    }
  }

  // ---- Specification ----

  function AppendToAll(lists: seq<seq<Jws>>, statement: Jws): (r: seq<seq<Jws>>)
    ensures |r| == |lists|
    ensures forall i :: 0 <= i < |lists| ==> r[i] == lists[i] + [statement]
  {
    seq(|lists|, i requires 0 <= i < |lists| => lists[i] + [statement])
  }

  function EdgeChains(e: Edge): seq<seq<Jws>> {
    match e.branch
    case NoBranch => [[]]
    case Branch(statement, superiors) =>
      if superiors == [] then [[statement]] else AppendToAll(Chains(superiors), statement)
  }

  /** What `tree2chains` returns, as values. */
  function Chains(tree: Tree): seq<seq<Jws>> {
    if tree == [] then [] else Chains(tree[..|tree| - 1]) + EdgeChains(tree[|tree| - 1])
  }

  // ---- Leaves and paths ----

  /** A place in the tree: which edge to follow at each level, from the root. */
  type Route = seq<nat>

  /** The route ends at a leaf: a missing branch, or an entity without superiors. */
  predicate IsLeafRoute(tree: Tree, route: Route) {
    route != [] && route[0] < |tree| &&
    match tree[route[0]].branch
    case NoBranch => |route| == 1
    case Branch(_, superiors) => if superiors == [] then |route| == 1 else IsLeafRoute(superiors, route[1..])
  }

  /** The statements met on the way from the root. */
  function Along(tree: Tree, route: Route): seq<Jws>
    requires IsLeafRoute(tree, route)
    decreases |route|
  {
    match tree[route[0]].branch
    case NoBranch => []
    case Branch(statement, superiors) => if superiors == [] then [statement] else [statement] + Along(superiors, route[1..])
  }

  function PrefixAll(n: nat, routes: seq<Route>): (r: seq<Route>)
    ensures |r| == |routes|
    ensures forall i :: 0 <= i < |routes| ==> r[i] == [n] + routes[i]
  {
    seq(|routes|, i requires 0 <= i < |routes| => [n] + routes[i])
  }

  function EdgeRoutes(e: Edge, n: nat): seq<Route> {
    match e.branch
    case NoBranch => [[n]]
    case Branch(_, superiors) => if superiors == [] then [[n]] else PrefixAll(n, Routes(superiors))
  }

  /** The leaf routes from left to right. */
  function Routes(tree: Tree): seq<Route> {
    if tree == [] then [] else Routes(tree[..|tree| - 1]) + EdgeRoutes(tree[|tree| - 1], |tree| - 1)
  }

  /** `a` lies to the left of `b`. */
  predicate LeftOf(a: Route, b: Route) {
    a != [] && b != [] && (a[0] < b[0] || (a[0] == b[0] && LeftOf(a[1..], b[1..])))
  }

  ghost predicate Ordered(routes: seq<Route>) {
    forall i, j :: 0 <= i < j < |routes| ==> LeftOf(routes[i], routes[j])
  }

  lemma {:induction false} LeafRouteInPrefix(tree: Tree, n: nat, route: Route)
    requires n <= |tree|
    ensures IsLeafRoute(tree[..n], route) <==> IsLeafRoute(tree, route) && route[0] < n
    ensures IsLeafRoute(tree[..n], route) ==> Along(tree[..n], route) == Along(tree, route)
  {
  }

  /** The routes and chains of `tree` are as claimed. */
  ghost predicate Faithful(tree: Tree) {
    (forall r :: r in Routes(tree) <==> IsLeafRoute(tree, r)) &&
    Ordered(Routes(tree)) && |Chains(tree)| == |Routes(tree)| &&
    forall i :: 0 <= i < |Routes(tree)| ==>
      IsLeafRoute(tree, Routes(tree)[i]) && Chains(tree)[i] == Reverse(Along(tree, Routes(tree)[i]))
  }

  lemma PrefixedRoutes(n: nat, inner: seq<Route>, r: Route)
    ensures r in PrefixAll(n, inner) <==> r != [] && r[0] == n && r[1..] in inner
  {
    var routes := PrefixAll(n, inner);
    if r in routes {
      var i :| 0 <= i < |routes| && routes[i] == r;
      assert r[1..] == inner[i];
    }
    if r != [] && r[0] == n && r[1..] in inner {
      var i :| 0 <= i < |inner| && inner[i] == r[1..];
      assert routes[i] == [n] + r[1..] == r;
    }
  }

  lemma EdgeMembers(tree: Tree, r: Route)
    requires tree != [] && (tree[|tree| - 1].branch.Branch? ==> Faithful(tree[|tree| - 1].branch.superiors))
    ensures r in EdgeRoutes(tree[|tree| - 1], |tree| - 1) <==> IsLeafRoute(tree, r) && r[0] == |tree| - 1
  {
    var n := |tree| - 1;
    if tree[n].branch.NoBranch? || tree[n].branch.superiors == [] {
      assert r != [] && r[0] == n && |r| == 1 ==> r == [n];
    } else {
      PrefixedRoutes(n, Routes(tree[n].branch.superiors), r);
    }
  }

  lemma EdgeOrder(e: Edge, n: nat)
    requires e.branch.Branch? ==> Faithful(e.branch.superiors)
    ensures Ordered(EdgeRoutes(e, n))
  {
    if e.branch.Branch? && e.branch.superiors != [] {
      var inner, routes := Routes(e.branch.superiors), EdgeRoutes(e, n);
      forall i, j | 0 <= i < j < |routes|
        ensures LeftOf(routes[i], routes[j])
      {
        assert routes[i][1..] == inner[i] && routes[j][1..] == inner[j];
      }
    }
  }

  lemma EdgeChainsAre(tree: Tree)
    requires tree != [] && (tree[|tree| - 1].branch.Branch? ==> Faithful(tree[|tree| - 1].branch.superiors))
    ensures var n := |tree| - 1; var routes := EdgeRoutes(tree[n], n);
            |EdgeChains(tree[n])| == |routes| &&
            forall i :: 0 <= i < |routes| ==>
              IsLeafRoute(tree, routes[i]) && EdgeChains(tree[n])[i] == Reverse(Along(tree, routes[i]))
  {
    var n := |tree| - 1;
    var routes := EdgeRoutes(tree[n], n);
    if tree[n].branch.Branch? && tree[n].branch.superiors != [] {
      var inner := Routes(tree[n].branch.superiors);
      forall i | 0 <= i < |routes|
        ensures IsLeafRoute(tree, routes[i]) && EdgeChains(tree[n])[i] == Reverse(Along(tree, routes[i]))
      {
        assert routes[i][1..] == inner[i];
        var along := Along(tree[n].branch.superiors, inner[i]);
        assert ([tree[n].branch.statement] + along)[1..] == along;
      }
    }
  }

  /** One chain per leaf, in left-to-right order and each leaf exactly once; each chain is the path to its leaf,
      reversed. */
  lemma {:induction false} FlatteningIsFaithful(tree: Tree)
    ensures Faithful(tree)
  {
    if tree != [] {
      var front, n := tree[..|tree| - 1], |tree| - 1;
      FlatteningIsFaithful(front);
      if tree[n].branch.Branch? {
        FlatteningIsFaithful(tree[n].branch.superiors);
      }
      forall r
        ensures IsLeafRoute(front, r) <==> IsLeafRoute(tree, r) && r[0] < n
        ensures IsLeafRoute(front, r) ==> Along(front, r) == Along(tree, r)
        ensures r in EdgeRoutes(tree[n], n) <==> IsLeafRoute(tree, r) && r[0] == n
      {
        LeafRouteInPrefix(tree, n, r);
        EdgeMembers(tree, r);
      }
      EdgeOrder(tree[n], n);
      EdgeChainsAre(tree);
      var left, right := Routes(front), EdgeRoutes(tree[n], n);
      assert forall i :: 0 <= i < |left| ==> left[i] in left;
      assert forall i :: 0 <= i < |right| ==> right[i] in right;
    }
  }

  lemma {:induction false} LeftOfIsStrict(a: Route)
    ensures !LeftOf(a, a)
  {
    if a != [] {
      LeftOfIsStrict(a[1..]);
    }
  }

  // ---- The in-place form ----

  ghost predicate Holds(lists: seq<TokenList>, contents: seq<seq<Jws>>)
    reads lists
  {
    |lists| == |contents| && forall i :: 0 <= i < |lists| ==> lists[i].items == contents[i]
  }

  ghost predicate Distinct(lists: seq<TokenList>) {
    forall i, j :: 0 <= i < j < |lists| ==> lists[i] != lists[j]
  }

  /** `for l in lists: l.append(statement)` */
  method AppendStatement(lists: seq<TokenList>, statement: Jws, ghost contents: seq<seq<Jws>>)
    requires Distinct(lists) && Holds(lists, contents)
    modifies lists
    ensures Holds(lists, AppendToAll(contents, statement))
  {
    var i := 0;
    while i < |lists|
      invariant 0 <= i <= |lists|
      invariant forall j :: 0 <= j < i ==> lists[j].items == contents[j] + [statement]
      invariant forall j :: i <= j < |lists| ==> lists[j].items == contents[j]
    {
      lists[i].Append(statement);
      i := i + 1;
    }
  }

  /** Appends the statement to the new lists and adds them to those collected so far. */
  method AppendAndCollect(res: seq<TokenList>, lists: seq<TokenList>, statement: Jws, ghost done: seq<seq<Jws>>,
          ghost more: seq<seq<Jws>>)
    returns (joined: seq<TokenList>)
    requires Distinct(res) && Distinct(lists) && (forall l :: l in lists ==> l !in res)
    requires Holds(res, done) && Holds(lists, more)
    modifies lists
    ensures joined == res + lists && Distinct(joined) && Holds(joined, done + AppendToAll(more, statement))
  {
    forall k | 0 <= k < |res|
      ensures res[k] !in lists
    {
      assert res[k] in res;
    }
    DistinctTogether(res, lists);
    AppendStatement(lists, statement, more);
    joined := if res == [] then lists else res + lists;
    assert res == [] ==> res + lists == lists;
  }

  lemma DistinctTogether(a: seq<TokenList>, b: seq<TokenList>)
    requires Distinct(a) && Distinct(b) && forall l :: l in b ==> l !in a
    ensures Distinct(a + b)
  {
    forall i, j | 0 <= i < j < |a + b|
      ensures (a + b)[i] != (a + b)[j]
    {
      if i < |a| <= j {
        assert (a + b)[j] == b[j - |a|] && b[j - |a|] in b;
        assert a[i] in a;
      }
    }
  }

  /** `tree2chains`: all returned lists are new and no two of them share storage. */
  method Tree2Chains(unit: Tree) returns (res: seq<TokenList>)
    ensures Holds(res, Chains(unit)) && Distinct(res)
    ensures fresh(res)
    decreases unit
  {
    res := [];
    var i := 0;
    while i < |unit|
      invariant 0 <= i <= |unit|
      invariant Holds(res, Chains(unit[..i])) && Distinct(res)
      invariant fresh(res)
      decreases |unit| - i
    {
      assert unit[..i + 1][..i] == unit[..i];
      match unit[i].branch {
      case NoBranch =>
        var empty := new TokenList([]);
        res := res + [empty];
      case Branch(statement, superiors) =>
        if superiors == [] {
          var single := new TokenList([statement]);
          res := res + [single];
        } else {
          var lists := Tree2Chains(superiors);
          res := AppendAndCollect(res, lists, statement, Chains(unit[..i]), Chains(superiors));
        }
      }
      i := i + 1;
    }
    assert unit[..i] == unit;
  }

  // ---- branch2lists ----

  predicate Complete(b: Branch) {
    b.Branch? && forall e :: e in b.superiors ==> Complete(e.branch)
  }

  predicate CompleteTree(tree: Tree) {
    forall e :: e in tree ==> Complete(e.branch)
  }

  /** What `branch2lists` returns for a branch without missing parts. */
  function BranchLists(b: Branch): seq<seq<Jws>>
    requires Complete(b)
    decreases b, 0
  {
    if b.superiors == [] then [[b.statement]] else AppendToAll(AllBranchLists(b.superiors), b.statement)
  }

  function AllBranchLists(tree: Tree): seq<seq<Jws>>
    requires CompleteTree(tree)
    decreases tree, 1
  {
    if tree == [] then [] else AllBranchLists(tree[..|tree| - 1]) + BranchLists(tree[|tree| - 1].branch)
  }

  /** On trees without missing branches the two flattenings agree. */
  lemma {:induction false} FlatteningsAgree(tree: Tree)
    requires CompleteTree(tree)
    ensures Chains(tree) == AllBranchLists(tree)
  {
    if tree != [] {
      var last := tree[|tree| - 1];
      FlatteningsAgree(tree[..|tree| - 1]);
      assert last in tree;
      FlatteningsAgree(last.branch.superiors);
    }
  }

  method Branch2Lists(b: Branch) returns (res: seq<TokenList>)
    requires Complete(b)
    ensures Holds(res, BranchLists(b)) && Distinct(res)
    ensures fresh(res)
    decreases b
  {
    res := [];
    if b.superiors == [] {
      var single := new TokenList([b.statement]);
      return [single];
    }
    var i := 0;
    while i < |b.superiors|
      invariant 0 <= i <= |b.superiors|
      invariant Holds(res, AppendToAll(AllBranchLists(b.superiors[..i]), b.statement)) && Distinct(res)
      invariant fresh(res)
    {
      assert b.superiors[..i + 1][..i] == b.superiors[..i];
      ghost var done, more := AllBranchLists(b.superiors[..i]), BranchLists(b.superiors[i].branch);
      var lists := Branch2Lists(b.superiors[i].branch);
      assert AppendToAll(done + more, b.statement) == AppendToAll(done, b.statement) + AppendToAll(more, b.statement);
      res := AppendAndCollect(res, lists, b.statement, AppendToAll(done, b.statement), more);
      i := i + 1;
    }
    assert b.superiors[..i] == b.superiors;
  }
}
