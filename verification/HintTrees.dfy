/** The collected tree and its paths, said of what the network serves: the configurations' own `authority_hints`, fetch
    endpoints and statements. Behind trust_chain_collector.py. */
module HintTrees {
  import opened Wrappers
  import opened Statements
  import opened ChainVerification
  import opened ChainLists
  import opened Collection

  // ---- What the network serves ----

  /** The configuration served of the entity verifies with a key of its own. */
  ghost predicate Serves(w: World, e: Entity, config: Jws) {
    w.configuration(e) == Some(config) && config.Jws? && config.payload.jwks.Some? &&
    exists k :: k in config.payload.jwks.value && w.selects(config, k) && w.verifies(config, k)
  }

  lemma ServesIff(w: World, e: Entity, config: Jws)
    ensures ConfigurationOf(w, e) == Ok(config) <==> Serves(w, e, config)
  {
    if Serves(w, e, config) {
      var k :| k in config.payload.jwks.value && w.selects(config, k) && w.verifies(config, k);
      assert VerifiedBy(w, config, k);
    }
    if SelfSigned(w, config) {
      var k :| k in config.payload.jwks.value && VerifiedBy(w, config, k);
      assert w.selects(config, k) && w.verifies(config, k);
    }
  }

  /** The authority's configuration has a fetch endpoint, from which it serves the statement about the entity; both are
      dated. */
  ghost predicate Followed(s: Setting, entity: Entity, authority: Entity, statement: Jws, config: Jws) {
    !(entity == authority && entity in s.anchors) && Serves(s.world, authority, config) &&
    config.payload.fetchEndpoint.FetchAt? && config.payload.fetchEndpoint.url != "" &&
    s.world.statement(config.payload.fetchEndpoint.url, authority, entity) == Some(statement) &&
    statement.Jws? && statement.payload.exp.Some? && config.payload.exp.Some?
  }

  /** The hint is a trust anchor naming itself, or its configuration has no fetch endpoint, or an empty one. */
  ghost predicate NotFollowed(s: Setting, entity: Entity, authority: Entity) {
    (entity == authority && entity in s.anchors) ||
    exists config :: Serves(s.world, authority, config) && config.payload.fetchEndpoint in {NoEndpoint, FetchAt("")}
  }

  /** Otherwise asking the authority raises. */
  lemma {:induction false} AskIff(s: Setting, entity: Entity, authority: Entity)
    ensures forall statement, config ::
              Ask(s, entity, authority) == Via(statement, config) <==> Followed(s, entity, authority, statement, config)
    ensures Ask(s, entity, authority).Blocked? <==> NotFollowed(s, entity, authority)
  {
    forall config
      ensures ConfigurationOf(s.world, authority) == Ok(config) <==> Serves(s.world, authority, config)
    {
      ServesIff(s.world, authority, config);
    }
  }

  // ---- The tree ----

  ghost predicate Hinted(s: Setting, config: Jws, a: Entity)
    requires config.Jws?
  {
    config.payload.iss != s.stopAt && config.payload.authorityHints.Some? && a in config.payload.authorityHints.value
  }

  /** The list without repetitions: every first occurrence, in order. */
  function FirstOnes(names: seq<Entity>): seq<Entity> {
    if names == [] then
      []
    else
      var front := FirstOnes(names[..|names| - 1]);
      if names[|names| - 1] in front then front else front + [names[|names| - 1]]
  }

  lemma {:induction false} FirstOnesAre(names: seq<Entity>)
    ensures forall a :: a in FirstOnes(names) <==> a in names
    ensures forall i, j :: 0 <= i < j < |FirstOnes(names)| ==> FirstOnes(names)[i] != FirstOnes(names)[j]
    ensures forall i, j :: 0 <= i < j < |FirstOnes(names)| ==> ComesFirst(names, FirstOnes(names)[i], FirstOnes(names)[j])
  {
    if names != [] {
      var front, last := names[..|names| - 1], names[|names| - 1];
      FirstOnesAre(front);
      var before, ones := FirstOnes(front), FirstOnes(names);
      assert forall a :: a in names <==> a in front || a == last;
      forall i, j | 0 <= i < j < |ones|
        ensures ComesFirst(names, ones[i], ones[j])
      {
        assert ones[i] == before[i];
        if j < |before| {
          assert ones[j] == before[j] && ComesFirst(front, before[i], before[j]);
          var p :| 0 <= p < |front| && front[p] == before[i] && before[j] !in front[..p + 1];
          assert names[p] == before[i] && names[..p + 1] == front[..p + 1];
        } else {
          assert before[i] in front;
          var p :| 0 <= p < |front| && front[p] == before[i];
          assert names[p] == before[i] && names[..p + 1] == front[..p + 1];
          assert last !in front;
        }
      }
    }
  }

  /** `a` stands somewhere before every place of `b`. */
  ghost predicate ComesFirst(names: seq<Entity>, a: Entity, b: Entity) {
    exists p :: 0 <= p < |names| && names[p] == a && b !in names[..p + 1]
  }

  function IssuersOf(tree: Tree): (r: seq<Entity>)
    ensures |r| == |tree|
  {
    seq(|tree|, i requires 0 <= i < |tree| => tree[i].issuer)
  }

  /** The tree of superiors above a configuration: empty where it has no hints or collection stops; otherwise one edge for
      each hint, and above it, where the hint is followed, the authority's statement and the tree above its configuration. */
  ghost predicate TreeAbove(s: Setting, entity: Entity, config: Jws, tree: Tree)
    decreases tree
  {
    config.Jws? &&
    IssuersOf(tree) == (if config.payload.authorityHints.None? || config.payload.iss == s.stopAt then []
                        else FirstOnes(config.payload.authorityHints.value)) &&
    forall e :: e in tree ==>
      match e.branch
      case NoBranch => NotFollowed(s, entity, e.issuer)
      case Branch(statement, superiors) =>
        exists above :: Followed(s, entity, e.issuer, statement, above) && TreeAbove(s, e.issuer, above, superiors)
  }

  lemma IssuersOfMore(e: Edge, rest: Tree)
    ensures IssuersOf([e] + rest) == [e.issuer] + IssuersOf(rest)
  {
  }

  lemma {:induction false} PutIssuer(tree: Tree, issuer: Entity, branch: Branch)
    ensures IssuersOf(Put(tree, issuer, branch)) ==
            if issuer in IssuersOf(tree) then IssuersOf(tree) else IssuersOf(tree) + [issuer]
  {
    if tree != [] {
      var first, rest := tree[0], tree[1..];
      assert tree == [first] + rest;
      IssuersOfMore(first, rest);
      if first.issuer != issuer {
        PutIssuer(rest, issuer, branch);
        IssuersOfMore(first, Put(rest, issuer, branch));
        assert [first.issuer] + (IssuersOf(rest) + [issuer]) == IssuersOf(tree) + [issuer];
      } else {
        IssuersOfMore(Edge(issuer, branch), rest);
      }
    }
  }

  lemma {:induction false} IssuersAreFirstOnes(s: Setting, rank: Ranking, n: nat, entity: Entity, hints: seq<Entity>)
    requires Ranked(s, rank) && RankedBelow(s, rank, n, entity, hints) && TreeFor(s, rank, n, entity, hints).Ok?
    ensures IssuersOf(TreeFor(s, rank, n, entity, hints).value) == FirstOnes(hints)
    decreases |hints|
  {
    if hints != [] {
      var front, last := hints[..|hints| - 1], hints[|hints| - 1];
      IssuersAreFirstOnes(s, rank, n, entity, front);
      PutIssuer(TreeFor(s, rank, n, entity, front).value, last, BranchFor(s, rank, n, entity, last).value);
    }
  }

  /** A collected tree is the tree above. */
  lemma {:induction false} TreeIsAbove(s: Setting, rank: Ranking, n: nat, entity: Entity, config: Jws)
    requires Ranked(s, rank) && config.Jws? && RankedBelow(s, rank, n, entity, Hints(s, config))
    requires TreeFor(s, rank, n, entity, Hints(s, config)).Ok?
    ensures TreeAbove(s, entity, config, TreeFor(s, rank, n, entity, Hints(s, config)).value)
    decreases n
  {
    var hints := Hints(s, config);
    var tree := TreeFor(s, rank, n, entity, hints).value;
    EdgesAreHints(s, rank, n, entity, hints);
    IssuersAreFirstOnes(s, rank, n, entity, hints);
    forall e | e in tree
      ensures match e.branch
              case NoBranch => NotFollowed(s, entity, e.issuer)
              case Branch(statement, superiors) =>
                exists above :: Followed(s, entity, e.issuer, statement, above) && TreeAbove(s, e.issuer, above, superiors)
    {
      assert Answered(s, rank, n, entity, e);
      AskIff(s, entity, e.issuer);
      match e.branch {
      case NoBranch => NoBranchMeansBlocked(s, rank, n, entity, e.issuer);
      case Branch(statement, superiors) =>
        BranchMeansVia(s, rank, n, entity, e.issuer);
        var above := Ask(s, entity, e.issuer).configuration;
        assert e.issuer in [e.issuer];
        TreeIsAbove(s, rank, rank.of(e.issuer), e.issuer, above);
        assert Followed(s, entity, e.issuer, statement, above);
      }
    }
  }

  lemma {:induction false} AllBranchesGiven(s: Setting, rank: Ranking, n: nat, entity: Entity, hints: seq<Entity>)
    requires Ranked(s, rank) && RankedBelow(s, rank, n, entity, hints)
    requires forall a :: a in hints ==> RankedBelow(s, rank, n, entity, [a]) && BranchFor(s, rank, n, entity, a).Ok?
    ensures TreeFor(s, rank, n, entity, hints).Ok?
    decreases |hints|
  {
    if hints != [] {
      assert hints[|hints| - 1] in hints;
      AllBranchesGiven(s, rank, n, entity, hints[..|hints| - 1]);
    }
  }

  lemma SameEdges(a: Tree, b: Tree)
    requires IssuersOf(a) == IssuersOf(b)
    requires forall i :: 0 <= i < |a| && i < |b| ==> a[i].branch == b[i].branch
    ensures a == b
  {
    assert |IssuersOf(a)| == |IssuersOf(b)|;
    forall i | 0 <= i < |a|
      ensures a[i] == b[i]
    {
      assert IssuersOf(a)[i] == IssuersOf(b)[i];
    }
  }

  lemma {:induction false} EdgeIsCollected(s: Setting, rank: Ranking, n: nat, entity: Entity, config: Jws, tree: Tree, e: Edge)
    requires Ranked(s, rank) && config.Jws? && RankedBelow(s, rank, n, entity, Hints(s, config))
    requires TreeAbove(s, entity, config, tree) && e in tree && e.issuer in Hints(s, config)
    ensures RankedBelow(s, rank, n, entity, [e.issuer]) && BranchFor(s, rank, n, entity, e.issuer) == Ok(e.branch)
    decreases tree, 0
  {
    AskIff(s, entity, e.issuer);
    if e.branch.Branch? {
      var above :| Followed(s, entity, e.issuer, e.branch.statement, above) &&
                   TreeAbove(s, e.issuer, above, e.branch.superiors);
      assert Ask(s, entity, e.issuer) == Via(e.branch.statement, above);
      FollowedIsRanked(s, rank, entity, e.issuer);
      TreeIsCollected(s, rank, rank.of(e.issuer), e.issuer, above, e.branch.superiors);
    }
  }

  /** The tree above is what is collected. */
  lemma {:induction false} TreeIsCollected(s: Setting, rank: Ranking, n: nat, entity: Entity, config: Jws, tree: Tree)
    requires Ranked(s, rank) && config.Jws? && RankedBelow(s, rank, n, entity, Hints(s, config))
    requires TreeAbove(s, entity, config, tree)
    ensures TreeFor(s, rank, n, entity, Hints(s, config)) == Ok(tree)
    decreases tree, 1
  {
    var hints := Hints(s, config);
    FirstOnesAre(hints);
    assert IssuersOf(tree) == FirstOnes(hints);
    forall e | e in tree
      ensures RankedBelow(s, rank, n, entity, [e.issuer]) && BranchFor(s, rank, n, entity, e.issuer) == Ok(e.branch)
    {
      var i :| 0 <= i < |tree| && tree[i] == e;
      assert IssuersOf(tree)[i] in FirstOnes(hints);
      EdgeIsCollected(s, rank, n, entity, config, tree, e);
    }
    forall a | a in hints
      ensures RankedBelow(s, rank, n, entity, [a]) && BranchFor(s, rank, n, entity, a).Ok?
    {
      assert a in IssuersOf(tree);
      var i :| 0 <= i < |tree| && IssuersOf(tree)[i] == a;
      assert tree[i] in tree;
    }
    AllBranchesGiven(s, rank, n, entity, hints);
    var collected := TreeFor(s, rank, n, entity, hints).value;
    EdgesAreHints(s, rank, n, entity, hints);
    IssuersAreFirstOnes(s, rank, n, entity, hints);
    forall i | 0 <= i < |collected| && i < |tree|
      ensures collected[i].branch == tree[i].branch
    {
      assert IssuersOf(collected)[i] == IssuersOf(tree)[i];
      assert tree[i] in tree && collected[i] in collected && Answered(s, rank, n, entity, collected[i]);
    }
    SameEdges(collected, tree);
  }

  lemma CollectedFrom(s: Setting, rank: Ranking, entity: Entity, tree: Tree, config: Jws)
    requires RankedFrom(s, rank, entity)
    ensures Collected(s, rank, entity) == Ok((tree, config)) ==> config.Jws?
    ensures config.Jws? && ConfigurationOf(s.world, entity) == Ok(config) ==>
              RankedBelow(s, rank, rank.of(entity), entity, Hints(s, config))
    ensures Collected(s, rank, entity) == Ok((tree, config)) <==>
            ConfigurationOf(s.world, entity) == Ok(config) && config.Jws? &&
            TreeFor(s, rank, rank.of(entity), entity, Hints(s, config)) == Ok(tree)
  {
  }

  /** Collecting from an entity succeeds with a tree and a configuration if and only if that configuration is served of it
      and that tree stands above it. */
  lemma {:induction false} CollectedIff(s: Setting, rank: Ranking, entity: Entity, tree: Tree, config: Jws)
    requires RankedFrom(s, rank, entity)
    ensures Collected(s, rank, entity) == Ok((tree, config)) <==>
            Serves(s.world, entity, config) && TreeAbove(s, entity, config, tree)
  {
    ServesIff(s.world, entity, config);
    CollectedFrom(s, rank, entity, tree, config);
    if Serves(s.world, entity, config) {
      if TreeAbove(s, entity, config, tree) {
        TreeIsCollected(s, rank, rank.of(entity), entity, config, tree);
      } else if TreeFor(s, rank, rank.of(entity), entity, Hints(s, config)) == Ok(tree) {
        TreeIsAbove(s, rank, rank.of(entity), entity, config);
        assert false;
      }
    }
  }

  /** The issuers in a tree above are exactly the hints of the configuration's own list, or none where it has no list or
      collection stops. */
  lemma {:induction false} IssuersAreTheHints(s: Setting, entity: Entity, config: Jws, tree: Tree)
    requires TreeAbove(s, entity, config, tree)
    ensures config.payload.authorityHints.None? || config.payload.iss == s.stopAt ==> tree == []
    ensures config.payload.authorityHints.Some? && config.payload.iss != s.stopAt ==>
              (forall a :: HasIssuer(tree, a) <==> a in config.payload.authorityHints.value) && DistinctIssuers(tree)
  {
    if config.payload.authorityHints.Some? && config.payload.iss != s.stopAt {
      var names := config.payload.authorityHints.value;
      FirstOnesAre(names);
      assert forall i :: 0 <= i < |tree| ==> tree[i].issuer == IssuersOf(tree)[i];
      forall a
        ensures HasIssuer(tree, a) <==> a in names
      {
        if a in FirstOnes(names) {
          var i :| 0 <= i < |tree| && IssuersOf(tree)[i] == a;
          assert tree[i].issuer == a;
        }
        if i :| 0 <= i < |tree| && tree[i].issuer == a {
          assert IssuersOf(tree)[i] in FirstOnes(names);
        }
      }
    }
  }

  // ---- Paths ----

  ghost predicate NoHints(s: Setting, config: Jws)
    requires config.Jws?
  {
    config.payload.iss == s.stopAt || config.payload.authorityHints.None? || config.payload.authorityHints.value == []
  }

  /** A path of hints that goes as far as it can, from a configuration of the entity, and the statements met on it: it ends
      where there are no hints, or with a hint that is not followed. */
  ghost predicate HintPath(s: Setting, entity: Entity, config: Jws, path: seq<Entity>, along: seq<Jws>)
    decreases |path|
  {
    config.Jws? &&
    if path == [] then
      along == [] && NoHints(s, config)
    else
      Hinted(s, config, path[0]) &&
      ((|path| == 1 && along == [] && NotFollowed(s, entity, path[0])) ||
       (along != [] && exists above :: Followed(s, entity, path[0], along[0], above) &&
                                       HintPath(s, path[0], above, path[1..], along[1..])))
  }

  /** These are the maximal paths with their statements. */
  lemma {:induction false} HintPathIff(s: Setting, entity: Entity, config: Jws, path: seq<Entity>, along: seq<Jws>)
    requires config.Jws?
    ensures HintPath(s, entity, config, path, along) <==>
            MaximalPath(s, entity, Hints(s, config), path) && along == StatementsOn(s, entity, path)
    decreases |path|
  {
    if path != [] {
      AskIff(s, entity, path[0]);
      if Ask(s, entity, path[0]).Via? {
        var statement, above := Ask(s, entity, path[0]).statement, Ask(s, entity, path[0]).configuration;
        ViaIsConfigured(s, entity, path[0]);
        assert Followed(s, entity, path[0], statement, above);
        if along != [] {
          HintPathIff(s, path[0], above, path[1..], along[1..]);
          assert along == [along[0]] + along[1..];
        }
      }
    }
  }

  lemma {:induction false} SomeChain(tree: Tree)
    requires tree != []
    ensures Chains(tree) != []
  {
    var last := tree[|tree| - 1].branch;
    if last.Branch? && last.superiors != [] {
      SomeChain(last.superiors);
    }
  }

  /** Flattening a collected tree yields, for every hint path that goes as far as it can, its statements from the top down,
      each path exactly once; without hints there is nothing to flatten. */
  lemma ChainsAreHintPaths(s: Setting, rank: Ranking, entity: Entity, tree: Tree, config: Jws) returns (paths: seq<seq<Entity>>)
    requires RankedFrom(s, rank, entity) && Collected(s, rank, entity) == Ok((tree, config))
    ensures config.Jws? && (NoHints(s, config) <==> Chains(tree) == [])
    ensures |paths| == |Chains(tree)| && forall i, j :: 0 <= i < j < |paths| ==> paths[i] != paths[j]
    ensures forall i :: 0 <= i < |paths| ==> HintPath(s, entity, config, paths[i], Reverse(Chains(tree)[i]))
    ensures forall p, along :: p != [] && HintPath(s, entity, config, p, along) ==> p in paths
  {
    ServesIff(s.world, entity, config);
    var hints := Hints(s, config);
    if hints == [] {
      paths := [];
    } else {
      paths := FlatteningIsExact(s, rank, rank.of(entity), entity, hints);
      EdgesAreHints(s, rank, rank.of(entity), entity, hints);
      SomeChain(tree);
      forall i | 0 <= i < |paths|
        ensures HintPath(s, entity, config, paths[i], Reverse(Chains(tree)[i]))
      {
        assert paths[i] in paths;
        ReverseTwice(StatementsOn(s, entity, paths[i]));
        HintPathIff(s, entity, config, paths[i], StatementsOn(s, entity, paths[i]));
      }
      forall p, along | HintPath(s, entity, config, p, along)
        ensures p in paths
      {
        HintPathIff(s, entity, config, p, along);
      }
    }
  }

  lemma ReverseTwice<T>(a: seq<T>)
    ensures Reverse(Reverse(a)) == a
  {
  }
}
