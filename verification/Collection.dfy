/** What collecting superiors means without any cache: the tree the network describes, and its paths. Behind
    trust_chain_collector.py. */
module Collection {
  import opened Wrappers
  import opened Statements
  import opened ChainVerification
  import opened ChainLists

  /** The setting of one collection: the network, the trust anchors' ids, and where to stop ("" for nowhere). */
  datatype Setting = Setting(world: World, anchors: set<Entity>, stopAt: Entity)

  /** The statement verifies with a key from its own `jwks`. */
  predicate SelfSigned(w: World, jws: Jws) {
    jws.Jws? && jws.payload.jwks.Some? && exists k :: k in jws.payload.jwks.value && VerifiedBy(w, jws, k)
  }

  /** `get_entity_configuration` followed by `verify_self_signed_signature`. */
  function ConfigurationOf(w: World, e: Entity): Result<Jws> {
    match w.configuration(e)
    case Some(jws) => if SelfSigned(w, jws) then Ok(jws) else Failure
    case None => Failure
  }

  /** The fetch endpoint of a verified configuration; None if there is none to ask. */
  function EndpointIn(config: Jws): Result<Option<string>>
    requires config.Jws?
  {
    match config.payload.fetchEndpoint
    case NoFederationEntity => Failure
    case NoEndpoint => Ok(None)
    case FetchAt(url) => Ok(if url == "" then None else Some(url))
  }

  predicate Dated(jws: Jws)
    requires jws.Jws?
  {
    jws.payload.exp.Some?
  }

  /** What asking an authority about an entity leads to; it raises where an expiry time that is looked for is missing. */
  datatype Answer = Raises | Blocked | Via(statement: Jws, configuration: Jws)

  function AskNetwork(w: World, entity: Entity, authority: Entity): Answer {
    match ConfigurationOf(w, authority)
    case Failure => Raises
    case Ok(config) =>
      match EndpointIn(config)
      case Failure => Raises
      case Ok(None) => Blocked
      case Ok(Some(url)) =>
        match w.statement(url, authority, entity)
        case Some(jws) => if jws.Jws? && Dated(jws) && Dated(config) then Via(jws, config) else Raises
        case None => Raises
  }

  /** A trust anchor that names itself is not asked. */
  function Ask(s: Setting, entity: Entity, authority: Entity): Answer {
    if entity == authority && entity in s.anchors then Blocked else AskNetwork(s.world, entity, authority)
  }

  /** The authorities that are followed from a configuration: its hints, unless collection stops here. */
  function Hints(s: Setting, config: Jws): seq<Entity>
    requires config.Jws?
  {
    if config.payload.authorityHints.None? || config.payload.iss == s.stopAt then []
    else config.payload.authorityHints.value
  }

  lemma ViaIsConfigured(s: Setting, entity: Entity, authority: Entity)
    requires Ask(s, entity, authority).Via?
    ensures ConfigurationOf(s.world, authority) == Ok(Ask(s, entity, authority).configuration)
    ensures Ask(s, entity, authority).configuration.Jws? && Ask(s, entity, authority).statement.Jws?
  {
  }

  // ---- Termination ----

  /** The hint is given and followed. */
  ghost predicate Follows(s: Setting, e: Entity, a: Entity) {
    ConfigurationOf(s.world, e).Ok? && a in Hints(s, ConfigurationOf(s.world, e).value) && Ask(s, e, a).Via?
  }

  /** Ranks for a set of entities; nothing is said of entities outside. */
  datatype Ranking = Ranking(scope: iset<Entity>, of: Entity -> nat)

  /** Within the scope, following a hint stays inside and descends in rank. Hints are not followed at a self-hinting
      anchor, to an authority without fetch endpoint, or where collection stops. */
  ghost predicate Ranked(s: Setting, rank: Ranking) {
    forall e, a :: e in rank.scope && Follows(s, e, a) ==> a in rank.scope && rank.of(a) < rank.of(e)
  }

  ghost predicate RankedBelow(s: Setting, rank: Ranking, n: nat, entity: Entity, hints: seq<Entity>) {
    forall a :: a in hints && Ask(s, entity, a).Via? ==> a in rank.scope && rank.of(a) < n
  }

  /** Collection from the entity descends in rank. */
  ghost predicate RankedFrom(s: Setting, rank: Ranking, entity: Entity) {
    Ranked(s, rank) && entity in rank.scope
  }

  /** The entities that collection within the scope asks for configurations and statements. */
  ghost function Asked(s: Setting, rank: Ranking): iset<Entity> {
    iset a | a in rank.scope ||
             exists e :: e in rank.scope && ConfigurationOf(s.world, e).Ok? && a in Hints(s, ConfigurationOf(s.world, e).value)
  }

  ghost predicate AllAsked(s: Setting, rank: Ranking, hints: seq<Entity>) {
    forall a :: a in hints ==> a in Asked(s, rank)
  }

  lemma FollowedIsAsked(s: Setting, rank: Ranking, entity: Entity, authority: Entity)
    requires Ask(s, entity, authority).Via? && authority in rank.scope
    ensures Ask(s, entity, authority).configuration.Jws?
    ensures AllAsked(s, rank, Hints(s, Ask(s, entity, authority).configuration))
  {
    ViaIsConfigured(s, entity, authority);
  }

  lemma FollowedIsRanked(s: Setting, rank: Ranking, entity: Entity, authority: Entity)
    requires Ranked(s, rank) && Ask(s, entity, authority).Via? && authority in rank.scope
    ensures RankedBelow(s, rank, rank.of(authority), authority, Hints(s, Ask(s, entity, authority).configuration))
  {
    ViaIsConfigured(s, entity, authority);
  }

  // ---- The tree ----

  /** Dictionary assignment: the position of an existing key is kept. */
  function Put(tree: Tree, issuer: Entity, branch: Branch): Tree {
    if tree == [] then [Edge(issuer, branch)]
    else if tree[0].issuer == issuer then [Edge(issuer, branch)] + tree[1..]
    else [tree[0]] + Put(tree[1..], issuer, branch)
  }

  ghost function BranchFor(s: Setting, rank: Ranking, n: nat, entity: Entity, authority: Entity): Result<Branch>
    requires Ranked(s, rank) && RankedBelow(s, rank, n, entity, [authority])
    decreases n, 0
  {
    match Ask(s, entity, authority)
    case Raises => Failure
    case Blocked => Ok(NoBranch)
    case Via(statement, config) =>
      assert authority in [authority];
      FollowedIsRanked(s, rank, entity, authority);
      ViaIsConfigured(s, entity, authority);
      var superiors :- TreeFor(s, rank, rank.of(authority), authority, Hints(s, config));
      Ok(Branch(statement, superiors))
  }

  /** `collect_tree` without caches, on the hints of one configuration. */
  ghost function TreeFor(s: Setting, rank: Ranking, n: nat, entity: Entity, hints: seq<Entity>): Result<Tree>
    requires Ranked(s, rank) && RankedBelow(s, rank, n, entity, hints)
    decreases n, |hints|
  {
    if hints == [] then
      Ok([])
    else
      var last := hints[|hints| - 1];
      var tree :- TreeFor(s, rank, n, entity, hints[..|hints| - 1]);
      var branch :- BranchFor(s, rank, n, entity, last);
      Ok(Put(tree, last, branch))
  }

  /** Collecting from an entity's own configuration: the tree, and the configuration itself. */
  ghost function Collected(s: Setting, rank: Ranking, entity: Entity): Result<(Tree, Jws)>
    requires RankedFrom(s, rank, entity)
  {
    var config :- ConfigurationOf(s.world, entity);
    var tree :- TreeFor(s, rank, rank.of(entity), entity, Hints(s, config));
    Ok((tree, config))
  }

  ghost predicate DistinctIssuers(tree: Tree) {
    forall i, j :: 0 <= i < j < |tree| ==> tree[i].issuer != tree[j].issuer
  }

  lemma {:induction false} PutKeeps(tree: Tree, issuer: Entity, branch: Branch)
    requires DistinctIssuers(tree)
    ensures DistinctIssuers(Put(tree, issuer, branch))
    ensures forall e :: e in Put(tree, issuer, branch) <==> e == Edge(issuer, branch) || (e in tree && e.issuer != issuer)
  {
    if tree != [] {
      var rest := tree[1..];
      assert tree == [tree[0]] + rest;
      if tree[0].issuer != issuer {
        PutKeeps(rest, issuer, branch);
        var put := Put(rest, issuer, branch);
        forall i | 0 <= i < |put|
          ensures put[i].issuer != tree[0].issuer
        {
          assert put[i] in put;
        }
      } else {
        assert forall i :: 0 <= i < |rest| ==> rest[i].issuer != issuer;
        assert forall i :: 1 <= i < |tree| ==> Put(tree, issuer, branch)[i] == tree[i];
      }
    }
  }

  ghost predicate Answered(s: Setting, rank: Ranking, n: nat, entity: Entity, e: Edge)
    requires Ranked(s, rank)
  {
    RankedBelow(s, rank, n, entity, [e.issuer]) && BranchFor(s, rank, n, entity, e.issuer) == Ok(e.branch)
  }

  predicate HasIssuer(tree: Tree, a: Entity) {
    exists i :: 0 <= i < |tree| && tree[i].issuer == a
  }

  lemma {:induction false} PutIssuers(tree: Tree, issuer: Entity, branch: Branch, a: Entity)
    ensures HasIssuer(Put(tree, issuer, branch), a) <==> a == issuer || HasIssuer(tree, a)
  {
    var put := Put(tree, issuer, branch);
    if tree == [] {
      assert put[0].issuer == issuer;
    } else {
      var rest := tree[1..];
      assert HasIssuer(tree, a) <==> tree[0].issuer == a || HasIssuer(rest, a) by {
        if i :| 0 <= i < |rest| && rest[i].issuer == a {
          assert tree[i + 1].issuer == a;
        }
        if i :| 0 < i < |tree| && tree[i].issuer == a {
          assert rest[i - 1].issuer == a;
        }
      }
      assert HasIssuer(put, a) <==> put[0].issuer == a || HasIssuer(put[1..], a) by {
        if i :| 0 <= i < |put| - 1 && put[1..][i].issuer == a {
          assert put[i + 1].issuer == a;
        }
        if i :| 0 < i < |put| && put[i].issuer == a {
          assert put[1..][i - 1].issuer == a;
        }
      }
      if tree[0].issuer == issuer {
        assert put[1..] == rest;
      } else {
        assert put[1..] == Put(rest, issuer, branch);
        PutIssuers(rest, issuer, branch, a);
      }
    }
  }

  /** The edges of a collected tree are exactly the hints, each once, with the branch its authority gives. */
  lemma {:induction false} EdgesAreHints(s: Setting, rank: Ranking, n: nat, entity: Entity, hints: seq<Entity>)
    requires Ranked(s, rank) && RankedBelow(s, rank, n, entity, hints) && TreeFor(s, rank, n, entity, hints).Ok?
    ensures var tree := TreeFor(s, rank, n, entity, hints).value;
            DistinctIssuers(tree) && (tree == [] <==> hints == []) &&
            (forall e :: e in tree ==> Answered(s, rank, n, entity, e)) &&
            forall a :: HasIssuer(tree, a) <==> a in hints
  {
    if hints != [] {
      var front, last := hints[..|hints| - 1], hints[|hints| - 1];
      EdgesAreHints(s, rank, n, entity, front);
      var before := TreeFor(s, rank, n, entity, front).value;
      var branch := BranchFor(s, rank, n, entity, last).value;
      PutKeeps(before, last, branch);
      forall a
        ensures HasIssuer(Put(before, last, branch), a) <==> a in hints
      {
        PutIssuers(before, last, branch, a);
        assert a in hints <==> a in front || a == last;
      }
    }
  }

  /** The tree does not depend on which rank shows that collection ends. */
  lemma {:induction false} RankIsImmaterial(s: Setting, rank: Ranking, n: nat, other: Ranking, m: nat,
          entity: Entity, hints: seq<Entity>)
    requires Ranked(s, rank) && RankedBelow(s, rank, n, entity, hints)
    requires Ranked(s, other) && RankedBelow(s, other, m, entity, hints)
    ensures TreeFor(s, rank, n, entity, hints) == TreeFor(s, other, m, entity, hints)
    decreases n, |hints|
  {
    if hints != [] {
      var front, last := hints[..|hints| - 1], hints[|hints| - 1];
      RankIsImmaterial(s, rank, n, other, m, entity, front);
      if Ask(s, entity, last).Via? {
        FollowedIsRanked(s, rank, entity, last);
        FollowedIsRanked(s, other, entity, last);
        ViaIsConfigured(s, entity, last);
        RankIsImmaterial(s, rank, rank.of(last), other, other.of(last), last, Hints(s, Ask(s, entity, last).configuration));
      }
    }
  }

  // ---- When collection ends ----

  datatype Bounded<T> = Unfinished | Finished(result: Result<T>)

  /** The recursion of `collect_branch` and `collect_tree` as written, cut off after `depth` levels. */
  function BranchWithin(s: Setting, depth: nat, entity: Entity, authority: Entity): Bounded<Branch>
    decreases depth, 0
  {
    match Ask(s, entity, authority)
    case Raises => Finished(Failure)
    case Blocked => Finished(Ok(NoBranch))
    case Via(statement, config) =>
      if depth == 0 || config.NotJws? then
        Unfinished
      else
        match TreeWithin(s, depth - 1, authority, Hints(s, config))
        case Unfinished => Unfinished
        case Finished(Failure) => Finished(Failure)
        case Finished(Ok(superiors)) => Finished(Ok(Branch(statement, superiors)))
  }

  function TreeWithin(s: Setting, depth: nat, entity: Entity, hints: seq<Entity>): Bounded<Tree>
    decreases depth, |hints|
  {
    if hints == [] then
      Finished(Ok([]))
    else
      var last := hints[|hints| - 1];
      match TreeWithin(s, depth, entity, hints[..|hints| - 1])
      case Unfinished => Unfinished
      case Finished(Failure) => Finished(Failure)
      case Finished(Ok(tree)) =>
        match BranchWithin(s, depth, entity, last)
        case Unfinished => Unfinished
        case Finished(Failure) => Finished(Failure)
        case Finished(Ok(branch)) => Finished(Ok(Put(tree, last, branch)))
  }

  /** Where hints can be ranked the recursion ends, no deeper than the rank, with the tree described above. */
  lemma {:induction false} RankedCollectionEnds(s: Setting, rank: Ranking, n: nat, entity: Entity,
          hints: seq<Entity>, depth: nat)
    requires Ranked(s, rank) && RankedBelow(s, rank, n, entity, hints) && depth >= n
    ensures TreeWithin(s, depth, entity, hints) == Finished(TreeFor(s, rank, n, entity, hints))
    decreases n, |hints|
  {
    if hints != [] {
      var front, last := hints[..|hints| - 1], hints[|hints| - 1];
      RankedCollectionEnds(s, rank, n, entity, front, depth);
      if Ask(s, entity, last).Via? {
        FollowedIsRanked(s, rank, entity, last);
        ViaIsConfigured(s, entity, last);
        RankedCollectionEnds(s, rank, rank.of(last), last, Hints(s, Ask(s, entity, last).configuration), depth - 1);
      }
    }
  }

  /** An endless walk along followed hints, such as any cycle of authorities that name each other. */
  ghost predicate Endless(s: Setting, walk: nat -> Entity) {
    forall i: nat :: Follows(s, walk(i), walk(i + 1))
  }

  lemma {:induction false} FinishedMeansAllFinished(s: Setting, depth: nat, entity: Entity, hints: seq<Entity>, a: Entity)
    requires a in hints && TreeWithin(s, depth, entity, hints).Finished? && TreeWithin(s, depth, entity, hints).result.Ok?
    ensures BranchWithin(s, depth, entity, a).Finished? && BranchWithin(s, depth, entity, a).result.Ok?
    decreases |hints|
  {
    if a != hints[|hints| - 1] {
      FinishedMeansAllFinished(s, depth, entity, hints[..|hints| - 1], a);
    }
  }

  /** The recursion returns a tree within `depth` levels. */
  ghost predicate Collects(s: Setting, depth: nat, entity: Entity, hints: seq<Entity>) {
    TreeWithin(s, depth, entity, hints).Finished? && TreeWithin(s, depth, entity, hints).result.Ok?
  }

  ghost predicate CollectsBranch(s: Setting, depth: nat, entity: Entity, a: Entity) {
    BranchWithin(s, depth, entity, a).Finished? && BranchWithin(s, depth, entity, a).result.Ok?
  }

  /** On an endless walk no depth suffices: collection never returns a tree, because `seen` cuts nothing. */
  lemma {:induction false} EndlessHintsNeverCollect(s: Setting, walk: nat -> Entity, i: nat, depth: nat)
    requires Endless(s, walk)
    ensures ConfigurationOf(s.world, walk(i)).Ok? &&
            !Collects(s, depth, walk(i), Hints(s, ConfigurationOf(s.world, walk(i)).value))
    decreases depth
  {
    assert Follows(s, walk(i), walk(i + 1));
    var hints := Hints(s, ConfigurationOf(s.world, walk(i)).value);
    if Collects(s, depth, walk(i), hints) {
      FinishedMeansAllFinished(s, depth, walk(i), hints, walk(i + 1));
      ViaIsConfigured(s, walk(i), walk(i + 1));
      if depth > 0 {
        EndlessHintsNeverCollect(s, walk, i + 1, depth - 1);
      }
      assert false;
    }
  }

  lemma {:induction false} AllBranchesMakeATree(s: Setting, depth: nat, entity: Entity, hints: seq<Entity>)
    requires forall a :: a in hints ==> CollectsBranch(s, depth, entity, a)
    ensures Collects(s, depth, entity, hints)
    decreases |hints|
  {
    if hints != [] {
      assert hints[|hints| - 1] in hints;
      AllBranchesMakeATree(s, depth, entity, hints[..|hints| - 1]);
    }
  }

  /** More depth changes nothing once a tree is returned. */
  lemma {:induction false} DeeperCollects(s: Setting, depth: nat, deeper: nat, entity: Entity, hints: seq<Entity>)
    requires depth <= deeper && Collects(s, depth, entity, hints)
    ensures Collects(s, deeper, entity, hints)
    decreases depth
  {
    forall a | a in hints
      ensures CollectsBranch(s, deeper, entity, a)
    {
      FinishedMeansAllFinished(s, depth, entity, hints, a);
      if Ask(s, entity, a).Via? {
        ViaIsConfigured(s, entity, a);
        DeeperCollects(s, depth - 1, deeper - 1, a, Hints(s, Ask(s, entity, a).configuration));
      }
    }
    AllBranchesMakeATree(s, deeper, entity, hints);
  }

  /** Following the path leads to a request that raises. */
  ghost predicate RaisingPath(s: Setting, entity: Entity, hints: seq<Entity>, path: seq<Entity>)
    decreases |path|
  {
    path != [] && path[0] in hints &&
    match Ask(s, entity, path[0])
    case Raises => |path| == 1
    case Blocked => false
    case Via(_, config) => config.Jws? && RaisingPath(s, path[0], Hints(s, config), path[1..])
  }

  lemma {:induction false} RaisingPathsRaise(s: Setting, depth: nat, entity: Entity, hints: seq<Entity>, path: seq<Entity>)
    requires RaisingPath(s, entity, hints, path)
    ensures !Collects(s, depth, entity, hints)
    decreases |path|
  {
    if Collects(s, depth, entity, hints) {
      FinishedMeansAllFinished(s, depth, entity, hints, path[0]);
      if depth > 0 && Ask(s, entity, path[0]).Via? {
        RaisingPathsRaise(s, depth - 1, path[0], Hints(s, Ask(s, entity, path[0]).configuration), path[1..]);
      }
      assert false;
    }
  }

  ghost predicate NeverRaises(s: Setting, entity: Entity, hints: seq<Entity>) {
    forall path :: !RaisingPath(s, entity, hints, path)
  }

  /** The tree of an entity with a configuration is returned within some depth. */
  ghost predicate Collectable(s: Setting, e: Entity) {
    ConfigurationOf(s.world, e).Ok? && exists d: nat :: Collects(s, d, e, Hints(s, ConfigurationOf(s.world, e).value))
  }

  /** No followed hint raises from here, and yet no depth suffices. */
  ghost predicate Stuck(s: Setting, e: Entity) {
    ConfigurationOf(s.world, e).Ok? && !Collectable(s, e) && NeverRaises(s, e, Hints(s, ConfigurationOf(s.world, e).value))
  }

  /** If every branch can be collected, some depth does for all of them. */
  lemma {:induction false} DepthForAll(s: Setting, entity: Entity, hints: seq<Entity>) returns (depth: nat)
    requires forall a :: a in hints ==> exists d: nat :: CollectsBranch(s, d, entity, a)
    ensures Collects(s, depth, entity, hints)
    decreases |hints|
  {
    depth := 0;
    if hints != [] {
      var front, last := hints[..|hints| - 1], hints[|hints| - 1];
      assert last in hints && forall a :: a in front ==> a in hints;
      var before := DepthForAll(s, entity, front);
      var d: nat :| CollectsBranch(s, d, entity, last);
      depth := if before < d then d else before;
      DeeperCollects(s, before, depth, entity, front);
      assert Collects(s, d, entity, [last]) by {
        AllBranchesMakeATree(s, d, entity, [last]);
      }
      DeeperCollects(s, d, depth, entity, [last]);
      FinishedMeansAllFinished(s, depth, entity, [last], last);
    }
  }

  /** `a` is followed from `e`, and collection is stuck there too. */
  ghost predicate StuckNext(s: Setting, e: Entity, a: Entity) {
    Follows(s, e, a) && Stuck(s, a)
  }

  lemma StuckGoesOn(s: Setting, e: Entity)
    requires Stuck(s, e)
    ensures exists a :: StuckNext(s, e, a)
  {
    var hints := Hints(s, ConfigurationOf(s.world, e).value);
    if forall a :: a in hints ==> exists d: nat :: CollectsBranch(s, d, e, a) {
      var depth := DepthForAll(s, e, hints);
      assert false;
    }
    var a :| a in hints && forall d: nat :: !CollectsBranch(s, d, e, a);
    assert !RaisingPath(s, e, hints, [a]) && !CollectsBranch(s, 0, e, a);
    ViaIsConfigured(s, e, a);
    var above := Hints(s, Ask(s, e, a).configuration);
    forall depth: nat
      ensures !Collects(s, depth, a, above)
    {
      assert !CollectsBranch(s, depth + 1, e, a);
    }
    forall path
      ensures !RaisingPath(s, a, above, path)
    {
      assert ([a] + path)[1..] == path && !RaisingPath(s, e, hints, [a] + path);
    }
    assert StuckNext(s, e, a);
  }

  ghost function StuckWalk(s: Setting, e: Entity, i: nat): (a: Entity)
    requires Stuck(s, e)
    ensures Stuck(s, a)
  {
    if i == 0 then
      e
    else
      var before := StuckWalk(s, e, i - 1);
      StuckGoesOn(s, before);
      var a :| StuckNext(s, before, a);
      a
  }

  ghost predicate EndlessFrom(s: Setting, e: Entity) {
    exists walk: nat -> Entity :: walk(0) == e && Endless(s, walk)
  }

  lemma StuckIsEndless(s: Setting, e: Entity)
    requires Stuck(s, e)
    ensures EndlessFrom(s, e)
  {
    var walk := (i: nat) => StuckWalk(s, e, i);
    forall i: nat
      ensures StuckNext(s, walk(i), walk(i + 1))
    {
      StuckGoesOn(s, StuckWalk(s, e, i));
    }
    assert walk(0) == e && Endless(s, walk);
  }

  /** A tree is collected within some depth if and only if no followed hint raises and there is no endless walk. */
  lemma {:induction false} CollectsIff(s: Setting, e: Entity)
    requires ConfigurationOf(s.world, e).Ok?
    ensures Collectable(s, e) <==> NeverRaises(s, e, Hints(s, ConfigurationOf(s.world, e).value)) && !EndlessFrom(s, e)
  {
    var hints := Hints(s, ConfigurationOf(s.world, e).value);
    if Collectable(s, e) {
      var depth: nat :| Collects(s, depth, e, hints);
      forall path
        ensures !RaisingPath(s, e, hints, path)
      {
        if RaisingPath(s, e, hints, path) {
          RaisingPathsRaise(s, depth, e, hints, path);
        }
      }
      if EndlessFrom(s, e) {
        var walk: nat -> Entity :| walk(0) == e && Endless(s, walk);
        EndlessHintsNeverCollect(s, walk, 0, depth);
      }
    } else if NeverRaises(s, e, hints) {
      StuckIsEndless(s, e);
    }
  }

  /** Going round `n` places. */
  function Round(i: nat, n: nat): (place: nat)
    requires n > 0
    ensures place < n
  {
    if i == 0 || Round(i - 1, n) + 1 == n then 0 else Round(i - 1, n) + 1
  }

  /** Each follows the next, and the last the first. */
  ghost predicate Cycle(s: Setting, cycle: seq<Entity>) {
    cycle != [] && forall i :: 0 <= i < |cycle| ==> Follows(s, cycle[i], NextOn(cycle, i))
  }

  function NextOn(cycle: seq<Entity>, i: nat): Entity
    requires i < |cycle|
  {
    if i + 1 == |cycle| then cycle[0] else cycle[i + 1]
  }

  lemma RoundFollows(s: Setting, cycle: seq<Entity>, i: nat)
    requires Cycle(s, cycle)
    ensures Follows(s, cycle[Round(i, |cycle|)], cycle[Round(i + 1, |cycle|)])
  {
    assert Follows(s, cycle[Round(i, |cycle|)], NextOn(cycle, Round(i, |cycle|)));
  }

  lemma CyclesAreEndless(s: Setting, cycle: seq<Entity>)
    requires Cycle(s, cycle)
    ensures EndlessFrom(s, cycle[0])
  {
    var walk := (i: nat) => cycle[Round(i, |cycle|)];
    forall i: nat
      ensures Follows(s, walk(i), walk(i + 1))
    {
      RoundFollows(s, cycle, i);
    }
    assert walk(0) == cycle[0] && Endless(s, walk);
  }

  /** No tree is ever collected from an entity on a cycle of followed hints. */
  lemma {:induction false} CyclesNeverCollect(s: Setting, cycle: seq<Entity>)
    requires Cycle(s, cycle)
    ensures EndlessFrom(s, cycle[0]) && !Collectable(s, cycle[0])
  {
    CyclesAreEndless(s, cycle);
    RoundFollows(s, cycle, 0);
    CollectsIff(s, cycle[0]);
  }

  // ---- Ranks exist where collection succeeds ----

  /** The least depth within which the tree is returned, found from one that suffices. */
  ghost function Height(s: Setting, e: Entity, depth: nat): (h: nat)
    requires ConfigurationOf(s.world, e).Ok? && Collects(s, depth, e, Hints(s, ConfigurationOf(s.world, e).value))
    ensures Collects(s, h, e, Hints(s, ConfigurationOf(s.world, e).value))
    ensures h > 0 ==> !Collects(s, h - 1, e, Hints(s, ConfigurationOf(s.world, e).value))
  {
    if depth > 0 && Collects(s, depth - 1, e, Hints(s, ConfigurationOf(s.world, e).value)) then Height(s, e, depth - 1)
    else depth
  }

  ghost function LeastDepth(s: Setting, e: Entity): nat {
    if Collectable(s, e) then
      var d: nat :| Collects(s, d, e, Hints(s, ConfigurationOf(s.world, e).value));
      Height(s, e, d)
    else
      0
  }

  ghost function DepthRanking(s: Setting): Ranking {
    Ranking((iset e | Collectable(s, e)), e => LeastDepth(s, e))
  }

  lemma FollowedIsShallower(s: Setting, e: Entity, a: Entity)
    requires Collectable(s, e) && Follows(s, e, a)
    ensures Collectable(s, a) && LeastDepth(s, a) < LeastDepth(s, e)
  {
    var hints, least := Hints(s, ConfigurationOf(s.world, e).value), LeastDepth(s, e);
    FinishedMeansAllFinished(s, least, e, hints, a);
    ViaIsConfigured(s, e, a);
    var above := Hints(s, Ask(s, e, a).configuration);
    assert least > 0 && Collects(s, least - 1, a, above);
    if LeastDepth(s, a) >= least {
      DeeperCollects(s, least - 1, LeastDepth(s, a) - 1, a, above);
      assert false;
    }
  }

  lemma DepthIsRank(s: Setting, e: Entity)
    requires Collectable(s, e)
    ensures RankedFrom(s, DepthRanking(s), e) && Collected(s, DepthRanking(s), e).Ok?
  {
    var rank, hints := DepthRanking(s), Hints(s, ConfigurationOf(s.world, e).value);
    forall x, a | x in rank.scope && Follows(s, x, a)
      ensures a in rank.scope && rank.of(a) < rank.of(x)
    {
      FollowedIsShallower(s, x, a);
    }
    RankedCollectionEnds(s, rank, rank.of(e), e, hints, rank.of(e));
  }

  /** A tree is collected if and only if hints can be ranked and the ranked collection does not raise. */
  lemma {:induction false} CollectableIffRanked(s: Setting, e: Entity)
    ensures Collectable(s, e) <==> exists rank :: RankedFrom(s, rank, e) && Collected(s, rank, e).Ok?
  {
    if Collectable(s, e) {
      DepthIsRank(s, e);
    }
    if rank :| RankedFrom(s, rank, e) && Collected(s, rank, e).Ok? {
      var hints := Hints(s, ConfigurationOf(s.world, e).value);
      RankedCollectionEnds(s, rank, rank.of(e), e, hints, rank.of(e));
      assert Collects(s, rank.of(e), e, hints);
    }
  }

  // ---- Maximal hint paths ----

  /** A path of hints from an entity to where collection ends: at an entity without hints or at `stopAt`, or with a
      last hint that is not followed because it is a self-hinting anchor or an authority without fetch endpoint. */
  ghost predicate MaximalPath(s: Setting, entity: Entity, hints: seq<Entity>, path: seq<Entity>)
    decreases |path|
  {
    if path == [] then
      hints == []
    else
      path[0] in hints &&
      match Ask(s, entity, path[0])
      case Raises => false
      case Blocked => |path| == 1
      case Via(_, config) => ConfigurationOf(s.world, path[0]).Ok? && config.Jws? && MaximalPath(s, path[0], Hints(s, config), path[1..])
  }

  /** The statements along a path, the entity's own first. */
  ghost function StatementsOn(s: Setting, entity: Entity, path: seq<Entity>): seq<Jws>
    decreases |path|
  {
    if path == [] || !Ask(s, entity, path[0]).Via? then []
    else [Ask(s, entity, path[0]).statement] + StatementsOn(s, path[0], path[1..])
  }

  /** The issuers met on a leaf route. */
  function IssuersAlong(tree: Tree, route: Route): seq<Entity>
    requires IsLeafRoute(tree, route)
    decreases |route|
  {
    match tree[route[0]].branch
    case NoBranch => [tree[route[0]].issuer]
    case Branch(_, superiors) =>
      [tree[route[0]].issuer] + (if superiors == [] then [] else IssuersAlong(superiors, route[1..]))
  }

  /** Every leaf of the tree is the end of a maximal path, and carries the statements of that path. */
  lemma {:induction false} LeavesArePaths(s: Setting, rank: Ranking, n: nat, entity: Entity, hints: seq<Entity>,
          route: Route)
    requires Ranked(s, rank) && RankedBelow(s, rank, n, entity, hints) && TreeFor(s, rank, n, entity, hints).Ok?
    requires IsLeafRoute(TreeFor(s, rank, n, entity, hints).value, route)
    ensures var tree := TreeFor(s, rank, n, entity, hints).value; var path := IssuersAlong(tree, route);
            MaximalPath(s, entity, hints, path) && Along(tree, route) == StatementsOn(s, entity, path)
    decreases |route|
  {
    var tree := TreeFor(s, rank, n, entity, hints).value;
    EdgesAreHints(s, rank, n, entity, hints);
    var edge := tree[route[0]];
    assert edge in tree && Answered(s, rank, n, entity, edge);
    assert HasIssuer(tree, edge.issuer);
    match edge.branch
    case NoBranch =>
      NoBranchMeansBlocked(s, rank, n, entity, edge.issuer);
    case Branch(statement, superiors) =>
      BranchMeansVia(s, rank, n, entity, edge.issuer);
      var config := Ask(s, entity, edge.issuer).configuration;
      EdgesAreHints(s, rank, rank.of(edge.issuer), edge.issuer, Hints(s, config));
      if superiors != [] {
        LeavesArePaths(s, rank, rank.of(edge.issuer), edge.issuer, Hints(s, config), route[1..]);
        var path := IssuersAlong(superiors, route[1..]);
        assert ([edge.issuer] + path)[1..] == path;
      } else {
        assert [edge.issuer][1..] == [] && [edge.issuer] + [] == [edge.issuer];
        assert StatementsOn(s, edge.issuer, []) == [];
      }
  }

  lemma NoBranchMeansBlocked(s: Setting, rank: Ranking, n: nat, entity: Entity, authority: Entity)
    requires Ranked(s, rank) && RankedBelow(s, rank, n, entity, [authority])
    requires BranchFor(s, rank, n, entity, authority) == Ok(NoBranch)
    ensures Ask(s, entity, authority).Blocked?
  {
  }

  lemma BranchMeansVia(s: Setting, rank: Ranking, n: nat, entity: Entity, authority: Entity)
    requires Ranked(s, rank) && RankedBelow(s, rank, n, entity, [authority])
    requires BranchFor(s, rank, n, entity, authority).Ok? && BranchFor(s, rank, n, entity, authority).value.Branch?
    ensures Ask(s, entity, authority).Via? && Ask(s, entity, authority).configuration.Jws?
    ensures ConfigurationOf(s.world, authority) == Ok(Ask(s, entity, authority).configuration)
    ensures var answer := Ask(s, entity, authority); var branch := BranchFor(s, rank, n, entity, authority).value;
            branch.statement == answer.statement &&
            RankedBelow(s, rank, rank.of(authority), authority, Hints(s, answer.configuration)) &&
            TreeFor(s, rank, rank.of(authority), authority, Hints(s, answer.configuration)) == Ok(branch.superiors)
  {
    assert authority in [authority];
    FollowedIsRanked(s, rank, entity, authority);
    ViaIsConfigured(s, entity, authority);
  }

  /** Every maximal path that is not empty is the issuers along some leaf route. */
  lemma {:induction false} PathsAreLeaves(s: Setting, rank: Ranking, n: nat, entity: Entity, hints: seq<Entity>,
          path: seq<Entity>)
    returns (route: Route)
    requires Ranked(s, rank) && RankedBelow(s, rank, n, entity, hints) && TreeFor(s, rank, n, entity, hints).Ok?
    requires path != [] && MaximalPath(s, entity, hints, path)
    ensures IsLeafRoute(TreeFor(s, rank, n, entity, hints).value, route)
    ensures IssuersAlong(TreeFor(s, rank, n, entity, hints).value, route) == path
    decreases |path|
  {
    var tree := TreeFor(s, rank, n, entity, hints).value;
    EdgesAreHints(s, rank, n, entity, hints);
    assert HasIssuer(tree, path[0]);
    var i :| 0 <= i < |tree| && tree[i].issuer == path[0];
    assert tree[i] in tree && Answered(s, rank, n, entity, tree[i]);
    var branch := tree[i].branch;
    if branch.NoBranch? {
      route := [i];
      NoBranchMeansBlocked(s, rank, n, entity, path[0]);
      assert path == [path[0]];
    } else {
      BranchMeansVia(s, rank, n, entity, path[0]);
      var config := Ask(s, entity, path[0]).configuration;
      EdgesAreHints(s, rank, rank.of(path[0]), path[0], Hints(s, config));
      assert path == [path[0]] + path[1..];
      if branch.superiors == [] {
        route := [i];
        assert path[1..] == [];
      } else {
        var rest := PathsAreLeaves(s, rank, rank.of(path[0]), path[0], Hints(s, config), path[1..]);
        route := [i] + rest;
        assert route[1..] == rest;
      }
    }
  }

  /** Two different leaves end two different paths. */
  lemma {:induction false} PathsDiffer(s: Setting, rank: Ranking, n: nat, entity: Entity, hints: seq<Entity>,
          a: Route, b: Route)
    requires Ranked(s, rank) && RankedBelow(s, rank, n, entity, hints) && TreeFor(s, rank, n, entity, hints).Ok?
    requires IsLeafRoute(TreeFor(s, rank, n, entity, hints).value, a)
    requires IsLeafRoute(TreeFor(s, rank, n, entity, hints).value, b)
    requires IssuersAlong(TreeFor(s, rank, n, entity, hints).value, a) == IssuersAlong(TreeFor(s, rank, n, entity, hints).value, b)
    ensures a == b
    decreases |a|
  {
    var tree := TreeFor(s, rank, n, entity, hints).value;
    EdgesAreHints(s, rank, n, entity, hints);
    assert tree[a[0]].issuer == IssuersAlong(tree, a)[0] == IssuersAlong(tree, b)[0] == tree[b[0]].issuer;
    assert a[0] == b[0];
    var edge := tree[a[0]];
    assert edge in tree && Answered(s, rank, n, entity, edge);
    if edge.branch.Branch? && edge.branch.superiors != [] {
      BranchMeansVia(s, rank, n, entity, edge.issuer);
      var config := Ask(s, entity, edge.issuer).configuration;
      assert IssuersAlong(tree, a)[1..] == IssuersAlong(edge.branch.superiors, a[1..]);
      assert IssuersAlong(tree, b)[1..] == IssuersAlong(edge.branch.superiors, b[1..]);
      PathsDiffer(s, rank, rank.of(edge.issuer), edge.issuer, Hints(s, config), a[1..], b[1..]);
    }
    assert a == [a[0]] + a[1..] && b == [b[0]] + b[1..];
  }

  /** Flattening a collected tree yields the statement lists of all maximal hint paths, each exactly once. */
  lemma FlatteningIsExact(s: Setting, rank: Ranking, n: nat, entity: Entity, hints: seq<Entity>)
    returns (paths: seq<seq<Entity>>)
    requires Ranked(s, rank) && RankedBelow(s, rank, n, entity, hints) && TreeFor(s, rank, n, entity, hints).Ok?
    requires hints != []
    ensures forall p :: p in paths <==> MaximalPath(s, entity, hints, p)
    ensures forall i, j :: 0 <= i < j < |paths| ==> paths[i] != paths[j]
    ensures var chains := Chains(TreeFor(s, rank, n, entity, hints).value);
            |chains| == |paths| && forall i :: 0 <= i < |paths| ==> chains[i] == Reverse(StatementsOn(s, entity, paths[i]))
  {
    var tree := TreeFor(s, rank, n, entity, hints).value;
    FlatteningIsFaithful(tree);
    var routes := Routes(tree);
    paths := seq(|routes|, i requires 0 <= i < |routes| => IssuersAlong(tree, routes[i]));
    forall i | 0 <= i < |paths|
      ensures MaximalPath(s, entity, hints, paths[i]) && Along(tree, routes[i]) == StatementsOn(s, entity, paths[i])
    {
      LeavesArePaths(s, rank, n, entity, hints, routes[i]);
    }
    forall p | MaximalPath(s, entity, hints, p)
      ensures p in paths
    {
      var route := PathsAreLeaves(s, rank, n, entity, hints, p);
      assert route in routes;
      var i :| 0 <= i < |routes| && routes[i] == route;
      assert paths[i] == p;
    }
    forall i, j | 0 <= i < j < |paths|
      ensures paths[i] != paths[j]
    {
      if paths[i] == paths[j] {
        PathsDiffer(s, rank, n, entity, hints, routes[i], routes[j]);
        assert LeftOf(routes[i], routes[j]);
        LeftOfIsStrict(routes[i]);
        assert false;
      }
    }
  }

  // ---- Issuers ----

  /** The entity signs in its own name, and its configuration is about itself. */
  ghost predicate SignsAsItself(w: World, a: Entity) {
    (forall url, e :: w.statement(url, a, e).Some? && w.statement(url, a, e).value.Jws? ==>
       w.statement(url, a, e).value.payload.iss == a) &&
    (ConfigurationOf(w, a).Ok? ==> ConfigurationOf(w, a).value.payload.iss == a)
  }

  ghost predicate AllSignAsThemselves(s: Setting, rank: Ranking) {
    forall a :: a in Asked(s, rank) ==> SignsAsItself(s.world, a)
  }

  /** Every statement in the tree is signed in the name of the authority that was asked. */
  ghost predicate IssuedAsAsked(tree: Tree)
    decreases tree
  {
    forall e :: e in tree && e.branch.Branch? ==>
      e.branch.statement.Jws? && e.branch.statement.payload.iss == e.issuer && IssuedAsAsked(e.branch.superiors)
  }

  lemma {:induction false} TreeIsIssuedAsAsked(s: Setting, rank: Ranking, n: nat, entity: Entity, hints: seq<Entity>)
    requires Ranked(s, rank) && RankedBelow(s, rank, n, entity, hints) && AllAsked(s, rank, hints)
    requires AllSignAsThemselves(s, rank) && TreeFor(s, rank, n, entity, hints).Ok?
    ensures IssuedAsAsked(TreeFor(s, rank, n, entity, hints).value)
    decreases n, |hints|
  {
    var tree := TreeFor(s, rank, n, entity, hints).value;
    EdgesAreHints(s, rank, n, entity, hints);
    forall e | e in tree && e.branch.Branch?
      ensures e.branch.statement.Jws? && e.branch.statement.payload.iss == e.issuer && IssuedAsAsked(e.branch.superiors)
    {
      assert Answered(s, rank, n, entity, e) && HasIssuer(tree, e.issuer);
      BranchMeansVia(s, rank, n, entity, e.issuer);
      FollowedIsAsked(s, rank, entity, e.issuer);
      assert e.issuer in [e.issuer];
      TreeIsIssuedAsAsked(s, rank, rank.of(e.issuer), e.issuer, Hints(s, Ask(s, entity, e.issuer).configuration));
    }
  }
}
