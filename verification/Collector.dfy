/** The collector with its caches: `TrustChainCollector` in trust_chain_collector.py and `collect_trust_chains` in
    function/__init__.py. */
module Collector {
  import opened Wrappers
  import opened Statements
  import opened StatementCache
  import opened ChainLists
  import opened ChainVerification
  import opened Collection
  import opened HintTrees
  import opened StatementLookup
  import opened CachedCollection

  class TrustChainCollector {
    const world: World
    const allowedDelta: int
    const configCache: ESCache
    const statementCache: ESCache
    var trustAnchors: set<Entity>
    ghost var fetched: seq<(Entity, Entity)>

    constructor (world: World, trustAnchors: set<Entity>, allowedDelta: int)
      ensures Valid() && fresh(configCache) && fresh(statementCache)
      ensures this.world == world && this.trustAnchors == trustAnchors && this.allowedDelta == allowedDelta
      ensures State() == NEW && Ready(world, State())
    {
      this.world, this.trustAnchors, this.allowedDelta := world, trustAnchors, allowedDelta;
      configCache := new ESCache(allowedDelta);
      statementCache := new ESCache(allowedDelta);
      fetched := [];
      new;
      NewIsReady(world);
    }

    predicate Valid() {
      configCache != statementCache && configCache.allowedDelta == allowedDelta == statementCache.allowedDelta
    }

    function Contents(): Caches
      reads configCache, statementCache
    {
      Caches(configCache.db, statementCache.db)
    }

    ghost function State(): Memo
      reads this`fetched, configCache, statementCache
    {
      Memo(Contents(), fetched)
    }

    function SessionAt(stopAt: Entity, now: int): Session
      reads this`trustAnchors
    {
      Session(Setting(world, trustAnchors, stopAt), now, allowedDelta)
    }

    /** `get_federation_fetch_endpoint` */
    method GetFederationFetchEndpoint(authority: Entity, now: int) returns (r: Result<Option<string>>)
      requires Valid()
      modifies configCache
      ensures (configCache.db, r) == FetchEndpointFor(world, now, allowedDelta, old(configCache.db), authority)
    {
      var cached := configCache.GetItem(authority, now);
      if cached.Failure? {
        return Failure;
      }
      if cached.value.Some? {
        if !cached.value.value.Dictionary? || cached.value.value.statement.NotJws? {
          return Failure;
        }
        r := EndpointIn(cached.value.value.statement);
        if r != Ok(None) {
          return r;
        }
      }
      var config := ConfigurationOf(world, authority);
      if config.Failure? {
        return Failure;
      }
      r := EndpointIn(config.value);
      if r.Ok? {
        configCache.SetItem(authority, Dictionary(config.value));
      }
    }

    /** `_get_entity_statement` */
    method GetEntityStatement(entity: Entity, authority: Entity, now: int) returns (r: Result<Option<Cached>>)
      requires Valid()
      modifies configCache, statementCache, `fetched
      ensures (Contents(), r) == GetStatement(world, now, allowedDelta, old(Contents()), entity, authority)
      ensures fetched == old(fetched) + NewlyFetched(world, now, allowedDelta, old(Contents()), entity, authority)
    {
      var key, timeKey := CacheKey(authority, entity), TimeKey(authority, entity);
      var cached := statementCache.GetItem(key, now);
      if cached.Failure? {
        return Failure;
      }
      if cached.value.Some? {
        var exp := statementCache.GetItem(timeKey, now);
        if exp.Failure? || exp.value.None? || !exp.value.value.Time? {
          return Failure;
        }
        if now > exp.value.value.exp - allowedDelta {
          var gone := statementCache.DelItem(key);
          gone := statementCache.DelItem(timeKey);
        } else {
          return cached;
        }
      }
      var endpoint := GetFederationFetchEndpoint(authority, now);
      if endpoint.Failure? {
        return Failure;
      }
      if endpoint.value.None? {
        return Ok(None);
      }
      var statement := world.statement(endpoint.value.value, authority, entity);
      if statement.None? || statement.value.NotJws? {
        return Failure;
      }
      statementCache.SetItem(key, Token(statement.value));
      fetched := fetched + [(authority, entity)];
      if statement.value.payload.exp.None? {
        return Failure;
      }
      statementCache.SetItem(timeKey, Time(statement.value.payload.exp.value));
      r := Ok(Some(Token(statement.value)));
    }

    /** The first half of `collect_branch`, in any state that keeps each kind of entry in its place: a configuration that
        the cache no longer holds would be None, on which the collection that follows raises. */
    method AskAuthority(entity: Entity, authority: Entity, stopAt: Entity, now: int)
      returns (r: Result<Option<(Jws, Jws)>>)
      requires Valid() && Kept(Contents()) && Plain(entity) && Plain(authority)
      modifies configCache, statementCache, `fetched
      ensures var (after, answer) := AskIn(SessionAt(stopAt, now), old(State()), entity, authority);
              State() == after && r == (match answer
                                        case Raises => Failure
                                        case Blocked => Ok(None)
                                        case Via(statement, configuration) => Ok(Some((statement, configuration))))
      ensures Kept(Contents())
    {
      if entity == authority && entity in trustAnchors {
        return Ok(None);
      }
      ghost var before := State();
      LookupKeepsKinds(world, now, allowedDelta, before.caches, entity, authority);
      ghost var looked := GetStatement(world, now, allowedDelta, before.caches, entity, authority);
      var statement := GetEntityStatement(entity, authority, now);
      assert AskIn(SessionAt(stopAt, now), before, entity, authority) ==
        (var (after, answer) := WithConfiguration(now, allowedDelta, looked, authority); (Memo(after, fetched), answer));
      if statement.Failure? {
        return Failure;
      }
      if statement.value.None? {
        return Ok(None);
      }
      var configuration := configCache.GetItem(authority, now);
      if configuration.Failure? || configuration.value.None? {
        return Failure;
      }
      r := Ok(Some((statement.value.value.token, configuration.value.value.statement)));
    }

    /** `collect_branch`, in every such state from which the recursion ends. Neither `seen` nor `maxSuperiors` decides
        anything. */
    method CollectBranch(entity: Entity, authority: Entity, seen: seq<Entity>, maxSuperiors: int, stopAt: Entity, now: int,
                         ghost depth: nat)
      returns (r: Result<Branch>)
      requires Valid() && Kept(Contents()) && Plain(entity)
      requires BranchIn(SessionAt(stopAt, now), State(), depth, entity, authority).1.Finished?
      modifies configCache, statementCache, `fetched
      ensures (State(), Finished(r)) == BranchIn(SessionAt(stopAt, now), old(State()), depth, entity, authority)
      ensures Kept(Contents())
      decreases depth, 0
    {
      BranchKeeps(SessionAt(stopAt, now), State(), depth, entity, authority);
      AskingKeeps(SessionAt(stopAt, now), State(), entity, authority);
      var asked := AskAuthority(entity, authority, stopAt, now);
      if asked.Failure? {
        return Failure;
      }
      if asked.value.None? {
        return Ok(NoBranch);
      }
      var (statement, configuration) := asked.value.value;
      var superiors := CollectTree(authority, configuration, seen + [authority], maxSuperiors, stopAt, now, depth - 1);
      if superiors.Failure? {
        return Failure;
      }
      r := Ok(Branch(statement, superiors.value));
    }

    /** `collect_tree`, in every such state from which the recursion ends. */
    method CollectTree(entity: Entity, configuration: Jws, seen: seq<Entity>, maxSuperiors: int, stopAt: Entity, now: int,
                       ghost depth: nat)
      returns (r: Result<Tree>)
      requires Valid() && Kept(Contents()) && Plain(entity) && configuration.Jws?
      requires var x := SessionAt(stopAt, now);
        TreeIn(x, State(), depth, entity, Hints(x.setting, configuration)).1.Finished?
      modifies configCache, statementCache, `fetched
      ensures var x := SessionAt(stopAt, now);
              (State(), Finished(r)) == TreeIn(x, old(State()), depth, entity, Hints(x.setting, configuration))
      ensures r.Ok? ==>
        IssuersOf(r.value) == (if configuration.payload.authorityHints.None? || configuration.payload.iss == stopAt then []
                               else FirstOnes(configuration.payload.authorityHints.value))
      ensures Kept(Contents())
      decreases depth, 1
    {
      if configuration.payload.authorityHints.None? || configuration.payload.iss == stopAt {
        return Ok([]);
      }
      ghost var x, start := SessionAt(stopAt, now), State();
      var hints := configuration.payload.authorityHints.value;
      var superior: Tree := [];
      var i := 0;
      while i < |hints|
        invariant 0 <= i <= |hints| && Kept(Contents())
        invariant TreeIn(x, start, depth, entity, hints[..i]) == (State(), Finished(Ok(superior)))
        invariant IssuersOf(superior) == FirstOnes(hints[..i])
      {
        var authority := hints[i];
        assert hints[..i + 1][..i] == hints[..i];
        TreeNext(x, start, depth, entity, hints, i, State(), superior);
        var branch := CollectBranch(entity, authority, seen, maxSuperiors, stopAt, now, depth);
        if branch.Failure? {
          TreePrefix(x, start, depth, entity, hints, i + 1);
          return Failure;
        }
        PutIssuer(superior, authority, branch.value);
        superior := Put(superior, authority, branch.value);
        i := i + 1;
      }
      assert hints[..i] == hints;
      r := Ok(superior);
    }

    /** `__call__`: the leaf's configuration from the cache, read without the expiry rule and refused only when too
        old, or from the network; then the tree. */
    method Call(entity: Entity, stopAt: Entity, now: int, ghost depth: nat) returns (r: Result<(Tree, Jws)>)
      requires Valid() && Kept(Contents()) && Plain(entity)
      requires CollectIn(SessionAt(stopAt, now), State(), depth, entity).1.Finished?
      modifies configCache, statementCache, `fetched
      ensures (State(), Finished(r)) == CollectIn(SessionAt(stopAt, now), old(State()), depth, entity)
      ensures Kept(Contents())
    {
      var cached := configCache.Get(entity);
      var config := NotJws("");
      if cached.Some? && cached.value.statement.payload.exp.None? {
        return Failure;
      }
      if cached.Some? && now < cached.value.statement.payload.exp.value + allowedDelta {
        config := cached.value.statement;
      } else {
        var served := ConfigurationOf(world, entity);
        if served.Failure? {
          return Failure;
        }
        config := served.value;
        configCache.SetItem(entity, Dictionary(config));
      }
      assert (State(), Ok(config)) == LeafIn(SessionAt(stopAt, now), old(State()), entity);
      var tree := CollectTree(entity, config, [], 10, stopAt, now, depth);
      if tree.Failure? {
        return Failure;
      }
      r := Ok((tree.value, config));
    }

    /** `collect_trust_chains` for an entity whose configuration is fetched: the flattened tree, and the configuration. */
    method CollectTrustChains(entity: Entity, stopAt: Entity, now: int, ghost depth: nat)
      returns (ok: bool, chains: seq<TokenList>, configuration: Jws)
      requires Valid() && Kept(Contents()) && Plain(entity)
      requires CollectIn(SessionAt(stopAt, now), State(), depth, entity).1.Finished?
      modifies configCache, statementCache, `fetched
      ensures var (after, r) := CollectIn(SessionAt(stopAt, now), old(State()), depth, entity);
              State() == after && (ok <==> r.result.Ok?) &&
              (ok ==> var (tree, config) := r.result.value;
                      configuration == config && Holds(chains, Chains(tree)) && Distinct(chains) && fresh(chains))
      ensures Kept(Contents())
    {
      var collected := Call(entity, stopAt, now, depth);
      if collected.Failure? {
        return false, [], NotJws("");
      }
      configuration := collected.value.1;
      chains := Tree2Chains(collected.value.0);
      ok := true;
    }

    /** `get_chain`: the leaf's configuration, then the statements up the issuer path, then possibly the anchor's
        configuration. Reading may raise, or find that an entry has expired. */
    method GetChain(issPath: seq<Entity>, anchor: Entity, withAnchor: bool, now: int)
      returns (r: Result<seq<Option<Cached>>>)
      requires Valid()
      modifies configCache, statementCache
      ensures (Contents(), r) == ReadChain(old(Contents()), issPath, anchor, withAnchor, now, allowedDelta)
    {
      if issPath == [] {
        return Failure;
      }
      var leaf := configCache.GetItem(issPath[0], now);
      if !IsConfiguration(leaf) {
        return Failure;
      }
      ghost var start := statementCache.db;
      var items: seq<Option<Cached>> := [];
      var i := 0;
      while i < |issPath| - 1
        invariant 0 <= i <= |issPath| - 1
        invariant configCache.db == Read(old(configCache.db), issPath[0], now, allowedDelta).1
        invariant ReadUp(start, issPath, i, now, allowedDelta) == (statementCache.db, Ok(items))
      {
        var item := statementCache.GetItem(CacheKey(issPath[i + 1], issPath[i]), now);
        if item.Failure? {
          ReadUpStops(start, issPath, i + 1, now, allowedDelta);
          return Failure;
        }
        items := items + [item.value];
        i := i + 1;
      }
      items := [Some(Token(leaf.value.value.statement))] + items;
      if withAnchor {
        var top := configCache.GetItem(anchor, now);
        if !IsConfiguration(top) {
          return Failure;
        }
        items := items + [Some(Token(top.value.value.statement))];
      }
      r := Ok(items);
    }
  }

  // ---- Reading a chain from the caches ----

  /** `config_cache[...]['_jws']` does not raise. */
  predicate IsConfiguration(read: Result<Option<Cached>>) {
    read.Ok? && read.value.Some? && read.value.value.Dictionary?
  }

  /** The first `k` statements up the issuer path, each read in what reading the ones before has left. */
  function ReadUp(db: Db, issPath: seq<Entity>, k: nat, now: int, delta: int): (Db, Result<seq<Option<Cached>>>)
    requires issPath != [] && k <= |issPath| - 1
  {
    if k == 0 then
      (db, Ok([]))
    else
      match ReadUp(db, issPath, k - 1, now, delta)
      case (left, Failure) => (left, Failure)
      case (left, Ok(items)) =>
        match Read(left, CacheKey(issPath[k], issPath[k - 1]), now, delta)
        case (Failure, rest) => (rest, Failure)
        case (Ok(item), rest) => (rest, Ok(items + [item]))
  }

  /** `get_chain` in every state. */
  function ReadChain(c: Caches, issPath: seq<Entity>, anchor: Entity, withAnchor: bool, now: int,
                     delta: int): (Caches, Result<seq<Option<Cached>>>) {
    if issPath == [] then
      (c, Failure)
    else
      var (leaf, configs) := Read(c.configurations, issPath[0], now, delta);
      if !IsConfiguration(leaf) then
        (c.(configurations := configs), Failure)
      else
        match ReadUp(c.statements, issPath, |issPath| - 1, now, delta)
        case (statements, Failure) => (Caches(configs, statements), Failure)
        case (statements, Ok(up)) =>
          var items := [Some(Token(leaf.value.value.statement))] + up;
          if !withAnchor then
            (Caches(configs, statements), Ok(items))
          else
            var (top, left) := Read(configs, anchor, now, delta);
            (Caches(left, statements),
             if IsConfiguration(top) then Ok(items + [Some(Token(top.value.value.statement))]) else Failure)
  }

  lemma {:induction false} ReadUpStops(db: Db, issPath: seq<Entity>, k: nat, now: int, delta: int)
    requires issPath != [] && k <= |issPath| - 1 && ReadUp(db, issPath, k, now, delta).1.Failure?
    ensures ReadUp(db, issPath, |issPath| - 1, now, delta) == ReadUp(db, issPath, k, now, delta)
    decreases |issPath| - k
  {
    if k < |issPath| - 1 {
      ReadUpStops(db, issPath, k + 1, now, delta);
    }
  }

  /** What is stored under the keys of the issuer path are statements, not dictionaries. */
  ghost predicate StatementsUp(db: Db, issPath: seq<Entity>) {
    forall i :: 0 < i < |issPath| && CacheKey(issPath[i], issPath[i - 1]) in db ==>
      !db[CacheKey(issPath[i], issPath[i - 1])].Dictionary?
  }

  lemma {:induction false} StatementsAreRead(db: Db, issPath: seq<Entity>, k: nat, now: int, delta: int)
    requires issPath != [] && k <= |issPath| - 1 && StatementsUp(db, issPath)
    ensures ReadUp(db, issPath, k, now, delta) == (db, Ok(StatementItems(db, issPath)[..k]))
  {
    if k > 0 {
      StatementsAreRead(db, issPath, k - 1, now, delta);
      var all := StatementItems(db, issPath);
      assert all[..k] == all[..k - 1] + [all[k - 1]];
      assert all[k - 1] == Lookup(db, CacheKey(issPath[k], issPath[k - 1]));
      assert CacheKey(issPath[k], issPath[k - 1]) in db ==> !db[CacheKey(issPath[k], issPath[k - 1])].Dictionary?;
    }
  }

  /** `get_chain` gives what is stored, and changes nothing, if and only if the leaf's configuration, and the anchor's
      where it is asked for, are cached and recent; otherwise it raises. Statements do not expire here. */
  lemma {:induction false} ReadChainIff(c: Caches, issPath: seq<Entity>, anchor: Entity, withAnchor: bool, now: int, delta: int)
    requires issPath != [] && StatementsUp(c.statements, issPath) && HoldsConfigurations(c.configurations)
    ensures var there := Configured(now, delta, c.configurations, issPath[0]) &&
                         (withAnchor ==> Configured(now, delta, c.configurations, anchor));
            var (after, r) := ReadChain(c, issPath, anchor, withAnchor, now, delta);
            if there then after == c && r == ChainItems(c, issPath, anchor, withAnchor) && r.Ok? else r == Failure
  {
    StatementsAreRead(c.statements, issPath, |issPath| - 1, now, delta);
    var all := StatementItems(c.statements, issPath);
    assert all[..|issPath| - 1] == all;
  }

  // ---- Rebuilding a chain from the caches ----

  function StatementItems(db: Db, issPath: seq<Entity>): (r: seq<Option<Cached>>)
    requires issPath != []
  {
    seq(|issPath| - 1, i requires 0 <= i < |issPath| - 1 => Lookup(db, CacheKey(issPath[i + 1], issPath[i])))
  }

  function ConfigurationItem(db: Db, e: Entity): Result<Option<Cached>> {
    if e in db && db[e].Dictionary? then Ok(Some(Token(db[e].statement))) else Failure
  }

  function ChainItems(c: Caches, issPath: seq<Entity>, anchor: Entity, withAnchor: bool): Result<seq<Option<Cached>>> {
    if issPath == [] then
      Failure
    else
      var leaf :- ConfigurationItem(c.configurations, issPath[0]);
      var items := [leaf] + StatementItems(c.statements, issPath);
      if withAnchor then
        var top :- ConfigurationItem(c.configurations, anchor);
        Ok(items + [top])
      else
        Ok(items)
  }

  /** These are the leaf's configuration, what is stored for each two ids in turn, and the anchor's configuration. */
  lemma ChainItemsAre(c: Caches, issPath: seq<Entity>, anchor: Entity, withAnchor: bool)
    requires ChainItems(c, issPath, anchor, withAnchor).Ok?
    ensures var items := ChainItems(c, issPath, anchor, withAnchor).value; var n := |issPath|;
            |items| == n + (if withAnchor then 1 else 0) && n > 0 &&
            Lookup(c.configurations, issPath[0]).Some? && c.configurations[issPath[0]].Dictionary? &&
            items[0] == Some(Token(c.configurations[issPath[0]].statement)) &&
            (forall i :: 0 < i < n ==> items[i] == Lookup(c.statements, issPath[i] + "!!" + issPath[i - 1])) &&
            (withAnchor ==> anchor in c.configurations && c.configurations[anchor].Dictionary? &&
                            items[n] == Some(Token(c.configurations[anchor].statement)))
  {
    var up := StatementItems(c.statements, issPath);
    assert forall i :: 0 < i < |issPath| ==> up[i - 1] == Lookup(c.statements, CacheKey(issPath[i], issPath[i - 1]));
  }

  /** The ids up a leaf route: the entity, then the issuers of the statements met. */
  function PathOf(entity: Entity, along: seq<Jws>): seq<Entity>
    requires forall t :: t in along ==> t.Jws?
  {
    [entity] + seq(|along|, i requires 0 <= i < |along| => along[i].payload.iss)
  }

  ghost predicate AllJws(tokens: seq<Jws>) {
    forall t :: t in tokens ==> t.Jws?
  }

  /** The statements `along`, from `entity` up, are cached under the ids they were asked for. */
  ghost predicate CachedUp(db: Db, entity: Entity, along: seq<Jws>)
    requires AllJws(along)
    decreases |along|
  {
    along == [] ||
    (Lookup(db, CacheKey(along[0].payload.iss, entity)) == Some(Token(along[0])) &&
     CachedUp(db, along[0].payload.iss, along[1..]))
  }

  lemma {:induction false} RouteIsCached(db: Db, entity: Entity, tree: Tree, route: Route)
    requires IsLeafRoute(tree, route) && Stored(db, entity, tree) && IssuedAsAsked(tree)
    ensures AllJws(Along(tree, route)) && CachedUp(db, entity, Along(tree, route))
    decreases |route|
  {
    var edge := tree[route[0]];
    assert edge in tree;
    if edge.branch.Branch? && edge.branch.superiors != [] {
      RouteIsCached(db, edge.issuer, edge.branch.superiors, route[1..]);
      assert Along(tree, route)[1..] == Along(edge.branch.superiors, route[1..]);
    }
  }

  lemma {:induction false} CachedAt(db: Db, entity: Entity, along: seq<Jws>, i: nat)
    requires AllJws(along) && CachedUp(db, entity, along) && i < |along|
    ensures Lookup(db, CacheKey(along[i].payload.iss, if i == 0 then entity else along[i - 1].payload.iss)) == Some(Token(along[i]))
    decreases |along|
  {
    if i > 0 {
      CachedAt(db, along[0].payload.iss, along[1..], i - 1);
    }
  }

  lemma ItemsUp(db: Db, entity: Entity, along: seq<Jws>)
    requires AllJws(along) && CachedUp(db, entity, along)
    ensures |StatementItems(db, PathOf(entity, along))| == |along|
    ensures forall i :: 0 <= i < |along| ==> StatementItems(db, PathOf(entity, along))[i] == Some(Token(along[i]))
  {
    forall i | 0 <= i < |along|
      ensures StatementItems(db, PathOf(entity, along))[i] == Some(Token(along[i]))
    {
      CachedAt(db, entity, along, i);
    }
  }

  /** Verifying the extended chain recovers the ids it was collected along. */
  lemma IssuerPathIsPath(along: seq<Jws>, leaf: Jws)
    requires leaf.Jws? && AllJws(along)
    ensures IssuerPath(Payloads(Reverse(along) + [leaf])) == PathOf(leaf.payload.iss, along)
  {
    var extended := Reverse(along) + [leaf];
    forall t | t in extended
      ensures t.Jws?
    {
      var i :| 0 <= i < |extended| && extended[i] == t;
      if i < |along| {
        assert extended[i] == along[|along| - 1 - i];
      }
    }
    PayloadsAt(extended);
    var path := IssuerPath(Payloads(extended));
    assert |path| == |along| + 1;
    forall i | 0 <= i < |path|
      ensures path[i] == PathOf(leaf.payload.iss, along)[i]
    {
      assert path[i] == extended[|along| - i].payload.iss;
      if i > 0 {
        assert extended[|along| - i] == along[i - 1];
      }
    }
  }

  /** `items` reversed are exactly the tokens of `chain`. */
  ghost predicate ReversedItems(items: seq<Option<Cached>>, chain: seq<Jws>) {
    |items| == |chain| && forall i :: 0 <= i < |chain| ==> items[|chain| - 1 - i] == Some(Token(chain[i]))
  }

  lemma RebuiltAlong(c: Caches, along: seq<Jws>, leaf: Jws, anchor: Entity)
    requires leaf.Jws? && AllJws(along) && Lookup(c.configurations, leaf.payload.iss) == Some(Dictionary(leaf))
    requires CachedUp(c.statements, leaf.payload.iss, along)
    ensures var items := ChainItems(c, PathOf(leaf.payload.iss, along), anchor, false);
            items.Ok? && ReversedItems(items.value, Reverse(along) + [leaf])
  {
    ItemsUp(c.statements, leaf.payload.iss, along);
    var items := [Some(Token(leaf))] + StatementItems(c.statements, PathOf(leaf.payload.iss, along));
    ItemsReversed(items, along, leaf);
  }

  lemma ItemsReversed(items: seq<Option<Cached>>, along: seq<Jws>, leaf: Jws)
    requires |items| == |along| + 1 && items[0] == Some(Token(leaf))
    requires forall i :: 0 <= i < |along| ==> items[i + 1] == Some(Token(along[i]))
    ensures ReversedItems(items, Reverse(along) + [leaf])
  {
    var extended := Reverse(along) + [leaf];
    forall i | 0 <= i < |extended|
      ensures items[|along| - i] == Some(Token(extended[i]))
    {
      if i < |along| {
        var j := |along| - 1 - i;
        assert extended[i] == along[j] && items[j + 1] == Some(Token(along[j]));
      }
    }
  }

  /** For a chain of a collected tree, extended with the leaf's configuration, reversing what `get_chain` rebuilds from the
      issuers of its payloads gives back exactly the extended chain. */
  lemma {:induction false} ChainRoundTrip(c: Caches, entity: Entity, tree: Tree, leaf: Jws, k: nat, anchor: Entity)
    requires k < |Chains(tree)| && leaf.Jws? && leaf.payload.iss == entity && IssuedAsAsked(tree)
    requires Stored(c.statements, entity, tree) && Lookup(c.configurations, entity) == Some(Dictionary(leaf))
    ensures var extended := Chains(tree)[k] + [leaf];
            var rebuilt := ChainItems(c, IssuerPath(Payloads(extended)), anchor, false);
            rebuilt.Ok? && ReversedItems(rebuilt.value, extended)
  {
    FlatteningIsFaithful(tree);
    var route := Routes(tree)[k];
    var along := Along(tree, route);
    RouteIsCached(c.statements, entity, tree, route);
    IssuerPathIsPath(along, leaf);
    RebuiltAlong(c, along, leaf, anchor);
  }

  /** The same for the issuer path the verifier hands out when it accepts the extended chain. */
  lemma {:induction false} VerifiedChainRoundTrip(w: World, jar: Jar, c: Caches, entity: Entity, tree: Tree,
          leaf: Jws, k: nat, anchor: Entity)
    requires k < |Chains(tree)| && leaf.Jws? && leaf.payload.iss == entity && IssuedAsAsked(tree)
    requires Stored(c.statements, entity, tree) && Lookup(c.configurations, entity) == Some(Dictionary(leaf))
    requires Verify(w, jar, Chains(tree)[k] + [leaf]).result.Ok?
    requires Verify(w, jar, Chains(tree)[k] + [leaf]).result.value != []
    ensures var extended := Chains(tree)[k] + [leaf];
            var rebuilt := ChainItems(c, IssuerPath(Verify(w, jar, extended).result.value), anchor, false);
            rebuilt.Ok? && ReversedItems(rebuilt.value, extended)
  {
    AcceptedIsWhole(w, jar, Chains(tree)[k] + [leaf]);
    ChainRoundTrip(c, entity, tree, leaf, k, anchor);
  }
}
