/** Collecting through the caches, in any state, as a function from state to state: `collect_branch`, `collect_tree` and
    `__call__` in trust_chain_collector.py. */
module CachedCollection {
  import opened Wrappers
  import opened Statements
  import opened StatementCache
  import opened ChainLists
  import opened ChainVerification
  import opened Collection
  import opened StatementLookup

  /** A collection at one time. */
  datatype Session = Session(setting: Setting, now: int, delta: int)

  /** The caches, and a log of the statements that were fetched, by authority and entity. */
  datatype Memo = Memo(caches: Caches, fetched: seq<(Entity, Entity)>)

  const NEW := Memo(Caches(map[], map[]), [])

  /** The first half of `collect_branch`. */
  function AskIn(x: Session, m: Memo, entity: Entity, authority: Entity): (Memo, Answer) {
    if entity == authority && entity in x.setting.anchors then
      (m, Blocked)
    else
      var (after, answer) := AskCaches(x.setting, x.now, x.delta, m.caches, entity, authority);
      (Memo(after, m.fetched + NewlyFetched(x.setting.world, x.now, x.delta, m.caches, entity, authority)), answer)
  }

  /** `collect_branch`, cut off after `depth` levels, and at ids that could confuse the cache keys. */
  function BranchIn(x: Session, m: Memo, depth: nat, entity: Entity, authority: Entity): (Memo, Bounded<Branch>)
    decreases depth, 0
  {
    if !Plain(authority) then
      (m, Unfinished)
    else
      match AskIn(x, m, entity, authority)
      case (after, Raises) => (after, Finished(Failure))
      case (after, Blocked) => (after, Finished(Ok(NoBranch)))
      case (after, Via(statement, config)) =>
        if depth == 0 || config.NotJws? then
          (after, Unfinished)
        else
          match TreeIn(x, after, depth - 1, authority, Hints(x.setting, config))
          case (done, Unfinished) => (done, Unfinished)
          case (done, Finished(Failure)) => (done, Finished(Failure))
          case (done, Finished(Ok(superiors))) => (done, Finished(Ok(Branch(statement, superiors))))
  }

  /** `collect_tree` on the hints of a configuration. */
  function TreeIn(x: Session, m: Memo, depth: nat, entity: Entity, hints: seq<Entity>): (Memo, Bounded<Tree>)
    decreases depth, |hints|
  {
    if hints == [] then
      (m, Finished(Ok([])))
    else
      var last := hints[|hints| - 1];
      match TreeIn(x, m, depth, entity, hints[..|hints| - 1])
      case (before, Unfinished) => (before, Unfinished)
      case (before, Finished(Failure)) => (before, Finished(Failure))
      case (before, Finished(Ok(tree))) =>
        match BranchIn(x, before, depth, entity, last)
        case (after, Unfinished) => (after, Unfinished)
        case (after, Finished(Failure)) => (after, Finished(Failure))
        case (after, Finished(Ok(branch))) => (after, Finished(Ok(Put(tree, last, branch))))
  }

  function FetchLeaf(x: Session, m: Memo, entity: Entity): (Memo, Result<Jws>) {
    match ConfigurationOf(x.setting.world, entity)
    case Failure => (m, Failure)
    case Ok(config) =>
      (m.(caches := m.caches.(configurations := m.caches.configurations[entity := Dictionary(config)])), Ok(config))
  }

  /** The leaf's configuration, cached and not too old, or fetched. The cache is read without its expiry rule. */
  function LeafIn(x: Session, m: Memo, entity: Entity): (Memo, Result<Jws>) {
    var cached: Option<Cached> := Lookup(m.caches.configurations, entity);
    match cached
    case None => FetchLeaf(x, m, entity)
    case Some(Dictionary(Jws(payload, signature))) =>
      (match payload.exp
       case None => (m, Failure)
       case Some(exp) => if x.now < exp + x.delta then (m, Ok(Jws(payload, signature))) else FetchLeaf(x, m, entity))
    case Some(_) => (m, Failure)
  }

  /** `__call__` */
  function CollectIn(x: Session, m: Memo, depth: nat, entity: Entity): (Memo, Bounded<(Tree, Jws)>) {
    match LeafIn(x, m, entity)
    case (after, Ok(Jws(payload, signature))) =>
      (var config := Jws(payload, signature);
       match TreeIn(x, after, depth, entity, Hints(x.setting, config))
       case (done, Unfinished) => (done, Unfinished)
       case (done, Finished(Failure)) => (done, Finished(Failure))
       case (done, Finished(Ok(tree))) => (done, Finished(Ok((tree, config)))))
    case (after, _) => (after, Finished(Failure))
  }

  // ---- In every state ----

  /** Asking keeps what is in the caches in its place, and only adds to the log. */
  lemma AskingKeeps(x: Session, m: Memo, entity: Entity, authority: Entity)
    requires Kept(m.caches) && Plain(entity) && Plain(authority)
    ensures var (after, answer) := AskIn(x, m, entity, authority);
            Kept(after.caches) && m.fetched <= after.fetched && (answer.Via? ==> answer.statement.Jws? && answer.configuration.Jws?)
  {
    LookupKeepsKinds(x.setting.world, x.now, x.delta, m.caches, entity, authority);
  }

  lemma {:induction false} BranchKeeps(x: Session, m: Memo, depth: nat, entity: Entity, authority: Entity)
    requires Kept(m.caches) && Plain(entity)
    ensures var after := BranchIn(x, m, depth, entity, authority).0; Kept(after.caches) && m.fetched <= after.fetched
    decreases depth, 0
  {
    if Plain(authority) {
      AskingKeeps(x, m, entity, authority);
      var (asked, answer) := AskIn(x, m, entity, authority);
      if answer.Via? && depth > 0 {
        TreeKeeps(x, asked, depth - 1, authority, Hints(x.setting, answer.configuration));
      }
    }
  }

  /** So does a whole collection, whatever state it starts in and however it ends. */
  lemma {:induction false} TreeKeeps(x: Session, m: Memo, depth: nat, entity: Entity, hints: seq<Entity>)
    requires Kept(m.caches) && Plain(entity)
    ensures var after := TreeIn(x, m, depth, entity, hints).0; Kept(after.caches) && m.fetched <= after.fetched
    decreases depth, |hints|
  {
    if hints != [] {
      var (before, sofar) := TreeIn(x, m, depth, entity, hints[..|hints| - 1]);
      TreeKeeps(x, m, depth, entity, hints[..|hints| - 1]);
      if sofar.Finished? && sofar.result.Ok? {
        BranchKeeps(x, before, depth, entity, hints[|hints| - 1]);
      }
    }
  }

  lemma {:induction false} TreePrefix(x: Session, m: Memo, depth: nat, entity: Entity, hints: seq<Entity>, i: nat)
    requires i <= |hints| && TreeIn(x, m, depth, entity, hints).1.Finished?
    ensures var (after, r) := TreeIn(x, m, depth, entity, hints[..i]);
            r.Finished? && (r.result.Failure? ==> TreeIn(x, m, depth, entity, hints) == (after, Finished(Failure)))
    decreases |hints|
  {
    if i == |hints| {
      assert hints[..i] == hints;
    } else {
      assert hints[..|hints| - 1][..i] == hints[..i];
      TreePrefix(x, m, depth, entity, hints[..|hints| - 1], i);
    }
  }

  lemma TreeNext(x: Session, m: Memo, depth: nat, entity: Entity, hints: seq<Entity>, i: nat, before: Memo, tree: Tree)
    requires i < |hints| && TreeIn(x, m, depth, entity, hints).1.Finished?
    requires TreeIn(x, m, depth, entity, hints[..i]) == (before, Finished(Ok(tree)))
    ensures var (after, r) := BranchIn(x, before, depth, entity, hints[i]);
            r.Finished? &&
            TreeIn(x, m, depth, entity, hints[..i + 1]) ==
              (after, Finished(if r.result.Failure? then Failure else Ok(Put(tree, hints[i], r.result.value))))
  {
    assert hints[..i + 1][..i] == hints[..i];
    TreePrefix(x, m, depth, entity, hints, i + 1);
  }

  // ---- In consistent states ----

  /** Every edge's statement is in the statement cache. */
  ghost predicate Stored(db: Db, entity: Entity, tree: Tree)
    decreases tree
  {
    forall e :: e in tree && e.branch.Branch? ==>
      CacheKey(e.issuer, entity) in db && db[CacheKey(e.issuer, entity)] == Token(e.branch.statement) &&
      Stored(db, e.issuer, e.branch.superiors)
  }

  lemma {:induction false} StoredStays(before: Db, after: Db, entity: Entity, tree: Tree)
    requires Stored(before, entity, tree) && Extends(before, after)
    ensures Stored(after, entity, tree)
    decreases tree
  {
    forall e | e in tree && e.branch.Branch?
      ensures Stored(after, e.issuer, e.branch.superiors)
    {
      StoredStays(before, after, e.issuer, e.branch.superiors);
    }
  }

  ghost predicate StoredBranch(db: Db, entity: Entity, authority: Entity, branch: Branch) {
    branch.Branch? ==>
      CacheKey(authority, entity) in db && db[CacheKey(authority, entity)] == Token(branch.statement) &&
      Stored(db, authority, branch.superiors)
  }

  lemma StoredPut(before: Db, after: Db, entity: Entity, tree: Tree, authority: Entity, branch: Branch)
    requires Stored(before, entity, tree) && Extends(before, after) && DistinctIssuers(tree)
    requires StoredBranch(after, entity, authority, branch)
    ensures Stored(after, entity, Put(tree, authority, branch))
  {
    StoredStays(before, after, entity, tree);
    PutKeeps(tree, authority, branch);
  }

  /** No statement was fetched twice, and every fetched one is still cached. */
  ghost predicate FetchedOnce(m: Memo) {
    (forall i, j :: 0 <= i < j < |m.fetched| ==> m.fetched[i] != m.fetched[j]) &&
    (forall p :: p in m.fetched ==> CacheKey(p.0, p.1) in m.caches.statements)
  }

  /** The log has grown by statements that were not cached. */
  ghost predicate LogExtends(before: Memo, after: Memo) {
    before.fetched <= after.fetched &&
    forall i :: |before.fetched| <= i < |after.fetched| ==>
      CacheKey(after.fetched[i].0, after.fetched[i].1) !in before.caches.statements
  }

  /** What every collection relies on and keeps. */
  ghost predicate Ready(w: World, m: Memo) {
    Consistent(w, m.caches) && FetchedOnce(m)
  }

  /** What a collection in a consistent state leaves: another one, that has forgotten nothing. */
  ghost predicate Grew(w: World, before: Memo, after: Memo) {
    Ready(w, after) && CachesExtend(before.caches, after.caches) && LogExtends(before, after)
  }

  lemma GrewTwice(w: World, a: Memo, b: Memo, c: Memo)
    requires Grew(w, a, b) && Grew(w, b, c)
    ensures Grew(w, a, c)
  {
    forall i | |a.fetched| <= i < |c.fetched|
      ensures CacheKey(c.fetched[i].0, c.fetched[i].1) !in a.caches.statements
    {
      if i < |b.fetched| {
        assert c.fetched[i] == b.fetched[i];
      }
    }
  }

  /** A new collector's caches are consistent with any network. */
  lemma NewIsReady(w: World)
    ensures Ready(w, NEW)
  {
    forall a, e | Plain(a) && Plain(e)
      ensures PairAt(map[], a, e)
    {
    }
  }

  /** What is asked of the network: what it serves to this collection is fresh, under ids without `!`. */
  ghost predicate Served(x: Session, rank: Ranking) {
    forall a :: a in Asked(x.setting, rank) ==> ServesFresh(x.setting.world, x.now, x.delta, a) && Plain(a)
  }

  lemma AskingGrows(x: Session, m: Memo, entity: Entity, authority: Entity)
    requires Ready(x.setting.world, m) && Plain(entity) && Plain(authority)
    requires ServesFresh(x.setting.world, x.now, x.delta, authority)
    ensures var (after, answer) := AskIn(x, m, entity, authority);
            answer == Ask(x.setting, entity, authority) && Grew(x.setting.world, m, after) &&
            (answer.Via? ==> Lookup(after.caches.statements, CacheKey(authority, entity)) == Some(Token(answer.statement)))
  {
    if !(entity == authority && entity in x.setting.anchors) {
      AskingIsTransparent(x.setting, x.now, x.delta, m.caches, entity, authority);
      LookupIsTransparent(x.setting.world, x.now, x.delta, m.caches, entity, authority);
      var after := AskIn(x, m, entity, authority).0;
      var extra := NewlyFetched(x.setting.world, x.now, x.delta, m.caches, entity, authority);
      assert forall p :: p in m.fetched ==> CacheKey(p.0, p.1) in m.caches.statements && CacheKey(p.0, p.1) in after.caches.statements;
      assert extra != [] ==> (authority, entity) !in m.fetched && CacheKey(authority, entity) in after.caches.statements;
    }
  }

  ghost predicate BranchIsRight(x: Session, rank: Ranking, n: nat, m: Memo, depth: nat, entity: Entity, authority: Entity)
    requires Ranked(x.setting, rank) && RankedBelow(x.setting, rank, n, entity, [authority])
  {
    var (after, r) := BranchIn(x, m, depth, entity, authority);
    var branch := BranchFor(x.setting, rank, n, entity, authority);
    r == Finished(branch) && Grew(x.setting.world, m, after) &&
    (branch.Ok? ==> StoredBranch(after.caches.statements, entity, authority, branch.value))
  }

  ghost predicate TreeIsRight(x: Session, rank: Ranking, n: nat, m: Memo, depth: nat, entity: Entity, hints: seq<Entity>)
    requires Ranked(x.setting, rank) && RankedBelow(x.setting, rank, n, entity, hints)
  {
    var (after, r) := TreeIn(x, m, depth, entity, hints);
    var tree := TreeFor(x.setting, rank, n, entity, hints);
    r == Finished(tree) && Grew(x.setting.world, m, after) &&
    (tree.Ok? ==> Stored(after.caches.statements, entity, tree.value))
  }

  lemma ViaIsTransparent(x: Session, rank: Ranking, n: nat, m: Memo, depth: nat, entity: Entity, authority: Entity,
          asked: Memo, hints: seq<Entity>)
    requires Ranked(x.setting, rank) && RankedBelow(x.setting, rank, n, entity, [authority])
    requires Plain(authority) && authority in rank.scope && Ask(x.setting, entity, authority).Via? && depth > 0
    requires AskIn(x, m, entity, authority) == (asked, Ask(x.setting, entity, authority)) && Grew(x.setting.world, m, asked)
    requires Ask(x.setting, entity, authority).configuration.Jws?
    requires hints == Hints(x.setting, Ask(x.setting, entity, authority).configuration)
    requires RankedBelow(x.setting, rank, rank.of(authority), authority, hints)
    requires TreeIsRight(x, rank, rank.of(authority), asked, depth - 1, authority, hints)
    requires Lookup(asked.caches.statements, CacheKey(authority, entity)) ==
             Some(Token(Ask(x.setting, entity, authority).statement))
    ensures BranchIsRight(x, rank, n, m, depth, entity, authority)
  {
    assert authority in [authority];
    GrewTwice(x.setting.world, m, asked, TreeIn(x, asked, depth - 1, authority, hints).0);
  }

  lemma {:induction false} BranchIsTransparent(x: Session, rank: Ranking, n: nat, m: Memo, depth: nat, entity: Entity,
          authority: Entity)
    requires Ranked(x.setting, rank) && RankedBelow(x.setting, rank, n, entity, [authority]) && depth >= n
    requires Served(x, rank) && authority in Asked(x.setting, rank) && Ready(x.setting.world, m) && Plain(entity)
    ensures BranchIsRight(x, rank, n, m, depth, entity, authority)
    decreases n, 0
  {
    var s := x.setting;
    AskingGrows(x, m, entity, authority);
    var (asked, answer) := AskIn(x, m, entity, authority);
    if answer.Via? {
      assert authority in [authority];
      FollowedIsRanked(s, rank, entity, authority);
      FollowedIsAsked(s, rank, entity, authority);
      var hints := Hints(s, answer.configuration);
      TreeIsTransparent(x, rank, rank.of(authority), asked, depth - 1, authority, hints);
      ViaIsTransparent(x, rank, n, m, depth, entity, authority, asked, hints);
    }
  }

  /** In a consistent state, at a fixed time, collecting through the caches gives the tree the network describes; the state
      stays consistent, nothing is forgotten, every statement in the tree is cached, and only statements that were not
      cached are fetched, each once. */
  lemma {:induction false} TreeIsTransparent(x: Session, rank: Ranking, n: nat, m: Memo, depth: nat, entity: Entity,
          hints: seq<Entity>)
    requires Ranked(x.setting, rank) && RankedBelow(x.setting, rank, n, entity, hints) && depth >= n
    requires Served(x, rank) && AllAsked(x.setting, rank, hints) && Ready(x.setting.world, m) && Plain(entity)
    ensures TreeIsRight(x, rank, n, m, depth, entity, hints)
    decreases n, |hints|
  {
    var s := x.setting;
    if hints != [] {
      var front, last := hints[..|hints| - 1], hints[|hints| - 1];
      TreeIsTransparent(x, rank, n, m, depth, entity, front);
      var before := TreeIn(x, m, depth, entity, front).0;
      if TreeFor(s, rank, n, entity, front).Ok? {
        var tree := TreeFor(s, rank, n, entity, front).value;
        EdgesAreHints(s, rank, n, entity, front);
        BranchIsTransparent(x, rank, n, before, depth, entity, last);
        var after := BranchIn(x, before, depth, entity, last).0;
        GrewTwice(s.world, m, before, after);
        if BranchFor(s, rank, n, entity, last).Ok? {
          StoredPut(before.caches.statements, after.caches.statements, entity, tree, last, BranchFor(s, rank, n, entity, last).value);
        }
      }
    }
  }

  lemma LeafIsTransparent(x: Session, m: Memo, entity: Entity)
    requires Ready(x.setting.world, m) && ServesFresh(x.setting.world, x.now, x.delta, entity)
    ensures var (after, r) := LeafIn(x, m, entity);
            r == ConfigurationOf(x.setting.world, entity) && Grew(x.setting.world, m, after) &&
            (r.Ok? ==> Lookup(after.caches.configurations, entity) == Some(Dictionary(r.value)))
  {
    var after := LeafIn(x, m, entity).0;
    forall a, e | Plain(a) && Plain(e)
      ensures StatementAgrees(x.setting.world, after.caches, a, e)
    {
      assert StatementAgrees(x.setting.world, m.caches, a, e);
    }
  }

  /** The same for a whole call, from an entity's own configuration. */
  lemma {:induction false} CollectIsTransparent(x: Session, rank: Ranking, m: Memo, depth: nat, entity: Entity)
    requires RankedFrom(x.setting, rank, entity) && Served(x, rank) && Ready(x.setting.world, m) && depth >= rank.of(entity)
    ensures var (after, r) := CollectIn(x, m, depth, entity); var collected := Collected(x.setting, rank, entity);
            r == Finished(collected) && Grew(x.setting.world, m, after) &&
            (collected.Ok? ==> Stored(after.caches.statements, entity, collected.value.0) &&
                               Lookup(after.caches.configurations, entity) == Some(Dictionary(collected.value.1)))
  {
    var s := x.setting;
    assert entity in Asked(s, rank);
    LeafIsTransparent(x, m, entity);
    var (started, config) := LeafIn(x, m, entity);
    if config.Ok? {
      var hints := Hints(s, config.value);
      TreeIsTransparent(x, rank, rank.of(entity), started, depth, entity, hints);
      var done := TreeIn(x, started, depth, entity, hints).0;
      GrewTwice(s.world, m, started, done);
    }
  }
}
