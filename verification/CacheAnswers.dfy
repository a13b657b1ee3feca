/** What the collector's lookups answer in any state of its caches, said of what is stored and what is served:
    `get_federation_fetch_endpoint`, `_get_entity_statement`, the first half of `collect_branch`, and where `__call__` finds
    the leaf's configuration, in trust_chain_collector.py. */
module CacheAnswers {
  import opened Wrappers
  import opened Statements
  import opened StatementCache
  import opened ChainVerification
  import opened Collection
  import opened HintTrees
  import opened StatementLookup
  import opened CachedCollection

  /** The entity's configuration is cached, and expires later than the allowed delta from now. */
  ghost predicate FreshAt(db: Db, e: Entity, now: int, delta: int, config: Jws) {
    Lookup(db, e) == Some(Dictionary(config)) && config.Jws? && config.payload.exp.Some? && now < config.payload.exp.value - delta
  }

  ghost predicate UndatedConfiguration(db: Db, e: Entity) {
    e in db && db[e].Dictionary? && db[e].statement.Jws? && db[e].statement.payload.exp.None?
  }

  lemma ReadIff(db: Db, e: Entity, now: int, delta: int)
    requires HoldsConfigurations(db)
    ensures var (r, left) := Read(db, e, now, delta);
            (r == Failure <==> UndatedConfiguration(db, e)) && (r == Failure ==> left == db) &&
            (forall config :: r == Ok(Some(Dictionary(config))) <==> FreshAt(db, e, now, delta, config)) &&
            (r.Ok? && r.value.Some? ==> r.value.value.Dictionary? && left == db) && (r == Ok(None) ==> left == db - {e})
  {
    assert e !in db ==> db - {e} == db;
  }

  /** The authority's configuration is asked of the network: what it says of the fetch endpoint is the answer, and it is
      cached, unless its metadata lack the federation entity, which raises as a missing configuration does. */
  ghost predicate EndpointFetched(w: World, before: Db, a: Entity, after: Db, r: Result<Option<string>>) {
    (r == Failure && after == before &&
     forall config :: Serves(w, a, config) ==> config.payload.fetchEndpoint == NoFederationEntity) ||
    (exists config :: Serves(w, a, config) && config.payload.fetchEndpoint != NoFederationEntity &&
       after == before[a := Dictionary(config)] &&
       r == Ok(match config.payload.fetchEndpoint
               case FetchAt(url) => if url == "" then None else Some(url)
               case _ => None))
  }

  lemma FetchedIs(w: World, db: Db, a: Entity)
    ensures var (after, r) := FetchConfiguration(w, db, a); EndpointFetched(w, db, a, after, r)
  {
    forall config
      ensures ConfigurationOf(w, a) == Ok(config) <==> Serves(w, a, config)
    {
      ServesIff(w, a, config);
    }
    if ConfigurationOf(w, a).Ok? {
      assert Serves(w, a, ConfigurationOf(w, a).value);
    }
  }

  /** A fresh configuration with a fetch endpoint answers from the cache; one without federation entity, and one without
      expiry time, raises; in all other cases the network is asked, after what was too old has been dropped. */
  lemma {:induction false} EndpointComesFrom(w: World, now: int, delta: int, db: Db, a: Entity)
    requires HoldsConfigurations(db)
    ensures var (after, r) := FetchEndpointFor(w, now, delta, db, a);
            (UndatedConfiguration(db, a) ==> r == Failure && after == db) &&
            (forall config :: FreshAt(db, a, now, delta, config) ==>
               match config.payload.fetchEndpoint
               case NoFederationEntity => r == Failure && after == db
               case NoEndpoint => EndpointFetched(w, db, a, after, r)
               case FetchAt(url) => if url == "" then EndpointFetched(w, db, a, after, r) else r == Ok(Some(url)) && after == db) &&
            (!UndatedConfiguration(db, a) && (forall config :: !FreshAt(db, a, now, delta, config)) ==>
               EndpointFetched(w, db - {a}, a, after, r))
  {
    ReadIff(db, a, now, delta);
    FetchedIs(w, Read(db, a, now, delta).1, a);
  }

  /** The statement is asked of the network, under the authority's endpoint, and stored, with its expiry time if it has one. */
  ghost predicate StatementFetched(w: World, now: int, delta: int, configs: Db, statements: Db, entity: Entity,
          authority: Entity, after: Caches, r: Result<Option<Cached>>)
  {
    var (left, endpoint) := FetchEndpointFor(w, now, delta, configs, authority);
    after.configurations == left &&
    match endpoint
    case Failure => r == Failure && after.statements == statements
    case Ok(None) => r == Ok(None) && after.statements == statements
    case Ok(Some(url)) =>
      match w.statement(url, authority, entity)
      case Some(Jws(payload, signature)) =>
        var token := Token(Jws(payload, signature));
        (match payload.exp
         case None => r == Failure && after.statements == statements[authority + "!!" + entity := token]
         case Some(exp) =>
           r == Ok(Some(token)) &&
           after.statements == statements[authority + "!!" + entity := token][authority + "!exp!" + entity := Time(exp)])
      case _ => r == Failure && after.statements == statements
  }

  /** A cached statement whose time entry is not too old is the answer; one that is too old is deleted with its time entry and
      asked for again, as one that is not cached; one without time entry raises. */
  lemma {:induction false} StatementComesFrom(w: World, now: int, delta: int, c: Caches, entity: Entity, authority: Entity)
    requires Kept(c) && Plain(entity) && Plain(authority)
    ensures var (after, r) := GetStatement(w, now, delta, c, entity, authority);
            var key, timeKey, db := authority + "!!" + entity, authority + "!exp!" + entity, c.statements;
            if key !in db then
              StatementFetched(w, now, delta, c.configurations, db, entity, authority, after, r)
            else if timeKey !in db || !db[timeKey].Time? then
              r == Failure && after == c
            else if now <= db[timeKey].exp - delta then
              r == Ok(Some(db[key])) && after == c
            else
              StatementFetched(w, now, delta, c.configurations, db - {key, timeKey}, entity, authority, after, r)
  {
    assert KindsAt(c.statements, authority, entity);
    var key, timeKey, db := CacheKey(authority, entity), TimeKey(authority, entity), c.statements;
    assert db - {key} - {timeKey} == db - {key, timeKey};
  }

  /** Asking goes on with a statement and a configuration if and only if the lookup gave the statement and the cache then has
      that configuration, fresh. */
  lemma {:induction false} AnswerComesFrom(s: Setting, now: int, delta: int, c: Caches, entity: Entity, authority: Entity,
          statement: Jws, config: Jws)
    requires Kept(c) && Plain(entity) && Plain(authority)
    ensures var (looked, r) := GetStatement(s.world, now, delta, c, entity, authority);
            AskCaches(s, now, delta, c, entity, authority).1 == Via(statement, config) <==>
            !(entity == authority && entity in s.anchors) && r == Ok(Some(Token(statement))) &&
            FreshAt(looked.configurations, authority, now, delta, config)
  {
    LookupKeepsKinds(s.world, now, delta, c, entity, authority);
    ReadIff(GetStatement(s.world, now, delta, c, entity, authority).0.configurations, authority, now, delta);
  }

  /** The leaf's configuration is the one cached, if now is earlier than the allowed delta after its expiry; the cached one
      raises if it has no expiry time; otherwise it is asked of the network and cached. */
  lemma {:induction false} LeafComesFrom(x: Session, m: Memo, entity: Entity)
    requires HoldsConfigurations(m.caches.configurations)
    ensures var (after, r) := LeafIn(x, m, entity); var db := m.caches.configurations;
            if UndatedConfiguration(db, entity) then
              r == Failure && after == m
            else if entity in db && x.now < db[entity].statement.payload.exp.value + x.delta then
              r == Ok(db[entity].statement) && after == m
            else
              (r == Failure ==> after == m && forall config :: !Serves(x.setting.world, entity, config)) &&
              (r.Ok? ==> Serves(x.setting.world, entity, r.value) && after.fetched == m.fetched &&
                         after.caches == Caches(db[entity := Dictionary(r.value)], m.caches.statements))
  {
    forall config
      ensures ConfigurationOf(x.setting.world, entity) == Ok(config) <==> Serves(x.setting.world, entity, config)
    {
      ServesIff(x.setting.world, entity, config);
    }
  }
}
