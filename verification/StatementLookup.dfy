/** Looking up statements through the two caches, as a function from caches to caches: `_get_entity_statement` and
    `get_federation_fetch_endpoint` in trust_chain_collector.py. */
module StatementLookup {
  import opened Wrappers
  import opened Statements
  import opened StatementCache
  import opened Collection

  // ---- Keys ----

  function CacheKey(authority: Entity, entity: Entity): string {
    authority + "!!" + entity
  }

  function TimeKey(authority: Entity, entity: Entity): string {
    authority + "!exp!" + entity
  }

  predicate Plain(e: Entity) {
    '!' !in e
  }

  lemma SameHead(a: Entity, rest: string, b: Entity, tail: string)
    requires Plain(a) && Plain(b) && rest != [] && tail != [] && rest[0] == '!' == tail[0] && a + rest == b + tail
    ensures a == b && rest == tail
  {
    assert (forall i :: 0 <= i < |a| ==> (a + rest)[i] == a[i]) && (a + rest)[|a|] == '!';
    assert (forall i :: 0 <= i < |b| ==> (b + tail)[i] == b[i]) && (b + tail)[|b|] == '!';
    assert |a| == |b|;
    assert a == (a + rest)[..|a|] && b == (b + tail)[..|b|];
    assert rest == (a + rest)[|a|..] && tail == (b + tail)[|b|..];
  }

  /** For ids without `!` the two kinds of key are injective and never collide. */
  lemma KeysAreDistinct(a: Entity, e: Entity, b: Entity, f: Entity)
    requires Plain(a) && Plain(b)
    ensures CacheKey(a, e) == CacheKey(b, f) ==> a == b && e == f
    ensures TimeKey(a, e) == TimeKey(b, f) ==> a == b && e == f
    ensures CacheKey(a, e) != TimeKey(b, f)
  {
    assert CacheKey(a, e) == a + ("!!" + e) && CacheKey(b, f) == b + ("!!" + f);
    assert TimeKey(a, e) == a + ("!exp!" + e) && TimeKey(b, f) == b + ("!exp!" + f);
    assert ("!!" + e)[1] == '!' && ("!exp!" + f)[1] == 'e';
    if CacheKey(a, e) == CacheKey(b, f) {
      SameHead(a, "!!" + e, b, "!!" + f);
      assert e == ("!!" + e)[2..] && f == ("!!" + f)[2..];
    }
    if TimeKey(a, e) == TimeKey(b, f) {
      SameHead(a, "!exp!" + e, b, "!exp!" + f);
      assert e == ("!exp!" + e)[5..] && f == ("!exp!" + f)[5..];
    }
    if CacheKey(a, e) == TimeKey(b, f) {
      SameHead(a, "!!" + e, b, "!exp!" + f);
      assert false;
    }
  }

  /** With `!` in an authority's id the keys of different pairs can be the same. */
  lemma {:induction false} BangsCollide(e: Entity)
    ensures CacheKey("a!", e) == CacheKey("a", "!" + e)
    ensures CacheKey("a!exp", e) == "a!exp!!" + e == TimeKey("a", "!" + e)
  {
    assert CacheKey("a!", e) == "a!!!" + e == CacheKey("a", "!" + e);
    assert CacheKey("a!exp", e) == "a!exp!!" + e;
  }

  // ---- Lookups ----

  datatype Caches = Caches(configurations: Db, statements: Db)

  /** `get_federation_fetch_endpoint`: a configuration is fetched when none is cached or the cached one has no
      endpoint. */
  function FetchEndpointFor(w: World, now: int, delta: int, db: Db, authority: Entity): (Db, Result<Option<string>>) {
    var (cached, left) := Read(db, authority, now, delta);
    match cached
    case Ok(None) => FetchConfiguration(w, left, authority)
    case Ok(Some(Dictionary(Jws(payload, signature)))) =>
      (match EndpointIn(Jws(payload, signature))
       case Ok(None) => FetchConfiguration(w, left, authority)
       case r => (left, r))
    case _ => (left, Failure)
  }

  function FetchConfiguration(w: World, db: Db, authority: Entity): (Db, Result<Option<string>>) {
    match ConfigurationOf(w, authority)
    case Failure => (db, Failure)
    case Ok(config) =>
      match EndpointIn(config)
      case Failure => (db, Failure)
      case Ok(endpoint) => (db[authority := Dictionary(config)], Ok(endpoint))
  }

  datatype Hit = Hit(value: Cached) | Miss | Broken

  /** The first half of `_get_entity_statement`: a cached statement whose time entry is too old is deleted with it;
      a missing or misplaced time entry makes the subtraction raise. */
  function FromCache(now: int, delta: int, db: Db, entity: Entity, authority: Entity): (Db, Hit) {
    var (cached, left) := Read(db, CacheKey(authority, entity), now, delta);
    match cached
    case Failure => (left, Broken)
    case Ok(None) => (left, Miss)
    case Ok(Some(v)) =>
      match Read(left, TimeKey(authority, entity), now, delta)
      case (Ok(Some(Time(exp))), rest) =>
        if now > exp - delta then (rest - {CacheKey(authority, entity)} - {TimeKey(authority, entity)}, Miss)
        else (rest, Hit(v))
      case (_, rest) => (rest, Broken)
  }

  /** The second half: ask the authority, and store the statement, then its expiry time. The statement is stored
      already when looking for an expiry time that it does not have raises. */
  function FromNetwork(w: World, now: int, delta: int, c: Caches, entity: Entity,
                       authority: Entity): (Caches, Result<Option<Cached>>) {
    var (configs, endpoint) := FetchEndpointFor(w, now, delta, c.configurations, authority);
    match endpoint
    case Failure => (c.(configurations := configs), Failure)
    case Ok(None) => (c.(configurations := configs), Ok(None))
    case Ok(Some(url)) =>
      match w.statement(url, authority, entity)
      case Some(Jws(payload, signature)) =>
        var token := Token(Jws(payload, signature));
        var stored := c.statements[CacheKey(authority, entity) := token];
        (match payload.exp
         case None => (Caches(configs, stored), Failure)
         case Some(exp) => (Caches(configs, stored[TimeKey(authority, entity) := Time(exp)]), Ok(Some(token))))
      case _ => (c.(configurations := configs), Failure)
  }

  /** `_get_entity_statement` */
  function GetStatement(w: World, now: int, delta: int, c: Caches, entity: Entity,
                        authority: Entity): (Caches, Result<Option<Cached>>) {
    match FromCache(now, delta, c.statements, entity, authority)
    case (db, Hit(v)) => (c.(statements := db), Ok(Some(v)))
    case (db, Broken) => (c.(statements := db), Failure)
    case (db, Miss) => FromNetwork(w, now, delta, c.(statements := db), entity, authority)
  }

  /** The statement the lookup obtains from the authority itself, if it comes to that. */
  function Fetched(w: World, now: int, delta: int, c: Caches, entity: Entity, authority: Entity): Option<Jws> {
    if FromCache(now, delta, c.statements, entity, authority).1 != Miss then
      None
    else
      match FetchEndpointFor(w, now, delta, c.configurations, authority).1
      case Ok(Some(url)) =>
        (match w.statement(url, authority, entity)
         case Some(Jws(payload, signature)) => Some(Jws(payload, signature))
         case _ => None)
      case _ => None
  }

  /** What the log of fetched statements gains. */
  function NewlyFetched(w: World, now: int, delta: int, c: Caches, entity: Entity, authority: Entity): seq<(Entity, Entity)> {
    if Fetched(w, now, delta, c, entity, authority).Some? then [(authority, entity)] else []
  }

  // ---- Paired entries ----

  /** A statement is cached exactly when its time entry is, and the time is the statement's own expiry time. */
  ghost predicate PairAt(db: Db, authority: Entity, entity: Entity) {
    (CacheKey(authority, entity) in db <==> TimeKey(authority, entity) in db) &&
    (CacheKey(authority, entity) in db ==>
       var v := db[CacheKey(authority, entity)];
       v.Token? && v.token.Jws? && v.token.payload.exp.Some? &&
       db[TimeKey(authority, entity)] == Time(v.token.payload.exp.value))
  }

  ghost predicate Paired(db: Db) {
    forall a, e :: Plain(a) && Plain(e) ==> PairAt(db, a, e)
  }

  /** A statement that was fetched has no expiry time. */
  predicate StoresUndated(w: World, now: int, delta: int, c: Caches, entity: Entity, authority: Entity) {
    var fetched := Fetched(w, now, delta, c, entity, authority);
    fetched.Some? && fetched.value.Jws? && fetched.value.payload.exp.None?
  }

  lemma LookupElsewhere(w: World, now: int, delta: int, c: Caches, entity: Entity, authority: Entity, a: Entity, e: Entity)
    requires Plain(entity) && Plain(authority) && Plain(a) && Plain(e) && (a != authority || e != entity)
    ensures var after := GetStatement(w, now, delta, c, entity, authority).0.statements;
            Lookup(after, CacheKey(a, e)) == Lookup(c.statements, CacheKey(a, e)) &&
            Lookup(after, TimeKey(a, e)) == Lookup(c.statements, TimeKey(a, e))
  {
    KeysAreDistinct(a, e, authority, entity);
    KeysAreDistinct(authority, entity, a, e);
  }

  /** One lookup keeps the entries paired if and only if it does not store a statement without expiry time. */
  lemma LookupKeepsPairsIff(w: World, now: int, delta: int, c: Caches, entity: Entity, authority: Entity)
    requires Paired(c.statements) && Plain(entity) && Plain(authority)
    ensures Paired(GetStatement(w, now, delta, c, entity, authority).0.statements) <==>
            !StoresUndated(w, now, delta, c, entity, authority)
  {
    var after := GetStatement(w, now, delta, c, entity, authority).0.statements;
    assert PairAt(c.statements, authority, entity);
    KeysAreDistinct(authority, entity, authority, entity);
    assert PairAt(after, authority, entity) <==> !StoresUndated(w, now, delta, c, entity, authority);
    forall a, e | Plain(a) && Plain(e) && (a != authority || e != entity)
      ensures PairAt(after, a, e)
    {
      assert PairAt(c.statements, a, e);
      LookupElsewhere(w, now, delta, c, entity, authority, a, e);
    }
  }

  /** A statement is cached, its time is not. */
  ghost predicate Unpaired(db: Db, authority: Entity, entity: Entity) {
    CacheKey(authority, entity) in db && db[CacheKey(authority, entity)].Token? && TimeKey(authority, entity) !in db
  }

  /** Every later lookup of such a pair raises and changes nothing, whatever the network serves by then. */
  lemma UnpairedRaises(w: World, now: int, delta: int, c: Caches, entity: Entity, authority: Entity)
    requires Unpaired(c.statements, authority, entity)
    ensures GetStatement(w, now, delta, c, entity, authority) == (c, Failure)
  {
  }

  lemma LookupKeepsUnpaired(w: World, now: int, delta: int, c: Caches, entity: Entity, authority: Entity, a: Entity, e: Entity)
    requires Plain(entity) && Plain(authority) && Plain(a) && Plain(e) && Unpaired(c.statements, a, e)
    ensures Unpaired(GetStatement(w, now, delta, c, entity, authority).0.statements, a, e)
  {
    if a == authority && e == entity {
      UnpairedRaises(w, now, delta, c, entity, authority);
    } else {
      LookupElsewhere(w, now, delta, c, entity, authority, a, e);
    }
  }

  /** One lookup, at its own time and against the network as it is then. */
  datatype Query = Query(world: World, now: int, entity: Entity, authority: Entity)

  function AfterQuery(delta: int, c: Caches, q: Query): Caches {
    GetStatement(q.world, q.now, delta, c, q.entity, q.authority).0
  }

  function LookupAll(delta: int, c: Caches, queries: seq<Query>): Caches {
    if queries == [] then c else AfterQuery(delta, LookupAll(delta, c, queries[..|queries| - 1]), queries[|queries| - 1])
  }

  ghost predicate PlainQueries(queries: seq<Query>) {
    forall q :: q in queries ==> Plain(q.entity) && Plain(q.authority)
  }

  /** The lookup at `i` stored a statement without expiry time. */
  ghost predicate UndatedAt(delta: int, c: Caches, queries: seq<Query>, i: nat)
    requires i < |queries|
  {
    var q := queries[i];
    StoresUndated(q.world, q.now, delta, LookupAll(delta, c, queries[..i]), q.entity, q.authority)
  }

  ghost predicate AllDatedBefore(delta: int, c: Caches, queries: seq<Query>) {
    forall i :: 0 <= i < |queries| ==> !UndatedAt(delta, c, queries, i)
  }

  lemma UndatedIsUnpaired(w: World, now: int, delta: int, c: Caches, entity: Entity, authority: Entity)
    requires Paired(c.statements) && Plain(entity) && Plain(authority) && StoresUndated(w, now, delta, c, entity, authority)
    ensures Unpaired(GetStatement(w, now, delta, c, entity, authority).0.statements, authority, entity)
  {
    assert PairAt(c.statements, authority, entity);
    KeysAreDistinct(authority, entity, authority, entity);
  }

  /** Whatever is looked up when, and however the network changes: entries stay paired if and only if no lookup of the
      run stored a statement without expiry time. A pair once broken is never repaired. */
  lemma {:induction false} PairsStayPaired(delta: int, c: Caches, queries: seq<Query>)
    requires Paired(c.statements) && PlainQueries(queries)
    ensures Paired(LookupAll(delta, c, queries).statements) <==> AllDatedBefore(delta, c, queries)
    ensures !AllDatedBefore(delta, c, queries) ==>
      exists a, e :: Plain(a) && Plain(e) && Unpaired(LookupAll(delta, c, queries).statements, a, e)
  {
    if queries != [] {
      var front, q := queries[..|queries| - 1], queries[|queries| - 1];
      assert queries == front + [q];
      PairsStayPaired(delta, c, front);
      assert AllDatedBefore(delta, c, queries) <==>
             AllDatedBefore(delta, c, front) && !UndatedAt(delta, c, queries, |front|) by {
        forall i | 0 <= i < |front|
          ensures UndatedAt(delta, c, queries, i) <==> UndatedAt(delta, c, front, i)
        {
          assert queries[..i] == front[..i];
        }
      }
      PairsNext(delta, LookupAll(delta, c, front), q);
    }
  }

  lemma PairsNext(delta: int, before: Caches, q: Query)
    requires Plain(q.entity) && Plain(q.authority)
    requires Paired(before.statements) || exists a, e :: Plain(a) && Plain(e) && Unpaired(before.statements, a, e)
    ensures var after := AfterQuery(delta, before, q);
            (Paired(after.statements) <==>
             Paired(before.statements) && !StoresUndated(q.world, q.now, delta, before, q.entity, q.authority)) &&
            (!Paired(after.statements) ==> exists a, e :: Plain(a) && Plain(e) && Unpaired(after.statements, a, e))
  {
    if Paired(before.statements) {
      LookupKeepsPairsIff(q.world, q.now, delta, before, q.entity, q.authority);
      if StoresUndated(q.world, q.now, delta, before, q.entity, q.authority) {
        UndatedIsUnpaired(q.world, q.now, delta, before, q.entity, q.authority);
      }
    } else {
      var a, e :| Plain(a) && Plain(e) && Unpaired(before.statements, a, e);
      LookupKeepsUnpaired(q.world, q.now, delta, before, q.entity, q.authority, a, e);
      assert !PairAt(before.statements, a, e) && !PairAt(AfterQuery(delta, before, q).statements, a, e);
    }
  }

  /** The network's answer without its expiry time: the lookup raises, and so does every later lookup of the pair,
      although the authority may have corrected its statement. */
  lemma {:induction false} UndatedStatementSticks(w: World, now: int, delta: int, entity: Entity, authority: Entity,
          later: World, then_: int)
    requires Plain(entity) && Plain(authority)
    requires ConfigurationOf(w, authority).Ok? && EndpointIn(ConfigurationOf(w, authority).value).Ok?
    requires var url := EndpointIn(ConfigurationOf(w, authority).value).value;
      url.Some? && w.statement(url.value, authority, entity).Some? &&
      w.statement(url.value, authority, entity).value.Jws? && !Dated(w.statement(url.value, authority, entity).value)
    ensures var (after, r) := GetStatement(w, now, delta, Caches(map[], map[]), entity, authority);
            r == Failure && GetStatement(later, then_, delta, after, entity, authority) == (after, Failure)
  {
    var empty := Caches(map[], map[]);
    var after := GetStatement(w, now, delta, empty, entity, authority).0;
    KeysAreDistinct(authority, entity, authority, entity);
    UnpairedRaises(later, then_, delta, after, entity, authority);
  }

  // ---- What every lookup keeps ----

  /** The configuration cache holds signed statements only. */
  ghost predicate HoldsConfigurations(db: Db) {
    forall a :: a in db ==> db[a].Dictionary? && db[a].statement.Jws?
  }

  ghost predicate KindsAt(db: Db, authority: Entity, entity: Entity) {
    (CacheKey(authority, entity) in db ==> db[CacheKey(authority, entity)].Token? && db[CacheKey(authority, entity)].token.Jws?) &&
    (TimeKey(authority, entity) in db ==> db[TimeKey(authority, entity)].Time?)
  }

  /** Configurations, statements and times are where they belong, whether or not they are paired or up to date. */
  ghost predicate Kept(c: Caches) {
    HoldsConfigurations(c.configurations) && forall a, e :: Plain(a) && Plain(e) ==> KindsAt(c.statements, a, e)
  }

  lemma EndpointKeepsConfigurations(w: World, now: int, delta: int, db: Db, a: Entity)
    requires HoldsConfigurations(db)
    ensures HoldsConfigurations(FetchEndpointFor(w, now, delta, db, a).0)
  {
  }

  lemma LookupKeepsKindHere(w: World, now: int, delta: int, c: Caches, entity: Entity, authority: Entity)
    requires HoldsConfigurations(c.configurations) && KindsAt(c.statements, authority, entity)
    requires Plain(entity) && Plain(authority)
    ensures var (after, r) := GetStatement(w, now, delta, c, entity, authority);
            HoldsConfigurations(after.configurations) && KindsAt(after.statements, authority, entity) &&
            (r.Ok? && r.value.Some? ==> r.value.value.Token? && r.value.value.token.Jws?)
  {
    KeysAreDistinct(authority, entity, authority, entity);
    EndpointKeepsConfigurations(w, now, delta, c.configurations, authority);
  }

  lemma LookupKeepsKinds(w: World, now: int, delta: int, c: Caches, entity: Entity, authority: Entity)
    requires Kept(c) && Plain(entity) && Plain(authority)
    ensures var (after, r) := GetStatement(w, now, delta, c, entity, authority);
            Kept(after) && (r.Ok? && r.value.Some? ==> r.value.value.Token? && r.value.value.token.Jws?)
  {
    var after := GetStatement(w, now, delta, c, entity, authority).0;
    assert KindsAt(c.statements, authority, entity);
    LookupKeepsKindHere(w, now, delta, c, entity, authority);
    forall a, e | Plain(a) && Plain(e)
      ensures KindsAt(after.statements, a, e)
    {
      assert KindsAt(c.statements, a, e);
      if a != authority || e != entity {
        LookupElsewhere(w, now, delta, c, entity, authority, a, e);
      }
    }
  }

  // ---- Consistency with the network at a fixed time ----

  /** What the network serves of the entity lives longer than the allowed delta: its configuration, and its statements
      about others. */
  ghost predicate ServesFresh(w: World, now: int, delta: int, a: Entity) {
    (ConfigurationOf(w, a).Ok? ==> Recent(Dictionary(ConfigurationOf(w, a).value), now, delta)) &&
    forall url, e :: w.statement(url, a, e).Some? && w.statement(url, a, e).value.Jws? ==>
      w.statement(url, a, e).value.payload.exp.Some? && now <= w.statement(url, a, e).value.payload.exp.value - delta
  }

  ghost predicate ConfigurationsAgree(w: World, db: Db) {
    forall a :: a in db ==> ConfigurationOf(w, a).Ok? && db[a] == Dictionary(ConfigurationOf(w, a).value)
  }

  ghost predicate StatementAgrees(w: World, c: Caches, a: Entity, e: Entity) {
    CacheKey(a, e) in c.statements ==>
      var answer := AskNetwork(w, e, a);
      answer.Via? && c.statements[CacheKey(a, e)] == Token(answer.statement) && a in c.configurations
  }

  /** The caches hold only what the network serves, in pairs, and a cached statement's authority has its configuration
      cached. */
  ghost predicate Consistent(w: World, c: Caches) {
    ConfigurationsAgree(w, c.configurations) && Paired(c.statements) &&
    forall a, e :: Plain(a) && Plain(e) ==> StatementAgrees(w, c, a, e)
  }

  lemma ConsistentIsKept(w: World, c: Caches)
    requires Consistent(w, c)
    ensures Kept(c)
  {
    forall a, e | Plain(a) && Plain(e)
      ensures KindsAt(c.statements, a, e)
    {
      assert PairAt(c.statements, a, e);
    }
  }

  ghost predicate Extends(before: Db, after: Db) {
    forall k :: k in before ==> k in after && after[k] == before[k]
  }

  ghost predicate CachesExtend(before: Caches, after: Caches) {
    Extends(before.configurations, after.configurations) && Extends(before.statements, after.statements)
  }

  lemma EndpointLookup(w: World, now: int, delta: int, db: Db, authority: Entity)
    requires ConfigurationsAgree(w, db) && ServesFresh(w, now, delta, authority)
    ensures var (after, r) := FetchEndpointFor(w, now, delta, db, authority);
            ConfigurationsAgree(w, after) && Extends(db, after) &&
            match ConfigurationOf(w, authority)
            case Failure => r.Failure?
            case Ok(config) => config.Jws? && r == EndpointIn(config) && (r.Ok? ==> authority in after)
  {
  }

  /** One lookup in a consistent state, seen at the pair looked up. */
  lemma LookupAnswers(w: World, now: int, delta: int, c: Caches, entity: Entity, authority: Entity)
    requires ConfigurationsAgree(w, c.configurations) && ServesFresh(w, now, delta, authority)
    requires PairAt(c.statements, authority, entity) && StatementAgrees(w, c, authority, entity)
    ensures var (after, r) := GetStatement(w, now, delta, c, entity, authority); var key := CacheKey(authority, entity);
            ConfigurationsAgree(w, after.configurations) && Extends(c.configurations, after.configurations) &&
            match AskNetwork(w, entity, authority)
            case Raises => r == Failure && after.statements == c.statements
            case Blocked => r == Ok(None) && after.statements == c.statements
            case Via(statement, config) =>
              r == Ok(Some(Token(statement))) && authority in after.configurations && statement.payload.exp.Some? &&
              after.statements ==
                if key in c.statements then c.statements
                else c.statements[key := Token(statement)][TimeKey(authority, entity) := Time(statement.payload.exp.value)]
    ensures NewlyFetched(w, now, delta, c, entity, authority) ==
            if AskNetwork(w, entity, authority).Via? && CacheKey(authority, entity) !in c.statements then [(authority, entity)]
            else []
  {
    EndpointLookup(w, now, delta, c.configurations, authority);
  }

  /** In a consistent state a lookup answers exactly what the network would, keeps consistency, forgets nothing,
      and goes to the network only for a statement it does not have. */
  lemma {:induction false} LookupIsTransparent(w: World, now: int, delta: int, c: Caches, entity: Entity,
          authority: Entity)
    requires Consistent(w, c) && ServesFresh(w, now, delta, authority) && Plain(entity) && Plain(authority)
    ensures var (after, r) := GetStatement(w, now, delta, c, entity, authority);
            Consistent(w, after) && CachesExtend(c, after) &&
            match AskNetwork(w, entity, authority)
            case Raises => r == Failure
            case Blocked => r == Ok(None)
            case Via(statement, config) =>
              r == Ok(Some(Token(statement))) && CacheKey(authority, entity) in after.statements && authority in after.configurations
    ensures NewlyFetched(w, now, delta, c, entity, authority) ==
            if AskNetwork(w, entity, authority).Via? && CacheKey(authority, entity) !in c.statements then [(authority, entity)]
            else []
  {
    assert PairAt(c.statements, authority, entity) && StatementAgrees(w, c, authority, entity);
    KeysAreDistinct(authority, entity, authority, entity);
    LookupAnswers(w, now, delta, c, entity, authority);
    var after := GetStatement(w, now, delta, c, entity, authority).0;
    forall a, e | Plain(a) && Plain(e)
      ensures StatementAgrees(w, after, a, e) && PairAt(after.statements, a, e)
    {
      assert StatementAgrees(w, c, a, e) && PairAt(c.statements, a, e);
      if a != authority || e != entity {
        LookupElsewhere(w, now, delta, c, entity, authority, a, e);
      }
    }
  }

  // ---- Outside consistent states ----

  /** A cached statement that is not too old. */
  predicate Live(now: int, delta: int, db: Db, entity: Entity, authority: Entity) {
    CacheKey(authority, entity) in db && TimeKey(authority, entity) in db && db[TimeKey(authority, entity)].Time? &&
    now <= db[TimeKey(authority, entity)].exp - delta
  }

  /** The configuration cache answers for the entity. */
  predicate Configured(now: int, delta: int, db: Db, e: Entity) {
    e in db && Recent(db[e], now, delta)
  }

  /** It does, with a fetch endpoint, so that no configuration is fetched. */
  predicate EndpointCached(now: int, delta: int, db: Db, e: Entity) {
    Configured(now, delta, db, e) && db[e].Dictionary? && db[e].statement.Jws? && EndpointIn(db[e].statement) != Ok(None)
  }

  /** The cache will not give a configuration after the lookup: a cached statement is answered without looking at the
      configuration; otherwise one is fetched where the cache has no endpoint, and is there unless it is too old already. */
  predicate ConfigurationGone(w: World, now: int, delta: int, c: Caches, entity: Entity, authority: Entity) {
    if Live(now, delta, c.statements, entity, authority) then
      !Configured(now, delta, c.configurations, authority)
    else
      !EndpointCached(now, delta, c.configurations, authority) &&
      (ConfigurationOf(w, authority).Ok? ==> !Recent(Dictionary(ConfigurationOf(w, authority).value), now, delta))
  }

  /** After a lookup that gave a statement, the authority's configuration cannot be read if and only if the statement came
      from the cache and the configuration was not cached or no longer recent, or both came from the network and the
      configuration was too old when it came. */
  lemma {:induction false} ConfigurationGoneIff(w: World, now: int, delta: int, c: Caches, entity: Entity, authority: Entity)
    requires Kept(c) && Plain(entity) && Plain(authority)
    requires GetStatement(w, now, delta, c, entity, authority).1.Ok?
    requires GetStatement(w, now, delta, c, entity, authority).1.value.Some?
    ensures var held := Read(GetStatement(w, now, delta, c, entity, authority).0.configurations, authority, now, delta).0;
            held == Failure || held == Ok(None) <==> ConfigurationGone(w, now, delta, c, entity, authority)
  {
    assert KindsAt(c.statements, authority, entity);
    var (db, hit) := FromCache(now, delta, c.statements, entity, authority);
    assert hit.Hit? <==> Live(now, delta, c.statements, entity, authority);
    if hit.Miss? {
      var (configs, endpoint) := FetchEndpointFor(w, now, delta, c.configurations, authority);
      assert endpoint.Ok? && endpoint.value.Some?;
      assert EndpointCached(now, delta, c.configurations, authority) ==> configs == c.configurations;
      assert !EndpointCached(now, delta, c.configurations, authority) ==>
        authority in configs && configs[authority] == Dictionary(ConfigurationOf(w, authority).value);
    }
  }

  /** What `collect_branch` has in hand after a lookup: the statement, and the authority's configuration as the cache
      then holds it. Without one the collection that follows is given None, and raises. */
  function WithConfiguration(now: int, delta: int, looked: (Caches, Result<Option<Cached>>), authority: Entity): (Caches, Answer) {
    match looked.1
    case Ok(None) => (looked.0, Blocked)
    case Ok(Some(Token(statement))) =>
      (var (held, left) := Read(looked.0.configurations, authority, now, delta);
       (looked.0.(configurations := left),
        match held
        case Ok(Some(Dictionary(Jws(payload, signature)))) => Via(statement, Jws(payload, signature))
        case _ => Raises))
    case _ => (looked.0, Raises)
  }

  /** The first half of `collect_branch`, in any state. */
  function AskCaches(s: Setting, now: int, delta: int, c: Caches, entity: Entity, authority: Entity): (Caches, Answer) {
    if entity == authority && entity in s.anchors then (c, Blocked)
    else WithConfiguration(now, delta, GetStatement(s.world, now, delta, c, entity, authority), authority)
  }

  /** Asking an authority raises if and only if the lookup does, or it gives a statement and the authority's configuration
      cannot be read any more. */
  lemma {:induction false} AskingRaisesIff(s: Setting, now: int, delta: int, c: Caches, entity: Entity, authority: Entity)
    requires Kept(c) && Plain(entity) && Plain(authority) && !(entity == authority && entity in s.anchors)
    ensures AskCaches(s, now, delta, c, entity, authority).1.Raises? <==>
            var r := GetStatement(s.world, now, delta, c, entity, authority).1;
            r == Failure || (r != Ok(None) && ConfigurationGone(s.world, now, delta, c, entity, authority))
  {
    LookupKeepsKinds(s.world, now, delta, c, entity, authority);
    var (after, r) := GetStatement(s.world, now, delta, c, entity, authority);
    if r.Ok? && r.value.Some? {
      ConfigurationGoneIff(s.world, now, delta, c, entity, authority);
      assert HoldsConfigurations(after.configurations);
    }
  }

  /** In a consistent state asking through the caches gives the network's answer. */
  lemma {:induction false} AskingIsTransparent(s: Setting, now: int, delta: int, c: Caches, entity: Entity, authority: Entity)
    requires Consistent(s.world, c) && ServesFresh(s.world, now, delta, authority) && Plain(entity) && Plain(authority)
    ensures var (after, answer) := AskCaches(s, now, delta, c, entity, authority);
            answer == Ask(s, entity, authority) && Consistent(s.world, after) && CachesExtend(c, after) &&
            (answer.Via? ==> Lookup(after.statements, CacheKey(authority, entity)) == Some(Token(answer.statement)))
  {
    if !(entity == authority && entity in s.anchors) {
      LookupIsTransparent(s.world, now, delta, c, entity, authority);
      var (after, r) := GetStatement(s.world, now, delta, c, entity, authority);
      assert StatementAgrees(s.world, after, authority, entity);
      if r.Ok? && r.value.Some? {
        HeldIsRead(s.world, now, delta, after.configurations, authority);
      }
    }
  }

  /** A configuration that agrees with a fresh network can be read. */
  lemma HeldIsRead(w: World, now: int, delta: int, db: Db, a: Entity)
    requires ConfigurationsAgree(w, db) && ServesFresh(w, now, delta, a) && a in db
    ensures Read(db, a, now, delta) == (Ok(Some(Dictionary(ConfigurationOf(w, a).value))), db)
  {
  }

  /** A configuration that expires before the statement it was fetched with: once it has, with the network unchanged, the
      lookup still answers from the cache, nothing is fetched, and asking raises. */
  lemma {:induction false} ConfigurationExpiresFirst(s: Setting, now: int, then_: int, delta: int, entity: Entity,
          authority: Entity)
    requires Plain(entity) && Plain(authority) && Ask(s, entity, authority).Via?
    requires now < Ask(s, entity, authority).configuration.payload.exp.value - delta <= then_
    requires then_ <= Ask(s, entity, authority).statement.payload.exp.value - delta
    ensures var (after, r) := GetStatement(s.world, now, delta, Caches(map[], map[]), entity, authority);
            var statement := Ask(s, entity, authority).statement;
            r == Ok(Some(Token(statement))) &&
            GetStatement(s.world, then_, delta, after, entity, authority) == (after, Ok(Some(Token(statement)))) &&
            AskCaches(s, then_, delta, after, entity, authority).1.Raises?
  {
    ViaIsConfigured(s, entity, authority);
    KeysAreDistinct(authority, entity, authority, entity);
  }
}
