/** Verifying chains against a growing key jar: verifier.py. A chain is listed from the anchor's statement down; the
    leaf's configuration is last. */
module ChainVerification {
  import opened Wrappers
  import opened Statements
  import opened ChainConstraints
  import opened TrustChains

  /** The key jar: which keys are held for an entity. An entity may be present without keys. */
  type Jar = map<Entity, set<Key>>

  function KeysOf(jar: Jar, e: Entity): set<Key> {
    if e in jar then jar[e] else {}
  }

  function AddKeys(jar: Jar, e: Entity, keys: seq<Key>): Jar {
    jar[e := KeysOf(jar, e) + set k | k in keys]
  }

  /** A key the header selects among the issuer's keys, and that verifies the signature. */
  predicate VerifiedBy(w: World, jws: Jws, k: Key) {
    w.selects(jws, k) && w.verifies(jws, k)
  }

  predicate Verifiable(w: World, jar: Jar, jws: Jws)
    requires jws.Jws?
  {
    exists k :: k in KeysOf(jar, jws.payload.iss) && VerifiedBy(w, jws, k)
  }

  /** The outcome of a call: exceptions do not undo what happened to the jar before them. */
  datatype Outcome = Outcome(jar: Jar, result: Result<seq<EntityStatement>>)

  /** The loop over the tokens, `verified` so far, `last` being the index of the last token. */
  function Walk(w: World, jar: Jar, tokens: seq<Jws>, verified: seq<EntityStatement>, last: int): Outcome
    decreases |tokens|
  {
    if tokens == [] then
      Outcome(jar, Ok(verified))
    else if tokens[0].NotJws? then
      Walk(w, jar, tokens[1..], verified, last)
    else if !Verifiable(w, jar, tokens[0]) then
      Outcome(jar, Failure)
    else
      var payload := tokens[0].payload;
      match payload.jwks
      case None =>
        if |verified| != last then Outcome(jar, Failure)
        else Walk(w, jar, tokens[1..], verified + [payload], last)
      case Some(keys) =>
        Walk(w, AddKeys(jar, payload.sub, keys), tokens[1..], verified + [payload], last)
  }

  function Restricted(verified: seq<EntityStatement>): Result<seq<EntityStatement>> {
    if verified == [] then
      Ok([])
    else
      var ok :- Meets(verified, 0, UNCONSTRAINED);
      Ok(if ok then verified else [])
  }

  /** `verify_trust_chain`. The top issuer only has to be in the key jar. */
  function Verify(w: World, jar: Jar, tokens: seq<Jws>): Outcome {
    if tokens == [] || tokens[0].NotJws? then
      Outcome(jar, Failure)
    else if tokens[0].payload.iss !in jar then
      Outcome(jar, Ok([]))
    else
      var walked := Walk(w, jar, tokens, [], |tokens| - 1);
      if walked.result.Failure? then walked else Outcome(walked.jar, Restricted(walked.result.value))
  }

  /** `__call__`: verification, then the expiry time of the chain that was accepted. */
  function Accept(w: World, jar: Jar, tokens: seq<Jws>): Outcome {
    var o := Verify(w, jar, tokens);
    if o.result.Ok? && o.result.value != [] && ExpiresAt(o.result.value).Failure? then Outcome(o.jar, Failure) else o
  }

  function Payloads(tokens: seq<Jws>): seq<EntityStatement> {
    if tokens == [] then []
    else if tokens[0].NotJws? then Payloads(tokens[1..])
    else [tokens[0].payload] + Payloads(tokens[1..])
  }

  class KeyJar {
    var issuers: Jar

    constructor (issuers: Jar)
      ensures this.issuers == issuers
    {
      this.issuers := issuers;
    }

    /** Only keys not yet held are added; an unknown entity is entered even without keys. */
    method Import(e: Entity, keys: seq<Key>)
      modifies this
      ensures issuers == AddKeys(old(issuers), e, keys)
      ensures e in issuers && forall k :: k in issuers[e] <==> (e in old(issuers) && k in old(issuers)[e]) || k in keys
      ensures forall d :: d != e ==> Lookup(issuers, d) == Lookup(old(issuers), d)
    {
      var given := set k | k in keys;
      ghost var before := KeysOf(issuers, e);
      if e !in issuers {
        issuers := issuers[e := given];
      } else {
        var fresh_ := given - issuers[e];
        assert before + fresh_ == before + given;
        if fresh_ != {} {
          issuers := issuers[e := issuers[e] + fresh_];
        }
      }
      assert issuers[e] == before + given;
      assert issuers == AddKeys(old(issuers), e, keys);
    }
  }

  class TrustChainVerifier {
    const world: World
    const keyJar: KeyJar

    constructor (world: World, keyJar: KeyJar)
      ensures this.world == world && this.keyJar == keyJar
    {
      this.world, this.keyJar := world, keyJar;
    }

    method VerifyTrustChain(tokens: seq<Jws>) returns (r: Result<seq<EntityStatement>>)
      modifies keyJar
      ensures Outcome(keyJar.issuers, r) == Verify(world, old(keyJar.issuers), tokens)
    {
      if tokens == [] || tokens[0].NotJws? {
        return Failure;
      }
      if tokens[0].payload.iss !in keyJar.issuers {
        return Ok([]);
      }
      ghost var walk := Walk(world, keyJar.issuers, tokens, [], |tokens| - 1);
      var verified: seq<EntityStatement> := [];
      var i := 0;
      assert tokens[0..] == tokens;
      while i < |tokens|
        invariant 0 <= i <= |tokens|
        invariant walk == Walk(world, keyJar.issuers, tokens[i..], verified, |tokens| - 1)
      {
        assert tokens[i..][0] == tokens[i] && tokens[i..][1..] == tokens[i + 1..];
        var jws := tokens[i];
        i := i + 1;
        if jws.NotJws? {
          continue;
        }
        if !Verifiable(world, keyJar.issuers, jws) {
          return Failure;
        }
        if jws.payload.jwks.None? {
          if |verified| != |tokens| - 1 {
            return Failure;
          }
        } else {
          keyJar.Import(jws.payload.sub, jws.payload.jwks.value);
        }
        verified := verified + [jws.payload];
      }
      if verified == [] {
        return Ok([]);
      }
      var meets := MeetsRestrictions(verified);
      r := if meets.Failure? then Failure else Ok(if meets.value then verified else []);
    }

    /** `__call__`: null if the chain was rejected; a statement without expiry time makes it raise after all. */
    method Call(tokens: seq<Jws>) returns (ok: bool, chain: TrustChain?)
      modifies keyJar
      ensures keyJar.issuers == Accept(world, old(keyJar.issuers), tokens).jar
      ensures ok <==> Accept(world, old(keyJar.issuers), tokens).result.Ok?
      ensures ok ==> (chain == null <==> Accept(world, old(keyJar.issuers), tokens).result.value == [])
      ensures ok && chain != null ==>
        var verified := Accept(world, old(keyJar.issuers), tokens).result.value;
        fresh(chain) && chain.verifiedChain == verified && chain.chain == tokens &&
        Ok(chain.exp) == ExpiresAt(verified) && chain.anchor == verified[0].iss && chain.issPath == IssuerPath(verified) &&
        chain.metadata == map[] && chain.combinedPolicy == map[]
    {
      chain := null;
      var verified := VerifyTrustChain(tokens);
      if verified.Failure? {
        return false, null;
      }
      if verified.value == [] {
        return true, null;
      }
      var exp := TrustChainExpiresAt(verified.value);
      if exp.Failure? {
        return false, null;
      }
      chain := new TrustChain(exp.value, verified.value);
      var path := Issuers(verified.value);
      chain.anchor := path[0];
      chain.issPath := Reverse(path);
      chain.chain := tokens;
      ok := true;
    }
  }

  function Issuers(verified: seq<EntityStatement>): (r: seq<Entity>)
    ensures |r| == |verified|
  {
    seq(|verified|, i requires 0 <= i < |verified| => verified[i].iss)
  }

  /** The issuers, the leaf first and the anchor last. */
  function IssuerPath(verified: seq<EntityStatement>): seq<Entity> {
    Reverse(Issuers(verified))
  }

  // ---- Expiry ----

  /** The running variable of `trust_chain_expires_at`, which starts at -1 and treats every negative value as unset. */
  function ExpiresAt(verified: seq<EntityStatement>): Result<int> {
    if verified == [] then
      Ok(-1)
    else
      var sofar :- ExpiresAt(verified[..|verified| - 1]);
      match verified[|verified| - 1].exp
      case None => Failure
      case Some(next) => Ok(if sofar >= 0 && sofar <= next then sofar else next)
  }

  method TrustChainExpiresAt(verified: seq<EntityStatement>) returns (r: Result<int>)
    ensures r == ExpiresAt(verified)
  {
    var exp := -1;
    var i := 0;
    while i < |verified|
      invariant 0 <= i <= |verified|
      invariant ExpiresAt(verified[..i]) == Ok(exp)
    {
      assert verified[..i + 1][..i] == verified[..i];
      if verified[i].exp.None? {
        UndatedRaises(verified, i);
        return Failure;
      }
      if exp >= 0 {
        if verified[i].exp.value < exp {
          exp := verified[i].exp.value;
        }
      } else {
        exp := verified[i].exp.value;
      }
      i := i + 1;
    }
    assert verified[..i] == verified;
    r := Ok(exp);
  }

  ghost predicate AllDated(verified: seq<EntityStatement>) {
    forall i :: 0 <= i < |verified| ==> verified[i].exp.Some?
  }

  lemma {:induction false} UndatedRaises(verified: seq<EntityStatement>, i: nat)
    requires i < |verified| && verified[i].exp.None?
    ensures ExpiresAt(verified).Failure?
    decreases |verified|
  {
    if i < |verified| - 1 {
      UndatedRaises(verified[..|verified| - 1], i);
    }
  }

  ghost predicate AtMostAll(exp: int, verified: seq<EntityStatement>)
    requires AllDated(verified)
  {
    forall i :: 0 <= i < |verified| ==> exp <= verified[i].exp.value
  }

  ghost predicate AllNonNegative(verified: seq<EntityStatement>)
    requires AllDated(verified)
  {
    forall i :: 0 <= i < |verified| ==> verified[i].exp.value >= 0
  }

  /** The result is one of the times given, and it is at most all of them exactly when no time is negative or the last
      one is the smallest. */
  ghost predicate FirstUnlessNegative(verified: seq<EntityStatement>, exp: int)
    requires verified != [] && AllDated(verified)
  {
    (exists i :: 0 <= i < |verified| && verified[i].exp == Some(exp)) &&
    (AtMostAll(exp, verified) <==> AllNonNegative(verified) || AtMostAll(verified[|verified| - 1].exp.value, verified))
  }

  lemma BoundsOfMore(verified: seq<EntityStatement>, x: int)
    requires verified != [] && AllDated(verified)
    ensures var front, next := verified[..|verified| - 1], verified[|verified| - 1].exp.value;
            AllDated(front) && (AtMostAll(x, verified) <==> AtMostAll(x, front) && x <= next) &&
            (AllNonNegative(verified) <==> AllNonNegative(front) && next >= 0)
  {
    var front, n := verified[..|verified| - 1], |verified| - 1;
    assert forall i :: 0 <= i < n ==> front[i] == verified[i];
    assert forall i :: 0 <= i <= n ==> i == n || verified[i] == front[i];
  }

  lemma FirstOfMore(verified: seq<EntityStatement>, sofar: int)
    requires |verified| > 1 && AllDated(verified) && ExpiresAt(verified[..|verified| - 1]) == Ok(sofar)
    requires AllDated(verified[..|verified| - 1]) && FirstUnlessNegative(verified[..|verified| - 1], sofar)
    ensures ExpiresAt(verified).Ok? && FirstUnlessNegative(verified, ExpiresAt(verified).value)
  {
    var front, next := verified[..|verified| - 1], verified[|verified| - 1].exp.value;
    var i :| 0 <= i < |front| && front[i].exp == Some(sofar);
    assert verified[i].exp == Some(sofar);
    BoundsOfMore(verified, sofar);
    BoundsOfMore(verified, next);
    if AtMostAll(next, front) {
      assert next <= front[i].exp.value;
    }
    if AllNonNegative(front) {
      assert front[i].exp.value >= 0;
    } else {
      var j :| 0 <= j < |front| && front[j].exp.value < 0;
      assert AtMostAll(sofar, front) ==> sofar <= front[j].exp.value;
    }
  }

  /** Expiry raises exactly when some statement has no expiry time. Otherwise a chain expires with its first statement,
      unless a negative expiry time resets the running minimum. */
  lemma {:induction false} ExpiresWithTheFirst(verified: seq<EntityStatement>)
    requires verified != []
    ensures ExpiresAt(verified).Ok? <==> AllDated(verified)
    ensures AllDated(verified) ==> FirstUnlessNegative(verified, ExpiresAt(verified).value)
  {
    var front, n := verified[..|verified| - 1], |verified| - 1;
    assert forall i :: 0 <= i < n ==> front[i] == verified[i];
    assert AllDated(verified) <==> AllDated(front) && verified[n].exp.Some?;
    if front != [] {
      ExpiresWithTheFirst(front);
      if AllDated(verified) {
        FirstOfMore(verified, ExpiresAt(front).value);
      }
    }
  }

  // ---- Key store safety ----

  /** How an entity came to hold a key: it was in the initial jar, or a signed statement listed it whose signer's key
      has evidence of its own. */
  datatype Evidence = Initial | Endorsed(statement: Jws, signer: Key, basis: Evidence)

  /** `ev` justifies key `k` of entity `e`, using only tokens of `pool`. */
  ghost predicate Justifies(w: World, initial: Jar, pool: set<Jws>, e: Entity, k: Key, ev: Evidence)
    decreases ev
  {
    match ev
    case Initial => k in KeysOf(initial, e)
    case Endorsed(jws, signer, basis) =>
      jws in pool && jws.Jws? && jws.payload.sub == e &&
      jws.payload.jwks.Some? && k in jws.payload.jwks.value &&
      VerifiedBy(w, jws, signer) && Justifies(w, initial, pool, jws.payload.iss, signer, basis)
  }

  ghost predicate IsEndorsed(w: World, initial: Jar, pool: set<Jws>, e: Entity, k: Key) {
    exists ev :: Justifies(w, initial, pool, e, k, ev)
  }

  ghost predicate AllEndorsed(w: World, initial: Jar, pool: set<Jws>, jar: Jar) {
    forall e, k :: k in KeysOf(jar, e) ==> IsEndorsed(w, initial, pool, e, k)
  }

  ghost predicate Grown(before: Jar, after: Jar) {
    forall e :: e in before ==> e in after && before[e] <= after[e]
  }

  /** The statement is the payload of a presented token signed by an endorsed key of its issuer. */
  ghost predicate Vouched(w: World, initial: Jar, pool: set<Jws>, es: EntityStatement) {
    exists jws, k :: jws in pool && jws.Jws? && jws.payload == es && VerifiedBy(w, jws, k) &&
                     IsEndorsed(w, initial, pool, es.iss, k)
  }

  ghost predicate AllVouched(w: World, initial: Jar, pool: set<Jws>, verified: seq<EntityStatement>) {
    forall es :: es in verified ==> Vouched(w, initial, pool, es)
  }

  lemma EndorseKeys(w: World, initial: Jar, pool: set<Jws>, jar: Jar, jws: Jws)
    requires AllEndorsed(w, initial, pool, jar) && jws in pool && jws.Jws? && Verifiable(w, jar, jws)
    requires jws.payload.jwks.Some?
    ensures AllEndorsed(w, initial, pool, AddKeys(jar, jws.payload.sub, jws.payload.jwks.value))
  {
    var signer :| signer in KeysOf(jar, jws.payload.iss) && VerifiedBy(w, jws, signer);
    assert IsEndorsed(w, initial, pool, jws.payload.iss, signer);
    var basis :| Justifies(w, initial, pool, jws.payload.iss, signer, basis);
    var keys, after := jws.payload.jwks.value, AddKeys(jar, jws.payload.sub, jws.payload.jwks.value);
    forall e, k | k in KeysOf(after, e)
      ensures IsEndorsed(w, initial, pool, e, k)
    {
      if k !in KeysOf(jar, e) {
        assert e == jws.payload.sub && k in keys;
        assert Justifies(w, initial, pool, e, k, Endorsed(jws, signer, basis));
      }
    }
  }

  lemma {:induction false} WalkIsSafe(w: World, initial: Jar, pool: set<Jws>, jar: Jar, tokens: seq<Jws>,
          verified: seq<EntityStatement>, last: int)
    requires AllEndorsed(w, initial, pool, jar) && (forall t :: t in tokens ==> t in pool) && AllVouched(w, initial, pool, verified)
    ensures var o := Walk(w, jar, tokens, verified, last);
            Grown(jar, o.jar) && AllEndorsed(w, initial, pool, o.jar) &&
            (o.result.Ok? ==> AllVouched(w, initial, pool, o.result.value) && o.result.value == verified + Payloads(tokens))
    decreases |tokens|
  {
    if tokens == [] {
      assert verified + [] == verified;
    } else if tokens[0].NotJws? {
      WalkIsSafe(w, initial, pool, jar, tokens[1..], verified, last);
    } else if Verifiable(w, jar, tokens[0]) {
      var payload := tokens[0].payload;
      var k :| k in KeysOf(jar, payload.iss) && VerifiedBy(w, tokens[0], k);
      assert IsEndorsed(w, initial, pool, payload.iss, k);
      assert Vouched(w, initial, pool, payload);
      assert (verified + [payload]) + Payloads(tokens[1..]) == verified + Payloads(tokens);
      if payload.jwks.Some? {
        EndorseKeys(w, initial, pool, jar, tokens[0]);
        WalkIsSafe(w, initial, pool, AddKeys(jar, payload.sub, payload.jwks.value), tokens[1..], verified + [payload], last);
      } else if |verified| == last {
        WalkIsSafe(w, initial, pool, jar, tokens[1..], verified + [payload], last);
      }
    }
  }

  /** The jar after a sequence of calls, whatever each of them returned or raised. */
  function JarAfter(w: World, jar: Jar, calls: seq<seq<Jws>>): Jar
    decreases |calls|
  {
    if calls == [] then jar else JarAfter(w, Verify(w, jar, calls[0]).jar, calls[1..])
  }

  ghost predicate Presented(calls: seq<seq<Jws>>, pool: set<Jws>) {
    forall i, t :: 0 <= i < |calls| && t in calls[i] ==> t in pool
  }

  lemma RestrictedIsAllOrNothing(verified: seq<EntityStatement>)
    ensures Restricted(verified).Ok? ==> Restricted(verified).value == [] || Restricted(verified).value == verified
  {
  }

  lemma VerifyIsSafe(w: World, initial: Jar, pool: set<Jws>, jar: Jar, tokens: seq<Jws>)
    requires AllEndorsed(w, initial, pool, jar) && forall t :: t in tokens ==> t in pool
    ensures var o := Verify(w, jar, tokens);
            Grown(jar, o.jar) && AllEndorsed(w, initial, pool, o.jar) &&
            (o.result.Ok? ==> AllVouched(w, initial, pool, o.result.value) && (o.result.value == [] || o.result.value == Payloads(tokens)))
  {
    if tokens != [] && tokens[0].Jws? && tokens[0].payload.iss in jar {
      WalkIsSafe(w, initial, pool, jar, tokens, [], |tokens| - 1);
      assert [] + Payloads(tokens) == Payloads(tokens);
      var walked := Walk(w, jar, tokens, [], |tokens| - 1);
      if walked.result.Ok? {
        RestrictedIsAllOrNothing(walked.result.value);
      }
    }
  }

  lemma AcceptIsSafe(w: World, initial: Jar, pool: set<Jws>, jar: Jar, tokens: seq<Jws>)
    requires AllEndorsed(w, initial, pool, jar) && forall t :: t in tokens ==> t in pool
    ensures var o := Accept(w, jar, tokens);
            Grown(jar, o.jar) && AllEndorsed(w, initial, pool, o.jar) &&
            (o.result.Ok? ==> AllVouched(w, initial, pool, o.result.value) && (o.result.value == [] || o.result.value == Payloads(tokens)))
  {
    VerifyIsSafe(w, initial, pool, jar, tokens);
  }

  lemma {:induction false} JarStaysEndorsed(w: World, initial: Jar, pool: set<Jws>, jar: Jar, calls: seq<seq<Jws>>)
    requires AllEndorsed(w, initial, pool, jar) && Presented(calls, pool)
    ensures Grown(jar, JarAfter(w, jar, calls)) && AllEndorsed(w, initial, pool, JarAfter(w, jar, calls))
    decreases |calls|
  {
    if calls != [] {
      VerifyIsSafe(w, initial, pool, jar, calls[0]);
      assert Presented(calls[1..], pool) by {
        assert forall i :: 0 <= i < |calls| - 1 ==> calls[1..][i] == calls[i + 1];
      }
      JarStaysEndorsed(w, initial, pool, Verify(w, jar, calls[0]).jar, calls[1..]);
    }
  }

  /** After any sequence of calls, accepted, rejected or raising, the jar has only grown, every key in it traces
      back to the initial jar through signed statements, and whatever the next call returns is signed by such keys. */
  lemma {:induction false} KeyStoreIsSafe(w: World, initial: Jar, calls: seq<seq<Jws>>, tokens: seq<Jws>, pool: set<Jws>)
    requires Presented(calls, pool) && forall t :: t in tokens ==> t in pool
    ensures var jar := JarAfter(w, initial, calls);
            Grown(initial, jar) && AllEndorsed(w, initial, pool, jar) &&
            (Verify(w, jar, tokens).result.Ok? ==> AllVouched(w, initial, pool, Verify(w, jar, tokens).result.value))
  {
    forall e, k | k in KeysOf(initial, e)
      ensures IsEndorsed(w, initial, pool, e, k)
    {
      assert Justifies(w, initial, pool, e, k, Initial);
    }
    JarStaysEndorsed(w, initial, pool, initial, calls);
    VerifyIsSafe(w, initial, pool, JarAfter(w, initial, calls), tokens);
  }

  /** A call returns all statements of the chain, or none. */
  lemma {:induction false} AcceptedIsWhole(w: World, jar: Jar, tokens: seq<Jws>)
    requires Verify(w, jar, tokens).result.Ok? && Verify(w, jar, tokens).result.value != []
    ensures Verify(w, jar, tokens).result.value == Payloads(tokens)
  {
    var pool := set t | t in tokens;
    forall e, k | k in KeysOf(jar, e)
      ensures IsEndorsed(w, jar, pool, e, k)
    {
      assert Justifies(w, jar, pool, e, k, Initial);
    }
    VerifyIsSafe(w, jar, pool, jar, tokens);
  }

  lemma {:induction false} PayloadsAt(tokens: seq<Jws>)
    requires forall t :: t in tokens ==> t.Jws?
    ensures |Payloads(tokens)| == |tokens|
    ensures forall i :: 0 <= i < |tokens| ==> Payloads(tokens)[i] == tokens[i].payload
  {
    if tokens != [] {
      assert tokens[0] in tokens;
      PayloadsAt(tokens[1..]);
    }
  }

  // ---- What an accepted chain does not show ----

  function Bare(iss: Entity, sub: Entity, keys: seq<Key>): EntityStatement {
    EntityStatement(iss, sub, Some(0), Some(keys), None, NoEndpoint, None, map[], map[])
  }

  lemma WalkStep(w: World, jar: Jar, first: Jws, rest: seq<Jws>, verified: seq<EntityStatement>, last: int)
    requires first.Jws? && first.payload.jwks.Some? && Verifiable(w, jar, first)
    ensures Walk(w, jar, [first] + rest, verified, last) ==
            Walk(w, AddKeys(jar, first.payload.sub, first.payload.jwks.value), rest, verified + [first.payload], last)
  {
    assert ([first] + rest)[1..] == rest;
  }

  lemma UnconstrainedMeets(a: EntityStatement, b: EntityStatement)
    requires a.constraints.None?
    ensures Restricted([a, b]) == Ok([a, b])
  {
    assert [a, b][1..] == [b];
    assert Meets([b], 0, UNCONSTRAINED) == Ok(true);
  }

  /** Each statement is about the issuer of the next. */
  ghost predicate Linked(verified: seq<EntityStatement>) {
    forall i :: 0 <= i < |verified| - 1 ==> verified[i].sub == verified[i + 1].iss
  }

  /** Statements are never checked to link up: an anchor's statement about `x`, followed by the configuration of
      another known entity `y`, is accepted; each only has to be signed with its issuer's key. */
  lemma LinksAreNotChecked(w: World, jar: Jar, a: Entity, x: Entity, y: Entity, k: Key, m: Key)
    requires k in KeysOf(jar, a) && m in KeysOf(jar, y) && x != y
    requires VerifiedBy(w, Jws(Bare(a, x, [k]), 0), k) && VerifiedBy(w, Jws(Bare(y, y, [m]), 0), m)
    ensures var top, leaf := Bare(a, x, [k]), Bare(y, y, [m]);
            Verify(w, jar, [Jws(top, 0), Jws(leaf, 0)]).result == Ok([top, leaf]) && !Linked([top, leaf])
  {
    var top, leaf := Bare(a, x, [k]), Bare(y, y, [m]);
    var first, second := Jws(top, 0), Jws(leaf, 0);
    var after := AddKeys(jar, x, [k]);
    assert k in KeysOf(jar, a) && m in KeysOf(after, y);
    assert Verifiable(w, jar, first) && Verifiable(w, after, second);
    WalkStep(w, jar, first, [second], [], 1);
    WalkStep(w, after, second, [], [top], 1);
    assert [second] + [] == [second] && [first] + [second] == [first, second];
    assert [] + [top] == [top] && [top] + [leaf] == [top, leaf];
    UnconstrainedMeets(top, leaf);
    assert [top, leaf][0].sub == x && [top, leaf][1].iss == y;
  }

  /** Whether an accepted chain links up is decided by what was presented alone, token by token. */
  lemma {:induction false} AcceptedLinksIff(w: World, jar: Jar, tokens: seq<Jws>)
    requires Verify(w, jar, tokens).result.Ok? && Verify(w, jar, tokens).result.value != []
    requires forall t :: t in tokens ==> t.Jws?
    ensures Linked(Verify(w, jar, tokens).result.value) <==>
            forall i :: 0 <= i < |tokens| - 1 ==> tokens[i].payload.sub == tokens[i + 1].payload.iss
  {
    AcceptedIsWhole(w, jar, tokens);
    PayloadsAt(tokens);
  }

  // ---- Who passes the anchor test ----

  /** The walk gets to token `i`, and that token verifies there. */
  ghost predicate Passed(w: World, jar: Jar, tokens: seq<Jws>, verified: seq<EntityStatement>, last: int, i: nat)
    requires i < |tokens|
  {
    var before := Walk(w, jar, tokens[..i], verified, last);
    before.result.Ok? && tokens[i].Jws? && Verifiable(w, before.jar, tokens[i])
  }

  predicate BringsKeysOf(jws: Jws, e: Entity) {
    jws.Jws? && jws.payload.sub == e && jws.payload.jwks.Some?
  }

  ghost predicate WalkIntroduces(w: World, jar: Jar, tokens: seq<Jws>, verified: seq<EntityStatement>, last: int, e: Entity) {
    exists i :: 0 <= i < |tokens| && BringsKeysOf(tokens[i], e) && Passed(w, jar, tokens, verified, last, i)
  }

  lemma PassedNext(w: World, jar: Jar, tokens: seq<Jws>, verified: seq<EntityStatement>, last: int, next: Jar,
          sofar: seq<EntityStatement>, i: nat)
    requires 0 < i < |tokens|
    requires forall front :: Walk(w, jar, [tokens[0]] + front, verified, last) == Walk(w, next, front, sofar, last)
    ensures Passed(w, jar, tokens, verified, last, i) <==> Passed(w, next, tokens[1..], sofar, last, i - 1)
  {
    assert tokens[..i] == [tokens[0]] + tokens[1..][..i - 1];
  }

  lemma {:induction false} WalkIntroducesIff(w: World, jar: Jar, tokens: seq<Jws>, verified: seq<EntityStatement>,
          last: int, e: Entity)
    ensures e in Walk(w, jar, tokens, verified, last).jar <==> e in jar || WalkIntroduces(w, jar, tokens, verified, last, e)
    decreases |tokens|
  {
    if tokens != [] {
      var first, rest := tokens[0], tokens[1..];
      assert tokens == [first] + rest && tokens[..0] == [];
      var verifies := first.Jws? && Verifiable(w, jar, first);
      assert Passed(w, jar, tokens, verified, last, 0) <==> verifies;
      var goesOn := first.NotJws? || (verifies && (first.payload.jwks.Some? || |verified| == last));
      if goesOn {
        var next := if first.Jws? && first.payload.jwks.Some? then AddKeys(jar, first.payload.sub, first.payload.jwks.value) else jar;
        var sofar := if first.Jws? then verified + [first.payload] else verified;
        forall front
          ensures Walk(w, jar, [first] + front, verified, last) == Walk(w, next, front, sofar, last)
        {
          assert ([first] + front)[1..] == front;
        }
        WalkIntroducesIff(w, next, rest, sofar, last, e);
        forall i | 0 < i < |tokens|
          ensures Passed(w, jar, tokens, verified, last, i) <==> Passed(w, next, rest, sofar, last, i - 1)
        {
          PassedNext(w, jar, tokens, verified, last, next, sofar, i);
        }
        IntroducesNext(w, jar, tokens, verified, last, next, sofar, e);
      } else {
        forall i | 0 < i < |tokens|
          ensures !Passed(w, jar, tokens, verified, last, i)
        {
          assert tokens[..i][0] == first;
        }
      }
    }
  }

  lemma IntroducesNext(w: World, jar: Jar, tokens: seq<Jws>, verified: seq<EntityStatement>, last: int, next: Jar,
          sofar: seq<EntityStatement>, e: Entity)
    requires tokens != []
    requires forall i :: 0 < i < |tokens| ==>
      (Passed(w, jar, tokens, verified, last, i) <==> Passed(w, next, tokens[1..], sofar, last, i - 1))
    ensures WalkIntroduces(w, jar, tokens, verified, last, e) <==>
            (BringsKeysOf(tokens[0], e) && Passed(w, jar, tokens, verified, last, 0)) ||
            WalkIntroduces(w, next, tokens[1..], sofar, last, e)
  {
    var rest := tokens[1..];
    if i :| 0 <= i < |rest| && BringsKeysOf(rest[i], e) && Passed(w, next, rest, sofar, last, i) {
      assert tokens[i + 1] == rest[i] && Passed(w, jar, tokens, verified, last, i + 1);
    }
    if i :| 0 < i < |tokens| && BringsKeysOf(tokens[i], e) && Passed(w, jar, tokens, verified, last, i) {
      assert rest[i - 1] == tokens[i] && Passed(w, next, rest, sofar, last, i - 1);
    }
  }

  /** The call gets as far as verifying a token that brings keys of `e`. */
  ghost predicate Introduces(w: World, jar: Jar, tokens: seq<Jws>, e: Entity) {
    tokens != [] && tokens[0].Jws? && tokens[0].payload.iss in jar &&
    WalkIntroduces(w, jar, tokens, [], |tokens| - 1, e)
  }

  lemma CallIntroducesIff(w: World, jar: Jar, tokens: seq<Jws>, e: Entity)
    ensures e in Verify(w, jar, tokens).jar <==> e in jar || Introduces(w, jar, tokens, e)
  {
    if tokens != [] && tokens[0].Jws? && tokens[0].payload.iss in jar {
      WalkIntroducesIff(w, jar, tokens, [], |tokens| - 1, e);
    }
  }

  /** The top issuer is looked up in the jar, not among the trust anchors. An entity passes that test after a sequence of
      calls, accepted, rejected or raising, if and only if it did before or some call got as far as verifying a token
      that brings its keys. */
  lemma {:induction false} SubjectsBecomeTops(w: World, jar: Jar, calls: seq<seq<Jws>>, e: Entity)
    ensures e in JarAfter(w, jar, calls) <==>
            e in jar || exists i :: 0 <= i < |calls| && Introduces(w, JarAfter(w, jar, calls[..i]), calls[i], e)
    decreases |calls|
  {
    if calls != [] {
      var front, tokens := calls[..|calls| - 1], calls[|calls| - 1];
      assert calls == front + [tokens];
      SubjectsBecomeTops(w, jar, front, e);
      JarAfterNext(w, jar, front, tokens);
      CallIntroducesIff(w, JarAfter(w, jar, front), tokens, e);
      assert calls[..|front|] == front;
      forall i | 0 <= i < |front|
        ensures calls[..i] == front[..i] && calls[i] == front[i]
      {
      }
    }
  }

  lemma {:induction false} JarAfterNext(w: World, jar: Jar, calls: seq<seq<Jws>>, tokens: seq<Jws>)
    ensures JarAfter(w, jar, calls + [tokens]) == Verify(w, JarAfter(w, jar, calls), tokens).jar
    decreases |calls|
  {
    if calls == [] {
      assert [tokens][1..] == [];
    } else {
      assert (calls + [tokens])[1..] == calls[1..] + [tokens];
      JarAfterNext(w, Verify(w, jar, calls[0]).jar, calls[1..], tokens);
    }
  }

  /** One verified token with keys is enough, whatever becomes of the rest of the chain. */
  lemma FirstTokenSuffices(w: World, jar: Jar, tokens: seq<Jws>, e: Entity)
    requires tokens != [] && BringsKeysOf(tokens[0], e) && Verifiable(w, jar, tokens[0])
    ensures e in Verify(w, jar, tokens).jar
  {
    assert tokens[..0] == [];
    assert Passed(w, jar, tokens, [], |tokens| - 1, 0);
    WalkIntroducesIff(w, jar, tokens, [], |tokens| - 1, e);
  }
}
