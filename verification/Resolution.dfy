/** Collecting, flattening, extending, verifying and applying policies together: `verify_trust_chains`, `apply_policies` and
    `get_verified_trust_chains` in function/__init__.py. */
module Resolution {
  import opened Wrappers
  import opened Statements
  import opened TrustChains
  import opened ChainVerification
  import opened ChainAcceptance
  import opened ChainLists
  import opened Collection
  import opened HintTrees
  import opened StatementCache
  import opened StatementLookup
  import opened CachedCollection
  import opened Collector
  import opened ClaimCompliance
  import opened PolicyOperators
  import opened PolicyChain
  import opened PolicyTheorems
  import opened StatementCompliance
  import opened MetadataPolicy

  /** An accepted chain: its tokens, and the statements they carry. */
  datatype Verdict = Verdict(tokens: seq<Jws>, statements: seq<EntityStatement>)

  /** The chains one after the other against one growing jar; an exception ends it, a rejected chain is left out. */
  function VerifyEach(w: World, jar: Jar, lists: seq<seq<Jws>>): (Jar, Result<seq<Verdict>>) {
    if lists == [] then
      (jar, Ok([]))
    else
      match VerifyEach(w, jar, lists[..|lists| - 1])
      case (sofar, Failure) => (sofar, Failure)
      case (sofar, Ok(verdicts)) =>
        var o := Accept(w, sofar, lists[|lists| - 1]);
        match o.result
        case Failure => (o.jar, Failure)
        case Ok(statements) =>
          (o.jar, Ok(Extended(verdicts, lists[|lists| - 1], statements)))
  }

  /** How many chains are verified: all, or those up to the one that raises. */
  function Tried(w: World, jar: Jar, lists: seq<seq<Jws>>): (n: nat)
    ensures n <= |lists|
  {
    if lists == [] then 0
    else if VerifyEach(w, jar, lists[..|lists| - 1]).1.Failure? then Tried(w, jar, lists[..|lists| - 1])
    else |lists|
  }

  /** The first `i` chains have been verified. */
  ghost predicate VerifiedUpTo(w: World, jar: Jar, lists: seq<seq<Jws>>, i: nat, sofar: Jar, verdicts: seq<Verdict>) {
    i <= |lists| && VerifyEach(w, jar, lists[..i]) == (sofar, Ok(verdicts)) && Tried(w, jar, lists[..i]) == i
  }

  lemma VerifyEachNext(w: World, jar: Jar, lists: seq<seq<Jws>>, i: nat, sofar: Jar, verdicts: seq<Verdict>)
    requires i < |lists| && VerifiedUpTo(w, jar, lists, i, sofar, verdicts)
    ensures var o := Accept(w, sofar, lists[i]);
            if o.result.Ok? then
              VerifiedUpTo(w, jar, lists, i + 1, o.jar, Extended(verdicts, lists[i], o.result.value))
            else
              VerifyEach(w, jar, lists) == (o.jar, Failure) && Tried(w, jar, lists) == i + 1
  {
    assert lists[..i + 1][..i] == lists[..i];
    if Accept(w, sofar, lists[i]).result.Failure? {
      VerifyEachStops(w, jar, lists, i + 1);
    }
  }

  lemma {:induction false} VerifyEachStops(w: World, jar: Jar, lists: seq<seq<Jws>>, i: nat)
    requires i <= |lists| && VerifyEach(w, jar, lists[..i]).1.Failure?
    ensures VerifyEach(w, jar, lists) == VerifyEach(w, jar, lists[..i])
    ensures Tried(w, jar, lists) == Tried(w, jar, lists[..i])
    decreases |lists| - i
  {
    if i < |lists| {
      assert lists[..i + 1][..i] == lists[..i];
      VerifyEachStops(w, jar, lists, i + 1);
    } else {
      assert lists[..i] == lists;
    }
  }

  /** The record carries what the verdict says. */
  ghost predicate Records(chain: TrustChain, verdict: Verdict)
    reads chain
  {
    chain.chain == verdict.tokens && chain.verifiedChain == verdict.statements && verdict.statements != [] &&
    chain.anchor == verdict.statements[0].iss && chain.issPath == IssuerPath(verdict.statements) &&
    Ok(chain.exp) == ExpiresAt(verdict.statements)
  }

  ghost predicate AllRecorded(chains: seq<TrustChain>, verdicts: seq<Verdict>)
    reads chains
  {
    |chains| == |verdicts| && forall i :: 0 <= i < |chains| ==> Records(chains[i], verdicts[i])
  }

  function Extended(verdicts: seq<Verdict>, tokens: seq<Jws>, statements: seq<EntityStatement>): seq<Verdict> {
    if statements == [] then verdicts else verdicts + [Verdict(tokens, statements)]
  }

  ghost predicate DifferentChains(chains: seq<TrustChain>) {
    forall i, j :: 0 <= i < j < |chains| ==> chains[i] != chains[j]
  }

  /** The first `n` lists are extended, the others as they were. */
  ghost predicate ExtendedUpTo(chains: seq<TokenList>, contents: seq<seq<Jws>>, tail: Jws, n: nat)
    reads chains
  {
    |chains| == |contents| && forall j :: 0 <= j < |chains| ==>
      chains[j].items == if j < n then contents[j] + [tail] else contents[j]
  }

  method ExtendNext(chains: seq<TokenList>, tail: Jws, i: nat, ghost contents: seq<seq<Jws>>)
    requires i < |chains| && Distinct(chains) && ExtendedUpTo(chains, contents, tail, i)
    modifies chains[i]
    ensures ExtendedUpTo(chains, contents, tail, i + 1)
  {
    chains[i].Append(tail);
    assert forall j :: 0 <= j < |chains| && j != i ==> chains[j] != chains[i];
  }

  /** Verifying the next chain, and recording it if it is accepted. */
  method VerifyNext(verifier: TrustChainVerifier, tokens: seq<Jws>, res: seq<TrustChain>, ghost verdicts: seq<Verdict>)
    returns (ok: bool, joined: seq<TrustChain>, ghost next: seq<Verdict>)
    requires AllRecorded(res, verdicts) && DifferentChains(res)
    modifies verifier.keyJar
    ensures verifier.keyJar.issuers == Accept(verifier.world, old(verifier.keyJar.issuers), tokens).jar
    ensures ok <==> Accept(verifier.world, old(verifier.keyJar.issuers), tokens).result.Ok?
    ensures ok ==> next == Extended(verdicts, tokens, Accept(verifier.world, old(verifier.keyJar.issuers), tokens).result.value)
    ensures ok ==> AllRecorded(joined, next)
    ensures DifferentChains(joined) && res <= joined && forall i :: |res| <= i < |joined| ==> fresh(joined[i])
  {
    joined, next := res, verdicts;
    var verified, chain := verifier.Call(tokens);
    if !verified {
      return false, res, verdicts;
    }
    next := Extended(verdicts, tokens, Accept(verifier.world, old(verifier.keyJar.issuers), tokens).result.value);
    if chain != null {
      joined := res + [chain];
    }
    ok := true;
  }

  /** One turn of the loop of `verify_trust_chains`. */
  method ExtendAndVerify(verifier: TrustChainVerifier, chains: seq<TokenList>, tail: Jws, i: nat, res: seq<TrustChain>,
                         ghost contents: seq<seq<Jws>>, ghost jar: Jar, ghost verdicts: seq<Verdict>)
    returns (ok: bool, joined: seq<TrustChain>, ghost next: seq<Verdict>)
    requires i < |chains| && Distinct(chains) && ExtendedUpTo(chains, contents, tail, i)
    requires VerifiedUpTo(verifier.world, jar, AppendToAll(contents, tail), i, verifier.keyJar.issuers, verdicts)
    requires AllRecorded(res, verdicts) && DifferentChains(res)
    modifies chains[i], verifier.keyJar
    ensures ExtendedUpTo(chains, contents, tail, i + 1)
    ensures ok ==> VerifiedUpTo(verifier.world, jar, AppendToAll(contents, tail), i + 1, verifier.keyJar.issuers, next)
    ensures ok ==> AllRecorded(joined, next)
    ensures !ok ==> VerifyEach(verifier.world, jar, AppendToAll(contents, tail)) == (verifier.keyJar.issuers, Failure) &&
                    Tried(verifier.world, jar, AppendToAll(contents, tail)) == i + 1
    ensures DifferentChains(joined) && res <= joined && forall i :: |res| <= i < |joined| ==> fresh(joined[i])
  {
    VerifyEachNext(verifier.world, jar, AppendToAll(contents, tail), i, verifier.keyJar.issuers, verdicts);
    ExtendNext(chains, tail, i, contents);
    ok, joined, next := VerifyNext(verifier, chains[i].items, res, verdicts);
  }

  /** `verify_trust_chains`: each list is extended in place with the leaf's configuration, then verified; those after one
      that raises stay as they were. */
  method VerifyTrustChains(verifier: TrustChainVerifier, chains: seq<TokenList>, tail: Jws, ghost contents: seq<seq<Jws>>)
    returns (ok: bool, res: seq<TrustChain>)
    requires Distinct(chains) && Holds(chains, contents)
    modifies chains, verifier.keyJar
    ensures var (jar, verdicts) := VerifyEach(verifier.world, old(verifier.keyJar.issuers), AppendToAll(contents, tail));
            verifier.keyJar.issuers == jar && (ok <==> verdicts.Ok?) && (ok ==> AllRecorded(res, verdicts.value))
    ensures ExtendedUpTo(chains, contents, tail, Tried(verifier.world, old(verifier.keyJar.issuers), AppendToAll(contents, tail)))
    ensures DifferentChains(res) && forall j :: 0 <= j < |res| ==> fresh(res[j])
  {
    ghost var jar := verifier.keyJar.issuers;
    ghost var verdicts: seq<Verdict> := [];
    res, ok := [], true;
    var i := 0;
    while i < |chains|
      invariant 0 <= i <= |chains|
      invariant ExtendedUpTo(chains, contents, tail, i)
      invariant VerifiedUpTo(verifier.world, jar, AppendToAll(contents, tail), i, verifier.keyJar.issuers, verdicts)
      invariant AllRecorded(res, verdicts) && DifferentChains(res)
      invariant forall j :: 0 <= j < |res| ==> fresh(res[j])
    {
      ok, res, verdicts := ExtendAndVerify(verifier, chains, tail, i, res, contents, jar, verdicts);
      i := i + 1;
      if !ok {
        return;
      }
    }
    assert AppendToAll(contents, tail)[..i] == AppendToAll(contents, tail);
  }

  /** Each verdict is about one of the lists, is that list's payloads, and is vouched for. */
  ghost predicate Sound(w: World, initial: Jar, pool: set<Jws>, lists: seq<seq<Jws>>, verdicts: seq<Verdict>) {
    forall v :: v in verdicts ==>
      v.tokens in lists && v.statements != [] && v.statements == Payloads(v.tokens) && AllVouched(w, initial, pool, v.statements)
  }

  lemma {:induction false} VerifyEachIsSafe(w: World, initial: Jar, pool: set<Jws>, jar: Jar, lists: seq<seq<Jws>>)
    requires AllEndorsed(w, initial, pool, jar) && Presented(lists, pool)
    ensures var (after, verdicts) := VerifyEach(w, jar, lists);
            Grown(jar, after) && AllEndorsed(w, initial, pool, after) &&
            (verdicts.Ok? ==> Sound(w, initial, pool, lists, verdicts.value))
    decreases |lists|
  {
    if lists != [] {
      var front, last := lists[..|lists| - 1], lists[|lists| - 1];
      assert lists == front + [last];
      assert forall i :: 0 <= i < |front| ==> front[i] == lists[i];
      assert lists[|lists| - 1] == last;
      VerifyEachIsSafe(w, initial, pool, jar, front);
      var (sofar, verdicts) := VerifyEach(w, jar, front);
      if verdicts.Ok? {
        AcceptIsSafe(w, initial, pool, sofar, last);
      }
    }
  }

  /** The chain at `i` meets the jar that the chains before it have left, and is accepted. */
  ghost predicate AcceptedAt(w: World, jar: Jar, lists: seq<seq<Jws>>, i: nat)
    requires i < |lists|
  {
    Accepted(w, JarAfter(w, jar, lists[..i]), lists[i])
  }

  ghost predicate RejectedAt(w: World, jar: Jar, lists: seq<seq<Jws>>, i: nat)
    requires i < |lists|
  {
    Rejected(w, JarAfter(w, jar, lists[..i]), lists[i])
  }

  /** The verdicts are the lists at `places`, with their statements. */
  ghost predicate VerdictsAt(lists: seq<seq<Jws>>, places: seq<nat>, verdicts: seq<Verdict>) {
    |places| == |verdicts| && forall k :: 0 <= k < |places| ==>
      places[k] < |lists| && verdicts[k] == Verdict(lists[places[k]], Payloads(lists[places[k]]))
  }

  ghost predicate Increasing(places: seq<nat>) {
    forall i, j :: 0 <= i < j < |places| ==> places[i] < places[j]
  }

  ghost predicate NoneRaises(w: World, jar: Jar, lists: seq<seq<Jws>>) {
    forall i :: 0 <= i < |lists| ==> AcceptedAt(w, jar, lists, i) || RejectedAt(w, jar, lists, i)
  }

  lemma AtInFront(w: World, jar: Jar, lists: seq<seq<Jws>>, i: nat)
    requires i < |lists| - 1
    ensures AcceptedAt(w, jar, lists[..|lists| - 1], i) <==> AcceptedAt(w, jar, lists, i)
    ensures RejectedAt(w, jar, lists[..|lists| - 1], i) <==> RejectedAt(w, jar, lists, i)
  {
    assert lists[..|lists| - 1][..i] == lists[..i];
  }

  lemma OnePlaceMore(lists: seq<seq<Jws>>, places: seq<nat>, verdicts: seq<Verdict>)
    requires lists != [] && Increasing(places) && VerdictsAt(lists[..|lists| - 1], places, verdicts)
    ensures var n := |lists| - 1;
            Increasing(places + [n]) && VerdictsAt(lists, places + [n], verdicts + [Verdict(lists[n], Payloads(lists[n]))])
  {
  }

  lemma EachNext(w: World, jar: Jar, lists: seq<seq<Jws>>, verdicts: seq<Verdict>)
    requires lists != [] && VerifyEach(w, jar, lists[..|lists| - 1]) == (JarAfter(w, jar, lists[..|lists| - 1]), Ok(verdicts))
    ensures var n := |lists| - 1; var o := Accept(w, JarAfter(w, jar, lists[..n]), lists[n]);
            VerifyEach(w, jar, lists) ==
              (JarAfter(w, jar, lists), if o.result.Ok? then Ok(Extended(verdicts, lists[n], o.result.value)) else Failure)
  {
    NextJar(w, jar, lists);
  }

  lemma NextJar(w: World, jar: Jar, lists: seq<seq<Jws>>)
    requires lists != []
    ensures var n := |lists| - 1; JarAfter(w, jar, lists) == Accept(w, JarAfter(w, jar, lists[..n]), lists[n]).jar
  {
    var n, front := |lists| - 1, lists[..|lists| - 1];
    assert lists == front + [lists[n]];
    JarAfterNext(w, jar, front, lists[n]);
  }

  /** What the last chain adds. */
  lemma LastVerdict(w: World, jar: Jar, lists: seq<seq<Jws>>, verdicts: seq<Verdict>)
    requires lists != [] && VerifyEach(w, jar, lists[..|lists| - 1]) == (JarAfter(w, jar, lists[..|lists| - 1]), Ok(verdicts))
    ensures var n := |lists| - 1;
            VerifyEach(w, jar, lists) ==
              (JarAfter(w, jar, lists),
               if AcceptedAt(w, jar, lists, n) then Ok(verdicts + [Verdict(lists[n], Payloads(lists[n]))])
               else if RejectedAt(w, jar, lists, n) then Ok(verdicts) else Failure)
  {
    EachNext(w, jar, lists, verdicts);
    CallAcceptsIff(w, JarAfter(w, jar, lists[..|lists| - 1]), lists[|lists| - 1]);
  }

  lemma NoneRaisesNext(w: World, jar: Jar, lists: seq<seq<Jws>>)
    requires lists != []
    ensures var n := |lists| - 1;
            (forall i :: 0 <= i < n ==> (AcceptedAt(w, jar, lists[..n], i) <==> AcceptedAt(w, jar, lists, i))) &&
            (NoneRaises(w, jar, lists) <==>
             NoneRaises(w, jar, lists[..n]) && (AcceptedAt(w, jar, lists, n) || RejectedAt(w, jar, lists, n)))
  {
    forall i | 0 <= i < |lists| - 1
      ensures AcceptedAt(w, jar, lists[..|lists| - 1], i) <==> AcceptedAt(w, jar, lists, i)
      ensures RejectedAt(w, jar, lists[..|lists| - 1], i) <==> RejectedAt(w, jar, lists, i)
    {
      AtInFront(w, jar, lists, i);
    }
  }

  lemma {:induction false} VerifySucceedsIff(w: World, jar: Jar, lists: seq<seq<Jws>>)
    ensures VerifyEach(w, jar, lists).1.Ok? <==> NoneRaises(w, jar, lists)
    ensures NoneRaises(w, jar, lists) ==> VerifyEach(w, jar, lists).0 == JarAfter(w, jar, lists)
    decreases |lists|
  {
    if lists != [] {
      var front := lists[..|lists| - 1];
      VerifySucceedsIff(w, jar, front);
      NoneRaisesNext(w, jar, lists);
      if NoneRaises(w, jar, front) {
        LastVerdict(w, jar, lists, VerifyEach(w, jar, front).1.value);
      }
    }
  }

  /** Verifying succeeds if and only if every chain is accepted or rejected; then the verdicts are exactly the accepted
      chains, in order. */
  lemma {:induction false} VerdictsAreTheAccepted(w: World, jar: Jar, lists: seq<seq<Jws>>) returns (places: seq<nat>)
    ensures VerifyEach(w, jar, lists).1.Ok? <==> NoneRaises(w, jar, lists)
    ensures NoneRaises(w, jar, lists) ==>
      Increasing(places) && VerdictsAt(lists, places, VerifyEach(w, jar, lists).1.value) &&
      forall i :: i in places <==> 0 <= i < |lists| && AcceptedAt(w, jar, lists, i)
    decreases |lists|
  {
    VerifySucceedsIff(w, jar, lists);
    places := [];
    if lists != [] && NoneRaises(w, jar, lists) {
      var n, front := |lists| - 1, lists[..|lists| - 1];
      NoneRaisesNext(w, jar, lists);
      VerifySucceedsIff(w, jar, front);
      places := VerdictsAreTheAccepted(w, jar, front);
      var verdicts := VerifyEach(w, jar, front).1.value;
      LastVerdict(w, jar, lists, verdicts);
      if AcceptedAt(w, jar, lists, n) {
        OnePlaceMore(lists, places, verdicts);
        places := places + [n];
      }
    }
  }

  // ---- From an entity to its verified chains ----

  /** What one verified chain guarantees: it is the statements of a maximal hint path, topmost first, followed by the
      leaf's configuration; every statement is signed by a key that traces back to the initial jar; and the caches
      can rebuild it from its issuer path. */
  ghost predicate Resolved(s: Setting, initial: Jar, pool: set<Jws>, c: Caches, entity: Entity, leaf: Jws, v: Verdict)
    requires leaf.Jws?
  {
    v.statements == Payloads(v.tokens) && AllVouched(s.world, initial, pool, v.statements) &&
    (exists path, along :: HintPath(s, entity, leaf, path, along) && v.tokens == Reverse(along) + [leaf]) &&
    forall anchor ::
      var rebuilt := ChainItems(c, IssuerPath(v.statements), anchor, false);
      rebuilt.Ok? && ReversedItems(rebuilt.value, v.tokens)
  }

  lemma ExtendedChainResolves(s: Setting, rank: Ranking, c: Caches, entity: Entity, tree: Tree, leaf: Jws, k: nat)
    requires RankedFrom(s, rank, entity) && Collected(s, rank, entity) == Ok((tree, leaf)) && AllSignAsThemselves(s, rank)
    requires leaf.Jws? && Stored(c.statements, entity, tree) && Lookup(c.configurations, entity) == Some(Dictionary(leaf))
    requires k < |Chains(tree)|
    ensures var tokens := Chains(tree)[k] + [leaf];
            (exists path, along :: HintPath(s, entity, leaf, path, along) && tokens == Reverse(along) + [leaf]) &&
            forall anchor ::
              var rebuilt := ChainItems(c, IssuerPath(Payloads(tokens)), anchor, false);
              rebuilt.Ok? && ReversedItems(rebuilt.value, tokens)
  {
    var hints := Hints(s, leaf);
    assert entity in Asked(s, rank) && AllAsked(s, rank, hints);
    TreeIsIssuedAsAsked(s, rank, rank.of(entity), entity, hints);
    var paths := ChainsAreHintPaths(s, rank, entity, tree, leaf);
    ReverseTwice(Chains(tree)[k]);
    assert HintPath(s, entity, leaf, paths[k], Reverse(Chains(tree)[k]));
    forall anchor
      ensures ChainItems(c, IssuerPath(Payloads(Chains(tree)[k] + [leaf])), anchor, false).Ok?
      ensures ReversedItems(ChainItems(c, IssuerPath(Payloads(Chains(tree)[k] + [leaf])), anchor, false).value, Chains(tree)[k] + [leaf])
    {
      ChainRoundTrip(c, entity, tree, leaf, k, anchor);
    }
  }

  // ---- When a collected chain links up ----

  /** Going up: each statement is about the one below it, the first about `entity`. */
  ghost predicate LinkedUp(entity: Entity, along: seq<Jws>)
    requires AllJws(along)
    decreases |along|
  {
    along == [] || (along[0].payload.sub == entity && LinkedUp(along[0].payload.iss, along[1..]))
  }

  lemma {:induction false} HintPathIsSigned(s: Setting, entity: Entity, config: Jws, path: seq<Entity>, along: seq<Jws>)
    requires HintPath(s, entity, config, path, along)
    ensures AllJws(along) && |along| <= |path|
    decreases |path|
  {
    if along != [] {
      var above :| Followed(s, entity, path[0], along[0], above) && HintPath(s, path[0], above, path[1..], along[1..]);
      HintPathIsSigned(s, path[0], above, path[1..], along[1..]);
      assert along == [along[0]] + along[1..];
    }
  }

  lemma {:induction false} LinkedUpAt(entity: Entity, along: seq<Jws>)
    requires AllJws(along)
    ensures LinkedUp(entity, along) <==>
            forall j :: 0 <= j < |along| ==> along[j].payload.sub == PathOf(entity, along)[j]
    decreases |along|
  {
    if along != [] {
      var next := along[0].payload.iss;
      LinkedUpAt(next, along[1..]);
      assert forall j :: 0 <= j < |along| - 1 ==> PathOf(next, along[1..])[j] == PathOf(entity, along)[j + 1];
      if LinkedUp(entity, along) {
        forall j | 0 <= j < |along|
          ensures along[j].payload.sub == PathOf(entity, along)[j]
        {
          if j > 0 {
            assert along[1..][j - 1] == along[j];
          }
        }
      }
      if forall j :: 0 <= j < |along| ==> along[j].payload.sub == PathOf(entity, along)[j] {
        forall j | 0 <= j < |along| - 1
          ensures along[1..][j].payload.sub == PathOf(next, along[1..])[j]
        {
          assert along[1..][j] == along[j + 1];
        }
      }
    }
  }

  /** The payloads of the extended list, from the bottom up. */
  lemma ExtendedPayloads(along: seq<Jws>, leaf: Jws)
    requires AllJws(along) && leaf.Jws?
    ensures var down := Payloads(Reverse(along) + [leaf]); var n := |along|;
            |down| == n + 1 && (forall j :: 0 <= j < n ==> down[n - 1 - j] == along[j].payload) &&
            forall j :: 0 <= j <= n ==> down[n - j].iss == PathOf(leaf.payload.iss, along)[j]
  {
    var n, extended := |along|, Reverse(along) + [leaf];
    forall t | t in extended
      ensures t.Jws?
    {
      var i :| 0 <= i < |extended| && extended[i] == t;
      assert i < n ==> extended[i] == along[n - 1 - i];
    }
    PayloadsAt(extended);
    forall j | 0 <= j <= n
      ensures Payloads(extended)[n - j].iss == PathOf(leaf.payload.iss, along)[j]
    {
      assert extended[n - j] == if j == 0 then leaf else along[j - 1];
    }
  }

  /** The extended list links up from the top down exactly when its statements link up from the leaf. */
  lemma LinkedBothWays(along: seq<Jws>, leaf: Jws)
    requires AllJws(along) && leaf.Jws?
    ensures Linked(Payloads(Reverse(along) + [leaf])) <==> LinkedUp(leaf.payload.iss, along)
  {
    var n, down, up := |along|, Payloads(Reverse(along) + [leaf]), PathOf(leaf.payload.iss, along);
    ExtendedPayloads(along, leaf);
    LinkedUpAt(leaf.payload.iss, along);
    if Linked(down) {
      forall j | 0 <= j < n
        ensures along[j].payload.sub == up[j]
      {
        assert down[n - 1 - j].sub == down[n - 1 - j + 1].iss;
      }
    }
    if forall j :: 0 <= j < n ==> along[j].payload.sub == up[j] {
      forall i | 0 <= i < |down| - 1
        ensures down[i].sub == down[i + 1].iss
      {
        assert along[n - 1 - i].payload.sub == up[n - 1 - i];
      }
    }
  }

  /** A collected chain, of statements signed in the name of the authority asked, links up if and only if every one of them
      is about the entity asked about. */
  lemma {:induction false} CollectedLinksIff(s: Setting, entity: Entity, leaf: Jws, path: seq<Entity>, along: seq<Jws>)
    requires HintPath(s, entity, leaf, path, along) && leaf.payload.iss == entity
    requires forall j :: 0 <= j < |along| && j < |path| && along[j].Jws? ==> along[j].payload.iss == path[j]
    ensures AllJws(along) && |along| <= |path|
    ensures Linked(Payloads(Reverse(along) + [leaf])) <==>
            forall j :: 0 <= j < |along| ==> along[j].payload.sub == if j == 0 then entity else path[j - 1]
  {
    HintPathIsSigned(s, entity, leaf, path, along);
    LinkedBothWays(along, leaf);
    LinkedUpAt(entity, along);
    assert forall j :: 0 <= j < |along| ==> PathOf(entity, along)[j] == if j == 0 then entity else path[j - 1];
  }

  /** The verdicts on the chains collected for an entity, and the jar they leave. */
  ghost function Outcomes(x: Session, rank: Ranking, entity: Entity, jar: Jar): (Jar, Result<seq<Verdict>>)
    requires RankedFrom(x.setting, rank, entity)
  {
    match Collected(x.setting, rank, entity)
    case Failure => (jar, Failure)
    case Ok((tree, leaf)) => VerifyEach(x.setting.world, jar, AppendToAll(Chains(tree), leaf))
  }

  /** What the caller sees to: a collector in a consistent state, a network that is fresh, plain and honest about names
      where it is asked, and tokens from a pool. */
  ghost predicate Resolvable(collector: TrustChainCollector, verifier: TrustChainVerifier, x: Session, rank: Ranking,
          entity: Entity, initial: Jar, pool: set<Jws>)
    reads collector`fetched, collector.configCache, collector.statementCache, verifier.keyJar
  {
    collector.Valid() && verifier.world == collector.world == x.setting.world && Ready(x.setting.world, collector.State()) &&
    RankedFrom(x.setting, rank, entity) && Served(x, rank) && AllSignAsThemselves(x.setting, rank) &&
    AllEndorsed(verifier.world, initial, pool, verifier.keyJar.issuers) &&
    (Collected(x.setting, rank, entity).Ok? ==>
       var (tree, leaf) := Collected(x.setting, rank, entity).value; Presented(AppendToAll(Chains(tree), leaf), pool))
  }

  lemma VerdictsAreResolved(x: Session, rank: Ranking, entity: Entity, jar: Jar, initial: Jar, pool: set<Jws>, c: Caches)
    requires RankedFrom(x.setting, rank, entity) && Collected(x.setting, rank, entity).Ok? && AllSignAsThemselves(x.setting, rank)
    requires var (tree, leaf) := Collected(x.setting, rank, entity).value;
      leaf.Jws? && Stored(c.statements, entity, tree) && Lookup(c.configurations, entity) == Some(Dictionary(leaf)) &&
      Presented(AppendToAll(Chains(tree), leaf), pool)
    requires AllEndorsed(x.setting.world, initial, pool, jar)
    ensures var (after, verdicts) := Outcomes(x, rank, entity, jar);
            Grown(jar, after) && AllEndorsed(x.setting.world, initial, pool, after) &&
            (verdicts.Ok? ==> forall v :: v in verdicts.value ==>
               Resolved(x.setting, initial, pool, c, entity, Collected(x.setting, rank, entity).value.1, v))
  {
    var s := x.setting;
    var (tree, leaf) := Collected(s, rank, entity).value;
    var lists := AppendToAll(Chains(tree), leaf);
    VerifyEachIsSafe(s.world, initial, pool, jar, lists);
    var verdicts := VerifyEach(s.world, jar, lists).1;
    if verdicts.Ok? {
      forall v | v in verdicts.value
        ensures Resolved(s, initial, pool, c, entity, leaf, v)
      {
        var k :| 0 <= k < |lists| && lists[k] == v.tokens;
        ExtendedChainResolves(s, rank, c, entity, tree, leaf, k);
      }
    }
  }

  /** `get_verified_trust_chains` before policies are applied. */
  method VerifiedTrustChains(collector: TrustChainCollector, verifier: TrustChainVerifier, entity: Entity,
                             stopAt: Entity, now: int, ghost rank: Ranking, ghost initial: Jar, ghost pool: set<Jws>)
    returns (ok: bool, res: seq<TrustChain>)
    requires Resolvable(collector, verifier, collector.SessionAt(stopAt, now), rank, entity, initial, pool)
    modifies collector.configCache, collector.statementCache, collector`fetched, verifier.keyJar
    ensures Grew(collector.world, old(collector.State()), collector.State())
    ensures Grown(old(verifier.keyJar.issuers), verifier.keyJar.issuers)
    ensures AllEndorsed(verifier.world, initial, pool, verifier.keyJar.issuers)
    ensures var x := collector.SessionAt(stopAt, now);
            var (jar, verdicts) := Outcomes(x, rank, entity, old(verifier.keyJar.issuers));
            verifier.keyJar.issuers == jar && (ok <==> verdicts.Ok?) &&
            (ok ==> AllRecorded(res, verdicts.value) && Collected(x.setting, rank, entity).value.1.Jws? &&
                    forall v :: v in verdicts.value ==>
                      Resolved(x.setting, initial, pool, collector.Contents(), entity, Collected(x.setting, rank, entity).value.1, v))
    ensures DifferentChains(res) && fresh(res)
  {
    ghost var x := collector.SessionAt(stopAt, now);
    ghost var jar := verifier.keyJar.issuers;
    assert entity in Asked(x.setting, rank);
    ConsistentIsKept(collector.world, collector.Contents());
    CollectIsTransparent(x, rank, collector.State(), rank.of(entity), entity);
    var collected, chains, leaf := collector.CollectTrustChains(entity, stopAt, now, rank.of(entity));
    if !collected {
      return false, [];
    }
    VerdictsAreResolved(x, rank, entity, jar, initial, pool, collector.Contents());
    ok, res := VerifyTrustChains(verifier, chains, leaf, Chains(Collected(x.setting, rank, entity).value.0));
  }

  // ---- Policies ----

  /** `apply_policies`: the chains one after the other, until one raises. */
  method ApplyPolicies(policy: TrustChainPolicy, chains: seq<TrustChain>, ghost verified: seq<seq<EntityStatement>>)
    returns (ok: bool)
    requires Progressing(policy.operators) && DifferentChains(chains) && |verified| == |chains|
    requires forall i :: 0 <= i < |chains| ==> chains[i].verifiedChain == verified[i]
    modifies chains
    ensures ok <==> forall i :: 0 <= i < |chains| ==> policy.AllApplicable(verified[i])
    ensures ok ==> forall i :: 0 <= i < |chains| && |verified[i]| > 1 ==> policy.AllProcessed(chains[i].metadata, verified[i])
    ensures forall i :: 0 <= i < |chains| ==>
      chains[i].anchor == old(chains[i].anchor) && chains[i].exp == old(chains[i].exp) &&
      chains[i].issPath == old(chains[i].issPath) && chains[i].chain == old(chains[i].chain)
  {
    var i := 0;
    while i < |chains|
      invariant 0 <= i <= |chains|
      invariant forall j :: i <= j < |chains| ==> chains[j].verifiedChain == verified[j]
      invariant forall j :: 0 <= j < i ==> policy.AllApplicable(verified[j])
      invariant forall j :: 0 <= j < i && |verified[j]| > 1 ==> policy.AllProcessed(chains[j].metadata, verified[j])
      invariant forall j :: 0 <= j < |chains| ==>
        chains[j].anchor == old(chains[j].anchor) && chains[j].exp == old(chains[j].exp) &&
        chains[j].issPath == old(chains[j].issPath) && chains[j].chain == old(chains[j].chain)
    {
      ok := policy.ProcessAll(chains[i]);
      if !ok {
        return;
      }
      i := i + 1;
    }
    ok := true;
  }

  lemma {:induction false} ProcessedComplies(policy: TrustChainPolicy, metadata: map<string, Option<Claims>>,
          verified: seq<EntityStatement>)
    requires policy.operators == BUILTIN && Progressing(BUILTIN) && |verified| > 1 && policy.AllProcessed(metadata, verified)
    ensures Complies(metadata, verified)
  {
    var n := |verified| - 1;
    var superiors, leaf := verified[..n], verified[n];
    forall t | t in leaf.metadata
      ensures t in metadata && metadata[t].Some?
      ensures Gather(Parts(superiors, t)).Ok?
      ensures Apply(leaf.metadata[t], Gather(Parts(superiors, t)).value, BUILTIN) == Ok(metadata[t].value)
    {
      assert policy.Processed(metadata, superiors, leaf, t);
      assert Lookup(metadata, t).Some?;
    }
    forall t, c | t in leaf.metadata
      ensures ResolvesTo(superiors, leaf, t, c, Lookup(metadata[t].value, c))
    {
      ResultResolves(superiors, leaf, t, metadata[t].value, c);
    }
    forall t, i, c | t in leaf.metadata && 0 <= i < n && Restricts(verified[i], t, c) && OrdinaryClaim(superiors, leaf, t, c)
      ensures var p := verified[i].metadataPolicy[t][c];
              Satisfies(metadata[t].value, c, p) <==> GivenValuesObeyAt(superiors, t, c, p)
    {
      assert superiors[i] == verified[i];
      StatementIsObeyedIff(superiors, leaf, t, metadata[t].value, i, c);
    }
  }

  lemma ApplicableIff(policy: TrustChainPolicy, verified: seq<EntityStatement>)
    requires policy.operators == BUILTIN && Progressing(BUILTIN)
    ensures policy.AllApplicable(verified) <==> Processable(verified)
  {
    if |verified| > 1 {
      var n := |verified| - 1;
      forall t | t in verified[n].metadata
        ensures policy.Applicable(verified[..n], verified[n], t) <==>
                Gatherable(verified[..n], t) && forall c :: Resolves(verified[..n], verified[n], t, c)
      {
        ResolvesIff(verified[..n], verified[n], t);
      }
    }
  }

  /** The record of a chain that was accepted and processed. */
  ghost predicate Delivered(s: Setting, initial: Jar, pool: set<Jws>, c: Caches, entity: Entity, leaf: Jws, v: Verdict,
          chain: TrustChain)
    requires leaf.Jws?
    reads chain
  {
    chain.chain == v.tokens && chain.issPath == IssuerPath(v.statements) && Resolved(s, initial, pool, c, entity, leaf, v) &&
    (|v.statements| > 1 ==> Progressing(BUILTIN) && Complies(chain.metadata, v.statements))
  }

  /** Applying policies to accepted chains delivers them. */
  method ApplyPoliciesTo(policy: TrustChainPolicy, res: seq<TrustChain>, ghost verdicts: seq<Verdict>, ghost s: Setting,
                         ghost initial: Jar, ghost pool: set<Jws>, ghost c: Caches, ghost entity: Entity, ghost leaf: Jws)
    returns (ok: bool)
    requires policy.operators == BUILTIN && Progressing(BUILTIN) && leaf.Jws?
    requires AllRecorded(res, verdicts) && DifferentChains(res)
    requires forall v :: v in verdicts ==> Resolved(s, initial, pool, c, entity, leaf, v)
    modifies res
    ensures ok <==> forall v :: v in verdicts ==> Processable(v.statements)
    ensures ok ==> |res| == |verdicts| &&
                   forall i :: 0 <= i < |res| ==> Delivered(s, initial, pool, c, entity, leaf, verdicts[i], res[i])
  {
    ghost var verified := seq(|res|, i requires 0 <= i < |res| => verdicts[i].statements);
    assert forall i :: 0 <= i < |res| ==> Records(res[i], verdicts[i]);
    ApplicableEach(policy, verdicts, verified);
    ok := ApplyPolicies(policy, res, verified);
    if !ok {
      return;
    }
    forall i | 0 <= i < |res|
      ensures Delivered(s, initial, pool, c, entity, leaf, verdicts[i], res[i])
    {
      assert verdicts[i] in verdicts;
      if |verified[i]| > 1 {
        ProcessedComplies(policy, res[i].metadata, verified[i]);
      }
    }
  }

  /** `get_verified_trust_chains`: succeeds exactly when collecting, verifying and processing do. The chains returned are the
      accepted ones, in order; each is resolved, and the metadata of every entity type comply with its superiors. */
  method GetVerifiedTrustChains(collector: TrustChainCollector, verifier: TrustChainVerifier, policy: TrustChainPolicy,
                                entity: Entity, stopAt: Entity, now: int,
                                ghost rank: Ranking, ghost initial: Jar, ghost pool: set<Jws>)
    returns (ok: bool, res: seq<TrustChain>)
    requires Resolvable(collector, verifier, collector.SessionAt(stopAt, now), rank, entity, initial, pool)
    requires policy.operators == BUILTIN && Progressing(BUILTIN)
    modifies collector.configCache, collector.statementCache, collector`fetched, verifier.keyJar
    ensures Grew(collector.world, old(collector.State()), collector.State())
    ensures Grown(old(verifier.keyJar.issuers), verifier.keyJar.issuers)
    ensures AllEndorsed(verifier.world, initial, pool, verifier.keyJar.issuers)
    ensures var x := collector.SessionAt(stopAt, now);
            var (jar, verdicts) := Outcomes(x, rank, entity, old(verifier.keyJar.issuers));
            verifier.keyJar.issuers == jar &&
            (ok <==> verdicts.Ok? && forall v :: v in verdicts.value ==> Processable(v.statements)) &&
            (ok ==> |res| == |verdicts.value| && Collected(x.setting, rank, entity).value.1.Jws? &&
                    forall i :: 0 <= i < |res| ==>
                      Delivered(x.setting, initial, pool, collector.Contents(), entity,
                                Collected(x.setting, rank, entity).value.1, verdicts.value[i], res[i]))
  {
    ghost var x := collector.SessionAt(stopAt, now);
    ghost var outcome := Outcomes(x, rank, entity, verifier.keyJar.issuers).1;
    ok, res := VerifiedTrustChains(collector, verifier, entity, stopAt, now, rank, initial, pool);
    if !ok {
      return;
    }
    ok := ApplyPoliciesTo(policy, res, outcome.value, x.setting, initial, pool, collector.Contents(), entity,
                          Collected(x.setting, rank, entity).value.1);
  }

  lemma ApplicableEach(policy: TrustChainPolicy, verdicts: seq<Verdict>, verified: seq<seq<EntityStatement>>)
    requires policy.operators == BUILTIN && Progressing(BUILTIN) && |verified| == |verdicts|
    requires forall i :: 0 <= i < |verdicts| ==> verified[i] == verdicts[i].statements
    ensures (forall v :: v in verdicts ==> Processable(v.statements)) <==>
            forall i :: 0 <= i < |verified| ==> policy.AllApplicable(verified[i])
  {
    assert forall i :: 0 <= i < |verdicts| ==> verdicts[i] in verdicts;
    forall v | v in verdicts
      ensures policy.AllApplicable(v.statements) <==> Processable(v.statements)
    {
      ApplicableIff(policy, v.statements);
    }
  }
}
