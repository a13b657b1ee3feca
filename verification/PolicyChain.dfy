/** Gathering the policies of a chain and applying the gathered policy: `combine`, `gather_policies`, `apply_policy` in
    policy.py. */
module PolicyChain {
  import opened Wrappers
  import opened Statements
  import opened ClaimPolicies
  import opened ClaimFold
  import opened PolicyOperators

  /** The part of a statement that concerns one entity type. */
  function PartFor(es: EntityStatement, entityType: string): TypePolicy {
    TypePolicy(if entityType in es.metadata then es.metadata[entityType] else map[],
               if entityType in es.metadataPolicy then es.metadataPolicy[entityType] else map[])
  }

  function Parts(chain: seq<EntityStatement>, entityType: string): (parts: seq<TypePolicy>)
    ensures |parts| == |chain|
  {
    seq(|chain|, i requires 0 <= i < |chain| => PartFor(chain[i], entityType))
  }

  predicate Agree(m: Claims, n: Claims) {
    forall c :: c in m && c in n ==> m[c] == n[c]
  }

  function CombineMetadata(superior: Claims, subordinate: Claims): Result<Claims> {
    if Agree(superior, subordinate) then Ok(superior + subordinate) else Failure
  }

  function CombinePolicies(superior: Policies, subordinate: Policies): Result<Policies> {
    if exists c :: c in superior && c in subordinate && CombineClaim(superior[c], subordinate[c]).Failure? then
      Failure
    else
      Ok(map c | c in superior.Keys + subordinate.Keys ::
           if c !in subordinate then superior[c]
           else if c !in superior then subordinate[c]
           else CombineClaim(superior[c], subordinate[c]).value)
  }

  /** `combine`: metadata must agree where both set it, policies are combined claim by claim. */
  function Combine(superior: TypePolicy, subordinate: TypePolicy): Result<TypePolicy> {
    var metadata :- CombineMetadata(superior.metadata, subordinate.metadata);
    var policy :- CombinePolicies(superior.policy, subordinate.policy);
    Ok(TypePolicy(metadata, policy))
  }

  predicate Overlaps(part: TypePolicy) {
    part.metadata.Keys * part.policy.Keys != {}
  }

  function GatherNext(rule: TypePolicy, part: TypePolicy): Result<TypePolicy> {
    if part == NO_POLICY then Ok(rule)
    else if Overlaps(part) then Failure
    else Combine(rule, part)
  }

  /** `gather_policies` on the parts for one entity type; `chain[0]` of an empty chain raises. */
  function Gather(chain: seq<TypePolicy>): Result<TypePolicy> {
    if chain == [] then
      Failure
    else if |chain| == 1 then
      Ok(chain[0])
    else
      var rule :- Gather(chain[..|chain| - 1]);
      GatherNext(rule, chain[|chain| - 1])
  }

  // ---- Gathering is claim by claim ----

  /** The policies the chain has for one claim, superior first. */
  function Mentions(chain: seq<TypePolicy>, c: string): seq<ClaimPolicy> {
    if chain == [] then
      []
    else
      var last := chain[|chain| - 1];
      Mentions(chain[..|chain| - 1], c) + (if c in last.policy then [last.policy[c]] else [])
  }

  ghost predicate MetadataAgrees(chain: seq<TypePolicy>) {
    forall i, j :: 0 <= i < j < |chain| ==> Agree(chain[i].metadata, chain[j].metadata)
  }

  /** The topmost statement is not checked for overlap; the others are. */
  ghost predicate NoOverlapBelowTop(chain: seq<TypePolicy>) {
    forall i :: 1 <= i < |chain| ==> !Overlaps(chain[i])
  }

  ghost predicate EveryClaimFolds(chain: seq<TypePolicy>) {
    forall c :: Mentions(chain, c) != [] ==> Fold(Mentions(chain, c)).Ok?
  }

  ghost predicate PolicyIsFold(policy: Policies, chain: seq<TypePolicy>) {
    forall c :: (c in policy <==> Mentions(chain, c) != []) &&
                (c in policy ==> Fold(Mentions(chain, c)) == Ok(policy[c]))
  }

  ghost predicate Sets(chain: seq<TypePolicy>, c: string) {
    exists i :: 0 <= i < |chain| && c in chain[i].metadata
  }

  ghost predicate MetadataIsUnion(metadata: Claims, chain: seq<TypePolicy>) {
    (forall c :: c in metadata <==> Sets(chain, c)) &&
    (forall i :: 0 <= i < |chain| ==> Agree(chain[i].metadata, metadata))
  }

  lemma MentionsNext(front: seq<TypePolicy>, part: TypePolicy, c: string)
    ensures Mentions(front + [part], c) == Mentions(front, c) + (if c in part.policy then [part.policy[c]] else [])
  {
    assert (front + [part])[..|front|] == front;
  }

  lemma FoldNext(ps: seq<ClaimPolicy>, p: ClaimPolicy)
    requires ps != []
    ensures Fold(ps + [p]) == if Fold(ps).Ok? then CombineClaim(Fold(ps).value, p) else Failure
  {
    assert (ps + [p])[..|ps|] == ps;
  }

  lemma NextPolicies(front: seq<TypePolicy>, policy: Policies, part: TypePolicy)
    requires PolicyIsFold(policy, front) && EveryClaimFolds(front)
    ensures CombinePolicies(policy, part.policy).Ok? <==> EveryClaimFolds(front + [part])
    ensures CombinePolicies(policy, part.policy).Ok? ==>
      PolicyIsFold(CombinePolicies(policy, part.policy).value, front + [part])
  {
    forall c
      ensures Mentions(front + [part], c) == Mentions(front, c) + (if c in part.policy then [part.policy[c]] else [])
      ensures Mentions(front, c) != [] && c in part.policy ==>
        Fold(Mentions(front + [part], c)) == CombineClaim(policy[c], part.policy[c])
      ensures Mentions(front, c) == [] && c in part.policy ==> Fold(Mentions(front + [part], c)) == Ok(part.policy[c])
      ensures c !in part.policy ==> Mentions(front + [part], c) == Mentions(front, c)
    {
      MentionsNext(front, part, c);
      if Mentions(front, c) != [] && c in part.policy {
        FoldNext(Mentions(front, c), part.policy[c]);
      }
    }
    if CombinePolicies(policy, part.policy).Failure? {
      var c :| c in policy && c in part.policy && CombineClaim(policy[c], part.policy[c]).Failure?;
      assert Fold(Mentions(front + [part], c)).Failure?;
    }
  }

  lemma SetsNext(front: seq<TypePolicy>, part: TypePolicy, c: string)
    ensures Sets(front + [part], c) <==> Sets(front, c) || c in part.metadata
  {
    var chain := front + [part];
    assert chain[|front|] == part;
    if i :| 0 <= i < |front| && c in front[i].metadata {
      assert chain[i] == front[i];
    }
  }

  lemma AgreementNext(front: seq<TypePolicy>, metadata: Claims, part: TypePolicy)
    requires MetadataIsUnion(metadata, front) && MetadataAgrees(front)
    ensures Agree(metadata, part.metadata) <==> MetadataAgrees(front + [part])
  {
    var chain := front + [part];
    assert chain[|front|] == part;
    if Agree(metadata, part.metadata) {
      forall i, j | 0 <= i < j < |chain|
        ensures Agree(chain[i].metadata, chain[j].metadata)
      {
        assert chain[i] == front[i];
        if j < |front| {
          assert chain[j] == front[j];
        } else {
          forall c | c in front[i].metadata && c in part.metadata
            ensures front[i].metadata[c] == part.metadata[c]
          {
            assert Sets(front, c) && Agree(front[i].metadata, metadata);
          }
        }
      }
    } else {
      var c :| c in metadata && c in part.metadata && metadata[c] != part.metadata[c];
      assert Sets(front, c);
      var i :| 0 <= i < |front| && c in front[i].metadata;
      assert Agree(front[i].metadata, metadata) && chain[i] == front[i];
      assert !Agree(chain[i].metadata, chain[|front|].metadata);
    }
  }

  lemma AgreeNext(front: seq<TypePolicy>, metadata: Claims, part: TypePolicy, i: nat)
    requires i <= |front| && Agree(metadata, part.metadata)
    requires i < |front| ==> Agree(front[i].metadata, metadata) && front[i].metadata.Keys <= metadata.Keys
    ensures Agree((front + [part])[i].metadata, metadata + part.metadata)
  {
    assert (front + [part])[i] == if i < |front| then front[i] else part;
  }

  lemma UnionNext(front: seq<TypePolicy>, metadata: Claims, part: TypePolicy)
    requires MetadataIsUnion(metadata, front) && Agree(metadata, part.metadata)
    ensures MetadataIsUnion(metadata + part.metadata, front + [part])
  {
    forall c
      ensures c in metadata + part.metadata <==> Sets(front + [part], c)
    {
      SetsNext(front, part, c);
    }
    forall i | 0 <= i < |front + [part]|
      ensures Agree((front + [part])[i].metadata, metadata + part.metadata)
    {
      assert i < |front| ==> forall c :: c in front[i].metadata ==> Sets(front, c);
      AgreeNext(front, metadata, part, i);
    }
  }

  lemma NextRule(rule: TypePolicy, part: TypePolicy)
    ensures GatherNext(rule, part).Ok? <==>
      !Overlaps(part) && Agree(rule.metadata, part.metadata) && CombinePolicies(rule.policy, part.policy).Ok?
    ensures GatherNext(rule, part).Ok? ==>
      GatherNext(rule, part).value == TypePolicy(rule.metadata + part.metadata, CombinePolicies(rule.policy, part.policy).value)
  {
    if part == NO_POLICY {
      assert rule.metadata + map[] == rule.metadata;
      assert CombinePolicies(rule.policy, map[]).value == rule.policy;
    }
  }

  /** `gather_policies` succeeds if and only if the statements agree on metadata, none below the top sets a claim
      it also has a policy for, and the policies of every single claim can be folded; the result is then the
      union of the metadata and, claim by claim, those folds. */
  lemma {:induction false} GatherIsClaimwise(chain: seq<TypePolicy>)
    requires chain != []
    ensures Gather(chain).Ok? <==> MetadataAgrees(chain) && NoOverlapBelowTop(chain) && EveryClaimFolds(chain)
    ensures Gather(chain).Ok? ==> PolicyIsFold(Gather(chain).value.policy, chain) && MetadataIsUnion(Gather(chain).value.metadata, chain)
  {
    var front, part := chain[..|chain| - 1], chain[|chain| - 1];
    assert chain == front + [part];
    if |chain| == 1 {
      OnePart(part);
    } else {
      GatherIsClaimwise(front);
      if Gather(front).Ok? {
        GatherStep(front, Gather(front).value, part);
      } else {
        FrontFails(front, part);
      }
    }
  }

  lemma OnePart(part: TypePolicy)
    ensures EveryClaimFolds([part]) && PolicyIsFold(part.policy, [part]) && MetadataIsUnion(part.metadata, [part])
  {
    forall c
      ensures Mentions([part], c) == if c in part.policy then [part.policy[c]] else []
    {
      MentionsNext([], part, c);
      assert [] + [part] == [part];
    }
    assert [part][0] == part;
  }

  lemma GatherStep(front: seq<TypePolicy>, rule: TypePolicy, part: TypePolicy)
    requires front != [] && MetadataAgrees(front) && NoOverlapBelowTop(front) && EveryClaimFolds(front)
    requires PolicyIsFold(rule.policy, front) && MetadataIsUnion(rule.metadata, front)
    ensures var chain := front + [part];
            (GatherNext(rule, part).Ok? <==> MetadataAgrees(chain) && NoOverlapBelowTop(chain) && EveryClaimFolds(chain)) &&
            (GatherNext(rule, part).Ok? ==> PolicyIsFold(GatherNext(rule, part).value.policy, chain) &&
                                            MetadataIsUnion(GatherNext(rule, part).value.metadata, chain))
  {
    NextPolicies(front, rule.policy, part);
    AgreementNext(front, rule.metadata, part);
    if Agree(rule.metadata, part.metadata) {
      UnionNext(front, rule.metadata, part);
    }
    OverlapNext(front, part);
    NextRule(rule, part);
  }

  lemma OverlapNext(front: seq<TypePolicy>, part: TypePolicy)
    requires front != [] && NoOverlapBelowTop(front)
    ensures NoOverlapBelowTop(front + [part]) <==> !Overlaps(part)
  {
    var chain := front + [part];
    assert chain[|front|] == part;
    assert forall i :: 0 <= i < |front| ==> chain[i] == front[i];
  }

  lemma FrontFails(front: seq<TypePolicy>, part: TypePolicy)
    requires !(MetadataAgrees(front) && NoOverlapBelowTop(front) && EveryClaimFolds(front))
    ensures var chain := front + [part]; !(MetadataAgrees(chain) && NoOverlapBelowTop(chain) && EveryClaimFolds(chain))
  {
    var chain := front + [part];
    if !MetadataAgrees(front) {
      var i, j :| 0 <= i < j < |front| && !Agree(front[i].metadata, front[j].metadata);
      assert chain[i] == front[i] && chain[j] == front[j];
    } else if !NoOverlapBelowTop(front) {
      var i :| 1 <= i < |front| && Overlaps(front[i]);
      assert chain[i] == front[i];
    } else {
      var c :| Mentions(front, c) != [] && Fold(Mentions(front, c)).Failure?;
      MentionsNext(front, part, c);
      if c in part.policy {
        FoldNext(Mentions(front, c), part.policy[c]);
      } else {
        assert Mentions(chain, c) == Mentions(front, c);
      }
      assert Mentions(chain, c) != [] && Fold(Mentions(chain, c)).Failure?;
    }
  }

  // ---- Gathering, said of the statements ----

  predicate Restricts(es: EntityStatement, t: string, c: string) {
    t in es.metadataPolicy && c in es.metadataPolicy[t]
  }

  predicate SetsClaim(es: EntityStatement, t: string, c: string) {
    t in es.metadata && c in es.metadata[t]
  }

  /** The policies the statements have for one claim of one entity type, topmost first. */
  function PoliciesFor(chain: seq<EntityStatement>, t: string, c: string): seq<ClaimPolicy> {
    if chain == [] then
      []
    else
      var last := chain[|chain| - 1];
      PoliciesFor(chain[..|chain| - 1], t, c) +
      (if t in last.metadataPolicy && c in last.metadataPolicy[t] then [last.metadataPolicy[t][c]] else [])
  }

  /** They can be gathered: statements that set the same claim agree on it, none below the top also restricts a claim it
      sets, and the policies of every claim can be folded. */
  ghost predicate Gatherable(chain: seq<EntityStatement>, t: string) {
    chain != [] &&
    (forall i, j, c :: 0 <= i < j < |chain| && SetsClaim(chain[i], t, c) && SetsClaim(chain[j], t, c) ==>
       chain[i].metadata[t][c] == chain[j].metadata[t][c]) &&
    (forall i, c :: 1 <= i < |chain| && SetsClaim(chain[i], t, c) ==> !Restricts(chain[i], t, c)) &&
    (forall c :: PoliciesFor(chain, t, c) != [] ==> Fold(PoliciesFor(chain, t, c)).Ok?)
  }

  /** The policies gathered are exactly those for the claims that some statement restricts, each folded; the metadata are
      exactly the claims that some statement sets. */
  ghost predicate GatheredFrom(chain: seq<EntityStatement>, t: string, rule: TypePolicy) {
    (forall c :: c in rule.policy <==> exists i :: 0 <= i < |chain| && Restricts(chain[i], t, c)) &&
    (forall c :: c in rule.policy ==> PoliciesFor(chain, t, c) != [] && Fold(PoliciesFor(chain, t, c)) == Ok(rule.policy[c])) &&
    (forall c :: c in rule.metadata <==> exists i :: 0 <= i < |chain| && SetsClaim(chain[i], t, c)) &&
    (forall i, c :: 0 <= i < |chain| && SetsClaim(chain[i], t, c) ==>
       c in rule.metadata && rule.metadata[c] == chain[i].metadata[t][c])
  }

  lemma {:induction false} PoliciesAreMentions(chain: seq<EntityStatement>, t: string, c: string)
    ensures PoliciesFor(chain, t, c) == Mentions(Parts(chain, t), c)
  {
    if chain != [] {
      var front := chain[..|chain| - 1];
      PoliciesAreMentions(front, t, c);
      assert Parts(chain, t)[..|chain| - 1] == Parts(front, t);
    }
  }

  /** The policies for a claim are those of the statements that restrict it. */
  lemma {:induction false} PoliciesComeFrom(chain: seq<EntityStatement>, t: string, c: string, p: ClaimPolicy)
    ensures p in PoliciesFor(chain, t, c) <==>
            exists i :: 0 <= i < |chain| && Restricts(chain[i], t, c) && chain[i].metadataPolicy[t][c] == p
  {
    if chain != [] {
      var front, n := chain[..|chain| - 1], |chain| - 1;
      PoliciesComeFrom(front, t, c, p);
      if i :| 0 <= i < n && Restricts(front[i], t, c) && front[i].metadataPolicy[t][c] == p {
        assert chain[i] == front[i];
      }
      if i :| 0 <= i < n && Restricts(chain[i], t, c) && chain[i].metadataPolicy[t][c] == p {
        assert front[i] == chain[i];
      }
    }
  }

  lemma RestrictedIff(chain: seq<EntityStatement>, t: string, c: string)
    ensures PoliciesFor(chain, t, c) != [] <==> exists i :: 0 <= i < |chain| && Restricts(chain[i], t, c)
  {
    var ps := PoliciesFor(chain, t, c);
    if ps != [] {
      assert ps[0] in ps;
      PoliciesComeFrom(chain, t, c, ps[0]);
    }
    if i :| 0 <= i < |chain| && Restricts(chain[i], t, c) {
      PoliciesComeFrom(chain, t, c, chain[i].metadataPolicy[t][c]);
    }
  }

  lemma SetIff(chain: seq<EntityStatement>, t: string, c: string)
    ensures Sets(Parts(chain, t), c) <==> exists i :: 0 <= i < |chain| && SetsClaim(chain[i], t, c)
  {
    var parts := Parts(chain, t);
    if i :| 0 <= i < |parts| && c in parts[i].metadata {
      assert SetsClaim(chain[i], t, c);
    }
    if i :| 0 <= i < |chain| && SetsClaim(chain[i], t, c) {
      assert c in parts[i].metadata;
    }
  }

  lemma PartsAt(chain: seq<EntityStatement>, t: string, i: nat, c: string)
    requires i < |chain|
    ensures SetsClaim(chain[i], t, c) <==> c in Parts(chain, t)[i].metadata
    ensures SetsClaim(chain[i], t, c) ==> Parts(chain, t)[i].metadata[c] == chain[i].metadata[t][c]
    ensures Restricts(chain[i], t, c) <==> c in Parts(chain, t)[i].policy
  {
  }

  lemma PartsAgree(chain: seq<EntityStatement>, t: string)
    ensures MetadataAgrees(Parts(chain, t)) <==>
            forall i, j, c :: 0 <= i < j < |chain| && SetsClaim(chain[i], t, c) && SetsClaim(chain[j], t, c) ==>
              chain[i].metadata[t][c] == chain[j].metadata[t][c]
  {
    var parts := Parts(chain, t);
    if !MetadataAgrees(parts) {
      var i, j :| 0 <= i < j < |parts| && !Agree(parts[i].metadata, parts[j].metadata);
      var c :| c in parts[i].metadata && c in parts[j].metadata && parts[i].metadata[c] != parts[j].metadata[c];
      PartsAt(chain, t, i, c);
      PartsAt(chain, t, j, c);
    } else {
      forall i, j, c | 0 <= i < j < |chain| && SetsClaim(chain[i], t, c) && SetsClaim(chain[j], t, c)
        ensures chain[i].metadata[t][c] == chain[j].metadata[t][c]
      {
        PartsAt(chain, t, i, c);
        PartsAt(chain, t, j, c);
        assert Agree(parts[i].metadata, parts[j].metadata);
      }
    }
  }

  lemma PartsOverlap(chain: seq<EntityStatement>, t: string, i: nat)
    requires i < |chain|
    ensures Overlaps(Parts(chain, t)[i]) <==> exists c :: SetsClaim(chain[i], t, c) && Restricts(chain[i], t, c)
  {
    var part := Parts(chain, t)[i];
    if Overlaps(part) {
      var c :| c in part.metadata.Keys * part.policy.Keys;
      PartsAt(chain, t, i, c);
    }
    if c :| SetsClaim(chain[i], t, c) && Restricts(chain[i], t, c) {
      PartsAt(chain, t, i, c);
      assert c in part.metadata.Keys * part.policy.Keys;
    }
  }

  /** `gather_policies`, said of the statements alone: when it succeeds, and what it then gives. */
  lemma {:induction false} GatheredFromStatements(chain: seq<EntityStatement>, t: string)
    ensures Gather(Parts(chain, t)).Ok? <==> Gatherable(chain, t)
    ensures Gatherable(chain, t) ==> GatheredFrom(chain, t, Gather(Parts(chain, t)).value)
  {
    if chain != [] {
      var parts := Parts(chain, t);
      GatherIsClaimwise(parts);
      PartsAgree(chain, t);
      forall i | 0 <= i < |chain|
        ensures Overlaps(parts[i]) <==> exists c :: SetsClaim(chain[i], t, c) && Restricts(chain[i], t, c)
      {
        PartsOverlap(chain, t, i);
      }
      forall c
        ensures PoliciesFor(chain, t, c) == Mentions(parts, c)
        ensures PoliciesFor(chain, t, c) != [] <==> exists i :: 0 <= i < |chain| && Restricts(chain[i], t, c)
        ensures Sets(parts, c) <==> exists i :: 0 <= i < |chain| && SetsClaim(chain[i], t, c)
      {
        PoliciesAreMentions(chain, t, c);
        RestrictedIff(chain, t, c);
        SetIff(chain, t, c);
      }
      if Gatherable(chain, t) {
        GatheredMetadata(chain, t, Gather(parts).value);
      }
    }
  }

  lemma GatheredMetadata(chain: seq<EntityStatement>, t: string, rule: TypePolicy)
    requires MetadataIsUnion(rule.metadata, Parts(chain, t))
    ensures forall i, c :: 0 <= i < |chain| && SetsClaim(chain[i], t, c) ==>
              c in rule.metadata && rule.metadata[c] == chain[i].metadata[t][c]
  {
    var parts := Parts(chain, t);
    forall i, c | 0 <= i < |chain| && SetsClaim(chain[i], t, c)
      ensures c in rule.metadata && rule.metadata[c] == chain[i].metadata[t][c]
    {
      assert c in parts[i].metadata && Agree(parts[i].metadata, rule.metadata);
      assert Sets(parts, c);
    }
  }

  // ---- Applying ----

  /** Each claim with a policy is evaluated on its own; every other claim stays as it is. */
  function ApplyClaims(metadata: Claims, policy: Policies, ops: seq<PolicyOperator>): Result<Claims>
    requires Progressing(ops)
  {
    if exists c :: c in policy && Evaluate(Lookup(metadata, c), policy[c], ops).Failure? then
      Failure
    else
      Ok(map c | c in metadata.Keys + policy.Keys && (c in policy ==> Evaluate(Lookup(metadata, c), policy[c], ops).value.Some?) ::
           if c in policy then Evaluate(Lookup(metadata, c), policy[c], ops).value.value else metadata[c])
  }

  /** `apply_policy`: superior metadata are defaults under the leaf's, then the policy is applied. */
  function Apply(metadata: Claims, rule: TypePolicy, ops: seq<PolicyOperator>): Result<Claims>
    requires Progressing(ops)
  {
    ApplyClaims(rule.metadata + metadata, rule.policy, ops)
  }
}
