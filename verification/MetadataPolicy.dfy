/** The in-place form of policy.py: dictionaries are updated while policies are gathered and applied. */
module MetadataPolicy {
  import opened Wrappers
  import opened Statements
  import opened ClaimPolicies
  import opened PolicyOperators
  import opened PolicyChain
  import opened TrustChains

  /** A metadata dictionary. */
  class Metadata {
    var claims: Claims

    constructor (claims: Claims)
      ensures this.claims == claims
    {
      this.claims := claims;
    }
  }

  /** The dictionary with keys `metadata` and `metadata_policy` that `combine` writes into. */
  class Rule {
    var metadata: Claims
    var policy: Policies

    constructor (part: TypePolicy)
      ensures Part() == part
    {
      metadata, policy := part.metadata, part.policy;
    }

    function Part(): TypePolicy
      reads this
    {
      TypePolicy(metadata, policy)
    }
  }

  /** The three loops of `combine` over claims in both, in the superior only, and in the subordinate only. */
  method CombineClaimPolicies(sup: Policies, sub: Policies) returns (r: Result<Policies>)
    ensures r == CombinePolicies(sup, sub)
  {
    var combined: Policies := map[];
    var todo := sup.Keys * sub.Keys;
    while todo != {}
      invariant todo <= sup.Keys * sub.Keys && combined.Keys == sup.Keys * sub.Keys - todo
      invariant forall c :: c in combined ==> CombineClaim(sup[c], sub[c]) == Ok(combined[c])
    {
      var c :| c in todo;
      var entry := CombineClaimPolicy(sup[c], sub[c]);
      if entry.Failure? {
        return Failure;
      }
      combined := combined[c := entry.value];
      todo := todo - {c};
    }
    JoinedPolicies(sup, sub, combined);
    r := Ok(map c | c in sup.Keys + sub.Keys ::
              if c in combined then combined[c] else if c in sup then sup[c] else sub[c]);
  }

  lemma JoinedPolicies(sup: Policies, sub: Policies, combined: Policies)
    requires combined.Keys == sup.Keys * sub.Keys
    requires forall c :: c in combined ==> CombineClaim(sup[c], sub[c]) == Ok(combined[c])
    ensures CombinePolicies(sup, sub) ==
            Ok(map c | c in sup.Keys + sub.Keys ::
                 if c in combined then combined[c] else if c in sup then sup[c] else sub[c])
  {
    var joined := map c | c in sup.Keys + sub.Keys ::
                    if c in combined then combined[c] else if c in sup then sup[c] else sub[c];
    assert CombinePolicies(sup, sub).Ok?;
    assert joined.Keys == CombinePolicies(sup, sub).value.Keys;
    assert forall c :: c in joined ==> joined[c] == CombinePolicies(sup, sub).value[c];
    assert joined == CombinePolicies(sup, sub).value;
  }

  /** `combine`: writes the combined metadata, then the combined policies, into `superior`. When policies cannot be
      combined the metadata have already been written. */
  method CombineInto(superior: Rule, subordinate: TypePolicy) returns (ok: bool)
    modifies superior
    ensures ok <==> Combine(old(superior.Part()), subordinate).Ok?
    ensures ok ==> superior.Part() == Combine(old(superior.Part()), subordinate).value
    ensures !ok ==> superior.policy == old(superior.policy)
    ensures !ok ==>
      superior.metadata == (if Agree(old(superior.metadata), subordinate.metadata)
                            then old(superior.metadata) + subordinate.metadata
                            else old(superior.metadata))
  {
    var metadata := CombineMetadata(superior.metadata, subordinate.metadata);
    if metadata.Failure? {
      return false;
    }
    superior.metadata := metadata.value;
    var policy := CombineClaimPolicies(superior.policy, subordinate.policy);
    if policy.Failure? {
      return false;
    }
    superior.policy := policy.value;
    ok := true;
  }

  /** `op_place` */
  method OpPlace(name: Operator, ops: seq<PolicyOperator>, start: nat) returns (place: Option<nat>)
    requires start < |ops|
    ensures place == Place(name, ops, start)
  {
    var index := start;
    while true
      invariant start <= index < |ops|
      invariant Place(name, ops, start) == Place(name, ops, index)
      decreases |ops| - index
    {
      if ops[index].op == name {
        return Some(index);
      }
      index := index + 1;
      if index >= |ops| {
        return None;
      }
    }
  }

  /** Calling one operator object: it may write `metadata[claim]`, and returns its `next` or nothing. */
  method CallOperator(operator: PolicyOperator, claim: string, metadata: Metadata, policy: ClaimPolicy)
    returns (ok: bool, next: Option<Operator>)
    requires operator.op in policy
    modifies metadata
    ensures ok <==> Act(operator.op, Lookup(old(metadata.claims), claim), policy).Ok?
    ensures ok ==>
      metadata.claims == (match Act(operator.op, Lookup(old(metadata.claims), claim), policy).value
                          case None => old(metadata.claims)
                          case Some(v) => old(metadata.claims)[claim := v])
    ensures !ok ==> metadata.claims == old(metadata.claims)
    ensures next == if ReturnsNext(operator.op, Lookup(old(metadata.claims), claim)) then operator.next else None
  {
    var cur := Lookup(metadata.claims, claim);
    next := if ReturnsNext(operator.op, cur) then operator.next else None;
    var after := Act(operator.op, cur, policy);
    if after.Failure? {
      return false, next;
    }
    if after.value.Some? {
      metadata.claims := metadata.claims[claim := after.value.value];
    }
    ok := true;
  }

  /** The loop over the operators for one claim. */
  method ApplyToClaim(claim: string, metadata: Metadata, policy: ClaimPolicy, ops: seq<PolicyOperator>) returns (ok: bool)
    requires Progressing(ops)
    modifies metadata
    ensures ok <==> Evaluate(Lookup(old(metadata.claims), claim), policy, ops).Ok?
    ensures ok ==> Lookup(metadata.claims, claim) == Evaluate(Lookup(old(metadata.claims), claim), policy, ops).value
    ensures Lookup(metadata.claims, claim) == Residue(Lookup(old(metadata.claims), claim), policy, ops, 0)
    ensures forall c :: c != claim ==> Lookup(metadata.claims, c) == Lookup(old(metadata.claims), c)
  {
    if ops == [] {
      return false;
    }
    ghost var result := Evaluate(Lookup(metadata.claims, claim), policy, ops);
    ghost var residue := Residue(Lookup(metadata.claims, claim), policy, ops, 0);
    var i := 0;
    while i < |ops|
      invariant 0 <= i <= |ops|
      invariant Run(Lookup(metadata.claims, claim), policy, ops, i) == result
      invariant Residue(Lookup(metadata.claims, claim), policy, ops, i) == residue
      invariant forall c :: c != claim ==> Lookup(metadata.claims, c) == Lookup(old(metadata.claims), c)
      decreases |ops| - i
    {
      if ops[i].op in policy {
        var ran, next := CallOperator(ops[i], claim, metadata, policy);
        if !ran {
          return false;
        }
        if next.Some? {
          var place := OpPlace(next.value, ops, i);
          if place.None? {
            return false;
          }
          i := place.value;
          continue;
        }
      }
      i := i + 1;
    }
    ok := true;
  }

  /** The call raised at `claim`: that claim holds what its operators had written, every other claim with a policy is
      evaluated or not yet visited, and the rest is as before. */
  ghost predicate InterruptedAt(before: Claims, after: Claims, policy: Policies, ops: seq<PolicyOperator>,
          claim: string)
    requires Progressing(ops)
  {
    claim in policy && Evaluate(Lookup(before, claim), policy[claim], ops).Failure? &&
    Lookup(after, claim) == Residue(Lookup(before, claim), policy[claim], ops, 0) &&
    forall c :: c != claim ==>
      Lookup(after, c) == Lookup(before, c) ||
      (c in policy && Evaluate(Lookup(before, c), policy[c], ops) == Ok(Lookup(after, c)))
  }

  ghost predicate Interrupted(before: Claims, after: Claims, policy: Policies, ops: seq<PolicyOperator>)
    requires Progressing(ops)
  {
    exists claim :: InterruptedAt(before, after, policy, ops, claim)
  }

  /** `apply_metadata_policy`: the claims are visited in whatever order the set gives them. Claims without a
      policy are never touched, not even when the call raises half way. */
  method ApplyMetadataPolicy(metadata: Metadata, policy: Policies,
          ops: seq<PolicyOperator>) returns (ok: bool)
    requires Progressing(ops)
    modifies metadata
    ensures ok <==> ApplyClaims(old(metadata.claims), policy, ops).Ok?
    ensures ok ==> metadata.claims == ApplyClaims(old(metadata.claims), policy, ops).value
    ensures !ok ==> Interrupted(old(metadata.claims), metadata.claims, policy, ops)
    ensures forall c :: c !in policy ==> Lookup(metadata.claims, c) == Lookup(old(metadata.claims), c)
  {
    ghost var before := metadata.claims;
    var todo := policy.Keys;
    while todo != {}
      invariant todo <= policy.Keys
      invariant forall c :: c in todo || c !in policy ==> Lookup(metadata.claims, c) == Lookup(before, c)
      invariant forall c :: c in policy && c !in todo ==> Evaluate(Lookup(before, c), policy[c], ops) == Ok(Lookup(metadata.claims, c))
    {
      var claim :| claim in todo;
      var ran := ApplyToClaim(claim, metadata, policy[claim], ops);
      if !ran {
        assert InterruptedAt(before, metadata.claims, policy, ops, claim);
        return false;
      }
      todo := todo - {claim};
    }
    ghost var after := ApplyClaims(before, policy, ops).value;
    assert metadata.claims == after by {
      forall c
        ensures c in metadata.claims <==> c in after
        ensures c in after ==> metadata.claims[c] == after[c]
      {
        assert Lookup(metadata.claims, c) == if c in policy then Evaluate(Lookup(before, c), policy[c], ops).value else Lookup(before, c);
      }
    }
    ok := true;
  }

  class TrustChainPolicy {
    const operators: seq<PolicyOperator>

    constructor ()
      ensures operators == BUILTIN
    {
      operators := BUILTIN;
    }

    /** `gather_policies` */
    method GatherPolicies(chain: seq<EntityStatement>, entityType: string) returns (r: Result<TypePolicy>)
      ensures r == Gather(Parts(chain, entityType))
    {
      ghost var parts := Parts(chain, entityType);
      if chain == [] {
        return Failure;
      }
      var rule := new Rule(PartFor(chain[0], entityType));
      var i := 1;
      while i < |chain|
        invariant 1 <= i <= |chain| && fresh(rule)
        invariant Gather(parts[..i]) == Ok(rule.Part())
      {
        GatherOneMore(parts, i);
        var part := PartFor(chain[i], entityType);
        if part != NO_POLICY {
          if Overlaps(part) {
            GatherStops(parts, i + 1);
            return Failure;
          }
          var ok := CombineInto(rule, part);
          if !ok {
            GatherStops(parts, i + 1);
            return Failure;
          }
        }
        i := i + 1;
      }
      assert parts[..i] == parts;
      r := Ok(rule.Part());
    }

    /** `apply_policy`. Without superior metadata the leaf's own dictionary is changed and returned, otherwise a copy. */
    method ApplyPolicy(metadata: Metadata, rule: TypePolicy) returns (ok: bool, result: Metadata)
      requires Progressing(operators)
      modifies metadata
      ensures ok <==> Apply(old(metadata.claims), rule, operators).Ok?
      ensures ok ==> result.claims == Apply(old(metadata.claims), rule, operators).value
      ensures if rule.metadata == map[] then result == metadata
              else fresh(result) && metadata.claims == old(metadata.claims)
      ensures !ok && rule.metadata == map[] ==> Interrupted(old(metadata.claims), metadata.claims, rule.policy, operators)
    {
      result := metadata;
      if rule.metadata != map[] {
        result := new Metadata(rule.metadata + metadata.claims);
      }
      assert result.claims == rule.metadata + metadata.claims;
      ok := true;
      if rule.policy != map[] {
        ok := ApplyMetadataPolicy(result, rule.policy, operators);
      }
    }

    /** `__call__` for one entity type, on a chain with superiors. The leaf's own metadata in the verified chain are
        the dictionary that is changed when the superiors set none. */
    method ProcessUnderSuperiors(chain: TrustChain, entityType: string) returns (ok: bool)
      requires Progressing(operators) && |chain.verifiedChain| > 1
      modifies chain
      ensures var n := |old(chain.verifiedChain)| - 1;
              var gathered := Gather(Parts(old(chain.verifiedChain)[..n], entityType));
              var leaf := old(chain.verifiedChain)[n];
              if gathered.Failure? then
                !ok && chain.metadata == old(chain.metadata) && chain.combinedPolicy == old(chain.combinedPolicy)
              else if entityType !in leaf.metadata then
                ok && chain.metadata == old(chain.metadata)[entityType := None] && chain.combinedPolicy == old(chain.combinedPolicy)
              else
                var applied := Apply(leaf.metadata[entityType], gathered.value, operators);
                chain.combinedPolicy == old(chain.combinedPolicy)[entityType := gathered.value] && (ok <==> applied.Ok?) &&
                chain.metadata == (if ok then old(chain.metadata)[entityType := Some(applied.value)] else old(chain.metadata))
      ensures |chain.verifiedChain| == |old(chain.verifiedChain)|
      ensures forall i :: 0 <= i < |chain.verifiedChain| - 1 ==> chain.verifiedChain[i] == old(chain.verifiedChain)[i]
      ensures var n := |old(chain.verifiedChain)| - 1;
              LeafAfter(old(chain.verifiedChain)[n], chain.verifiedChain[n],
                        Gather(Parts(old(chain.verifiedChain)[..n], entityType)), entityType, ok)
      ensures chain.anchor == old(chain.anchor) && chain.exp == old(chain.exp)
      ensures chain.issPath == old(chain.issPath) && chain.chain == old(chain.chain) && chain.replaced == old(chain.replaced)
    {
      var n := |chain.verifiedChain| - 1;
      var leaf := chain.verifiedChain[n];
      var combined := GatherPolicies(chain.verifiedChain[..n], entityType);
      if combined.Failure? {
        return false;
      }
      if entityType !in leaf.metadata {
        chain.metadata := chain.metadata[entityType := None];
        return true;
      }
      chain.combinedPolicy := chain.combinedPolicy[entityType := combined.value];
      var own := new Metadata(leaf.metadata[entityType]);
      var applied, result := ApplyPolicy(own, combined.value);
      chain.verifiedChain := chain.verifiedChain[n := leaf.(metadata := leaf.metadata[entityType := own.claims])];
      assert combined.value.metadata != map[] ==> leaf.metadata[entityType := own.claims] == leaf.metadata;
      if !applied {
        return false;
      }
      chain.metadata := chain.metadata[entityType := Some(result.claims)];
      ok := true;
    }

    /** The leaf's statement after a call for one entity type: its own dictionary is the one changed when the superiors
        set no metadata, also when applying raises half way. */
    ghost predicate LeafAfter(leaf: EntityStatement, after: EntityStatement, gathered: Result<TypePolicy>, entityType: string,
            ok: bool)
      requires Progressing(operators)
    {
      if gathered.Failure? || entityType !in leaf.metadata || gathered.value.metadata != map[] then
        after == leaf
      else
        entityType in after.metadata && after == leaf.(metadata := leaf.metadata[entityType := after.metadata[entityType]]) &&
        var own, changed := leaf.metadata[entityType], after.metadata[entityType];
        if ok then Apply(own, gathered.value, operators) == Ok(changed)
        else Interrupted(own, changed, gathered.value.policy, operators)
    }

    /** The policies of the superiors for one type can be gathered and applied to the leaf's metadata. */
    ghost predicate Applicable(superiors: seq<EntityStatement>, leaf: EntityStatement, entityType: string)
      requires Progressing(operators) && entityType in leaf.metadata
    {
      Gather(Parts(superiors, entityType)).Ok? &&
      Apply(leaf.metadata[entityType], Gather(Parts(superiors, entityType)).value, operators).Ok?
    }

    /** The recorded metadata are the leaf's, with the gathered policy of the superiors applied. */
    ghost predicate Processed(metadata: map<string, Option<Claims>>, superiors: seq<EntityStatement>,
            leaf: EntityStatement, entityType: string)
      requires Progressing(operators) && entityType in leaf.metadata
    {
      Applicable(superiors, leaf, entityType) &&
      Lookup(metadata, entityType) ==
        Some(Some(Apply(leaf.metadata[entityType], Gather(Parts(superiors, entityType)).value, operators).value))
    }

    /** `__call__` for one entity type on a chain without superiors: the whole metadata record is replaced, nothing is
        applied. An empty chain and an unknown type raise. */
    method ProcessAlone(chain: TrustChain, entityType: string) returns (ok: bool)
      requires |chain.verifiedChain| <= 1
      modifies chain`replaced, chain`combinedPolicy
      ensures ok <==> |chain.verifiedChain| == 1 && entityType in chain.verifiedChain[0].metadata
      ensures ok ==> chain.replaced == Some(chain.verifiedChain[0].metadata[entityType]) &&
                     chain.combinedPolicy == old(chain.combinedPolicy)[entityType := NO_POLICY]
      ensures !ok ==> chain.replaced == old(chain.replaced) && chain.combinedPolicy == old(chain.combinedPolicy)
    {
      if chain.verifiedChain == [] || entityType !in chain.verifiedChain[0].metadata {
        return false;
      }
      chain.replaced := Some(chain.verifiedChain[0].metadata[entityType]);
      chain.combinedPolicy := chain.combinedPolicy[entityType := NO_POLICY];
      ok := true;
    }

    /** What processing every type of a verified chain comes to. */
    ghost predicate AllProcessed(metadata: map<string, Option<Claims>>, verified: seq<EntityStatement>)
      requires Progressing(operators) && verified != []
    {
      var n := |verified| - 1;
      forall t :: t in verified[n].metadata ==> Processed(metadata, verified[..n], verified[n], t)
    }

    /** Every type the leaf has can be processed; a chain without superiors has to have the type "". */
    ghost predicate AllApplicable(verified: seq<EntityStatement>)
      requires Progressing(operators)
    {
      if |verified| > 1 then
        var n := |verified| - 1; forall t :: t in verified[n].metadata ==> Applicable(verified[..n], verified[n], t)
      else
        |verified| == 1 && "" in verified[0].metadata
    }

    /** `__call__` without an entity type: every type the leaf has metadata for, in whatever order. */
    method ProcessAll(chain: TrustChain) returns (ok: bool)
      requires Progressing(operators)
      modifies chain
      ensures ok <==> AllApplicable(old(chain.verifiedChain))
      ensures ok && |old(chain.verifiedChain)| > 1 ==> AllProcessed(chain.metadata, old(chain.verifiedChain))
      ensures ok && |old(chain.verifiedChain)| == 1 ==> chain.replaced == Some(old(chain.verifiedChain)[0].metadata[""])
      ensures chain.anchor == old(chain.anchor) && chain.exp == old(chain.exp)
      ensures chain.issPath == old(chain.issPath) && chain.chain == old(chain.chain)
    {
      if |chain.verifiedChain| <= 1 {
        ok := ProcessAlone(chain, "");
        return;
      }
      var n := |chain.verifiedChain| - 1;
      ghost var superiors, leaf := chain.verifiedChain[..n], chain.verifiedChain[n];
      var todo := chain.verifiedChain[n].metadata.Keys;
      while todo != {}
        invariant todo <= leaf.metadata.Keys && |chain.verifiedChain| == n + 1 && chain.verifiedChain[..n] == superiors
        invariant chain.verifiedChain[n].metadata.Keys == leaf.metadata.Keys
        invariant forall t :: t in todo ==> chain.verifiedChain[n].metadata[t] == leaf.metadata[t]
        invariant forall t :: t in leaf.metadata && t !in todo ==> Processed(chain.metadata, superiors, leaf, t)
        invariant chain.anchor == old(chain.anchor) && chain.exp == old(chain.exp)
        invariant chain.issPath == old(chain.issPath) && chain.chain == old(chain.chain)
      {
        var entityType :| entityType in todo;
        ghost var before := chain.verifiedChain;
        var processed := ProcessUnderSuperiors(chain, entityType);
        assert chain.verifiedChain[..n] == before[..n];
        if !processed {
          return false;
        }
        todo := todo - {entityType};
      }
      ok := true;
    }
  }

  lemma GatherOneMore(parts: seq<TypePolicy>, i: nat)
    requires 1 <= i < |parts|
    ensures Gather(parts[..i + 1]) == if Gather(parts[..i]).Ok? then GatherNext(Gather(parts[..i]).value, parts[i]) else Failure
  {
    assert parts[..i + 1][..i] == parts[..i];
  }

  lemma {:induction false} GatherStops(parts: seq<TypePolicy>, i: nat)
    requires 1 <= i <= |parts| && Gather(parts[..i]).Failure?
    ensures Gather(parts).Failure?
    decreases |parts| - i
  {
    if i < |parts| {
      GatherOneMore(parts, i);
      GatherStops(parts, i + 1);
    } else {
      assert parts[..i] == parts;
    }
  }
}
