/** Whole-chain properties of metadata policies. */
module PolicyTheorems {
  import opened Wrappers
  import opened Statements
  import opened ClaimPolicies
  import opened ClaimFold
  import opened PolicyOperators
  import opened ClaimCompliance
  import opened MeaningPreservation
  import opened PolicyChain

  lemma {:induction false} MentionedOnce(chain: seq<TypePolicy>, i: nat, c: string)
    requires i < |chain| && c in chain[i].policy
    ensures chain[i].policy[c] in Mentions(chain, c)
  {
    var front, last := chain[..|chain| - 1], chain[|chain| - 1];
    if i < |front| {
      assert front[i] == chain[i];
      MentionedOnce(front, i, c);
    }
  }

  lemma {:induction false} MentionComesFrom(chain: seq<TypePolicy>, p: ClaimPolicy, c: string)
    requires p in Mentions(chain, c)
    ensures exists i :: 0 <= i < |chain| && c in chain[i].policy && chain[i].policy[c] == p
  {
    var front, last := chain[..|chain| - 1], chain[|chain| - 1];
    if p in Mentions(front, c) {
      MentionComesFrom(front, p, c);
      var i :| 0 <= i < |front| && c in front[i].policy && front[i].policy[c] == p;
      assert chain[i] == front[i];
    } else {
      assert chain[|chain| - 1].policy[c] == p;
    }
  }

  // ---- Compliance along a chain ----

  /** A claim's only policy does not mix `one_of` with the set operators; `essential` is a boolean. */
  ghost predicate PlainPolicies(chain: seq<TypePolicy>) {
    (forall c :: UnmixedAlone(Mentions(chain, c))) &&
    (forall i, c :: 0 <= i < |chain| && c in chain[i].policy ==> BooleanEssential(chain[i].policy[c]))
  }

  /** The metadata obey one statement's own `subset_of`, `one_of` and `essential` for one claim. */
  ghost predicate Satisfies(metadata: Claims, c: string, p: ClaimPolicy) {
    (c in metadata ==> Obeys(metadata[c], p)) && (Demands(p) ==> c in metadata)
  }

  /** No value that reaches a `subset_of` is a scalar spelling an operator of its own policy. */
  ghost predicate NoOperatorNames(metadata: Claims, rule: TypePolicy) {
    forall c :: c in rule.policy && SubsetOfOp in rule.policy[c] && ValueOp !in rule.policy[c] ==>
      !SpellsOperator(Filled(Lookup(rule.metadata + metadata, c), rule.policy[c]), rule.policy[c])
  }

  ghost predicate EverySatisfied(result: Claims, chain: seq<TypePolicy>) {
    forall i, c :: 0 <= i < |chain| && c in chain[i].policy ==> Satisfies(result, c, chain[i].policy[c])
  }

  /** Every `value` given for a claim obeys all statements' policies for it. */
  ghost predicate GivenValuesObey(chain: seq<TypePolicy>) {
    forall i, j, c :: 0 <= i < |chain| && 0 <= j < |chain| && c in chain[i].policy && c in chain[j].policy ==>
      (ValueOp in chain[j].policy[c] ==> Obeys(chain[j].policy[c][ValueOp], chain[i].policy[c]))
  }

  lemma ApplyAt(metadata: Claims, rule: TypePolicy, c: string)
    requires Progressing(BUILTIN) && Apply(metadata, rule, BUILTIN).Ok?
    ensures var start := Lookup(rule.metadata + metadata, c); var after := Lookup(Apply(metadata, rule, BUILTIN).value, c);
            if c in rule.policy then Evaluate(start, rule.policy[c], BUILTIN) == Ok(after) else after == start
  {
  }

  lemma ClaimComplies(chain: seq<TypePolicy>, rule: TypePolicy, leaf: Claims, result: Claims, i: nat, c: string)
    requires chain != [] && PlainPolicies(chain) && Gather(chain) == Ok(rule) && Progressing(BUILTIN)
    requires Apply(leaf, rule, BUILTIN) == Ok(result) && NoOperatorNames(leaf, rule)
    requires i < |chain| && c in chain[i].policy
    ensures Satisfies(result, c, chain[i].policy[c]) <==> ValuesObey(Mentions(chain, c), chain[i].policy[c])
  {
    GatherIsClaimwise(chain);
    MentionedOnce(chain, i, c);
    MentionsArePlain(chain, c);
    ApplyAt(leaf, rule, c);
    var cur := Lookup(rule.metadata + leaf, c);
    ResultCompliesIff(Mentions(chain, c), rule.policy[c], cur, Lookup(result, c), chain[i].policy[c]);
  }

  lemma MentionsArePlain(chain: seq<TypePolicy>, c: string)
    requires PlainPolicies(chain)
    ensures UnmixedAlone(Mentions(chain, c)) && BooleanChain(Mentions(chain, c))
  {
    forall p | p in Mentions(chain, c)
      ensures BooleanEssential(p)
    {
      MentionComesFrom(chain, p, c);
    }
  }

  lemma MentionedValues(chain: seq<TypePolicy>, c: string, p: ClaimPolicy)
    ensures ValuesObey(Mentions(chain, c), p) <==>
            forall j :: 0 <= j < |chain| && c in chain[j].policy && ValueOp in chain[j].policy[c] ==>
              Obeys(chain[j].policy[c][ValueOp], p)
  {
    forall q | q in Mentions(chain, c)
      ensures exists j :: 0 <= j < |chain| && c in chain[j].policy && chain[j].policy[c] == q
    {
      MentionComesFrom(chain, q, c);
    }
    forall j | 0 <= j < |chain| && c in chain[j].policy
      ensures chain[j].policy[c] in Mentions(chain, c)
    {
      MentionedOnce(chain, j, c);
    }
  }

  /** Metadata resolved under the gathered policy of a chain of any length satisfy every statement's own policy, if
      and only if every `value` a statement gives does. */
  lemma {:induction false} ChainComplies(chain: seq<TypePolicy>, rule: TypePolicy, leaf: Claims, result: Claims)
    requires chain != [] && PlainPolicies(chain) && Gather(chain) == Ok(rule) && Progressing(BUILTIN)
    requires Apply(leaf, rule, BUILTIN) == Ok(result) && NoOperatorNames(leaf, rule)
    ensures EverySatisfied(result, chain) <==> GivenValuesObey(chain)
  {
    forall i, c | 0 <= i < |chain| && c in chain[i].policy
      ensures Satisfies(result, c, chain[i].policy[c]) <==>
              forall j :: 0 <= j < |chain| && c in chain[j].policy && ValueOp in chain[j].policy[c] ==>
                Obeys(chain[j].policy[c][ValueOp], chain[i].policy[c])
    {
      ClaimComplies(chain, rule, leaf, result, i, c);
      MentionedValues(chain, c, chain[i].policy[c]);
    }
  }

  ghost predicate NoValues(chain: seq<TypePolicy>) {
    forall i, c :: 0 <= i < |chain| && c in chain[i].policy ==> ValueFree(chain[i].policy[c])
  }

  /** So where no policy gives a `value`, all are satisfied. */
  lemma ValueFreeChainComplies(chain: seq<TypePolicy>, rule: TypePolicy, leaf: Claims, result: Claims)
    requires chain != [] && PlainPolicies(chain) && Gather(chain) == Ok(rule) && Progressing(BUILTIN)
    requires Apply(leaf, rule, BUILTIN) == Ok(result) && NoOperatorNames(leaf, rule) && NoValues(chain)
    ensures EverySatisfied(result, chain)
  {
    ChainComplies(chain, rule, leaf, result);
  }

  // ---- Visiting order and repetition ----

  /** The claims one after the other in the given order, each evaluated in the metadata left by the ones before. */
  function ApplyInOrder(metadata: Claims, policy: Policies, order: seq<string>): Result<Claims>
    requires Progressing(BUILTIN) && forall c :: c in order ==> c in policy
  {
    if order == [] then
      Ok(metadata)
    else
      var c := order[|order| - 1];
      var before :- ApplyInOrder(metadata, policy, order[..|order| - 1]);
      var w :- Evaluate(Lookup(before, c), policy[c], BUILTIN);
      Ok(if w.Some? then before[c := w.value] else before)
  }

  lemma EvaluateKeepsPresent(cur: Option<Value>, p: ClaimPolicy)
    requires Progressing(BUILTIN)
    ensures cur.Some? && Evaluate(cur, p, BUILTIN).Ok? ==> Evaluate(cur, p, BUILTIN).value.Some?
  {
    BuiltinIsResolve(cur, p);
  }

  lemma {:induction false} OrderPrefix(metadata: Claims, policy: Policies, order: seq<string>)
    requires Progressing(BUILTIN) && forall c :: c in order ==> c in policy
    requires forall i, j :: 0 <= i < j < |order| ==> order[i] != order[j]
    ensures ApplyInOrder(metadata, policy, order).Ok? <==>
            forall c :: c in order ==> Evaluate(Lookup(metadata, c), policy[c], BUILTIN).Ok?
    ensures ApplyInOrder(metadata, policy, order).Ok? ==>
      forall c :: Lookup(ApplyInOrder(metadata, policy, order).value, c) ==
                  (if c in order then Evaluate(Lookup(metadata, c), policy[c], BUILTIN).value else Lookup(metadata, c))
  {
    if order != [] {
      var front, c := order[..|order| - 1], order[|order| - 1];
      assert order == front + [c];
      assert c !in front;
      OrderPrefix(metadata, policy, front);
      EvaluateKeepsPresent(Lookup(metadata, c), policy[c]);
    }
  }

  /** Whatever order the set of claims is visited in, the outcome is the claim-by-claim one. */
  lemma {:induction false} OrderIsIrrelevant(metadata: Claims, policy: Policies, order: seq<string>)
    requires Progressing(BUILTIN) && (forall c :: c in order <==> c in policy)
    requires forall i, j :: 0 <= i < j < |order| ==> order[i] != order[j]
    ensures ApplyInOrder(metadata, policy, order) == ApplyClaims(metadata, policy, BUILTIN)
  {
    OrderPrefix(metadata, policy, order);
    if ApplyClaims(metadata, policy, BUILTIN).Ok? {
      var a, b := ApplyInOrder(metadata, policy, order).value, ApplyClaims(metadata, policy, BUILTIN).value;
      forall c
        ensures Lookup(a, c) == Lookup(b, c)
      {
      }
      SameLookups(a, b);
    }
  }

  lemma SameLookups(a: Claims, b: Claims)
    requires forall c :: Lookup(a, c) == Lookup(b, c)
    ensures a == b
  {
    forall c
      ensures c in a <==> c in b
      ensures c in a ==> a[c] == b[c]
    {
      assert Lookup(a, c) == Lookup(b, c);
    }
  }

  /** The same claims, lists compared as sets. */
  ghost predicate SameClaims(a: Claims, b: Claims) {
    forall c :: SameResult(Lookup(a, c), Lookup(b, c))
  }

  ghost predicate SameOutcome(result: Claims, combined: Result<Claims>) {
    combined.Ok? && SameClaims(result, combined.value)
  }

  /** The claim comes out of the gathered policy as it does in `result`. */
  ghost predicate SameAt(leaf: Claims, rule: TypePolicy, result: Claims, c: string)
    requires Progressing(BUILTIN)
  {
    var start := Lookup(rule.metadata + leaf, c);
    if c in rule.policy then
      var combined := Evaluate(start, rule.policy[c], BUILTIN);
      combined.Ok? && SameResult(Lookup(result, c), combined.value)
    else
      SameResult(Lookup(result, c), start)
  }

  lemma SameEverywhere(leaf: Claims, rule: TypePolicy, result: Claims)
    requires Progressing(BUILTIN)
    ensures SameOutcome(result, Apply(leaf, rule, BUILTIN)) <==> forall c :: SameAt(leaf, rule, result, c)
  {
    if Apply(leaf, rule, BUILTIN).Ok? {
      forall c
        ensures SameAt(leaf, rule, result, c) <==> SameResult(Lookup(result, c), Lookup(Apply(leaf, rule, BUILTIN).value, c))
      {
        ApplyAt(leaf, rule, c);
      }
    } else {
      var c :| c in rule.policy && Evaluate(Lookup(rule.metadata + leaf, c), rule.policy[c], BUILTIN).Failure?;
      assert !SameAt(leaf, rule, result, c);
    }
  }

  /** Applying a gathered policy to its own result succeeds and changes nothing but list order, if and only if every claim
      with a policy is repeatable. */
  lemma {:induction false} ApplyIsIdempotent(leaf: Claims, rule: TypePolicy, result: Claims)
    requires Progressing(BUILTIN) && Apply(leaf, rule, BUILTIN) == Ok(result)
    ensures SameOutcome(result, Apply(result, rule, BUILTIN)) <==>
            forall c :: c in rule.policy ==>
              ValueOp in rule.policy[c] || Repeatable(Lookup(rule.metadata + leaf, c), rule.policy[c])
  {
    forall c
      ensures SameAt(result, rule, result, c) <==>
              (c in rule.policy ==> ValueOp in rule.policy[c] || Repeatable(Lookup(rule.metadata + leaf, c), rule.policy[c]))
    {
      ApplyAt(leaf, rule, c);
      DefaultsAreTaken(leaf, rule, result, c);
      if c in rule.policy {
        ApplyingTwice(Lookup(rule.metadata + leaf, c), rule.policy[c], Lookup(result, c));
      }
    }
    SameEverywhere(result, rule, result);
  }

  lemma DefaultsAreTaken(leaf: Claims, rule: TypePolicy, result: Claims, c: string)
    requires Progressing(BUILTIN) && Apply(leaf, rule, BUILTIN) == Ok(result)
    ensures Lookup(rule.metadata + result, c) == Lookup(result, c)
  {
    ApplyAt(leaf, rule, c);
    if c in rule.metadata && c in rule.policy {
      EvaluateKeepsPresent(Lookup(rule.metadata + leaf, c), rule.policy[c]);
    }
  }

  // ---- Combining preserves meaning ----

  /** The statements' metadata and policies applied one by one, superior first. */
  function ApplyEach(leaf: Claims, chain: seq<TypePolicy>): Result<Claims>
    requires Progressing(BUILTIN)
  {
    if chain == [] then
      Ok(leaf)
    else
      var sofar :- ApplyEach(leaf, chain[..|chain| - 1]);
      Apply(sofar, chain[|chain| - 1], BUILTIN)
  }

  /** One claim on its way down: where it is absent it takes the statement's metadata, then the statement's policy. */
  function ClaimEach(cur: Option<Value>, chain: seq<TypePolicy>, c: string): Result<Option<Value>>
    requires Progressing(BUILTIN)
  {
    if chain == [] then
      Ok(cur)
    else
      var last := chain[|chain| - 1];
      var sofar :- ClaimEach(cur, chain[..|chain| - 1], c);
      var start := if sofar.Some? then sofar else Lookup(last.metadata, c);
      if c in last.policy then Evaluate(start, last.policy[c], BUILTIN) else Ok(start)
  }

  lemma {:induction false} EachIsClaimwise(leaf: Claims, chain: seq<TypePolicy>, c: string)
    requires Progressing(BUILTIN) && ApplyEach(leaf, chain).Ok?
    ensures ClaimEach(Lookup(leaf, c), chain, c) == Ok(Lookup(ApplyEach(leaf, chain).value, c))
  {
    if chain != [] {
      var front, last := chain[..|chain| - 1], chain[|chain| - 1];
      var before := ApplyEach(leaf, front).value;
      EachIsClaimwise(leaf, front, c);
      ApplyAt(before, last, c);
    }
  }

  lemma {:induction false} ClaimEachConcat(cur: Option<Value>, a: seq<TypePolicy>, b: seq<TypePolicy>, c: string)
    requires Progressing(BUILTIN)
    ensures ClaimEach(cur, a + b, c) ==
            if ClaimEach(cur, a, c).Ok? then ClaimEach(ClaimEach(cur, a, c).value, b, c) else Failure
    decreases |b|
  {
    if b == [] {
      assert a + b == a;
    } else {
      assert (a + b)[..|a + b| - 1] == a + b[..|b| - 1];
      ClaimEachConcat(cur, a, b[..|b| - 1], c);
    }
  }

  ghost predicate Unset(chain: seq<TypePolicy>, c: string) {
    forall i :: 0 <= i < |chain| ==> c !in chain[i].metadata
  }

  /** A claim that is present, or that no statement sets, goes through the statements' policies for it. */
  lemma {:induction false} EachWithPolicy(cur: Option<Value>, chain: seq<TypePolicy>, c: string)
    requires Progressing(BUILTIN) && (cur.Some? || Unset(chain, c))
    ensures ClaimEach(cur, chain, c) == EvaluateEach(cur, Mentions(chain, c))
    ensures cur.Some? && ClaimEach(cur, chain, c).Ok? ==> ClaimEach(cur, chain, c).value.Some?
  {
    if chain != [] {
      var front, last := chain[..|chain| - 1], chain[|chain| - 1];
      EachWithPolicy(cur, front, c);
      var sofar := ClaimEach(cur, front, c);
      if c in last.policy {
        assert (Mentions(front, c) + [last.policy[c]])[..|Mentions(front, c)|] == Mentions(front, c);
        if sofar.Ok? {
          EvaluateKeepsPresent(sofar.value, last.policy[c]);
        }
      } else {
        assert Mentions(chain, c) == Mentions(front, c);
      }
    }
  }

  /** The topmost statement that sets a claim; the number of statements if none does. */
  function FirstSetter(chain: seq<TypePolicy>, c: string): (k: nat)
    ensures k <= |chain| && (k < |chain| ==> c in chain[k].metadata) && Unset(chain[..k], c)
  {
    if chain == [] || c in chain[0].metadata then 0
    else
      var k := FirstSetter(chain[1..], c);
      assert forall i :: 1 <= i < k + 1 ==> chain[i] == chain[1..][i - 1];
      k + 1
  }

  /** The leaf leaves the claim to the chain, and a statement sets it below a policy for it. */
  ghost predicate SetLate(leaf: Claims, chain: seq<TypePolicy>, c: string) {
    var k := FirstSetter(chain, c);
    c !in leaf && k < |chain| && Mentions(chain[..k], c) != []
  }

  ghost predicate LateDefaultFits(chain: seq<TypePolicy>, rule: TypePolicy, c: string)
    requires FirstSetter(chain, c) < |chain| && c in rule.policy
  {
    var k := FirstSetter(chain, c);
    DefaultFits(Mentions(chain[..k], c), chain[k].metadata[c], Mentions(chain[k..], c), rule.policy[c])
  }

  /** A claim that starts out from the leaf or from a statement above its policies: additions stay and what all
      statements demand is allowed by all. One that starts out absent: additions, if any, stay and include it. */
  ghost predicate StartFits(leaf: Claims, chain: seq<TypePolicy>, rule: TypePolicy, c: string)
    requires c in rule.policy
  {
    var ps, r := Mentions(chain, c), rule.policy[c];
    if c in rule.metadata + leaf then
      AddsStay(ps) && DemandsAllowed(r)
    else
      Uses(AddOp, ps) ==> AddsStay(ps) && Wants(r, Outcome({}, r))
  }

  ghost predicate ClaimFits(leaf: Claims, chain: seq<TypePolicy>, rule: TypePolicy, c: string)
    requires c in rule.policy
  {
    if SetLate(leaf, chain, c) then LateDefaultFits(chain, rule, c) else StartFits(leaf, chain, rule, c)
  }

  /** Every claim's policies are in the family, and the values they start from are lists. */
  ghost predicate Preservable(leaf: Claims, chain: seq<TypePolicy>, rule: TypePolicy) {
    forall c :: Mentions(chain, c) != [] ==>
      AllInFamily(Mentions(chain, c)) && ListOrAbsent(Lookup(rule.metadata + leaf, c))
  }

  lemma MentionsAt(chain: seq<TypePolicy>, k: nat, c: string)
    requires k <= |chain|
    ensures Mentions(chain, c) == Mentions(chain[..k], c) + Mentions(chain[k..], c)
  {
    assert chain == chain[..k] + chain[k..];
    MentionsConcat(chain[..k], chain[k..], c);
  }

  lemma {:induction false} SetterFills(chain: seq<TypePolicy>, c: string, v: Value)
    requires Progressing(BUILTIN) && chain != [] && Lookup(chain[0].metadata, c) == Some(v)
    ensures ClaimEach(None, chain, c) == ClaimEach(Some(v), chain, c)
  {
    var front := chain[..|chain| - 1];
    if front == [] {
      assert ClaimEach(None, front, c) == Ok(None) && ClaimEach(Some(v), front, c) == Ok(Some(v));
    } else {
      assert front[0] == chain[0];
      SetterFills(front, c, v);
    }
  }

  /** An absent claim takes the first value set, unless the policies above it have added one. */
  lemma EachFromSetter(chain: seq<TypePolicy>, c: string)
    requires Progressing(BUILTIN) && FirstSetter(chain, c) < |chain| && ClaimEach(None, chain, c).Ok?
    ensures var k := FirstSetter(chain, c); var first := EvaluateEach(None, Mentions(chain[..k], c));
            first.Ok? && ClaimEach(None, chain, c) ==
            EvaluateEach(if first.value.Some? then first.value else Some(chain[k].metadata[c]), Mentions(chain[k..], c))
  {
    var k := FirstSetter(chain, c);
    assert chain == chain[..k] + chain[k..];
    ClaimEachConcat(None, chain[..k], chain[k..], c);
    EachWithPolicy(None, chain[..k], c);
    var first := ClaimEach(None, chain[..k], c).value;
    if first.None? {
      SetterFills(chain[k..], c, chain[k].metadata[c]);
    }
    EachWithPolicy(if first.Some? then first else Some(chain[k].metadata[c]), chain[k..], c);
  }

  lemma SetterIsUnion(chain: seq<TypePolicy>, rule: TypePolicy, c: string)
    requires MetadataIsUnion(rule.metadata, chain)
    ensures FirstSetter(chain, c) < |chain| <==> c in rule.metadata
    ensures c in rule.metadata ==> rule.metadata[c] == chain[FirstSetter(chain, c)].metadata[c]
    ensures FirstSetter(chain, c) == |chain| ==> Unset(chain, c)
  {
    var k := FirstSetter(chain, c);
    if k < |chain| {
      assert Sets(chain, c) && Agree(chain[k].metadata, rule.metadata);
    } else {
      assert chain[..k] == chain;
    }
  }

  /** A claim that is set above its policies, or not at all, comes out the same if and only if its start fits. */
  lemma StartedClaimPreserved(leaf: Claims, chain: seq<TypePolicy>, rule: TypePolicy, c: string, w: Option<Value>)
    requires chain != [] && Progressing(BUILTIN) && Preservable(leaf, chain, rule)
    requires PolicyIsFold(rule.policy, chain) && c in rule.policy && !SetLate(leaf, chain, c)
    requires EvaluateEach(Lookup(rule.metadata + leaf, c), Mentions(chain, c)) == Ok(w)
    ensures SameCombined(Lookup(rule.metadata + leaf, c), rule.policy[c], w) <==> StartFits(leaf, chain, rule, c)
  {
    var ps, start := Mentions(chain, c), rule.metadata + leaf;
    if c in start {
      ListPreservedIff(ps, rule.policy[c], start[c], w);
    } else {
      AbsentPreservedIff(ps, rule.policy[c], w);
    }
  }

  /** A claim with policies comes out the same if and only if it fits. */
  lemma PolicyClaimPreserved(leaf: Claims, chain: seq<TypePolicy>, rule: TypePolicy, c: string, w: Option<Value>)
    requires chain != [] && Progressing(BUILTIN) && Preservable(leaf, chain, rule)
    requires PolicyIsFold(rule.policy, chain) && MetadataIsUnion(rule.metadata, chain)
    requires ClaimEach(Lookup(leaf, c), chain, c) == Ok(w) && c in rule.policy
    ensures SameCombined(Lookup(rule.metadata + leaf, c), rule.policy[c], w) <==> ClaimFits(leaf, chain, rule, c)
  {
    var ps, k := Mentions(chain, c), FirstSetter(chain, c);
    SetterIsUnion(chain, rule, c);
    if c in leaf || k == |chain| {
      EachWithPolicy(Lookup(leaf, c), chain, c);
      StartedClaimPreserved(leaf, chain, rule, c, w);
    } else {
      EachFromSetter(chain, c);
      MentionsAt(chain, k, c);
      var above, v := Mentions(chain[..k], c), chain[k].metadata[c];
      if above == [] {
        assert ps == Mentions(chain[k..], c);
        StartedClaimPreserved(leaf, chain, rule, c, w);
      } else {
        DefaultFitsIff(above, v, Mentions(chain[k..], c), rule.policy[c], EvaluateEach(None, above).value, w);
      }
    }
  }

  lemma OtherClaimPreserved(leaf: Claims, chain: seq<TypePolicy>, rule: TypePolicy, c: string, w: Option<Value>)
    requires chain != [] && Progressing(BUILTIN) && PolicyIsFold(rule.policy, chain) && MetadataIsUnion(rule.metadata, chain)
    requires ClaimEach(Lookup(leaf, c), chain, c) == Ok(w) && c !in rule.policy
    ensures w == Lookup(rule.metadata + leaf, c)
  {
    var k := FirstSetter(chain, c);
    SetterIsUnion(chain, rule, c);
    if c in leaf || k == |chain| {
      EachWithPolicy(Lookup(leaf, c), chain, c);
    } else {
      EachFromSetter(chain, c);
      MentionsAt(chain, k, c);
    }
  }

  ghost predicate EveryClaimFits(leaf: Claims, chain: seq<TypePolicy>, rule: TypePolicy) {
    forall c :: c in rule.policy ==> ClaimFits(leaf, chain, rule, c)
  }

  /** For chains whose policies use `subset_of`, `superset_of`, non-empty list `add` and boolean `essential`, on lists or
      absent claims: if a chain can be gathered and its statements can be applied one by one, then the gathered policy
      can be applied and gives the same metadata, if and only if every claim with a policy fits. */
  lemma {:induction false} ChainPreservesMeaningIff(leaf: Claims, chain: seq<TypePolicy>, rule: TypePolicy, result: Claims)
    requires chain != [] && Progressing(BUILTIN) && Gather(chain) == Ok(rule) && Preservable(leaf, chain, rule)
    requires ApplyEach(leaf, chain) == Ok(result)
    ensures SameOutcome(result, Apply(leaf, rule, BUILTIN)) <==> EveryClaimFits(leaf, chain, rule)
  {
    GatherIsClaimwise(chain);
    forall c
      ensures SameAt(leaf, rule, result, c) <==> (c in rule.policy ==> ClaimFits(leaf, chain, rule, c))
    {
      EachIsClaimwise(leaf, chain, c);
      if c in rule.policy {
        PolicyClaimPreserved(leaf, chain, rule, c, Lookup(result, c));
      } else {
        OtherClaimPreserved(leaf, chain, rule, c, Lookup(result, c));
      }
    }
    SameEverywhere(leaf, rule, result);
  }

  /** No statement sets a claim that a statement above it has a policy for. */
  ghost predicate DefaultsComeFirst(chain: seq<TypePolicy>) {
    forall i, j, c :: 0 <= j < i < |chain| && c in chain[i].metadata ==> c !in chain[j].policy
  }

  lemma NoneIsLate(leaf: Claims, chain: seq<TypePolicy>, c: string)
    requires DefaultsComeFirst(chain)
    ensures !SetLate(leaf, chain, c)
  {
    var k := FirstSetter(chain, c);
    if k < |chain| && Mentions(chain[..k], c) != [] {
      MentionComesFrom(chain[..k], Mentions(chain[..k], c)[0], c);
      assert false;
    }
  }

  /** Where defaults are set no lower than the first policy for their claim, only the starts have to fit. */
  lemma {:induction false} ChainPreservesMeaning(leaf: Claims, chain: seq<TypePolicy>, rule: TypePolicy, result: Claims)
    requires chain != [] && Progressing(BUILTIN) && Gather(chain) == Ok(rule) && Preservable(leaf, chain, rule)
    requires ApplyEach(leaf, chain) == Ok(result) && DefaultsComeFirst(chain)
    ensures SameOutcome(result, Apply(leaf, rule, BUILTIN)) <==>
            forall c :: c in rule.policy ==> StartFits(leaf, chain, rule, c)
  {
    ChainPreservesMeaningIff(leaf, chain, rule, result);
    forall c | c in rule.policy
      ensures !SetLate(leaf, chain, c)
    {
      NoneIsLate(leaf, chain, c);
    }
  }

  /** `subset_of` and non-empty list `add` only, on list-valued claims. */
  ghost predicate SubsetAndAdd(leaf: Claims, chain: seq<TypePolicy>, rule: TypePolicy) {
    forall c :: Mentions(chain, c) != [] ==>
      OnlyUses({SubsetOfOp, AddOp}, Mentions(chain, c)) && AllInFamily(Mentions(chain, c)) &&
      ListOrAbsent(Lookup(rule.metadata + leaf, c))
  }

  lemma SubsetAndAddStart(ps: seq<ClaimPolicy>, r: ClaimPolicy)
    requires ps != [] && OnlyUses({SubsetOfOp, AddOp}, ps) && AllInFamily(ps) && Fold(ps) == Ok(r)
    ensures AddsStay(ps) && SupersetOfOp !in r
  {
    FoldSets(ps, r);
    assert forall p: ClaimPolicy :: p in ps && SupersetOfOp in p ==> SupersetOfOp in Recognised(p);
    if |ps| > 1 {
      TwoOperatorsFit(SubsetOfOp, AddOp, ps);
    }
  }

  /** For `subset_of` and `add` the combination itself checks the starts: only defaults set late may not fit. */
  lemma {:induction false} SubsetAndAddPreserveMeaning(leaf: Claims, chain: seq<TypePolicy>, rule: TypePolicy, result: Claims)
    requires chain != [] && Progressing(BUILTIN) && Gather(chain) == Ok(rule) && SubsetAndAdd(leaf, chain, rule)
    requires ApplyEach(leaf, chain) == Ok(result)
    ensures SameOutcome(result, Apply(leaf, rule, BUILTIN)) <==>
            forall c :: c in rule.policy && SetLate(leaf, chain, c) ==> LateDefaultFits(chain, rule, c)
    ensures DefaultsComeFirst(chain) ==> SameOutcome(result, Apply(leaf, rule, BUILTIN))
  {
    GatherIsClaimwise(chain);
    ChainPreservesMeaningIff(leaf, chain, rule, result);
    forall c | c in rule.policy
      ensures StartFits(leaf, chain, rule, c) && (DefaultsComeFirst(chain) ==> !SetLate(leaf, chain, c))
    {
      SubsetAndAddStart(Mentions(chain, c), rule.policy[c]);
      if DefaultsComeFirst(chain) {
        NoneIsLate(leaf, chain, c);
      }
    }
  }

  const ALLOW_X_ON_TOP := TypePolicy(map[], map["c" := ALLOW_X])
  const Z_BELOW := TypePolicy(map["c" := List([Str("z")])], map[])
  const LATE_Z := TypePolicy(map["c" := List([Str("z")])], map["c" := ALLOW_X])

  lemma LateIsGathered()
    ensures Gather([ALLOW_X_ON_TOP, Z_BELOW]) == Ok(LATE_Z) && SubsetAndAdd(map[], [ALLOW_X_ON_TOP, Z_BELOW], LATE_Z)
  {
    var chain := [ALLOW_X_ON_TOP, Z_BELOW];
    assert chain[..1] == [ALLOW_X_ON_TOP];
    assert Gather([ALLOW_X_ON_TOP]) == Ok(ALLOW_X_ON_TOP);
    NextRule(ALLOW_X_ON_TOP, Z_BELOW);
    assert CombinePolicies(ALLOW_X_ON_TOP.policy, map[]).value == ALLOW_X_ON_TOP.policy;
    assert ALLOW_X_ON_TOP.metadata + Z_BELOW.metadata == Z_BELOW.metadata;
    assert Recognised(ALLOW_X) == {SubsetOfOp};
    forall c, p | p in Mentions(chain, c)
      ensures p == ALLOW_X && c == "c"
    {
      MentionComesFrom(chain, p, c);
    }
    forall c | Mentions(chain, c) != []
      ensures c == "c"
    {
      assert Mentions(chain, c)[0] in Mentions(chain, c);
    }
  }

  lemma LateValues()
    ensures Progressing(BUILTIN) && Evaluate(None, ALLOW_X, BUILTIN) == Ok(None)
    ensures Evaluate(Some(List([Str("z")])), ALLOW_X, BUILTIN) == Failure
  {
    BuiltinIsResolve(None, ALLOW_X);
    BuiltinIsResolve(Some(List([Str("z")])), ALLOW_X);
    OneMember("x");
    OneMember("z");
    assert {Str("x")} * {Str("z")} == {};
  }

  /** A default set below a `subset_of` that excludes it is never checked one by one; the gathered policy raises. */
  lemma {:induction false} LateDefaultEscapes()
    ensures Gather([ALLOW_X_ON_TOP, Z_BELOW]) == Ok(LATE_Z) && SubsetAndAdd(map[], [ALLOW_X_ON_TOP, Z_BELOW], LATE_Z)
    ensures Progressing(BUILTIN) && ApplyEach(map[], [ALLOW_X_ON_TOP, Z_BELOW]) == Ok(Z_BELOW.metadata)
    ensures Apply(map[], LATE_Z, BUILTIN) == Failure
  {
    var chain := [ALLOW_X_ON_TOP, Z_BELOW];
    LateIsGathered();
    LateValues();
    assert chain[..1] == [ALLOW_X_ON_TOP] && [ALLOW_X_ON_TOP][..0] == [];
    assert Apply(map[], ALLOW_X_ON_TOP, BUILTIN) == Ok(map[]);
    assert ApplyEach(map[], [ALLOW_X_ON_TOP]) == Ok(map[]);
    assert Z_BELOW.metadata + map[] == Z_BELOW.metadata;
    assert ApplyClaims(Z_BELOW.metadata, map[], BUILTIN).value == Z_BELOW.metadata;
    var start: Claims := LATE_Z.metadata + map[];
    assert "c" in LATE_Z.policy && Evaluate(Lookup(start, "c"), LATE_Z.policy["c"], BUILTIN).Failure?;
  }

  // ---- The order of the statements ----

  lemma {:induction false} MentionsConcat(a: seq<TypePolicy>, b: seq<TypePolicy>, c: string)
    ensures Mentions(a + b, c) == Mentions(a, c) + Mentions(b, c)
    decreases |b|
  {
    if b == [] {
      assert a + b == a;
    } else {
      var front, last := b[..|b| - 1], b[|b| - 1];
      assert a + b == (a + front) + [last] && b == front + [last];
      MentionsNext(a + front, last, c);
      MentionsNext(front, last, c);
      MentionsConcat(a, front, c);
    }
  }

  lemma {:induction false} MentionsPermuted(a: seq<TypePolicy>, b: seq<TypePolicy>, c: string)
    requires multiset(a) == multiset(b)
    ensures multiset(Mentions(a, c)) == multiset(Mentions(b, c))
    decreases |a|
  {
    assert |multiset(a)| == |a| && |multiset(b)| == |b|;
    if a != [] {
      var front, last := a[..|a| - 1], a[|a| - 1];
      assert last in multiset(a);
      var k :| 0 <= k < |b| && b[k] == last;
      var l, r := b[..k], b[k + 1..];
      assert a == front + [last] && b == l + [last] + r;
      TakenOut(front, last, l, r);
      MentionsPermuted(front, l + r, c);
      MentionOfTaken(front, last, l, r, c);
    }
  }

  lemma TakenOut(front: seq<TypePolicy>, last: TypePolicy, l: seq<TypePolicy>, r: seq<TypePolicy>)
    requires multiset(front + [last]) == multiset(l + [last] + r)
    ensures multiset(front) == multiset(l + r)
  {
    assert front + [last] + [] == front + [last] && front + [] == front;
    WithoutOne(front, last, [], l, r);
  }

  lemma MentionOfTaken(front: seq<TypePolicy>, last: TypePolicy, l: seq<TypePolicy>, r: seq<TypePolicy>, c: string)
    requires multiset(Mentions(front, c)) == multiset(Mentions(l + r, c))
    ensures multiset(Mentions(front + [last], c)) == multiset(Mentions(l + [last] + r, c))
  {
    MentionsConcat(l, r, c);
    MentionsConcat(l + [last], r, c);
    MentionsNext(l, last, c);
    MentionsNext(front, last, c);
  }

  /** Every claim is governed by one set operator throughout; additions do not depend on the order. */
  ghost predicate OneOperatorEach(chain: seq<TypePolicy>, governs: string -> Operator) {
    forall c :: var op := governs(c);
      (Narrowing(op) || op == AddOp) && GovernedBy(op, Mentions(chain, c)) &&
      (op == AddOp ==> OrderFree(Mentions(chain, c)))
  }

  ghost predicate NoOverlap(chain: seq<TypePolicy>) {
    forall part :: part in chain ==> !Overlaps(part)
  }

  lemma FoldPermuted(op: Operator, ps: seq<ClaimPolicy>, qs: seq<ClaimPolicy>)
    requires ps != [] && multiset(ps) == multiset(qs) && GovernedBy(op, ps) && (Narrowing(op) || op == AddOp)
    requires op == AddOp ==> OrderFree(ps)
    ensures qs != [] && (Fold(ps).Ok? <==> Fold(qs).Ok?)
    ensures Fold(ps).Ok? ==> Fold(ps) == Fold(qs)
  {
    assert |multiset(ps)| == |ps| && |multiset(qs)| == |qs|;
    forall p
      ensures p in ps <==> p in qs
    {
      assert p in ps <==> p in multiset(ps);
    }
    if |ps| == 1 {
      assert ps[0] in qs;
    } else if op == AddOp {
      OrderFreeFold(ps, qs);
    } else {
      NarrowingFold(op, ps);
      NarrowingFold(op, qs);
      if AllSets(op, ps) {
        assert ps[0] in qs && qs[0] in ps;
        assert Common(op, ps) == Common(op, qs);
      }
    }
  }

  lemma AgreementIsSymmetric(chain: seq<TypePolicy>)
    ensures MetadataAgrees(chain) <==> forall p, q :: p in chain && q in chain ==> Agree(p.metadata, q.metadata)
  {
    if MetadataAgrees(chain) {
      forall p, q | p in chain && q in chain
        ensures Agree(p.metadata, q.metadata)
      {
        var i :| 0 <= i < |chain| && chain[i] == p;
        var j :| 0 <= j < |chain| && chain[j] == q;
        if i < j {
          assert Agree(chain[i].metadata, chain[j].metadata);
        } else if j < i {
          assert Agree(chain[j].metadata, chain[i].metadata);
        }
      }
    }
  }

  /** For chains where each claim is governed by one set operator, permuting the statements changes neither whether
      they can be gathered nor the result. */
  lemma {:induction false} PermutingChangesNothing(a: seq<TypePolicy>, b: seq<TypePolicy>, governs: string -> Operator)
    requires a != [] && multiset(a) == multiset(b) && NoOverlap(a) && OneOperatorEach(a, governs)
    ensures Gather(a) == Gather(b)
  {
    assert |multiset(a)| == |a| && |multiset(b)| == |b|;
    forall part
      ensures part in a <==> part in b
    {
      assert part in a <==> part in multiset(a);
    }
    GatherIsClaimwise(a);
    GatherIsClaimwise(b);
    AgreementIsSymmetric(a);
    AgreementIsSymmetric(b);
    assert NoOverlapBelowTop(a) && NoOverlapBelowTop(b);
    forall c
      ensures Mentions(a, c) == [] <==> Mentions(b, c) == []
      ensures Mentions(a, c) != [] ==> Fold(Mentions(a, c)) == Fold(Mentions(b, c))
    {
      MentionsPermuted(a, b, c);
      if Mentions(a, c) == [] {
        assert |multiset(Mentions(b, c))| == |Mentions(b, c)|;
      } else {
        FoldPermuted(governs(c), Mentions(a, c), Mentions(b, c));
      }
    }
    if Gather(a).Ok? {
      SameRules(a, Gather(a).value, b, Gather(b).value);
    }
  }

  lemma SetsCarriesOver(a: seq<TypePolicy>, b: seq<TypePolicy>, c: string)
    requires forall part :: part in a ==> part in b
    ensures Sets(a, c) ==> Sets(b, c)
  {
    if i :| 0 <= i < |a| && c in a[i].metadata {
      assert a[i] in b;
    }
  }

  lemma SameRules(a: seq<TypePolicy>, ra: TypePolicy, b: seq<TypePolicy>, rb: TypePolicy)
    requires forall part :: part in a <==> part in b
    requires PolicyIsFold(ra.policy, a) && MetadataIsUnion(ra.metadata, a) && PolicyIsFold(rb.policy, b)
    requires MetadataIsUnion(rb.metadata, b)
    requires forall c :: (Mentions(a, c) == [] <==> Mentions(b, c) == []) &&
                         (Mentions(a, c) != [] ==> Fold(Mentions(a, c)) == Fold(Mentions(b, c)))
    ensures ra == rb
  {
    assert ra.policy == rb.policy;
    forall c
      ensures Lookup(ra.metadata, c) == Lookup(rb.metadata, c)
    {
      SetsCarriesOver(a, b, c);
      SetsCarriesOver(b, a, c);
      if Sets(a, c) {
        var i :| 0 <= i < |a| && c in a[i].metadata;
        assert a[i] in b;
        var j :| 0 <= j < |b| && b[j] == a[i];
        assert Agree(a[i].metadata, ra.metadata) && Agree(b[j].metadata, rb.metadata);
      }
    }
    SameLookups(ra.metadata, rb.metadata);
  }
}
