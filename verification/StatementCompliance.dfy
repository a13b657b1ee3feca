/** What resolved metadata owe to the statements of the superiors, said of the statements themselves. */
module StatementCompliance {
  import opened Wrappers
  import opened Statements
  import opened ClaimPolicies
  import opened ClaimFold
  import opened PolicyOperators
  import opened ClaimCompliance
  import opened PolicyChain
  import opened PolicyTheorems

  /** A claim starts out as the leaf sets it, otherwise as the superiors do, otherwise absent. */
  ghost predicate StartsFrom(superiors: seq<EntityStatement>, leaf: EntityStatement, t: string, c: string,
          start: Option<Value>)
  {
    if SetsClaim(leaf, t, c) then
      start == Some(leaf.metadata[t][c])
    else
      (forall i :: 0 <= i < |superiors| && SetsClaim(superiors[i], t, c) ==> start == Some(superiors[i].metadata[t][c])) &&
      (start.Some? ==> exists i :: 0 <= i < |superiors| && SetsClaim(superiors[i], t, c))
  }

  /** From there it goes through the fold of the superiors' policies for it, if there are any, to what is in `result`. */
  ghost predicate ResolvesTo(superiors: seq<EntityStatement>, leaf: EntityStatement, t: string, c: string,
          result: Option<Value>)
    requires Progressing(BUILTIN)
  {
    exists start :: StartsFrom(superiors, leaf, t, c, start) &&
      var ps := PoliciesFor(superiors, t, c);
      if ps == [] then result == start else Fold(ps).Ok? && Evaluate(start, Fold(ps).value, BUILTIN) == Ok(result)
  }

  ghost predicate Resolves(superiors: seq<EntityStatement>, leaf: EntityStatement, t: string, c: string)
    requires Progressing(BUILTIN)
  {
    exists result :: ResolvesTo(superiors, leaf, t, c, result)
  }

  lemma StartOf(superiors: seq<EntityStatement>, leaf: EntityStatement, t: string, rule: TypePolicy, c: string)
    requires t in leaf.metadata && GatheredFrom(superiors, t, rule)
    ensures StartsFrom(superiors, leaf, t, c, Lookup(rule.metadata + leaf.metadata[t], c))
    ensures forall start :: StartsFrom(superiors, leaf, t, c, start) ==> start == Lookup(rule.metadata + leaf.metadata[t], c)
  {
    if !SetsClaim(leaf, t, c) && c in rule.metadata {
      var i :| 0 <= i < |superiors| && SetsClaim(superiors[i], t, c);
      assert rule.metadata[c] == superiors[i].metadata[t][c];
    }
  }

  /** One claim resolves to what applying the gathered policy gives for it. */
  lemma ClaimResolves(superiors: seq<EntityStatement>, leaf: EntityStatement, t: string, rule: TypePolicy, c: string,
          result: Option<Value>)
    requires Progressing(BUILTIN) && t in leaf.metadata && GatheredFrom(superiors, t, rule)
    ensures var start := Lookup(rule.metadata + leaf.metadata[t], c);
            ResolvesTo(superiors, leaf, t, c, result) <==>
            if c in rule.policy then Evaluate(start, rule.policy[c], BUILTIN) == Ok(result) else result == start
  {
    StartOf(superiors, leaf, t, rule, c);
    RestrictedIff(superiors, t, c);
    assert StartsFrom(superiors, leaf, t, c, Lookup(rule.metadata + leaf.metadata[t], c));
  }

  lemma ClaimResolvesIff(superiors: seq<EntityStatement>, leaf: EntityStatement, t: string, rule: TypePolicy, c: string)
    requires Progressing(BUILTIN) && t in leaf.metadata && GatheredFrom(superiors, t, rule)
    ensures Resolves(superiors, leaf, t, c) <==>
            (c in rule.policy ==> Evaluate(Lookup(rule.metadata + leaf.metadata[t], c), rule.policy[c], BUILTIN).Ok?)
  {
    var start := Lookup(rule.metadata + leaf.metadata[t], c);
    if c !in rule.policy {
      ClaimResolves(superiors, leaf, t, rule, c, start);
    } else {
      var after := Evaluate(start, rule.policy[c], BUILTIN);
      if after.Ok? {
        ClaimResolves(superiors, leaf, t, rule, c, after.value);
      }
      if result :| ResolvesTo(superiors, leaf, t, c, result) {
        ClaimResolves(superiors, leaf, t, rule, c, result);
      }
    }
  }

  /** The policies of the superiors can be gathered and applied if and only if the statements can be gathered and every
      single claim resolves. */
  lemma {:induction false} ResolvesIff(superiors: seq<EntityStatement>, leaf: EntityStatement, t: string)
    requires Progressing(BUILTIN) && t in leaf.metadata
    ensures var gathered := Gather(Parts(superiors, t));
            gathered.Ok? && Apply(leaf.metadata[t], gathered.value, BUILTIN).Ok? <==>
            Gatherable(superiors, t) && forall c :: Resolves(superiors, leaf, t, c)
  {
    GatheredFromStatements(superiors, t);
    if Gatherable(superiors, t) {
      var rule := Gather(Parts(superiors, t)).value;
      forall c
        ensures Resolves(superiors, leaf, t, c) <==>
                (c in rule.policy ==> Evaluate(Lookup(rule.metadata + leaf.metadata[t], c), rule.policy[c], BUILTIN).Ok?)
      {
        ClaimResolvesIff(superiors, leaf, t, rule, c);
      }
    }
  }

  /** What comes out for each claim is what it resolves to. */
  lemma {:induction false} ResultResolves(superiors: seq<EntityStatement>, leaf: EntityStatement, t: string,
          result: Claims, c: string)
    requires Progressing(BUILTIN) && t in leaf.metadata && Gather(Parts(superiors, t)).Ok?
    requires Apply(leaf.metadata[t], Gather(Parts(superiors, t)).value, BUILTIN) == Ok(result)
    ensures ResolvesTo(superiors, leaf, t, c, Lookup(result, c))
  {
    var rule := Gather(Parts(superiors, t)).value;
    GatheredFromStatements(superiors, t);
    ApplyAt(leaf.metadata[t], rule, c);
    ClaimResolves(superiors, leaf, t, rule, c, Lookup(result, c));
  }

  /** The claim's only policy does not mix `one_of` with the set operators, `essential` is a boolean, and no scalar that
      reaches a `subset_of` spells an operator. */
  ghost predicate OrdinaryClaim(superiors: seq<EntityStatement>, leaf: EntityStatement, t: string, c: string) {
    var ps := PoliciesFor(superiors, t, c);
    ps != [] && UnmixedAlone(ps) && BooleanChain(ps) &&
    forall start :: StartsFrom(superiors, leaf, t, c, start) && Fold(ps).Ok? ==>
      var r := Fold(ps).value; SubsetOfOp in r && ValueOp !in r ==> !SpellsOperator(Filled(start, r), r)
  }

  /** Every `value` that a superior gives for the claim obeys `p`. */
  ghost predicate GivenValuesObeyAt(superiors: seq<EntityStatement>, t: string, c: string, p: ClaimPolicy) {
    forall j :: 0 <= j < |superiors| && Restricts(superiors[j], t, c) && ValueOp in superiors[j].metadataPolicy[t][c] ==>
      Obeys(superiors[j].metadataPolicy[t][c][ValueOp], p)
  }

  lemma ValuesAreGiven(superiors: seq<EntityStatement>, t: string, c: string, p: ClaimPolicy)
    ensures ValuesObey(PoliciesFor(superiors, t, c), p) <==> GivenValuesObeyAt(superiors, t, c, p)
  {
    forall q
      ensures q in PoliciesFor(superiors, t, c) <==>
              exists j :: 0 <= j < |superiors| && Restricts(superiors[j], t, c) && superiors[j].metadataPolicy[t][c] == q
    {
      PoliciesComeFrom(superiors, t, c, q);
    }
  }

  /** The metadata that come out satisfy the policy a superior's statement holds for a claim of the type, if and only if
      every `value` that a superior gives for the claim does. */
  lemma {:induction false} StatementIsObeyedIff(superiors: seq<EntityStatement>, leaf: EntityStatement, t: string,
          result: Claims, i: nat, c: string)
    requires Progressing(BUILTIN) && t in leaf.metadata && Gather(Parts(superiors, t)).Ok?
    requires Apply(leaf.metadata[t], Gather(Parts(superiors, t)).value, BUILTIN) == Ok(result)
    requires i < |superiors| && t in superiors[i].metadataPolicy && c in superiors[i].metadataPolicy[t]
    requires OrdinaryClaim(superiors, leaf, t, c)
    ensures Satisfies(result, c, superiors[i].metadataPolicy[t][c]) <==>
            GivenValuesObeyAt(superiors, t, c, superiors[i].metadataPolicy[t][c])
  {
    var ps, p := PoliciesFor(superiors, t, c), superiors[i].metadataPolicy[t][c];
    GatheredFromStatements(superiors, t);
    ResultResolves(superiors, leaf, t, result, c);
    assert Restricts(superiors[i], t, c);
    PoliciesComeFrom(superiors, t, c, p);
    ValuesAreGiven(superiors, t, c, p);
    var start :| StartsFrom(superiors, leaf, t, c, start) && Evaluate(start, Fold(ps).value, BUILTIN) == Ok(Lookup(result, c));
    ResultCompliesIff(ps, Fold(ps).value, start, Lookup(result, c), p);
  }

  /** Policies can be applied to a verified chain: for every type the leaf has, the superiors' statements can be gathered
      and every claim resolves. A chain without superiors has to have the type "". */
  ghost predicate Processable(verified: seq<EntityStatement>)
    requires Progressing(BUILTIN)
  {
    if |verified| > 1 then
      var n := |verified| - 1;
      forall t :: t in verified[n].metadata ==>
        Gatherable(verified[..n], t) && forall c :: Resolves(verified[..n], verified[n], t, c)
    else
      |verified| == 1 && "" in verified[0].metadata
  }

  /** Every type of the leaf has metadata, each claim as it resolves; and they satisfy the policy a superior's statement
      holds for a claim of the type if and only if every `value` that a superior gives for the claim does. */
  ghost predicate Complies(metadata: map<string, Option<Claims>>, verified: seq<EntityStatement>)
    requires |verified| > 1 && Progressing(BUILTIN)
  {
    var n := |verified| - 1;
    forall t :: t in verified[n].metadata ==>
      t in metadata && metadata[t].Some? &&
      (forall c :: ResolvesTo(verified[..n], verified[n], t, c, Lookup(metadata[t].value, c))) &&
      forall i, c :: 0 <= i < n && Restricts(verified[i], t, c) && OrdinaryClaim(verified[..n], verified[n], t, c) ==>
        var p := verified[i].metadataPolicy[t][c];
        Satisfies(metadata[t].value, c, p) <==> GivenValuesObeyAt(verified[..n], t, c, p)
  }
}
