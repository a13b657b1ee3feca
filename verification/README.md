# A verified model of the fedservice trust engine

fedservice implements the trust engine of OpenID Federation 1.0: an entity's superiors are collected into chains, the
chains are verified from the trust anchor down, naming constraints are enforced (section 6.2), and the metadata policies
of a chain are combined and applied to the leaf's metadata (section 6.1). This project models that engine in Dafny and
proves what it guarantees, over chains of any length, runs of any number of calls, and every network.

| file | what it models |
|---|---|
| `Wrappers.dfy`, `Statements.dfy` | optional values and raising calls; claim values, claim policies, entity statements, signed tokens, the network |
| `ClaimPolicies.dfy`, `ClaimFold.dfy` | combining two policies for one claim; folding all policies of a chain for one claim |
| `PolicyOperators.dfy` | the seven operators and the interpreter with jumps |
| `ClaimCompliance.dfy`, `MeaningPreservation.dfy`, `ScalarMeaning.dfy` | what one claim's value guarantees; combined against one-by-one application |
| `PolicyChain.dfy`, `PolicyTheorems.dfy`, `MetadataPolicy.dfy` | gathering and applying over whole chains, its theorems, and the in-place form |
| `StatementCompliance.dfy` | what resolved metadata owe to the superiors' statements |
| `Names.dfy`, `ChainConstraints.dfy`, `NamesInForce.dfy` | the order on host names; naming and path length constraints; which chains the lists in force let through |
| `TrustChains.dfy`, `ChainVerification.dfy`, `ChainAcceptance.dfy` | the record of an accepted chain; verification against a growing key jar; which chains are accepted and which keys are taken in |
| `ChainLists.dfy` | flattening a tree of superiors into mutable lists |
| `StatementCache.dfy`, `StatementLookup.dfy`, `CacheAnswers.dfy` | the expiring cache; one lookup through both caches; where its answers come from |
| `Collection.dfy`, `HintTrees.dfy` | collection without caches; its trees and paths, said of what the network serves |
| `CachedCollection.dfy`, `Collector.dfy` | collection through caches, as a function of their state; the collector |
| `Resolution.dfy` | collecting, flattening, extending, verifying and applying policies together |
| `TrustMarks.dfy` | the issuer's log of trust marks and its backward scan |

How the model reads the program:

- A Python exception is `Failure`. Which of several exceptions comes first is left open, since the code iterates over sets.
- `list(set(...))` is the value `Unordered`: its members are fixed, its order is not. `set("abc")` is a set of characters and
  `set(5)` raises, as in Python. "Same" metadata means equal values, lists compared as sets.
- The network, the clock and the signature check are parameters: `World` holds what is served and which keys verify what.
- Code that updates dictionaries, lists or fields is a class or a method with the same loops, proved equal to a function of
  its input or old state; loops over a set pick any element.
- Functions that only specify (`Resolve`, `TreeFor`, `Scan`, ...) are the other side of those proofs.

Where the program does not do what its documentation suggests, the model follows the program, an example shows it, and the
exact condition is proved where there is one:

- A combined `superset_of` is an intersection, so a statement's own demand can be lost (`SupersetDemandIsLost`, `SupersetEnforcedIff`,
  `DemandEnforcedIff`).
- A child's `value` under a superior without one is never checked (`ChildValueEscapes`, `ValueSkipsTheChecks`; `EnforcedIff`, `StraightIff`).
- A scalar passes `subset_of` exactly when it spells an operator of its own policy (`ListedScalarIsRefused`, `ScalarPassesSubsetIff`).
- The check that `add` stays within `subset_of` is skipped as soon as a third operator is present (`EssentialHidesTheGuard`,
  `MeaningPreservedIff`); so are those that `add` includes `superset_of` (`DemandOnAddedClaim`, `AbsentPreservedIff`) and that
  `default` is one of `one_of` (`DefaultOutsideChoice`, `DefaultPreservedIff`).
- Metadata set below a policy for the claim are checked only when policies are combined (`LateDefaultEscapes`,
  `ChainPreservesMeaningIff`).
- Empty `add` lists make the outcome depend on the order of statements (`WideningDependsOnOrder`, `OrderFreeIff`).
- `excluded` lists narrow downwards, so a subordinate can lift an exclusion (`ExcludedLeafIsAccepted`,
  `ExclusionReachesLeafIff`).
- Path lengths are never counted (`PathLengthIsNotCounted`).
- The top issuer is looked up in the key jar, not among the trust anchors (`SubjectsBecomeTops`); statements need not link
  up (`LinksAreNotChecked`, `AcceptedLinksIff`, `CollectedLinksIff`).
- A negative expiry time resets the running minimum (`ExpiresWithTheFirst`).
- `seen` and `max_superiors` decide nothing; hints that go round are followed for ever (`CyclesNeverCollect`,
  `CollectsIff`).
- A cached statement may outlive its authority's cached configuration, and collection then raises
  (`ConfigurationExpiresFirst`, `ConfigurationGoneIff`, `AskingRaisesIff`).
- A statement without `exp` is cached before its expiry time is looked for, and its pair raises ever after
  (`UndatedStatementSticks`, `PairsStayPaired`).

## Model

| member | source | states |
|---|---|---|
| `ClaimPolicies.CombineClaimPolicy` | src/fedservice/entity/function/policy.py:112-188 | filling the rule operator by operator, in any order of the operator set, gives `CombineClaim`: under a superior's `value` it succeeds exactly on a child that bears the value, otherwise it gives exactly what is `CombinedFrom` the two policies, and raises in all other cases |
| `ClaimPolicies.UnderValueIff` | src/fedservice/entity/function/policy.py:126-141 | a policy combines under a `value` if and only if it has no recognised operator, or `essential` alone, or the same `value` without `essential`; only `essential` alone changes anything, and what comes out is then the value with that `essential` |
| `ClaimPolicies.CombinedIff` | src/fedservice/entity/function/policy.py:142-188 | without a superior's `value`, two policies combine to a third if and only if that has the recognised operators of both, with what each gives or both give by members, does not mix `one_of` with the set operators, and passes the inclusion check made for exactly its operators |
| `ClaimPolicies.CombineKeeps` | src/fedservice/entity/function/policy.py:142-188 | under a superior without `value`, a combination has exactly the recognised operators of both, never mixes `one_of` with the set operators, and narrows (`add`: widens) every list given |
| `ClaimPolicies.CombineDemands` | src/fedservice/entity/function/policy.py:84-96 | under a superior without `value`, a combination demands the claim exactly when superior or child does (`essential` being a boolean) |
| `ClaimFold.SingleStep` | src/fedservice/entity/function/policy.py:46-56 | two policies of one set operator combine to the intersection or union, and raise exactly when it is empty |
| `ClaimFold.NarrowingFold` | src/fedservice/entity/function/policy.py:12-56 | over a chain of any length, `subset_of`, `one_of` and `superset_of` each give the intersection of all lists; it raises exactly when a claim mentioned at least twice has an empty one |
| `ClaimFold.WideningFold` | src/fedservice/entity/function/policy.py:24-56 | `add` gives the union of all lists, and raises exactly when the first two mentions add nothing |
| `ClaimFold.FoldFromValue` | src/fedservice/entity/function/policy.py:126-141 | from the statement on that leaves a `value`, a chain folds if and only if every policy below bears that value; the fold is then what that statement left, or its value with the last `essential` given alone |
| `ClaimFold.ValueOnTop` | src/fedservice/entity/function/policy.py:126-141 | so a claim with a `value` on top folds exactly when every later policy bears it, and keeps it |
| `ClaimFold.WideningDependsOnOrder` | src/fedservice/entity/function/policy.py:46-52 | with empty `add` lists, reordering the statements turns success into an exception |
| `ClaimFold.OrderFreeIff` | src/fedservice/entity/function/policy.py:24-56 | the order of additions to a claim makes no difference, to success or result, if and only if at most one list is empty or all are |
| `PolicyOperators.BuiltinIsResolve` | src/fedservice/entity/function/policy_operator.py:30-128 | for every policy and value the jumping interpreter over the built-in sequence computes the jump-free `Resolve` |
| `PolicyOperators.EvaluatesIff` | src/fedservice/entity/function/policy_operator.py:30-113 | for every policy and value the interpreter gives exactly what comes out operator by operator, said by members: additions or the default, then `one_of` for a scalar, or what `subset_of` leaves and `superset_of` demands; otherwise it raises |
| `PolicyOperators.JumpFreeIsStraight` | src/fedservice/entity/function/policy_operator.py:3-54 | where `value` stands alone or with `essential` and `one_of` is not mixed with the set operators, it is a straight pass in POLICY_APPLICATION_ORDER |
| `PolicyOperators.ValueSkipsTheChecks` | src/fedservice/entity/function/policy_operator.py:30-37 | a `value` outside `subset_of` is let through, where a straight pass raises |
| `PolicyOperators.StraightIff` | src/fedservice/entity/function/policy_operator.py:30-54 | the jumping interpreter does what a straight pass does, on every value, if and only if a `value` passes the other operators of its policy or, without one, no scalar under `one_of` skips a check that matters |
| `PolicyOperators.ProgressingTerminates` | src/fedservice/entity/function/policy.py:264-275 | if no operator that can return its `next` names itself, the loop stops within one turn per operator and one more, with the interpreter's result |
| `PolicyOperators.StopsIffProgressing` | src/fedservice/entity/function/policy.py:245-275 | for sequences holding each operator once, the loop stops on every input if and only if no operator that can return its `next` names itself |
| `ClaimCompliance.FoldKeeps` | src/fedservice/entity/function/policy.py:142-188 | the fold of a value-free chain refines every statement's set operators, and never mixes `one_of` with them unless its only policy does |
| `ClaimCompliance.FoldDemands` | src/fedservice/entity/function/policy.py:84-96 | the fold of a value-free chain with boolean `essential` demands the claim exactly when some statement does |
| `ClaimCompliance.ResultComplies` | src/fedservice/entity/function/policy_operator.py:40-113 | a value that comes out of the combined policy of a value-free chain obeys each statement's own `subset_of`, `one_of` and `essential`, and the combined `superset_of` |
| `ClaimCompliance.ScalarPassesSubsetIff` | src/fedservice/entity/function/policy_operator.py:84-93 | a scalar that reaches `subset_of` passes if and only if it spells an operator of the claim's policy (and its characters cover `superset_of`) |
| `ClaimCompliance.ListedScalarIsRefused` | src/fedservice/entity/function/policy_operator.py:84-93 | the scalar that `subset_of` lists is refused, the name of the operator is let through |
| `ClaimCompliance.SupersetDemandIsLost` | src/fedservice/entity/function/policy.py:16-17 | a statement's own `superset_of` can be violated by accepted metadata |
| `ClaimCompliance.SupersetEnforcedIff` | src/fedservice/entity/function/policy.py:16-17 | for a claim governed by `superset_of`, it is enforced on every leaf exactly when all statements demand at least as much |
| `ClaimCompliance.ChildValueEscapes` | src/fedservice/entity/function/policy.py:142-155 | a child's `value` under a superior without one overrides the superior's `subset_of` |
| `ClaimCompliance.FoldValue` | src/fedservice/entity/function/policy.py:142-155 | the combined policy holds a `value` exactly when some statement gives one, and then it is the `value` of every statement that does |
| `ClaimCompliance.EnforcedIff` | src/fedservice/entity/function/policy.py:112-188 | a statement's own `subset_of` and `one_of` are enforced on every result if and only if every `value` that a statement gives obeys them |
| `ClaimCompliance.ApplyingTwice` | src/fedservice/entity/function/policy_operator.py:30-113 | evaluating a claim again under the same policy succeeds and changes nothing but list order, if and only if the value that reaches the checks is no scalar that is added to, or one whose characters stay as they are |
| `ClaimCompliance.ScalarAddIsNotRepeatable` | src/fedservice/entity/function/policy_operator.py:57-65 | a scalar `add` creating a claim becomes a list the second time |
| `MeaningPreservation.CombiningPreservesMeaning` | src/fedservice/entity/function/policy_operator.py:57-113 | for `subset_of`, `superset_of`, non-empty list `add` and boolean `essential`, on any list or absent claim: if the fold and the one-by-one application succeed, the combined policy succeeds with the same members if and only if, where the claim is present or added, what is added and survives is allowed by all, and what all demand is left |
| `MeaningPreservation.ListPreservedIff` | src/fedservice/entity/function/policy_operator.py:57-113 | for a list that passes one by one this does not depend on the list: additions stay, and what all statements demand all allow |
| `MeaningPreservation.AbsentPreservedIff` | src/fedservice/entity/function/policy_operator.py:57-113 | for the absent claim: nothing is added, or additions stay and include what all statements demand |
| `MeaningPreservation.MeaningPreservedIff` | src/fedservice/entity/function/policy.py:112-188 | for `subset_of`, `add` and `essential`: meaning is preserved on every list and on the absent claim if and only if whatever is added at a statement and allowed from there down is allowed by all above (or a `subset_of` that allows nothing makes the statements refuse everything) |
| `MeaningPreservation.TwoOperatorsPreserveMeaning` | src/fedservice/entity/function/policy.py:157-187 | with two kinds of set operator the combination has checked all of that itself |
| `MeaningPreservation.EssentialHidesTheGuard` | src/fedservice/entity/function/policy.py:182-184 | with a third operator it has not: combined and one-by-one application differ |
| `MeaningPreservation.DemandOnAddedClaim` | src/fedservice/entity/function/policy.py:185-187 | nor that what is added includes what is demanded: on the absent claim one-by-one application succeeds, the combined policy raises |
| `MeaningPreservation.EmptyAddBreaksMeaning` | src/fedservice/entity/function/policy_operator.py:61-65 | an empty `add` is accepted one by one and rejected combined |
| `MeaningPreservation.DemandEnforcedIff` | src/fedservice/entity/function/policy_operator.py:96-104 | under a combined policy of four operators that some list passes, which members every list that passes holds: those demanded together with the allowed additions (or, if there are none, those of every single allowed member) |
| `MeaningPreservation.DefaultFitsIff` | src/fedservice/entity/function/policy.py:343-347 | metadata that set a claim between two policies for it come out the same combined as one by one if and only if additions stay, demands are left, and what the policies below allow of them the ones above allow too, or it is added anyway |
| `ScalarMeaning.ChoicesPreserveMeaning` | src/fedservice/entity/function/policy_operator.py:40-73 | for `one_of` lists, `default` and `essential`, on any value that is present: the combined policy does what the statements do one by one, also in raising |
| `ScalarMeaning.DefaultPreservedIff` | src/fedservice/entity/function/policy_operator.py:67-73 | on the absent claim: if and only if the default passes every statement's `one_of`, also above the one that gives it |
| `ScalarMeaning.DefaultOutsideChoice` | src/fedservice/entity/function/policy.py:172-181 | with a third operator the combination does not check that |
| `PolicyChain.GatherIsClaimwise` | src/fedservice/entity/function/policy.py:191-242 | gathering succeeds if and only if metadata agree, no statement below the top overlaps itself and every claim's policies fold; the result is the union of metadata and the folds |
| `PolicyChain.GatheredFromStatements` | src/fedservice/entity/function/policy.py:301-332 | said of the statements' own `metadata` and `metadata_policy`: gathering succeeds if and only if statements that set the same claim agree, none below the top sets a claim it restricts, and every claim's policies fold; the gathered claims are then exactly those some statement restricts, each folded, and the metadata exactly those some statement sets |
| `PolicyTheorems.ChainComplies` | src/fedservice/entity/function/policy.py:301-356 | at any chain length, metadata resolved under the gathered policy satisfy every statement's own `subset_of`, `one_of` and `essential` if and only if every `value` that a statement gives obeys them |
| `PolicyTheorems.ValueFreeChainComplies` | src/fedservice/entity/function/policy.py:301-356 | so with policies without `value` they always do |
| `PolicyTheorems.OrderIsIrrelevant` | src/fedservice/entity/function/policy.py:255-275 | every visiting order of the claims gives the same metadata or the same failure |
| `PolicyTheorems.ApplyIsIdempotent` | src/fedservice/entity/function/policy.py:334-356 | applying a gathered policy to its own result succeeds and gives the same metadata, if and only if every claim is repeatable |
| `PolicyTheorems.ChainPreservesMeaningIff` | src/fedservice/entity/function/policy.py:209-356 | for policies of the four operators: applying the gathered policy gives the metadata that applying the statements one by one, superior first, gives, if and only if every claim with a policy fits, by where it starts: set by the leaf or on top, absent, or set below a policy |
| `PolicyTheorems.ChainPreservesMeaning` | src/fedservice/entity/function/policy.py:209-356 | where no statement sets a claim that one above has a policy for, only the first two cases remain |
| `PolicyTheorems.SubsetAndAddPreserveMeaning` | src/fedservice/entity/function/policy.py:209-356 | for policies of `subset_of` and non-empty list `add`, only defaults set below a policy have to fit |
| `PolicyTheorems.LateDefaultEscapes` | src/fedservice/entity/function/policy.py:343-347 | a default set below a `subset_of` that excludes it: one by one it stays, the gathered policy raises |
| `PolicyTheorems.PermutingChangesNothing` | src/fedservice/entity/function/policy.py:209-332 | for claims governed throughout by one set operator (and, for `add`, free of the order), permuting statements none of which overlaps itself changes neither success nor result |
| `StatementCompliance.ResolvesIff` | src/fedservice/entity/function/policy.py:301-356 | the superiors' policies can be gathered and applied if and only if their statements can be gathered and every claim resolves: from the leaf's own metadata, else a superior's, through the fold of the policies the statements hold for it |
| `StatementCompliance.ResultResolves` | src/fedservice/entity/function/policy.py:334-356 | and what comes out for every claim is what it resolves to |
| `StatementCompliance.StatementIsObeyedIff` | src/fedservice/entity/function/policy.py:301-356 | for every superior's statement and every claim its `metadata_policy` restricts: the result satisfies that policy if and only if every `value` that a superior gives for the claim does |
| `MetadataPolicy.CombineClaimPolicies` | src/fedservice/entity/function/policy.py:227-238 | the loops over shared and unshared claims compute the claim-by-claim combination |
| `MetadataPolicy.CombineInto` | src/fedservice/entity/function/policy.py:209-242 | `combine` leaves exactly the combination in `superior`; when policies clash only the metadata have been written |
| `MetadataPolicy.OpPlace` | src/fedservice/entity/function/policy.py:245-253 | the first place of the operator at or after the index, or nothing |
| `MetadataPolicy.ApplyToClaim` | src/fedservice/entity/function/policy.py:265-275 | the operator loop leaves the interpreter's value for the claim, or what was written before it raised, and touches no other claim |
| `MetadataPolicy.ApplyMetadataPolicy` | src/fedservice/entity/function/policy.py:255-291 | whatever order claims are visited in, every claim gets its own evaluation; when one raises, what each claim then holds; claims without policy are never touched |
| `MetadataPolicy.TrustChainPolicy.GatherPolicies` | src/fedservice/entity/function/policy.py:301-332 | the loop computes `Gather` of the statements' parts for the entity type, of which `GatheredFromStatements` says what it is |
| `MetadataPolicy.TrustChainPolicy.ApplyPolicy` | src/fedservice/entity/function/policy.py:334-356 | superior metadata are defaults; without them the leaf's own dictionary is changed, otherwise a copy |
| `MetadataPolicy.TrustChainPolicy.ProcessUnderSuperiors` | src/fedservice/entity/function/policy.py:358-383 | what is recorded for one entity type, what raises, and what the leaf's own metadata are afterwards, also when applying raises half way |
| `MetadataPolicy.TrustChainPolicy.ProcessAlone` | src/fedservice/entity/function/policy.py:384-386 | on a chain of one statement nothing is applied and the whole metadata record is replaced |
| `MetadataPolicy.TrustChainPolicy.ProcessAll` | src/fedservice/entity/function/policy.py:376-386 | succeeds if and only if every type the leaf has can be processed, and records each |
| `Names.JoinSplit` | src/fedservice/entity_statement/constraints.py:40-41 | the labels of a name hold no dot, and joined by dots give it back |
| `Names.RemoveSchemeIff` | src/fedservice/entity_statement/constraints.py:30-36 | a name comes out exactly of that name with `https://` or `http://` before it |
| `Names.CompareNames` | src/fedservice/entity_statement/constraints.py:39-51 | the loop over zipped, reversed labels computes the order, and raises for a wrong scheme |
| `Names.BelowMeans` | src/fedservice/entity_statement/constraints.py:42-51 | one name is more specific exactly if the other's labels are a prefix or part from it at an empty label |
| `Names.MoreSpecificIsPartialOrder` | src/fedservice/entity_statement/constraints.py:30-51 | reflexive, antisymmetric and transitive on names without scheme, with empty labels anywhere |
| `ChainConstraints.PathFoldIsMinimum` | src/fedservice/entity_statement/constraints.py:10-27 | the fold is the minimum of what each assigned limit leaves, and negative exactly when one is exceeded |
| `ChainConstraints.CollectUpdatedSpecs` | src/fedservice/entity_statement/constraints.py:65-77 | the nested loops replace every old name by the new names refining it, or keep it |
| `ChainConstraints.UpdateNarrows` | src/fedservice/entity_statement/constraints.py:65-77 | an update is never empty, every new entry refines an old one, and every old entry is refined |
| `ChainConstraints.NamingStore.Update` | src/fedservice/entity_statement/constraints.py:80-105 | both lists updated, a KeyError for a key missing once a list is set, and what either list is then |
| `ChainConstraints.IsCovered` | src/fedservice/entity_statement/constraints.py:108-119 | the early-exit loop of `permitted` and `excluded` |
| `ChainConstraints.CoveredMeans` | src/fedservice/entity_statement/constraints.py:108-119 | it answers whether the subject is more specific than some name of the list |
| `ChainConstraints.CoverageIsMonotone` | src/fedservice/entity_statement/constraints.py:108-119 | `permitted` and `excluded` carry over to every more specific subject |
| `ChainConstraints.MeetsRestrictions` | src/fedservice/entity_statement/constraints.py:122-174 | the loop over running state computes `Meets`, of which `MeetsIff` says what it is; an empty chain raises |
| `ChainConstraints.PermittedOnlyNarrows` | src/fedservice/entity_statement/constraints.py:122-174 | on every accepted chain the leaf and each constrained subject is permitted by the first non-empty list met |
| `ChainConstraints.PathLengthIsNotCounted` | src/fedservice/entity_statement/constraints.py:131-148 | a chain is accepted if and only if no limit is negative and it is accepted with all limits removed |
| `ChainConstraints.UpdateHolds` | src/fedservice/entity_statement/constraints.py:65-77 | an updated list holds the old names that no new name refines and the new names that refine an old one, nothing else |
| `ChainConstraints.ExclusionsKeptIff` | src/fedservice/entity_statement/constraints.py:80-91 | an update keeps every exclusion exactly when each old name is under an old name that no new one refines, or under a new one that refines an old one |
| `ChainConstraints.ExclusionIsLifted` | src/fedservice/entity_statement/constraints.py:80-91 | an update by a subordinate lets in a name the anchor had excluded |
| `ChainConstraints.ExcludedLeafIsAccepted` | src/fedservice/entity_statement/constraints.py:122-174 | so a chain accepts a leaf that its anchor excludes |
| `ChainConstraints.ExclusionsReachIff` | src/fedservice/entity_statement/constraints.py:65-91 | what is excluded at first is excluded after any number of updates if and only if every single one keeps it: nothing is excluded again |
| `ChainConstraints.ExclusionReachesLeafIff` | src/fedservice/entity_statement/constraints.py:122-174 | on an accepted chain that permits no names, excluded names are refused as the leaf, whatever the leaf, if and only if every superior's list keeps them |
| `NamesInForce.MeetsIff` | src/fedservice/entity_statement/constraints.py:122-174 | on the lists in force at each statement: a chain is accepted if and only if every superior with constraints, and the leaf, is let through and no limit is negative; it is rejected, rather than raising, if and only if some statement is turned away and all above it are let through |
| `NamesInForce.AcceptedNamesIff` | src/fedservice/entity_statement/constraints.py:122-174 | a chain whose names have schemes is accepted if and only if, at every superior with constraints and at the leaf, no limit is negative, no update raises, and the subject is under no excluded name in force and, where permitted names are in force, under one of them |
| `NamesInForce.UpdateRaisesIff` | src/fedservice/entity_statement/constraints.py:65-77 | an update raises exactly when a name it has to compare lacks a scheme |
| `ChainVerification.KeyJar.Import` | src/fedservice/entity/function/verifier.py:81-96 | the subject then holds exactly the keys it held and those given, and is known even without keys; no other entity is touched |
| `ChainVerification.TrustChainVerifier.VerifyTrustChain` | src/fedservice/entity/function/verifier.py:43-103 | result and key jar are those of `Verify`, also when the call rejects or raises; `AcceptedIff` and `KeysAfterCallsIff` say what they are |
| `ChainVerification.TrustChainVerifier.Call` | src/fedservice/entity/function/verifier.py:115-138 | the record of an accepted chain: expiry, anchor, issuer path, tokens; a statement without expiry time makes it raise after all |
| `ChainVerification.KeyStoreIsSafe` | src/fedservice/entity/function/verifier.py:43-103 | after any sequence of calls the jar has only grown, every key traces back to the initial jar through signed statements, and returned statements are signed by such keys |
| `ChainVerification.AcceptedIsWhole` | src/fedservice/entity/function/verifier.py:100-103 | an accepted chain is all the statements presented |
| `ChainVerification.SubjectsBecomeTops` | src/fedservice/entity/function/verifier.py:23-103 | after any calls, accepted, rejected or raising, an entity passes the anchor test if and only if it did before or some call got as far as verifying a token that brings its keys |
| `ChainVerification.FirstTokenSuffices` | src/fedservice/entity/function/verifier.py:60-96 | one verified token with keys is enough, whatever becomes of the rest of the chain |
| `ChainAcceptance.AcceptedIff` | src/fedservice/entity/function/verifier.py:43-103 | a chain is accepted if and only if it starts with a signed JWT whose issuer is in the jar, each token verifies with an initial key of its issuer or one listed in an earlier token about that issuer, all but the last carry `jwks`, and no restriction is broken; and exactly when it is rejected rather than raising |
| `ChainAcceptance.CallAcceptsIff` | src/fedservice/entity/function/verifier.py:105-138 | the whole call accepts it if and only if, besides, every statement is dated |
| `ChainAcceptance.KeysAfterCallsIff` | src/fedservice/entity/function/verifier.py:75-96 | after any sequence of calls, accepted, rejected or raising, the jar holds a key for an entity if and only if it did before or a token about the entity lists it that some call got as far as verifying |
| `ChainVerification.LinksAreNotChecked` | src/fedservice/entity/function/verifier.py:60-103 | a statement about one entity followed by another's configuration is accepted, each signed with its issuer's key |
| `ChainVerification.AcceptedLinksIff` | src/fedservice/entity/function/verifier.py:100-103 | an accepted chain links up exactly when the tokens presented do |
| `ChainVerification.TrustChainExpiresAt` | src/fedservice/entity/function/verifier.py:105-113 | the running variable over the chain |
| `ChainVerification.ExpiresWithTheFirst` | src/fedservice/entity/function/verifier.py:105-113 | raises exactly when some statement has no expiry time; otherwise the result is one of the times given, and at most all of them exactly when none is negative or the last is smallest |
| `ChainLists.FlatteningIsFaithful` | src/fedservice/entity/function/__init__.py:42-62 | one chain per leaf, each leaf exactly once from left to right, each chain the reversed path to its leaf |
| `ChainLists.Tree2Chains` | src/fedservice/entity/function/__init__.py:42-62 | the in-place flattening returns exactly those chains, in new lists of which no two share storage |
| `ChainLists.FlatteningsAgree` | flow_descriptions/banch2list.py:1-15 | on trees without missing branches it equals `branch2lists` over the branches |
| `ChainLists.Branch2Lists` | flow_descriptions/banch2list.py:1-15 | the in-place form of `branch2lists`, again without shared storage |
| `StatementCache.ESCache.GetItem` | src/fedservice/entity_statement/cache.py:25-40 | what a read returns, that an expired dictionary is deleted, and that one without expiry time makes it raise |
| `StatementCache.ReadsAreLastWrites` | src/fedservice/entity_statement/cache.py:22-43 | after any trace at non-decreasing times a read returns the last value written, unless that is a dictionary without expiry time, on which it raises, or one expiring no later than the allowed delta from now, when it returns nothing |
| `StatementCache.NothingPersists` | src/fedservice/entity_statement/cache.py:25-40 | once nothing is found, nothing is found until the key is written again |
| `StatementLookup.KeysAreDistinct` | src/fedservice/entity/function/trust_chain_collector.py:60-65 | for ids without `!` both kinds of key are injective and never collide |
| `StatementLookup.BangsCollide` | src/fedservice/entity/function/trust_chain_collector.py:60-65 | with `!` in ids they do collide |
| `StatementLookup.LookupKeepsPairsIff` | src/fedservice/entity/function/trust_chain_collector.py:265-299 | one lookup keeps statement and time entries paired if and only if it does not store a statement without expiry time |
| `StatementLookup.PairsStayPaired` | src/fedservice/entity/function/trust_chain_collector.py:265-299 | after any lookups at any times against any networks, a statement is cached exactly when its time entry is, with its own expiry time, if and only if no lookup of the run stored a statement without one |
| `StatementLookup.UndatedStatementSticks` | src/fedservice/entity/function/trust_chain_collector.py:294-299 | a statement served without expiry time makes the lookup raise, and every later lookup of that pair, whatever is served by then |
| `StatementLookup.LookupIsTransparent` | src/fedservice/entity/function/trust_chain_collector.py:184-207 | in a consistent state a lookup answers what the network would, keeps consistency, forgets nothing, and fetches only what is not cached |
| `StatementLookup.ConfigurationGoneIff` | src/fedservice/entity/function/trust_chain_collector.py:265-335 | in every state: after a lookup that gave a statement, the authority's configuration cannot be read if and only if the statement came from the cache and the configuration was not cached or no longer recent, or both were fetched and the configuration was too old when it came |
| `StatementLookup.AskingRaisesIff` | src/fedservice/entity/function/trust_chain_collector.py:325-335 | asking an authority raises if and only if the lookup does or that is the case |
| `StatementLookup.ConfigurationExpiresFirst` | src/fedservice/entity/function/trust_chain_collector.py:331-335 | from empty caches: once the configuration fetched with a statement has expired before it, the lookup still answers from the cache, fetches nothing, and asking raises |
| `CacheAnswers.EndpointComesFrom` | src/fedservice/entity/function/trust_chain_collector.py:184-207 | in every state: a fresh cached configuration with a fetch endpoint answers, an undated one or one without federation entity raises, and in all other cases the network's configuration is asked and cached |
| `CacheAnswers.StatementComesFrom` | src/fedservice/entity/function/trust_chain_collector.py:265-299 | in every state: a cached statement answers while its time entry is not too old; a missing time entry raises; otherwise both are dropped and the statement is fetched and stored with its expiry time |
| `CacheAnswers.AnswerComesFrom` | src/fedservice/entity/function/trust_chain_collector.py:325-335 | asking an authority goes on with a statement and a configuration if and only if the lookup gave the statement and the cache then has that configuration, fresh |
| `CacheAnswers.LeafComesFrom` | src/fedservice/entity/function/trust_chain_collector.py:343-373 | the leaf's configuration is the cached one until the allowed delta after its expiry, otherwise the network's, which is cached |
| `Collection.EdgesAreHints` | src/fedservice/entity/function/trust_chain_collector.py:257-263 | the edges of a collected tree are exactly the hints, each once |
| `Collection.FlatteningIsExact` | src/fedservice/entity/function/trust_chain_collector.py:227-341 | flattening a collected tree yields the statement lists of all maximal hint paths, each exactly once |
| `Collection.RankIsImmaterial` | src/fedservice/entity/function/trust_chain_collector.py:227-263 | the tree does not depend on the rank that shows collection ends |
| `Collection.RankedCollectionEnds` | src/fedservice/entity/function/trust_chain_collector.py:227-341 | where followed hints can be ranked the recursion ends, no deeper than the rank, with the specified tree |
| `Collection.EndlessHintsNeverCollect` | src/fedservice/entity/function/trust_chain_collector.py:257-261 | on an endless walk of followed hints collection never returns a tree, although `seen` is kept |
| `Collection.CyclesNeverCollect` | src/fedservice/entity/function/trust_chain_collector.py:257-261 | on a cycle of followed hints of any length there is such a walk |
| `Collection.CollectsIff` | src/fedservice/entity/function/trust_chain_collector.py:227-341 | a tree is returned within some depth if and only if no followed hint raises and there is no endless walk |
| `Collection.CollectableIffRanked` | src/fedservice/entity/function/trust_chain_collector.py:227-341 | and if and only if the hints reached can be ranked and the ranked collection does not raise |
| `HintTrees.AskIff` | src/fedservice/entity/function/trust_chain_collector.py:301-341 | which statement and configuration an authority is followed with, and when it is not followed, said of its own configuration's fetch endpoint and of what is served there |
| `HintTrees.CollectedIff` | src/fedservice/entity/function/trust_chain_collector.py:227-341 | collecting gives a tree and a configuration if and only if the configuration is served and self-signed and the tree stands above it: no edge without `authority_hints` or at `stop_at`, otherwise one for each hint of that list, in the order of their first occurrences, and above each followed hint the authority's statement and the tree above its configuration |
| `HintTrees.IssuersAreTheHints` | src/fedservice/entity/function/trust_chain_collector.py:250-261 | so at every branch the issuers are exactly the hints in the configuration's own list, each once, or none |
| `HintTrees.HintPathIff` | src/fedservice/entity/function/trust_chain_collector.py:227-341 | the maximal paths and their statements, said of `authority_hints`, `stop_at` and what is served |
| `HintTrees.ChainsAreHintPaths` | src/fedservice/entity/function/__init__.py:42-98 | flattening a collected tree gives for every such path its statements from the top down, each path exactly once |
| `CachedCollection.TreeKeeps` | src/fedservice/entity/function/trust_chain_collector.py:227-341 | from any state a collection keeps each kind of entry in its place and only adds to the log of fetched statements |
| `CachedCollection.TreeIsTransparent` | src/fedservice/entity/function/trust_chain_collector.py:227-341 | in a consistent state, at a fixed time, collecting through the caches gives the cache-free tree; the state stays consistent, nothing is forgotten, every statement in the tree is cached, and only statements that were not cached are fetched, none twice |
| `CachedCollection.CollectIsTransparent` | src/fedservice/entity/function/trust_chain_collector.py:343-376 | the same for a whole call, from the leaf's configuration |
| `Collector.TrustChainCollector.GetFederationFetchEndpoint` | src/fedservice/entity/function/trust_chain_collector.py:184-207 | the endpoint and the configuration cache left behind, in every state |
| `Collector.TrustChainCollector.GetEntityStatement` | src/fedservice/entity/function/trust_chain_collector.py:265-299 | the statement, both caches and whether it was fetched, in every state |
| `Collector.TrustChainCollector.AskAuthority` | src/fedservice/entity/function/trust_chain_collector.py:301-335 | the first half of `collect_branch` in every state, at any time against any network: the statement and configuration in hand, or an exception |
| `Collector.TrustChainCollector.CollectBranch` | src/fedservice/entity/function/trust_chain_collector.py:301-341 | branch, caches and fetched statements are those of `BranchIn`, in every state from which the recursion ends, whatever `seen` and `max_superiors` are |
| `Collector.TrustChainCollector.CollectTree` | src/fedservice/entity/function/trust_chain_collector.py:227-263 | the same for the tree, `TreeIn`; in every state its issuers are the hints in the configuration's own list, in the order of their first occurrences, or none without a list or at `stop_at` |
| `Collector.TrustChainCollector.Call` | src/fedservice/entity/function/trust_chain_collector.py:343-376 | tree and leaf configuration, cached or fetched, in every such state |
| `Collector.TrustChainCollector.CollectTrustChains` | src/fedservice/entity/function/__init__.py:65-98 | the flattened tree in separate lists, with the leaf's configuration |
| `Collector.TrustChainCollector.GetChain` | src/fedservice/entity/function/trust_chain_collector.py:389-398 | what is read back along an issuer path and left in the caches, in every state |
| `Collector.ReadChainIff` | src/fedservice/entity/function/trust_chain_collector.py:389-398 | it is what is stored, with the caches unchanged, if and only if the leaf's configuration, and the anchor's where asked for, are cached and recent; otherwise it raises |
| `Collector.ChainItemsAre` | src/fedservice/entity/function/trust_chain_collector.py:389-398 | what is stored: the leaf's configuration, the statement under each two consecutive ids in turn, and the anchor's configuration where asked for |
| `Collector.VerifiedChainRoundTrip` | src/fedservice/entity/function/trust_chain_collector.py:389-398 | reversing what is rebuilt from a verified chain's issuer path gives exactly the extended chain |
| `Resolution.VerifyTrustChains` | src/fedservice/entity/function/__init__.py:101-113 | every list is extended once with the leaf's configuration, up to the one that raises; accepted chains are recorded in order |
| `Resolution.VerifyEachIsSafe` | src/fedservice/entity/function/__init__.py:101-113 | over all chains of a call the jar stays endorsed and every accepted chain is vouched for |
| `Resolution.VerdictsAreTheAccepted` | src/fedservice/entity/function/__init__.py:101-113 | verifying the chains succeeds if and only if each is accepted or rejected against the jar the ones before it leave; the records are then exactly the accepted ones, in order |
| `Resolution.CollectedLinksIff` | src/fedservice/entity/function/verifier.py:60-103 | a collected chain of statements signed in the name of the authority asked links up if and only if each is about the entity asked about |
| `Resolution.VerifiedTrustChains` | src/fedservice/entity/function/__init__.py:154-158 | succeeds exactly when collecting and verifying do, records the accepted ones of the collected chains in order and leaves the key jar verifying leaves; each is a maximal hint path plus the leaf's configuration, signed by keys traceable to the initial jar, and can be rebuilt from the caches |
| `Resolution.ApplyPolicies` | src/fedservice/entity/function/__init__.py:124-140 | succeeds if and only if every chain can be processed, and processes each |
| `Resolution.ProcessedComplies` | src/fedservice/entity/function/policy.py:301-386 | metadata are recorded for every entity type of the leaf, each claim as it resolves; they satisfy the policy each superior's statement holds for a claim if and only if every `value` a superior gives for the claim does |
| `Resolution.GetVerifiedTrustChains` | src/fedservice/entity/function/__init__.py:154-159 | all of it together: succeeds exactly when collecting, verifying and processing do, and every chain returned has all these properties |
| `TrustMarks.ScanMeans` | src/fedservice/trust_mark_entity/__init__.py:33-46 | on any log, found exactly when some matching line and all later lines are unexpired |
| `TrustMarks.OrderedScanIsComplete` | src/fedservice/trust_mark_entity/__init__.py:33-46 | on logs with non-decreasing expiry, found exactly when some matching line is unexpired |
| `TrustMarks.LaterExpiryHides` | src/fedservice/trust_mark_entity/__init__.py:36-42 | without that order a valid mark is missed |
| `TrustMarks.FileDB.Find` | src/fedservice/trust_mark_entity/__init__.py:33-46 | the reversed loop with early exit computes the scan; an unknown id raises |
| `TrustMarks.FileDB.ListSubjects` | src/fedservice/trust_mark_entity/__init__.py:75-91 | exactly the subjects of the log, each once, most recently issued first |
| `TrustMarks.FileDB.Load` | src/fedservice/trust_mark_entity/__init__.py:66-70 | succeeds exactly when every id has lines, and appends them id by id in some order, to shared files too; what was appended before a KeyError stays |
| `TrustMarks.DumpAndLoad` | src/fedservice/trust_mark_entity/__init__.py:54-70 | loading a dump into an empty database gives every log back once per id naming its file, so it is restored if and only if no other id does or it is empty |
| `TrustMarks.TrustMarkEntity.CreateTrustMark` | src/fedservice/trust_mark_entity/entity.py:67-88 | exactly one line is written, to the file of the id it carries: issued now and expiring after the id's lifetime, or as its specification says, unless extra claims say otherwise |
| `TrustMarks.IssueAll` | src/fedservice/trust_mark_entity/entity.py:67-88 | a run of the issuer appends to each file exactly the marks requested for the ids that name it; unknown ids write nothing |
| `TrustMarks.LinesAreLog` | src/fedservice/trust_mark_entity/entity.py:67-88 | where no other id shares the file, these are the marks requested for the id |
| `TrustMarks.IssuedScanIsComplete` | src/fedservice/trust_mark_entity/entity.py:67-92 | on every log so written with a forward clock, the early exit loses nothing |

## Left out

- HTTP, TLS, tenants and retries: a request is answered by the network parameter or raises.
- JWS parsing, key bundles and header-driven key loading: a token has a payload, and two predicates say which keys its header selects and which verify it.
- The two ways `trusted_anchor` finds a key jar are taken to be one jar.
- Python's `1 == True`, null and nested dictionaries as claim values: atoms are strings, integers and booleans.
- Payloads without `iss` or `sub`: every payload has both. `exp` and `jwks` may be missing, as nothing checks that they are there.
- `CollectTree`: as `CollectBranch` and `Call`, stated where the recursion ends (`CollectsIff` says when, without caches) and no id with `!` is asked about, with which the cache keys collide (`BangsCollide`).
- `TreeIsTransparent`: is about one fixed time and caches that agree with the network.
- `CollectTrustChains`: the variant given a configuration and other hints is not modelled; it calls the same `collect_tree`.
- `ResultComplies`: is about value-free policies; `EnforcedIff` drops that condition. Neither covers a claim whose only policy mixes `one_of` with the set operators, which combining would refuse.
- `SupersetEnforcedIff`: is about claims governed by `superset_of` alone; with `subset_of`, `add` and `essential` beside it, see `DemandEnforcedIff`.
- `CombiningPreservesMeaning`: is about four operators, `ChoicesPreserveMeaning` about three others; `default` or `one_of` beside the set operators are not covered, nor is `value`.
- `PermutingChangesNothing`: chains whose topmost statement sets a claim it has a policy for are left out, since such a statement raises anywhere else.
- `get_metadata` and `add_trust_anchor` read a configuration and import an anchor's keys; `diff2policy` writes a difference as a policy; `export_chain` formats a chain; none takes part in what is proved here.
- `SimpleDB` keeps marks in memory; its second `add` for an id raises, so there is no log to speak of.
- The HTTP endpoints and the self-signed trust mark entity parse a request and call the functions modelled here.
