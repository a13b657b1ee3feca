/** Combining two policies for one claim: `combine_claim_policy` and its helpers in policy.py. */
module ClaimPolicies {
  import opened Wrappers
  import opened Statements

  /** `set(policy).intersection(POLICY_FUNCTIONS)` */
  function Recognised(p: ClaimPolicy): set<Operator> {
    set op | op in p && !op.OtherOp?
  }

  function CombineSets(op: Operator, a: Value, b: Value): Result<set<Atom>> {
    if op == AddOp then
      Ok(a.Wrapped() + b.Wrapped())
    else
      var s :- a.Members();
      var t :- b.Members();
      Ok(s * t)
  }

  function DoSubOneSuperAdd(superior: ClaimPolicy, child: ClaimPolicy, op: Operator): Result<Value>
    requires op in superior || op in child
  {
    if op in superior && op in child then
      var comb :- CombineSets(op, superior[op], child[op]);
      if comb != {} then Ok(Unordered(comb)) else Failure
    else
      Ok(if op in superior then superior[op] else child[op])
  }

  /** `do_value` and `do_default`: two given values must be equal. */
  function DoEqual(superior: ClaimPolicy, child: ClaimPolicy, op: Operator): Result<Value>
    requires op in superior || op in child
  {
    if op in superior && op in child then
      if superior[op] == child[op] then Ok(superior[op]) else Failure
    else
      Ok(if op in superior then superior[op] else child[op])
  }

  function DoEssential(superior: ClaimPolicy, child: ClaimPolicy): Value
    requires EssentialOp in superior || EssentialOp in child
  {
    if EssentialOp in superior && EssentialOp in child then
      if !superior[EssentialOp].Truthy() && child[EssentialOp].Truthy() then TRUE else superior[EssentialOp]
    else if EssentialOp in superior then superior[EssentialOp]
    else child[EssentialOp]
  }

  function DoPolicy(superior: ClaimPolicy, child: ClaimPolicy, op: Operator): Result<Value>
    requires op in superior || op in child
  {
    match op
    case ValueOp | DefaultOp => DoEqual(superior, child, op)
    case EssentialOp => Ok(DoEssential(superior, child))
    case _ => DoSubOneSuperAdd(superior, child, op)
  }

  /** `not set(a).difference(set(b))`, where taking a set may raise. */
  function Within(a: Value, b: Value): Result<bool> {
    var s :- a.Members();
    var t :- b.Members();
    Ok(s <= t)
  }

  function Both(a: Result<bool>, b: Result<bool>): Result<bool> {
    if a == Ok(true) then b else a
  }

  /** The consistency checks, each made only for one exact set of operators. */
  function Coherent(rule: ClaimPolicy): Result<bool> {
    if rule.Keys == {SupersetOfOp, SubsetOfOp} then
      Within(rule[SupersetOfOp], rule[SubsetOfOp])
    else if rule.Keys == {SupersetOfOp, SubsetOfOp, DefaultOp} then
      Both(Within(rule[SupersetOfOp], rule[SubsetOfOp]),
           Both(Within(rule[DefaultOp], rule[SubsetOfOp]), Within(rule[SupersetOfOp], rule[DefaultOp])))
    else if rule.Keys == {SubsetOfOp, DefaultOp} then
      Within(rule[DefaultOp], rule[SubsetOfOp])
    else if rule.Keys == {SupersetOfOp, DefaultOp} then
      Within(rule[SupersetOfOp], rule[DefaultOp])
    else if rule.Keys == {OneOfOp, DefaultOp} then
      var allowed :- rule[OneOfOp].Members();
      Ok(rule[DefaultOp].Wrapped() <= allowed)
    else if rule.Keys == {SubsetOfOp, AddOp} then
      Within(rule[AddOp], rule[SubsetOfOp])
    else if rule.Keys == {SupersetOfOp, AddOp} then
      Within(rule[SupersetOfOp], rule[AddOp])
    else
      Ok(true)
  }

  predicate Mixed(ops: set<Operator>) {
    OneOfOp in ops && (SubsetOfOp in ops || SupersetOfOp in ops)
  }

  /** One entry per operator, or Failure if any entry cannot be combined. */
  function Rule(superior: ClaimPolicy, child: ClaimPolicy, ops: set<Operator>): Result<ClaimPolicy>
    requires ops <= superior.Keys + child.Keys
  {
    if exists op :: op in ops && DoPolicy(superior, child, op).Failure? then
      Failure
    else
      Ok(map op | op in ops :: DoPolicy(superior, child, op).value)
  }

  function CombineUnderValue(superior: ClaimPolicy, child: ClaimPolicy): Result<ClaimPolicy>
    requires ValueOp in superior
  {
    var childOps := Recognised(child);
    if childOps == {} then
      Ok(superior)
    else if EssentialOp in childOps then
      if childOps == {EssentialOp} then
        Ok(map[ValueOp := superior[ValueOp], EssentialOp := child[EssentialOp]])
      else
        Failure
    else if ValueOp in childOps && child[ValueOp] == superior[ValueOp] then
      Ok(superior)
    else
      Failure
  }

  predicate DropsEssential(superior: ClaimPolicy, child: ClaimPolicy) {
    EssentialOp in superior && EssentialOp in child &&
    superior[EssentialOp] != child[EssentialOp] && child[EssentialOp] == FALSE
  }

  /** What `combine_claim_policy` returns, or Failure if it raises. */
  function CombineClaim(superior: ClaimPolicy, child: ClaimPolicy): Result<ClaimPolicy> {
    if ValueOp in superior then
      CombineUnderValue(superior, child)
    else if DropsEssential(superior, child) then
      Failure
    else
      var ops := Recognised(superior) + Recognised(child);
      if Mixed(ops) then
        Failure
      else
        var rule :- Rule(superior, child, ops);
        var coherent :- Coherent(rule);
        if coherent then Ok(rule) else Failure
  }

  // ---- Under a superior's `value` ----

  predicate NothingRecognised(q: ClaimPolicy) {
    forall op :: op in q ==> op.OtherOp?
  }

  predicate EssentialAlone(q: ClaimPolicy) {
    EssentialOp in q && forall op :: op in q ==> op.OtherOp? || op == EssentialOp
  }

  /** The policy gives the value `v`, with whatever other operators but `essential`. */
  predicate RepeatsValue(q: ClaimPolicy, v: Value) {
    ValueOp in q && q[ValueOp] == v && EssentialOp !in q
  }

  predicate BearableUnder(q: ClaimPolicy, v: Value) {
    NothingRecognised(q) || EssentialAlone(q) || RepeatsValue(q, v)
  }

  /** A policy can be combined under a `value` if and only if it has no recognised operator, or `essential` alone, or
      the same value without `essential`. Only `essential` alone changes anything: it replaces all but the value. */
  lemma {:induction false} UnderValueIff(p: ClaimPolicy, q: ClaimPolicy)
    requires ValueOp in p
    ensures CombineClaim(p, q).Ok? <==> BearableUnder(q, p[ValueOp])
    ensures EssentialAlone(q) ==> CombineClaim(p, q) == Ok(map[ValueOp := p[ValueOp], EssentialOp := q[EssentialOp]])
    ensures NothingRecognised(q) || RepeatsValue(q, p[ValueOp]) ==> CombineClaim(p, q) == Ok(p)
  {
    assert forall op :: op in Recognised(q) <==> op in q && !op.OtherOp?;
    if EssentialAlone(q) {
      assert Recognised(q) == {EssentialOp};
    } else if NothingRecognised(q) {
      assert Recognised(q) == {};
    } else {
      var op :| op in q && !op.OtherOp?;
      assert op in Recognised(q);
    }
  }

  // ---- Under a superior without `value` ----

  ghost predicate Included(a: Value, b: Value) {
    a.Members().Ok? && b.Members().Ok? && forall x :: x in a.Members().value ==> x in b.Members().value
  }

  /** What both policies say under `op` combines to `v`. */
  ghost predicate BothGive(op: Operator, a: Value, b: Value, v: Value) {
    match op
    case DefaultOp => v == a == b
    case EssentialOp => (b == FALSE ==> a == FALSE) && v == if a.Truthy() || !b.Truthy() then a else TRUE
    case AddOp => v.Unordered? && v.members != {} && forall x :: x in v.members <==> x in a.Wrapped() || x in b.Wrapped()
    case _ =>
      a.Members().Ok? && b.Members().Ok? && v.Unordered? && v.members != {} &&
      forall x :: x in v.members <==> x in a.Members().value && x in b.Members().value
  }

  ghost predicate Gives(op: Operator, p: ClaimPolicy, q: ClaimPolicy, v: Value) {
    if op in p && op in q then BothGive(op, p[op], q[op], v)
    else if op in p then v == p[op]
    else op in q && v == q[op]
  }

  /** The checks on the combined policy; each is made only where exactly these operators are there. */
  ghost predicate PassesChecks(r: ClaimPolicy) {
    (r.Keys == {SupersetOfOp, SubsetOfOp} ==> Included(r[SupersetOfOp], r[SubsetOfOp])) &&
    (r.Keys == {SupersetOfOp, SubsetOfOp, DefaultOp} ==>
       Included(r[SupersetOfOp], r[SubsetOfOp]) && Included(r[DefaultOp], r[SubsetOfOp]) &&
       Included(r[SupersetOfOp], r[DefaultOp])) &&
    (r.Keys == {SubsetOfOp, DefaultOp} ==> Included(r[DefaultOp], r[SubsetOfOp])) &&
    (r.Keys == {SupersetOfOp, DefaultOp} ==> Included(r[SupersetOfOp], r[DefaultOp])) &&
    (r.Keys == {OneOfOp, DefaultOp} ==>
       r[OneOfOp].Members().Ok? && forall x :: x in r[DefaultOp].Wrapped() ==> x in r[OneOfOp].Members().value) &&
    (r.Keys == {SubsetOfOp, AddOp} ==> Included(r[AddOp], r[SubsetOfOp])) &&
    (r.Keys == {SupersetOfOp, AddOp} ==> Included(r[SupersetOfOp], r[AddOp]))
  }

  /** `r` is what the two policies come to. */
  ghost predicate CombinedFrom(p: ClaimPolicy, q: ClaimPolicy, r: ClaimPolicy) {
    (forall op :: op in r <==> !op.OtherOp? && (op in p || op in q)) &&
    (forall op :: op in r ==> Gives(op, p, q, r[op])) &&
    !(OneOfOp in r && (SubsetOfOp in r || SupersetOfOp in r)) && PassesChecks(r)
  }

  lemma EntryIff(p: ClaimPolicy, q: ClaimPolicy, op: Operator, v: Value)
    requires ValueOp !in p && (op in p || op in q) && !op.OtherOp? && !DropsEssential(p, q)
    ensures DoPolicy(p, q, op) == Ok(v) <==> Gives(op, p, q, v)
  {
    if op in p && op in q && !op.DefaultOp? && !op.EssentialOp? {
      var comb := CombineSets(op, p[op], q[op]);
      if Gives(op, p, q, v) {
        assert comb.Ok? && v.members == comb.value;
      }
    }
  }

  lemma ChecksIff(r: ClaimPolicy)
    ensures Coherent(r) == Ok(true) <==> PassesChecks(r)
  {
    DistinctKeySets(r.Keys);
  }

  /** The operator sets that are checked are different sets. */
  lemma DistinctKeySets(ops: set<Operator>)
    ensures ops == {SupersetOfOp, SubsetOfOp} ==> DefaultOp !in ops && AddOp !in ops && OneOfOp !in ops
    ensures ops == {SupersetOfOp, SubsetOfOp, DefaultOp} ==> SubsetOfOp in ops && SupersetOfOp in ops && DefaultOp in ops && AddOp !in ops
    ensures ops == {SubsetOfOp, DefaultOp} ==> SubsetOfOp in ops && DefaultOp in ops && SupersetOfOp !in ops && AddOp !in ops
    ensures ops == {SupersetOfOp, DefaultOp} ==> SupersetOfOp in ops && DefaultOp in ops && SubsetOfOp !in ops && AddOp !in ops
    ensures ops == {OneOfOp, DefaultOp} ==> OneOfOp in ops && DefaultOp in ops && SubsetOfOp !in ops && SupersetOfOp !in ops
    ensures ops == {SubsetOfOp, AddOp} ==> SubsetOfOp in ops && AddOp in ops && DefaultOp !in ops && SupersetOfOp !in ops
    ensures ops == {SupersetOfOp, AddOp} ==> SupersetOfOp in ops && AddOp in ops && DefaultOp !in ops && SubsetOfOp !in ops
  {
  }

  lemma RuleIff(p: ClaimPolicy, q: ClaimPolicy, r: ClaimPolicy)
    requires ValueOp !in p && !DropsEssential(p, q)
    ensures Rule(p, q, Recognised(p) + Recognised(q)) == Ok(r) <==>
            (forall op :: op in r <==> !op.OtherOp? && (op in p || op in q)) && forall op :: op in r ==> Gives(op, p, q, r[op])
  {
    var ops := Recognised(p) + Recognised(q);
    forall op, v | op in ops
      ensures DoPolicy(p, q, op) == Ok(v) <==> Gives(op, p, q, v)
    {
      EntryIff(p, q, op, v);
    }
    if r.Keys == ops && forall op :: op in r ==> Gives(op, p, q, r[op]) {
      assert forall op :: op in ops ==> DoPolicy(p, q, op) == Ok(r[op]);
      assert Rule(p, q, ops).value == r;
    }
  }

  /** Without a superior's `value`, two policies combine to `r` if and only if `r` has the recognised operators of both, with
      what each of them gives, does not mix `one_of` with the set operators, and passes the checks. */
  lemma {:induction false} CombinedIff(p: ClaimPolicy, q: ClaimPolicy, r: ClaimPolicy)
    requires ValueOp !in p
    ensures CombineClaim(p, q) == Ok(r) <==> CombinedFrom(p, q, r)
  {
    var ops := Recognised(p) + Recognised(q);
    if DropsEssential(p, q) {
      assert EssentialOp in r ==> !Gives(EssentialOp, p, q, r[EssentialOp]);
    } else {
      RuleIff(p, q, r);
      ChecksIff(r);
      assert CombinedFrom(p, q, r) ==> r.Keys == ops;
    }
  }

  /** Both cases, for any two policies. */
  lemma CombinationsAreRight(p: ClaimPolicy, q: ClaimPolicy)
    ensures ValueOp in p ==> (CombineClaim(p, q).Ok? <==> BearableUnder(q, p[ValueOp]))
    ensures ValueOp !in p ==> forall r :: CombineClaim(p, q) == Ok(r) <==> CombinedFrom(p, q, r)
  {
    if ValueOp in p {
      UnderValueIff(p, q);
    } else {
      forall r
        ensures CombineClaim(p, q) == Ok(r) <==> CombinedFrom(p, q, r)
      {
        CombinedIff(p, q, r);
      }
    }
  }

  // ---- The loop ----

  /** `combine_claim_policy`; the rule is filled operator by operator, in whatever order the set is visited. */
  method CombineClaimPolicy(superior: ClaimPolicy, child: ClaimPolicy) returns (r: Result<ClaimPolicy>)
    ensures r == CombineClaim(superior, child)
    ensures ValueOp in superior ==> (r.Ok? <==> BearableUnder(child, superior[ValueOp]))
    ensures ValueOp !in superior ==> forall rule :: r == Ok(rule) <==> CombinedFrom(superior, child, rule)
  {
    CombinationsAreRight(superior, child);
    if ValueOp in superior {
      return CombineUnderValue(superior, child);
    }
    if DropsEssential(superior, child) {
      return Failure;
    }
    var ops := Recognised(superior) + Recognised(child);
    if Mixed(ops) {
      return Failure;
    }
    var rule: ClaimPolicy := map[];
    var todo := ops;
    while todo != {}
      invariant todo <= ops && rule.Keys == ops - todo
      invariant forall op :: op in rule ==> DoPolicy(superior, child, op) == Ok(rule[op])
    {
      var op :| op in todo;
      var entry := DoPolicy(superior, child, op);
      if entry.Failure? {
        return Failure;
      }
      rule := rule[op := entry.value];
      todo := todo - {op};
    }
    assert rule == map op | op in ops :: DoPolicy(superior, child, op).value;
    var coherent := Coherent(rule);
    r := if coherent == Ok(true) then Ok(rule) else Failure;
  }

  // ---- What one combination keeps ----

  /** The combined entry for a set operator is the given value, or a set narrowed from (for `add`: widened from) it. */
  ghost predicate Refines(op: Operator, r: Value, p: Value) {
    r == p ||
    (r.IsList() &&
     if op == AddOp then p.Wrapped() <= r.Wrapped()
     else p.Members().Ok? && r.Wrapped() <= p.Members().value)
  }

  ghost predicate SetOperator(op: Operator) {
    op in {AddOp, OneOfOp, SubsetOfOp, SupersetOfOp}
  }

  ghost predicate ValueFree(p: ClaimPolicy) {
    ValueOp !in p
  }

  /** `essential` is a JSON boolean wherever it is given. */
  ghost predicate BooleanEssential(p: ClaimPolicy) {
    EssentialOp in p ==> p[EssentialOp] in {TRUE, FALSE}
  }

  lemma RuleEntries(superior: ClaimPolicy, child: ClaimPolicy, r: ClaimPolicy)
    requires ValueFree(superior) && CombineClaim(superior, child) == Ok(r)
    ensures r.Keys == Recognised(superior) + Recognised(child)
    ensures forall op :: op in r ==> DoPolicy(superior, child, op) == Ok(r[op])
  {
  }

  /** Combining drops no recognised operator and invents none; it narrows or widens every set operator. */
  lemma {:induction false} CombineKeeps(superior: ClaimPolicy, child: ClaimPolicy, r: ClaimPolicy)
    requires ValueFree(superior) && CombineClaim(superior, child) == Ok(r)
    ensures r.Keys == Recognised(superior) + Recognised(child)
    ensures !Mixed(r.Keys) && Coherent(r) == Ok(true)
    ensures forall op :: SetOperator(op) && op in superior ==> op in r && Refines(op, r[op], superior[op])
    ensures forall op :: SetOperator(op) && op in child ==> op in r && Refines(op, r[op], child[op])
  {
    RuleEntries(superior, child, r);
    forall op | SetOperator(op) && op in superior
      ensures op in r && Refines(op, r[op], superior[op])
    {
      assert op in Recognised(superior);
    }
    forall op | SetOperator(op) && op in child
      ensures op in r && Refines(op, r[op], child[op])
    {
      assert op in Recognised(child);
    }
  }

  ghost predicate Demands(p: ClaimPolicy) {
    EssentialOp in p && p[EssentialOp] == TRUE
  }

  /** A claim is demanded by the combination exactly when one of the two demands it. */
  lemma {:induction false} CombineDemands(superior: ClaimPolicy, child: ClaimPolicy, r: ClaimPolicy)
    requires ValueFree(superior) && CombineClaim(superior, child) == Ok(r)
    requires BooleanEssential(superior) && BooleanEssential(child)
    ensures BooleanEssential(r) && (Demands(r) <==> Demands(superior) || Demands(child))
  {
    RuleEntries(superior, child, r);
    assert EssentialOp in superior ==> EssentialOp in Recognised(superior);
    assert EssentialOp in child ==> EssentialOp in Recognised(child);
  }
}
