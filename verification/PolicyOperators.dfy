/** The policy operators and the interpreter that runs them, with jumps, on one claim: policy_operator.py and
    `op_place`/`apply_metadata_policy` in policy.py. */
module PolicyOperators {
  import opened Wrappers
  import opened Statements

  /** An operator object: which operator it is and the `next` it may name. */
  datatype PolicyOperator = PolicyOperator(op: Operator, next: Option<Operator>)

  /** `construct_evaluation_sequence()`: POLICY_APPLICATION_ORDER, each with its default `next`. */
  const BUILTIN: seq<PolicyOperator> := [
    PolicyOperator(ValueOp, Some(EssentialOp)),
    PolicyOperator(AddOp, Some(DefaultOp)),
    PolicyOperator(DefaultOp, Some(OneOfOp)),
    PolicyOperator(OneOfOp, Some(EssentialOp)),
    PolicyOperator(SubsetOfOp, Some(SupersetOfOp)),
    PolicyOperator(SupersetOfOp, Some(EssentialOp)),
    PolicyOperator(EssentialOp, None)]

  // ---- What each operator does to `metadata[claim]` (None: the claim is absent) ----

  function ActOneOf(cur: Option<Value>, allowed: Value): Result<Option<Value>> {
    if cur.None? || cur.value.IsList() then
      Ok(cur)
    else
      var found :- allowed.Contains(cur.value.atom);
      if found then Ok(cur) else Failure
  }

  function ActAdd(cur: Option<Value>, extra: Value): Option<Value> {
    Some(if cur.None? then extra else Unordered(cur.value.Wrapped() + extra.Wrapped()))
  }

  /** A scalar is looked up among the keys of the claim's policy, not among the allowed values. */
  predicate NamesOperator(v: Value, p: ClaimPolicy) {
    v.Scalar? && v.atom.Str? && v.atom.s != "" && OperatorNamed(v.atom.s) in p
  }

  function ActSubsetOf(cur: Option<Value>, p: ClaimPolicy): Result<Option<Value>>
    requires SubsetOfOp in p
  {
    if cur.None? then
      Ok(cur)
    else if cur.value.IsList() then
      var allowed :- p[SubsetOfOp].Members();
      var kept := allowed * cur.value.Wrapped();
      if kept != {} then Ok(Some(Unordered(kept))) else Failure
    else if NamesOperator(cur.value, p) then
      Ok(Some(List(seq(|cur.value.atom.s|, i requires 0 <= i < |cur.value.atom.s| => Str([cur.value.atom.s[i]])))))
    else
      Failure
  }

  function ActSupersetOf(cur: Option<Value>, wanted: Value): Result<Option<Value>> {
    if cur.None? then
      Ok(cur)
    else
      var w :- wanted.Members();
      var has :- cur.value.Members();
      if w <= has then Ok(cur) else Failure
  }

  function ActEssential(cur: Option<Value>, demanded: Value): Result<Option<Value>> {
    if cur.None? && demanded == TRUE then Failure else Ok(cur)
  }

  function Act(op: Operator, cur: Option<Value>, p: ClaimPolicy): Result<Option<Value>>
    requires op in p
  {
    match op
    case ValueOp => Ok(Some(p[op]))
    case AddOp => Ok(ActAdd(cur, p[op]))
    case DefaultOp => Ok(if cur.None? then Some(p[op]) else cur)
    case OneOfOp => ActOneOf(cur, p[op])
    case SubsetOfOp => ActSubsetOf(cur, p)
    case SupersetOfOp => ActSupersetOf(cur, p[op])
    case EssentialOp => ActEssential(cur, p[op])
    case OtherOp(_) => Ok(cur)
  }

  /** Does the call return `self.next`? Only these operators do; the others fall off the end of the function. */
  predicate ReturnsNext(op: Operator, cur: Option<Value>) {
    op == ValueOp || op.OtherOp? || (op == OneOfOp && cur.Some? && !cur.value.IsList())
  }

  predicate MayReturnNext(op: Operator) {
    op == ValueOp || op.OtherOp? || op == OneOfOp
  }

  // ---- The interpreter ----

  /** The first place of `name` at or after `index`. */
  function Place(name: Operator, ops: seq<PolicyOperator>, index: nat): (r: Option<nat>)
    requires index <= |ops|
    ensures r.Some? ==> index <= r.value < |ops| && ops[r.value].op == name
    ensures forall j :: index <= j < (if r.Some? then r.value else |ops|) ==> ops[j].op != name
    decreases |ops| - index
  {
    if index == |ops| then None
    else if ops[index].op == name then Some(index)
    else Place(name, ops, index + 1)
  }

  /** No operator that can return its `next` names itself. */
  predicate Progressing(ops: seq<PolicyOperator>) {
    forall i :: 0 <= i < |ops| && MayReturnNext(ops[i].op) ==> ops[i].next != Some(ops[i].op)
  }

  /** The rest of the `while True` loop for one claim, from operator `i` on. A `next` that is not found makes
      the code index a list with None, which raises. */
  function Run(cur: Option<Value>, p: ClaimPolicy, ops: seq<PolicyOperator>, i: nat): Result<Option<Value>>
    requires Progressing(ops) && i <= |ops|
    decreases |ops| - i
  {
    if i == |ops| then
      Ok(cur)
    else if ops[i].op !in p then
      Run(cur, p, ops, i + 1)
    else
      var after :- Act(ops[i].op, cur, p);
      if ReturnsNext(ops[i].op, cur) && ops[i].next.Some? then
        match Place(ops[i].next.value, ops, i)
        case None => Failure
        case Some(j) => Run(after, p, ops, j)
      else
        Run(after, p, ops, i + 1)
  }

  /** What the loop leaves in `metadata[claim]`, also when it raises: what the operators before that have written. */
  function Residue(cur: Option<Value>, p: ClaimPolicy, ops: seq<PolicyOperator>, i: nat): (r: Option<Value>)
    requires Progressing(ops) && i <= |ops|
    ensures Run(cur, p, ops, i).Ok? ==> r == Run(cur, p, ops, i).value
    decreases |ops| - i
  {
    if i == |ops| then
      cur
    else if ops[i].op !in p then
      Residue(cur, p, ops, i + 1)
    else
      match Act(ops[i].op, cur, p)
      case Failure => cur
      case Ok(after) =>
        if ReturnsNext(ops[i].op, cur) && ops[i].next.Some? then
          match Place(ops[i].next.value, ops, i)
          case None => after
          case Some(j) => Residue(after, p, ops, j)
        else
          Residue(after, p, ops, i + 1)
  }

  /** With no operators at all, the first `policy_operators[0]` raises. */
  function Evaluate(cur: Option<Value>, p: ClaimPolicy, ops: seq<PolicyOperator>): Result<Option<Value>>
    requires Progressing(ops)
  {
    if ops == [] then Failure else Run(cur, p, ops, 0)
  }

  // ---- When the interpreter terminates ----

  datatype Machine = At(i: nat, cur: Option<Value>) | Done(result: Result<Option<Value>>)

  /** One turn of the loop, defined for every operator sequence. */
  function Turn(m: Machine, p: ClaimPolicy, ops: seq<PolicyOperator>): Machine {
    if m.Done? then
      m
    else if m.i >= |ops| then
      Done(Ok(m.cur))
    else if ops[m.i].op !in p then
      At(m.i + 1, m.cur)
    else
      match Act(ops[m.i].op, m.cur, p)
      case Failure => Done(Failure)
      case Ok(after) =>
        if ReturnsNext(ops[m.i].op, m.cur) && ops[m.i].next.Some? then
          match Place(ops[m.i].next.value, ops, m.i)
          case None => Done(Failure)
          case Some(j) => At(j, after)
        else
          At(m.i + 1, after)
  }

  function Turns(n: nat, m: Machine, p: ClaimPolicy, ops: seq<PolicyOperator>): Machine {
    if n == 0 then m else Turns(n - 1, Turn(m, p, ops), p, ops)
  }

  lemma {:induction false} DoneStays(n: nat, m: Machine, p: ClaimPolicy, ops: seq<PolicyOperator>)
    requires m.Done?
    ensures Turns(n, m, p, ops) == m
  {
    if n > 0 {
      DoneStays(n - 1, m, p, ops);
    }
  }

  /** In a progressing sequence the loop stops after at most one turn per operator and one more, with the interpreter's
      result. */
  lemma {:induction false} ProgressingTerminates(cur: Option<Value>, p: ClaimPolicy, ops: seq<PolicyOperator>, i: nat,
          n: nat)
    requires Progressing(ops) && i <= |ops| && n > |ops| - i
    ensures Turns(n, At(i, cur), p, ops) == Done(Run(cur, p, ops, i))
    decreases |ops| - i
  {
    var m := Turn(At(i, cur), p, ops);
    match m
    case Done(_) => DoneStays(n - 1, m, p, ops);
    case At(j, after) => ProgressingTerminates(after, p, ops, j, n - 1);
  }

  ghost predicate DistinctOperators(ops: seq<PolicyOperator>) {
    forall i, j :: 0 <= i < j < |ops| ==> ops[i].op != ops[j].op
  }

  ghost predicate Stops(cur: Option<Value>, p: ClaimPolicy, ops: seq<PolicyOperator>) {
    exists n: nat :: Turns(n, At(0, cur), p, ops).Done?
  }

  ghost predicate AlwaysStops(ops: seq<PolicyOperator>) {
    forall cur, p :: Stops(cur, p, ops)
  }

  /** The policy and value on which a self-naming operator is reached and never left. */
  function Trap(op: Operator): (Option<Value>, ClaimPolicy) {
    (Some(Scalar(Num(0))), map[op := List([Num(0)])])
  }

  lemma {:induction false} TrapHolds(ops: seq<PolicyOperator>, k: nat, i: nat, cur: Option<Value>, n: nat)
    requires DistinctOperators(ops) && i <= k < |ops| && MayReturnNext(ops[k].op) && ops[k].next == Some(ops[k].op)
    requires cur == Trap(ops[k].op).0 || (i == k && ops[k].op == ValueOp)
    ensures Turns(n, At(i, cur), Trap(ops[k].op).1, ops).At?
    decreases n
  {
    var p := Trap(ops[k].op).1;
    if n > 0 {
      var m := Turn(At(i, cur), p, ops);
      if i < k {
        assert ops[i].op != ops[k].op;
        TrapHolds(ops, k, i + 1, cur, n - 1);
      } else {
        assert Place(ops[k].op, ops, k) == Some(k);
        TrapHolds(ops, k, k, m.cur, n - 1);
      }
    }
  }

  /** For sequences that hold each operator once, the loop stops on every claim policy and value if and only if the
      sequence is progressing. */
  lemma StopsIffProgressing(ops: seq<PolicyOperator>)
    requires DistinctOperators(ops)
    ensures AlwaysStops(ops) <==> Progressing(ops)
  {
    if Progressing(ops) {
      forall cur, p
        ensures Stops(cur, p, ops)
      {
        ProgressingTerminates(cur, p, ops, 0, |ops| + 1);
      }
    } else {
      var k :| 0 <= k < |ops| && MayReturnNext(ops[k].op) && ops[k].next == Some(ops[k].op);
      var (cur, p) := Trap(ops[k].op);
      forall n: nat
        ensures !Turns(n, At(0, cur), p, ops).Done?
      {
        TrapHolds(ops, k, 0, cur, n);
      }
      assert !Stops(cur, p, ops);
    }
  }

  // ---- The built-in sequence ----

  function RunEssential(cur: Option<Value>, p: ClaimPolicy): Result<Option<Value>> {
    if EssentialOp in p then ActEssential(cur, p[EssentialOp]) else Ok(cur)
  }

  function RunSets(cur: Option<Value>, p: ClaimPolicy): Result<Option<Value>> {
    var kept :- if SubsetOfOp in p then ActSubsetOf(cur, p) else Ok(cur);
    var _ :- if SupersetOfOp in p then ActSupersetOf(kept, p[SupersetOfOp]) else Ok(kept);
    RunEssential(kept, p)
  }

  /** The value that reaches the checks: the leaf's, extended by `add`, or the default. */
  function Filled(cur: Option<Value>, p: ClaimPolicy): Option<Value> {
    if AddOp in p then ActAdd(cur, p[AddOp])
    else if cur.None? && DefaultOp in p then Some(p[DefaultOp])
    else cur
  }

  /** What the built-in sequence computes, without a program counter. */
  function Resolve(cur: Option<Value>, p: ClaimPolicy): Result<Option<Value>> {
    if ValueOp in p then
      Ok(Some(p[ValueOp]))
    else
      var filled := Filled(cur, p);
      if OneOfOp in p && filled.Some? && !filled.value.IsList() then
        ActOneOf(filled, p[OneOfOp])
      else
        RunSets(filled, p)
  }

  lemma BuiltinSets(cur: Option<Value>, p: ClaimPolicy)
    ensures Run(cur, p, BUILTIN, 6) == RunEssential(cur, p)
    ensures Run(cur, p, BUILTIN, 4) == RunSets(cur, p)
  {
    forall v: Option<Value>
      ensures Run(v, p, BUILTIN, 6) == RunEssential(v, p)
    {
      assert Run(v, p, BUILTIN, 7) == Ok(v);
    }
    forall v: Option<Value>
      ensures Run(v, p, BUILTIN, 5) ==
              (var r := if SupersetOfOp in p then ActSupersetOf(v, p[SupersetOfOp]) else Ok(v);
               if r.Failure? then Failure else RunEssential(v, p))
    {
      assert Run(v, p, BUILTIN, 6) == RunEssential(v, p);
    }
  }

  /** On every value and every claim policy the jumping interpreter over the built-in sequence computes `Resolve`:
      a `value` hides every other operator, and a scalar under `one_of` skips the set checks. */
  lemma {:induction false} BuiltinIsResolve(cur: Option<Value>, p: ClaimPolicy)
    ensures Progressing(BUILTIN) && Evaluate(cur, p, BUILTIN) == Resolve(cur, p)
  {
    assert BUILTIN[6].op == EssentialOp;
    assert Place(EssentialOp, BUILTIN, 0) == Some(6) == Place(EssentialOp, BUILTIN, 3);
    forall v: Option<Value>
      ensures Run(v, p, BUILTIN, 6) == RunEssential(v, p) && Run(v, p, BUILTIN, 4) == RunSets(v, p)
    {
      BuiltinSets(v, p);
    }
    var filled := Filled(cur, p);
    assert Run(filled, p, BUILTIN, 3) ==
      if OneOfOp in p && filled.Some? && !filled.value.IsList() then ActOneOf(filled, p[OneOfOp]) else RunSets(filled, p);
    if ValueOp !in p {
      var added := if AddOp in p then ActAdd(cur, p[AddOp]) else cur;
      assert Run(cur, p, BUILTIN, 0) == Run(cur, p, BUILTIN, 1) == Run(added, p, BUILTIN, 2) == Run(filled, p, BUILTIN, 3);
    }
  }

  ghost predicate Covers(v: Value, wanted: Value) {
    wanted.Members().Ok? && v.Members().Ok? && wanted.Members().value <= v.Members().value
  }

  // ---- What comes out, operator by operator ----

  /** `add` extends what is there, by members, or else is taken as it is; `default` is taken where nothing is. */
  ghost predicate FillsTo(cur: Option<Value>, p: ClaimPolicy, filled: Option<Value>) {
    if AddOp in p && cur.Some? then
      filled.Some? && filled.value.Unordered? &&
      forall x :: x in filled.value.members <==> x in cur.value.Wrapped() || x in p[AddOp].Wrapped()
    else if cur.Some? then filled == cur
    else if AddOp in p then filled == Some(p[AddOp])
    else if DefaultOp in p then filled == Some(p[DefaultOp])
    else filled == None
  }

  /** `subset_of` leaves of a list the members it lists, if any; a scalar that spells an operator of the policy becomes the
      list of its characters, and no other scalar passes. */
  ghost predicate NarrowsTo(v: Value, p: ClaimPolicy, kept: Value) {
    if SubsetOfOp !in p then
      kept == v
    else if v.IsList() then
      p[SubsetOfOp].Members().Ok? && kept.Unordered? && kept.members != {} &&
      forall x :: x in kept.members <==> x in v.Wrapped() && x in p[SubsetOfOp].Members().value
    else
      v.atom.Str? && v.atom.s != "" && OperatorNamed(v.atom.s) in p && kept.List? && |kept.items| == |v.atom.s| &&
      forall i :: 0 <= i < |kept.items| ==> kept.items[i] == Str([v.atom.s[i]])
  }

  /** `w` is what the policy makes of the claim. */
  ghost predicate ComesOut(cur: Option<Value>, p: ClaimPolicy, w: Option<Value>) {
    if ValueOp in p then
      w == Some(p[ValueOp])
    else
      exists filled :: FillsTo(cur, p, filled) &&
        if filled.None? then
          w == None && (EssentialOp in p ==> p[EssentialOp] != TRUE)
        else if OneOfOp in p && filled.value.Scalar? then
          w == filled && p[OneOfOp].Contains(filled.value.atom) == Ok(true)
        else
          w.Some? && NarrowsTo(filled.value, p, w.value) && (SupersetOfOp in p ==> Covers(w.value, p[SupersetOfOp]))
  }

  lemma FillsToFilled(cur: Option<Value>, p: ClaimPolicy, filled: Option<Value>)
    ensures FillsTo(cur, p, filled) <==> filled == Filled(cur, p)
  {
    if AddOp in p && cur.Some? && FillsTo(cur, p, filled) {
      assert filled.value.members == cur.value.Wrapped() + p[AddOp].Wrapped();
    }
  }

  lemma NarrowsToKept(v: Value, p: ClaimPolicy, kept: Value)
    requires SubsetOfOp in p
    ensures NarrowsTo(v, p, kept) <==> ActSubsetOf(Some(v), p) == Ok(Some(kept))
  {
    if NarrowsTo(v, p, kept) {
      if v.IsList() {
        assert kept.members == p[SubsetOfOp].Members().value * v.Wrapped();
      } else {
        assert kept.items == seq(|v.atom.s|, i requires 0 <= i < |v.atom.s| => Str([v.atom.s[i]]));
      }
    }
  }

  lemma SetsComeOut(v: Value, p: ClaimPolicy, w: Option<Value>)
    ensures RunSets(Some(v), p) == Ok(w) <==>
            w.Some? && NarrowsTo(v, p, w.value) && (SupersetOfOp in p ==> Covers(w.value, p[SupersetOfOp]))
  {
    if SubsetOfOp in p {
      if w.Some? {
        NarrowsToKept(v, p, w.value);
      }
      var kept := ActSubsetOf(Some(v), p);
      if kept.Ok? {
        NarrowsToKept(v, p, kept.value.value);
      }
    }
  }

  /** On every value and every claim policy, the interpreter over the built-in sequence gives `w` if and only if `w` is what
      comes out operator by operator; otherwise it raises. */
  lemma {:induction false} EvaluatesIff(cur: Option<Value>, p: ClaimPolicy, w: Option<Value>)
    requires Progressing(BUILTIN)
    ensures Evaluate(cur, p, BUILTIN) == Ok(w) <==> ComesOut(cur, p, w)
  {
    BuiltinIsResolve(cur, p);
    forall filled
      ensures FillsTo(cur, p, filled) <==> filled == Filled(cur, p)
    {
      FillsToFilled(cur, p, filled);
    }
    var filled := Filled(cur, p);
    assert FillsTo(cur, p, filled);
    if filled.Some? {
      SetsComeOut(filled.value, p, w);
    }
  }

  /** The operators one after the other from `i` on, ignoring `next`. */
  function Straight(cur: Option<Value>, p: ClaimPolicy, ops: seq<PolicyOperator>, i: nat): Result<Option<Value>>
    requires i <= |ops|
    decreases |ops| - i
  {
    if i == |ops| then
      Ok(cur)
    else if ops[i].op in p then
      var after :- Act(ops[i].op, cur, p);
      Straight(after, p, ops, i + 1)
    else
      Straight(cur, p, ops, i + 1)
  }

  /** `value` stands alone or with `essential`; `one_of` is not mixed with the set operators. */
  ghost predicate JumpFree(p: ClaimPolicy) {
    (ValueOp in p ==> forall op :: op in p ==> op == ValueOp || op == EssentialOp || op.OtherOp?) &&
    (OneOfOp in p ==> SubsetOfOp !in p && SupersetOfOp !in p)
  }

  lemma StraightSets(cur: Option<Value>, p: ClaimPolicy)
    ensures Straight(cur, p, BUILTIN, 6) == RunEssential(cur, p)
    ensures Straight(cur, p, BUILTIN, 4) == RunSets(cur, p)
  {
    forall v: Option<Value>
      ensures Straight(v, p, BUILTIN, 6) == RunEssential(v, p)
    {
      assert Straight(v, p, BUILTIN, 7) == Ok(v);
    }
    forall v: Option<Value>
      ensures Straight(v, p, BUILTIN, 5) ==
              (var r := if SupersetOfOp in p then ActSupersetOf(v, p[SupersetOfOp]) else Ok(v);
               if r.Failure? then Failure else RunEssential(v, p))
    {
      assert Straight(v, p, BUILTIN, 6) == RunEssential(v, p);
    }
  }

  /** A straight pass from `add` on, without a program counter. */
  function Plain(cur: Option<Value>, p: ClaimPolicy): Result<Option<Value>> {
    var filled := Filled(cur, p);
    var _ :- if OneOfOp in p then ActOneOf(filled, p[OneOfOp]) else Ok(filled);
    RunSets(filled, p)
  }

  lemma StraightIsPlain(cur: Option<Value>, p: ClaimPolicy)
    ensures Straight(cur, p, BUILTIN, 1) == Plain(cur, p)
    ensures Straight(cur, p, BUILTIN, 0) == Plain(if ValueOp in p then Some(p[ValueOp]) else cur, p)
  {
    forall v: Option<Value>
      ensures Straight(v, p, BUILTIN, 4) == RunSets(v, p) && Straight(v, p, BUILTIN, 1) == Plain(v, p)
    {
      StraightSets(v, p);
      var added := if AddOp in p then ActAdd(v, p[AddOp]) else v;
      var filled := Filled(v, p);
      StraightSets(filled, p);
      assert Straight(v, p, BUILTIN, 1) == Straight(added, p, BUILTIN, 2) == Straight(filled, p, BUILTIN, 3);
    }
  }

  /** Where no jump can skip anything, the interpreter is a straight pass in POLICY_APPLICATION_ORDER. */
  lemma {:induction false} JumpFreeIsStraight(cur: Option<Value>, p: ClaimPolicy)
    requires JumpFree(p)
    ensures Evaluate(cur, p, BUILTIN) == Straight(cur, p, BUILTIN, 0)
  {
    BuiltinIsResolve(cur, p);
    StraightIsPlain(cur, p);
  }

  // ---- Exactly when jumps make no difference ----

  /** The same value, lists compared as sets, or both raise. */
  ghost predicate SameRun(a: Result<Option<Value>>, b: Result<Option<Value>>) {
    if a.Ok? && b.Ok? && a.value.Some? && b.value.Some? then SameSet(a.value.value, b.value.value) else a == b
  }

  ghost predicate AlwaysStraight(p: ClaimPolicy)
    requires Progressing(BUILTIN)
  {
    forall cur :: SameRun(Evaluate(cur, p, BUILTIN), Straight(cur, p, BUILTIN, 0))
  }

  /** `subset_of`, if given, lets `x` through. */
  ghost predicate Allows(p: ClaimPolicy, x: Atom) {
    SubsetOfOp in p ==> p[SubsetOfOp].Members().Ok? && x in p[SubsetOfOp].Members().value
  }

  /** The `value` passes every other operator of its policy unchanged. */
  ghost predicate ValuePasses(p: ClaimPolicy)
    requires ValueOp in p
  {
    var v := p[ValueOp];
    (AddOp in p ==> v.IsList() && forall x :: x in p[AddOp].Wrapped() && Allows(p, x) ==> x in v.Wrapped()) &&
    (OneOfOp in p && v.Scalar? ==> p[OneOfOp].Contains(v.atom) == Ok(true)) &&
    (SubsetOfOp in p ==> v.IsList() && v.Wrapped() != {} && Covers(p[SubsetOfOp], v)) &&
    (SupersetOfOp in p ==> Covers(v, p[SupersetOfOp]))
  }

  /** No scalar that passes `one_of` would be stopped or changed by the set operators it skips. With `add`, the only
      scalar that gets there is an added one. */
  ghost predicate OneOfPasses(p: ClaimPolicy) {
    OneOfOp in p ==>
      forall a :: p[OneOfOp].Contains(a) == Ok(true) && (AddOp in p ==> p[AddOp] == Scalar(a)) ==>
        SubsetOfOp !in p && (SupersetOfOp in p ==> Covers(Scalar(a), p[SupersetOfOp]))
  }

  lemma ValueIsStraightIff(p: ClaimPolicy)
    requires ValueOp in p && Progressing(BUILTIN)
    ensures AlwaysStraight(p) <==> ValuePasses(p)
  {
    var v := p[ValueOp];
    forall cur
      ensures Evaluate(cur, p, BUILTIN) == Ok(Some(v)) && Straight(cur, p, BUILTIN, 0) == Plain(Some(v), p)
    {
      BuiltinIsResolve(cur, p);
      StraightIsPlain(cur, p);
    }
    assert AlwaysStraight(p) <==> SameRun(Ok(Some(v)), Plain(Some(v), p)) by {
      assert SameRun(Evaluate(None, p, BUILTIN), Straight(None, p, BUILTIN, 0)) == SameRun(Ok(Some(v)), Plain(Some(v), p));
    }
    PlainOfValue(p);
  }

  lemma PlainOfValue(p: ClaimPolicy)
    requires ValueOp in p
    ensures SameRun(Ok(Some(p[ValueOp])), Plain(Some(p[ValueOp]), p)) <==> ValuePasses(p)
  {
    var v := p[ValueOp];
    var filled := Filled(Some(v), p).value;
    if filled.IsList() {
      var all := filled.Wrapped();
      assert AddOp in p ==> all == v.Wrapped() + p[AddOp].Wrapped();
      if SubsetOfOp in p && p[SubsetOfOp].Members().Ok? {
        var kept := p[SubsetOfOp].Members().value * all;
        assert kept == set x | x in all && Allows(p, x);
      }
    }
  }

  lemma OneOfIsStraightIff(p: ClaimPolicy)
    requires ValueOp !in p && Progressing(BUILTIN)
    ensures AlwaysStraight(p) <==> OneOfPasses(p)
  {
    forall cur
      ensures SameRun(Evaluate(cur, p, BUILTIN), Straight(cur, p, BUILTIN, 0)) <==> SameRun(Resolve(cur, p), Plain(cur, p))
    {
      BuiltinIsResolve(cur, p);
      StraightIsPlain(cur, p);
    }
    if OneOfPasses(p) {
      forall cur
        ensures SameRun(Resolve(cur, p), Plain(cur, p))
      {
        var filled := Filled(cur, p);
        if OneOfOp in p && filled.Some? && filled.value.Scalar? {
          assert AddOp in p ==> p[AddOp] == filled.value == Scalar(filled.value.atom);
        }
      }
    } else {
      var a :| p[OneOfOp].Contains(a) == Ok(true) && (AddOp in p ==> p[AddOp] == Scalar(a)) &&
               !(SubsetOfOp !in p && (SupersetOfOp in p ==> Covers(Scalar(a), p[SupersetOfOp])));
      var cur := if AddOp in p then None else Some(Scalar(a));
      assert Filled(cur, p) == Some(Scalar(a));
      assert !SameRun(Resolve(cur, p), Plain(cur, p));
    }
  }

  /** The interpreter does what a straight pass does, on every value, if and only if a `value` passes the other operators
      of its policy, or, without one, no scalar under `one_of` skips a check that matters. */
  lemma {:induction false} StraightIff(p: ClaimPolicy)
    requires Progressing(BUILTIN)
    ensures AlwaysStraight(p) <==> if ValueOp in p then ValuePasses(p) else OneOfPasses(p)
  {
    if ValueOp in p {
      ValueIsStraightIff(p);
    } else {
      OneOfIsStraightIff(p);
    }
  }

  /** A `value` outside `subset_of` is let through; a straight pass raises. */
  lemma {:induction false} ValueSkipsTheChecks()
    ensures var p: ClaimPolicy := map[ValueOp := List([Str("z")]), SubsetOfOp := List([Str("x")])];
            Evaluate(None, p, BUILTIN) == Ok(Some(List([Str("z")]))) && Straight(None, p, BUILTIN, 0) == Failure
  {
    var p: ClaimPolicy := map[ValueOp := List([Str("z")]), SubsetOfOp := List([Str("x")])];
    var v := Some(List([Str("z")]));
    BuiltinIsResolve(None, p);
    StraightSets(v, p);
    assert (set a | a in [Str("x")]) * (set a | a in [Str("z")]) == {};
    assert Straight(None, p, BUILTIN, 0) == Straight(v, p, BUILTIN, 1) == Straight(v, p, BUILTIN, 2) ==
           Straight(v, p, BUILTIN, 3) == Straight(v, p, BUILTIN, 4) == Failure;
  }
}
