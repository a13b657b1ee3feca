/** Combining preserves meaning for policies of `one_of`, `default` and `essential`, on any value. */
module ScalarMeaning {
  import opened Wrappers
  import opened Statements
  import opened ClaimPolicies
  import opened ClaimFold
  import opened PolicyOperators
  import opened ClaimCompliance
  import opened MeaningPreservation

  const CHOICES := {OneOfOp, DefaultOp, EssentialOp}

  /** `one_of` is a list, `essential` a boolean. */
  ghost predicate Choosing(p: ClaimPolicy) {
    Recognised(p) <= CHOICES && BooleanEssential(p) && (OneOfOp in p ==> p[OneOfOp].IsList())
  }

  ghost predicate AllChoosing(ps: seq<ClaimPolicy>) {
    forall p: ClaimPolicy :: p in ps ==> Choosing(p)
  }

  /** A list passes any choice, a scalar has to be among those offered. */
  ghost predicate Passes(v: Value, p: ClaimPolicy) {
    OneOfOp in p && v.Scalar? ==> v.atom in p[OneOfOp].Wrapped()
  }

  lemma ChoosingEvaluates(cur: Option<Value>, p: ClaimPolicy)
    requires Choosing(p) && Progressing(BUILTIN)
    ensures Evaluate(cur, p, BUILTIN) ==
            var v := if cur.None? && DefaultOp in p then Some(p[DefaultOp]) else cur;
            if v.None? then (if Demands(p) then Failure else Ok(None)) else if Passes(v.value, p) then Ok(v) else Failure
  {
    BuiltinIsResolve(cur, p);
    assert forall op :: op in p && !op.OtherOp? ==> op in Recognised(p);
    assert ValueOp !in p && AddOp !in p && SubsetOfOp !in p && SupersetOfOp !in p;
  }

  lemma CombinedChoice(r: ClaimPolicy, q: ClaimPolicy, rq: ClaimPolicy)
    requires Choosing(r) && Choosing(q) && CombineClaim(r, q) == Ok(rq)
    ensures Choosing(rq) && (Demands(rq) <==> Demands(r) || Demands(q))
    ensures forall v :: Passes(v, rq) <==> Passes(v, r) && Passes(v, q)
    ensures DefaultOp in rq <==> DefaultOp in r || DefaultOp in q
    ensures (DefaultOp in r ==> rq[DefaultOp] == r[DefaultOp]) && (DefaultOp in q ==> rq[DefaultOp] == q[DefaultOp])
  {
    assert ValueOp in r ==> ValueOp in Recognised(r);
    RuleEntries(r, q, rq);
    CombineDemands(r, q, rq);
    assert OneOfOp in r <==> OneOfOp in Recognised(r);
    assert OneOfOp in q <==> OneOfOp in Recognised(q);
    assert DefaultOp in r <==> DefaultOp in Recognised(r);
    assert DefaultOp in q <==> DefaultOp in Recognised(q);
  }

  lemma {:induction false} FoldChoice(ps: seq<ClaimPolicy>, r: ClaimPolicy)
    requires ps != [] && AllChoosing(ps) && Fold(ps) == Ok(r)
    ensures Choosing(r) && (Demands(r) <==> SomeDemands(ps))
    ensures forall v :: Passes(v, r) <==> forall p: ClaimPolicy :: p in ps ==> Passes(v, p)
    ensures forall p: ClaimPolicy :: p in ps && DefaultOp in p ==> DefaultOp in r && r[DefaultOp] == p[DefaultOp]
    ensures DefaultOp in r ==> Uses(DefaultOp, ps)
  {
    var front, last := ps[..|ps| - 1], ps[|ps| - 1];
    assert ps == front + [last];
    if |ps| > 1 {
      var sofar := Fold(front).value;
      FoldChoice(front, sofar);
      CombinedChoice(sofar, last, r);
      AllOfNext(front, last);
    }
  }

  /** A value that is there is kept one by one exactly if it passes every statement. */
  lemma {:induction false} EachChoice(cur: Option<Value>, ps: seq<ClaimPolicy>)
    requires AllChoosing(ps) && cur.Some? && Progressing(BUILTIN)
    ensures EvaluateEach(cur, ps) == if forall p: ClaimPolicy :: p in ps ==> Passes(cur.value, p) then Ok(cur) else Failure
  {
    if ps != [] {
      var front, last := ps[..|ps| - 1], ps[|ps| - 1];
      assert ps == front + [last];
      EachChoice(cur, front);
      ChoosingEvaluates(cur, last);
    }
  }

  /** For a claim that is there, list or scalar, applying the combined policy is applying the statements one by one, also
      in raising. */
  lemma {:induction false} ChoicesPreserveMeaning(cur: Option<Value>, ps: seq<ClaimPolicy>, r: ClaimPolicy)
    requires ps != [] && AllChoosing(ps) && Fold(ps) == Ok(r) && cur.Some? && Progressing(BUILTIN)
    ensures Evaluate(cur, r, BUILTIN) == EvaluateEach(cur, ps)
  {
    FoldChoice(ps, r);
    EachChoice(cur, ps);
    ChoosingEvaluates(cur, r);
  }

  /** An absent claim is absent as long as there is no default and no demand, then it is the default. */
  ghost predicate Defaulted(r: ClaimPolicy, w: Option<Value>) {
    w == (if DefaultOp in r then Some(r[DefaultOp]) else None) && (w.None? ==> !Demands(r))
  }

  lemma DefaultNext(r: ClaimPolicy, q: ClaimPolicy, rq: ClaimPolicy, before: Option<Value>, w: Option<Value>)
    requires Choosing(r) && Choosing(q) && CombineClaim(r, q) == Ok(rq) && Defaulted(r, before) && Progressing(BUILTIN)
    requires Evaluate(before, q, BUILTIN) == Ok(w)
    ensures Defaulted(rq, w)
  {
    CombinedChoice(r, q, rq);
    ChoosingEvaluates(before, q);
  }

  lemma {:induction false} EachDefault(ps: seq<ClaimPolicy>, r: ClaimPolicy, w: Option<Value>)
    requires ps != [] && AllChoosing(ps) && Fold(ps) == Ok(r) && Progressing(BUILTIN)
    requires EvaluateEach(None, ps) == Ok(w)
    ensures Defaulted(r, w)
  {
    var front, last := ps[..|ps| - 1], ps[|ps| - 1];
    assert ps == front + [last];
    var before := EvaluateEach(None, front).value;
    if |ps| == 1 {
      assert before == None;
      ChoosingEvaluates(None, last);
    } else {
      var sofar := Fold(front).value;
      FoldChoice(front, sofar);
      EachDefault(front, sofar, before);
      DefaultNext(sofar, last, r, before, w);
    }
  }

  /** A claim that is absent and passes one by one comes out the same, if and only if the default, where there is one,
      passes every statement's choice: also of the statements above the one that gives it. */
  lemma {:induction false} DefaultPreservedIff(ps: seq<ClaimPolicy>, r: ClaimPolicy, w: Option<Value>)
    requires ps != [] && AllChoosing(ps) && Fold(ps) == Ok(r) && Progressing(BUILTIN)
    requires EvaluateEach(None, ps) == Ok(w)
    ensures Evaluate(None, r, BUILTIN) == Ok(w) <==>
            (DefaultOp in r ==> forall p: ClaimPolicy :: p in ps ==> Passes(r[DefaultOp], p))
  {
    FoldChoice(ps, r);
    EachDefault(ps, r, w);
    ChoosingEvaluates(None, r);
  }

  const CHOOSE_X: ClaimPolicy := map[OneOfOp := List([Str("x")]), EssentialOp := FALSE]
  const DEFAULT_Z: ClaimPolicy := map[DefaultOp := Scalar(Str("z"))]
  const CHOOSE_X_DEFAULT_Z: ClaimPolicy :=
    map[OneOfOp := List([Str("x")]), EssentialOp := FALSE, DefaultOp := Scalar(Str("z"))]

  lemma ChooseThenDefault()
    ensures Fold([CHOOSE_X, DEFAULT_Z]) == Ok(CHOOSE_X_DEFAULT_Z)
  {
    var ops := Recognised(CHOOSE_X) + Recognised(DEFAULT_Z);
    assert ops == {OneOfOp, EssentialOp, DefaultOp};
    assert CHOOSE_X_DEFAULT_Z == map op | op in ops :: DoPolicy(CHOOSE_X, DEFAULT_Z, op).value;
    assert Rule(CHOOSE_X, DEFAULT_Z, ops) == Ok(CHOOSE_X_DEFAULT_Z);
    assert EssentialOp in CHOOSE_X_DEFAULT_Z.Keys;
    assert Coherent(CHOOSE_X_DEFAULT_Z) == Ok(true);
    FoldOfTwo(CHOOSE_X, DEFAULT_Z);
  }

  /** With a third operator the combination does not check that: a default below a choice that excludes it. */
  lemma {:induction false} DefaultOutsideChoice()
    ensures Progressing(BUILTIN) && AllChoosing([CHOOSE_X, DEFAULT_Z])
    ensures Fold([CHOOSE_X, DEFAULT_Z]) == Ok(CHOOSE_X_DEFAULT_Z)
    ensures EvaluateEach(None, [CHOOSE_X, DEFAULT_Z]) == Ok(Some(Scalar(Str("z"))))
    ensures Evaluate(None, CHOOSE_X_DEFAULT_Z, BUILTIN) == Failure
  {
    ChooseThenDefault();
    assert Recognised(CHOOSE_X) == {OneOfOp, EssentialOp} && Recognised(DEFAULT_Z) == {DefaultOp};
    assert "z"[0] != "x"[0];
    BuiltinIsResolve(None, CHOOSE_X);
    BuiltinIsResolve(None, DEFAULT_Z);
    BuiltinIsResolve(None, CHOOSE_X_DEFAULT_Z);
    EachOfTwo(None, CHOOSE_X, DEFAULT_Z, None);
  }
}
