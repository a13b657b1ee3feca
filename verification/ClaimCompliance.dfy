/** What the value of one claim guarantees after the combined policy of a whole chain was applied to it. */
module ClaimCompliance {
  import opened Wrappers
  import opened Statements
  import opened ClaimPolicies
  import opened ClaimFold
  import opened PolicyOperators

  ghost predicate ValueFreeChain(ps: seq<ClaimPolicy>) {
    forall p: ClaimPolicy :: p in ps ==> ValueFree(p)
  }

  /** Combining refuses to mix `one_of` with the set operators; a policy that nothing is combined with may. */
  ghost predicate UnmixedAlone(ps: seq<ClaimPolicy>) {
    |ps| == 1 ==> !Mixed(Recognised(ps[0]))
  }

  ghost predicate BooleanChain(ps: seq<ClaimPolicy>) {
    forall p: ClaimPolicy :: p in ps ==> BooleanEssential(p)
  }

  lemma RefinesTwice(op: Operator, r: Value, q: Value, p: Value)
    requires Refines(op, r, q) && Refines(op, q, p)
    ensures Refines(op, r, p)
  {
  }

  /** The combined policy of a chain carries every statement's set operators, narrowed (`add`: widened). */
  lemma {:induction false} FoldKeeps(ps: seq<ClaimPolicy>, r: ClaimPolicy)
    requires ps != [] && ValueFreeChain(ps) && Fold(ps) == Ok(r)
    ensures ValueFree(r) && (UnmixedAlone(ps) ==> !Mixed(Recognised(r)))
    ensures forall p: ClaimPolicy, op :: p in ps && SetOperator(op) && op in p ==> op in r && Refines(op, r[op], p[op])
  {
    if |ps| > 1 {
      var front, last := ps[..|ps| - 1], ps[|ps| - 1];
      assert ps == front + [last];
      var sofar := Fold(front).value;
      FoldKeeps(front, sofar);
      CombineKeeps(sofar, last, r);
      assert Recognised(r) == r.Keys;
      forall p: ClaimPolicy, op | p in ps && SetOperator(op) && op in p
        ensures op in r && Refines(op, r[op], p[op])
      {
        if p in front {
          RefinesTwice(op, r[op], sofar[op], p[op]);
        }
      }
    }
  }

  /** It demands the claim exactly when some statement does. */
  lemma {:induction false} FoldDemands(ps: seq<ClaimPolicy>, r: ClaimPolicy)
    requires ps != [] && ValueFreeChain(ps) && BooleanChain(ps) && Fold(ps) == Ok(r)
    ensures ValueFree(r) && BooleanEssential(r)
    ensures Demands(r) <==> exists p: ClaimPolicy :: p in ps && Demands(p)
  {
    if |ps| > 1 {
      var front, last := ps[..|ps| - 1], ps[|ps| - 1];
      assert ps == front + [last];
      FoldDemands(front, Fold(front).value);
      CombineDemands(Fold(front).value, last, r);
      RuleEntries(Fold(front).value, last, r);
      assert last in ps && forall p: ClaimPolicy :: p in front ==> p in ps;
      if p: ClaimPolicy :| p in ps && Demands(p) && !Demands(last) {
        assert p in front;
      }
    } else {
      assert ps[0] in ps && r == ps[0];
    }
  }

  lemma CharacterIsSubstring(c: char, s: string)
    requires c in s
    ensures IsSubstring([c], s)
  {
    if s[0] != c {
      CharacterIsSubstring(c, s[1..]);
    }
  }

  ghost predicate SpellsOperator(v: Option<Value>, p: ClaimPolicy) {
    v.Some? && NamesOperator(v.value, p)
  }

  /** Metadata that comes out of the combined policy obeys every statement's own `subset_of`, `one_of` (for a
      scalar) and `essential`. The one way round `subset_of` is a scalar that spells an operator's name. */
  lemma {:induction false} ResultComplies(ps: seq<ClaimPolicy>, r: ClaimPolicy, cur: Option<Value>, w: Option<Value>,
          p: ClaimPolicy)
    requires ps != [] && ValueFreeChain(ps) && UnmixedAlone(ps) && Fold(ps) == Ok(r) && Progressing(BUILTIN)
    requires Evaluate(cur, r, BUILTIN) == Ok(w)
    requires p in ps
    ensures SubsetOfOp in p && w.Some? && !SpellsOperator(Filled(cur, r), r) ==>
      w.value.IsList() && p[SubsetOfOp].Members().Ok? && w.value.Wrapped() <= p[SubsetOfOp].Members().value
    ensures OneOfOp in p && w.Some? && w.value.Scalar? ==> p[OneOfOp].Contains(w.value.atom) == Ok(true)
    ensures BooleanChain(ps) && Demands(p) ==> w.Some?
    ensures SupersetOfOp in p && OneOfOp !in r && w.Some? ==>
      SupersetOfOp in r && r[SupersetOfOp].Members().Ok? && w.value.Members().Ok? &&
      r[SupersetOfOp].Members().value <= w.value.Members().value
  {
    BuiltinIsResolve(cur, r);
    FoldKeeps(ps, r);
    if BooleanChain(ps) {
      FoldDemands(ps, r);
    }
    if OneOfOp in p {
      assert OneOfOp in Recognised(r) && Refines(OneOfOp, r[OneOfOp], p[OneOfOp]);
      assert SubsetOfOp !in Recognised(r);
      if w.Some? && w.value.Scalar? && r[OneOfOp] != p[OneOfOp] {
        assert w.value.atom in p[OneOfOp].Members().value;
        if p[OneOfOp].Scalar? {
          CharacterIsSubstring(w.value.atom.s[0], p[OneOfOp].atom.s);
        }
      }
    }
    if SubsetOfOp in p {
      assert SubsetOfOp in Recognised(r) && Refines(SubsetOfOp, r[SubsetOfOp], p[SubsetOfOp]);
      assert OneOfOp !in Recognised(r);
    }
    if SupersetOfOp in p {
      assert Refines(SupersetOfOp, r[SupersetOfOp], p[SupersetOfOp]);
    }
  }

  /** A scalar that spells an operator comes out of `subset_of` as the list of its characters. */
  lemma SpelledOut(v: Value, p: ClaimPolicy)
    requires SubsetOfOp in p && NamesOperator(v, p)
    ensures var chars := ActSubsetOf(Some(v), p);
            chars.Ok? && chars.value.Some? && chars.value.value.List? &&
            Ok(chars.value.value.Wrapped()) == v.Members() && v.Members().value != {}
  {
    var s := v.atom.s;
    var chars := ActSubsetOf(Some(v), p).value.value;
    forall x
      ensures x in chars.items <==> x in v.Members().value
    {
      if x in v.Members().value {
        var c :| c in s && x == Str([c]);
        var i :| 0 <= i < |s| && s[i] == c;
        assert chars.items[i] == x;
      }
    }
    assert chars.Wrapped() == v.Members().value;
    assert Str([s[0]]) in v.Members().value;
  }

  /** A scalar that reaches `subset_of` passes if and only if it spells an operator of the claim's policy, and its
      characters are all that is demanded. */
  lemma {:induction false} ScalarPassesSubsetIff(v: Value, p: ClaimPolicy)
    requires v.Scalar? && SubsetOfOp in p && ValueOp !in p && AddOp !in p && OneOfOp !in p && Progressing(BUILTIN)
    ensures Evaluate(Some(v), p, BUILTIN).Ok? <==> NamesOperator(v, p) && (SupersetOfOp in p ==> Covers(v, p[SupersetOfOp]))
  {
    BuiltinIsResolve(Some(v), p);
    if NamesOperator(v, p) {
      SpelledOut(v, p);
    }
  }

  /** So the very scalar that `subset_of` lists is refused, and the name of the operator is let through. */
  lemma {:induction false} ListedScalarIsRefused()
    ensures var p: ClaimPolicy := map[SubsetOfOp := List([Str("x")])];
            Progressing(BUILTIN) && Evaluate(Some(Scalar(Str("x"))), p, BUILTIN) == Failure &&
            Evaluate(Some(Scalar(Str("subset_of"))), p, BUILTIN).Ok?
  {
    var p: ClaimPolicy := map[SubsetOfOp := List([Str("x")])];
    assert OperatorNamed("x") == OtherOp("x") && OperatorNamed("subset_of") == SubsetOfOp;
    ScalarPassesSubsetIff(Scalar(Str("x")), p);
    ScalarPassesSubsetIff(Scalar(Str("subset_of")), p);
  }

  /** Combining `superset_of` intersects, so a statement's own demand can be lost: this leaf lacks `y`. */
  lemma SupersetDemandIsLost()
    ensures var p: ClaimPolicy := map[SupersetOfOp := List([Str("x"), Str("y")])];
            var q: ClaimPolicy := map[SupersetOfOp := List([Str("x")])];
            var r: ClaimPolicy := map[SupersetOfOp := Unordered({Str("x")})];
            Progressing(BUILTIN) && Fold([p, q]) == Ok(r) &&
            Evaluate(Some(List([Str("x")])), r, BUILTIN) == Ok(Some(List([Str("x")])))
  {
    var p: ClaimPolicy := map[SupersetOfOp := List([Str("x"), Str("y")])];
    var q: ClaimPolicy := map[SupersetOfOp := List([Str("x")])];
    var r: ClaimPolicy := map[SupersetOfOp := Unordered({Str("x")})];
    assert Recognised(p) == {SupersetOfOp} == Recognised(q);
    NarrowingFold(SupersetOfOp, [p, q]);
    assert Common(SupersetOfOp, [p, q]) == {Str("x")} by {
      assert Str("x") in p[SupersetOfOp].Members().value && Str("x") in q[SupersetOfOp].Members().value;
      assert q in [p, q];
    }
    BuiltinIsResolve(Some(List([Str("x")])), r);
  }

  ghost predicate AlwaysSuperset(r: ClaimPolicy, p: ClaimPolicy)
    requires SupersetOfOp in p && p[SupersetOfOp].Members().Ok? && Progressing(BUILTIN)
  {
    forall v: Value :: v.IsList() && Evaluate(Some(v), r, BUILTIN).Ok? ==> p[SupersetOfOp].Members().value <= v.Wrapped()
  }

  /** A statement's own `superset_of` is enforced on every leaf value exactly when all statements of the chain
      demand at least what it demands. */
  lemma {:induction false} SupersetEnforcedIff(ps: seq<ClaimPolicy>, p: ClaimPolicy)
    requires ps != [] && GovernedBy(SupersetOfOp, ps) && p in ps && Fold(ps).Ok? && Progressing(BUILTIN)
    requires forall q: ClaimPolicy :: q in ps ==> SupersetOfOp in q && q[SupersetOfOp].Members().Ok?
    ensures AlwaysSuperset(Fold(ps).value, p) <==>
            forall q: ClaimPolicy :: q in ps ==> p[SupersetOfOp].Members().value <= q[SupersetOfOp].Members().value
  {
    NarrowingFold(SupersetOfOp, ps);
    var r := Fold(ps).value;
    var all := Common(SupersetOfOp, ps);
    forall v: Value | v.IsList()
      ensures Evaluate(Some(v), r, BUILTIN).Ok? <==> all <= v.Wrapped()
    {
      BuiltinIsResolve(Some(v), r);
      assert forall op :: op in r && !op.OtherOp? ==> op in Recognised(r);
      assert AddOp !in r && ValueOp !in r && OneOfOp !in r && SubsetOfOp !in r && EssentialOp !in r && DefaultOp !in r;
    }
    if AlwaysSuperset(r, p) {
      assert Unordered(all).IsList() && Evaluate(Some(Unordered(all)), r, BUILTIN).Ok?;
      assert p[SupersetOfOp].Members().value <= all;
    } else {
      var v: Value :| v.IsList() && Evaluate(Some(v), r, BUILTIN).Ok? && !(p[SupersetOfOp].Members().value <= v.Wrapped());
      assert !(p[SupersetOfOp].Members().value <= all);
      var a :| a in p[SupersetOfOp].Members().value && a !in all;
      if a in ps[0][SupersetOfOp].Members().value {
      } else {
        assert ps[0] in ps;
      }
    }
  }

  /** A `value` a child adds to a superior without one is kept unchecked and overrides the superior's `subset_of`. */
  lemma {:induction false} ChildValueEscapes()
    ensures var p: ClaimPolicy := map[SubsetOfOp := List([Str("x")])];
            var q: ClaimPolicy := map[ValueOp := List([Str("z")])];
            Progressing(BUILTIN) && Fold([p, q]).Ok? &&
            Evaluate(Some(List([Str("x")])), Fold([p, q]).value, BUILTIN) == Ok(Some(List([Str("z")])))
  {
    var p: ClaimPolicy := map[SubsetOfOp := List([Str("x")])];
    var q: ClaimPolicy := map[ValueOp := List([Str("z")])];
    var r: ClaimPolicy := map[SubsetOfOp := List([Str("x")]), ValueOp := List([Str("z")])];
    var ops := Recognised(p) + Recognised(q);
    assert Recognised(p) == {SubsetOfOp} && Recognised(q) == {ValueOp};
    assert ops == {SubsetOfOp, ValueOp};
    assert r == map op | op in ops :: DoPolicy(p, q, op).value;
    assert Rule(p, q, ops) == Ok(r);
    assert ValueOp in r.Keys && SubsetOfOp in r.Keys && Coherent(r) == Ok(true);
    assert CombineClaim(p, q) == Ok(r);
    FoldOfTwo(p, q);
    BuiltinIsResolve(Some(List([Str("x")])), r);
  }

  /** The combined policy holds a `value` exactly when some statement gives one, and then it is that of every statement
      that does. */
  lemma {:induction false} FoldValue(ps: seq<ClaimPolicy>, r: ClaimPolicy)
    requires ps != [] && Fold(ps) == Ok(r)
    ensures ValueOp in r <==> exists p: ClaimPolicy :: p in ps && ValueOp in p
    ensures forall p: ClaimPolicy :: p in ps && ValueOp in p ==> ValueOp in r && r[ValueOp] == p[ValueOp]
  {
    if |ps| > 1 {
      var front, last := ps[..|ps| - 1], ps[|ps| - 1];
      assert ps == front + [last];
      var sofar := Fold(front).value;
      FoldValue(front, sofar);
      assert ValueOp in last <==> ValueOp in Recognised(last);
      if ValueOp !in sofar {
        RuleEntries(sofar, last, r);
      }
    }
  }

  /** A value within a statement's own `subset_of` and, if it is a scalar, `one_of`. */
  ghost predicate Obeys(w: Value, p: ClaimPolicy) {
    (SubsetOfOp in p ==> w.IsList() && p[SubsetOfOp].Members().Ok? && w.Wrapped() <= p[SubsetOfOp].Members().value) &&
    (OneOfOp in p && w.Scalar? ==> p[OneOfOp].Contains(w.atom) == Ok(true))
  }

  /** Every value that comes out of `r` obeys `p`, scalars that spell an operator aside. */
  ghost predicate Enforces(r: ClaimPolicy, p: ClaimPolicy)
    requires Progressing(BUILTIN)
  {
    forall cur :: !SpellsOperator(Filled(cur, r), r) && Evaluate(cur, r, BUILTIN).Ok? ==>
      var w := Evaluate(cur, r, BUILTIN).value; w.Some? ==> Obeys(w.value, p)
  }

  /** Every `value` given obeys `p`. */
  ghost predicate ValuesObey(ps: seq<ClaimPolicy>, p: ClaimPolicy) {
    forall q: ClaimPolicy :: q in ps && ValueOp in q ==> Obeys(q[ValueOp], p)
  }

  /** A statement's `subset_of` and `one_of` are enforced if and only if every `value` that a statement gives obeys
      them. */
  lemma {:induction false} EnforcedIff(ps: seq<ClaimPolicy>, r: ClaimPolicy, p: ClaimPolicy)
    requires ps != [] && UnmixedAlone(ps) && Fold(ps) == Ok(r) && p in ps && Progressing(BUILTIN)
    ensures Enforces(r, p) <==> ValuesObey(ps, p)
  {
    FoldValue(ps, r);
    if ValueOp in r {
      forall cur
        ensures Evaluate(cur, r, BUILTIN) == Ok(Some(r[ValueOp]))
      {
        BuiltinIsResolve(cur, r);
      }
      assert !SpellsOperator(Filled(Some(List([])), r), r);
    } else {
      forall cur | !SpellsOperator(Filled(cur, r), r) && Evaluate(cur, r, BUILTIN).Ok?
        ensures var w := Evaluate(cur, r, BUILTIN).value; w.Some? ==> Obeys(w.value, p)
      {
        ResultComplies(ps, r, cur, Evaluate(cur, r, BUILTIN).value, p);
      }
    }
  }

  /** One result obeys a statement's own policy if and only if every `value` given does. */
  lemma {:induction false} ResultCompliesIff(ps: seq<ClaimPolicy>, r: ClaimPolicy, cur: Option<Value>, w: Option<Value>,
          p: ClaimPolicy)
    requires ps != [] && UnmixedAlone(ps) && BooleanChain(ps) && Fold(ps) == Ok(r) && p in ps && Progressing(BUILTIN)
    requires Evaluate(cur, r, BUILTIN) == Ok(w)
    requires SubsetOfOp in r && ValueOp !in r ==> !SpellsOperator(Filled(cur, r), r)
    ensures (w.Some? ==> Obeys(w.value, p)) && (Demands(p) ==> w.Some?) <==> ValuesObey(ps, p)
  {
    FoldValue(ps, r);
    if ValueOp in r {
      BuiltinIsResolve(cur, r);
    } else {
      FoldKeeps(ps, r);
      ResultComplies(ps, r, cur, w, p);
    }
  }

  // ---- Applying a policy twice ----

  ghost predicate SameResult(v: Option<Value>, w: Option<Value>) {
    (v.None? && w.None?) || (v.Some? && w.Some? && SameSet(v.value, w.value))
  }

  /** A list that reaches the checks may be checked again. A scalar may be if nothing is added to it; one that spells
      its way through `subset_of` has become its characters, which then must be allowed, with no addition but them. */
  ghost predicate Repeatable(cur: Option<Value>, p: ClaimPolicy) {
    var filled := Filled(cur, p);
    filled.Some? && filled.value.Scalar? ==>
      if SubsetOfOp in p && OneOfOp !in p then
        filled.value.Members().Ok? && (forall x :: x in filled.value.Members().value ==> Allows(p, x)) &&
        (AddOp in p ==> forall x :: x in p[AddOp].Wrapped() && Allows(p, x) ==> x in filled.value.Members().value)
      else
        AddOp !in p
  }

  ghost predicate SameAgain(w: Option<Value>, p: ClaimPolicy)
    requires Progressing(BUILTIN)
  {
    Evaluate(w, p, BUILTIN).Ok? && SameResult(w, Evaluate(w, p, BUILTIN).value)
  }

  lemma ListsApplyTwice(cur: Option<Value>, p: ClaimPolicy, w: Option<Value>)
    requires Progressing(BUILTIN) && ValueOp !in p && Evaluate(cur, p, BUILTIN) == Ok(w)
    requires Filled(cur, p).Some? && Filled(cur, p).value.IsList()
    ensures SameAgain(w, p)
  {
    BuiltinIsResolve(cur, p);
    BuiltinIsResolve(w, p);
    var first, again := Filled(cur, p).value, Filled(w, p).value;
    if SubsetOfOp in p {
      assert p[SubsetOfOp].Members().value * again.Wrapped() == w.value.Wrapped();
    } else {
      assert again.Wrapped() == w.value.Wrapped();
    }
  }

  lemma ScalarsApplyTwice(cur: Option<Value>, p: ClaimPolicy, w: Option<Value>)
    requires Progressing(BUILTIN) && ValueOp !in p && Evaluate(cur, p, BUILTIN) == Ok(w)
    requires Filled(cur, p).Some? && Filled(cur, p).value.Scalar?
    ensures SameAgain(w, p) <==> Repeatable(cur, p)
  {
    BuiltinIsResolve(cur, p);
    BuiltinIsResolve(w, p);
    if SubsetOfOp in p && OneOfOp !in p {
      SpelledOut(Filled(cur, p).value, p);
      ListsAgain(w.value, p);
    }
  }

  /** A list that is not empty passes the additions and `subset_of` unchanged, if it is allowed and no other allowed
      member is added. */
  lemma ListsAgain(v: Value, p: ClaimPolicy)
    requires v.IsList() && v.Wrapped() != {} && SubsetOfOp in p
    ensures var kept := ActSubsetOf(if AddOp in p then ActAdd(Some(v), p[AddOp]) else Some(v), p);
            (kept.Ok? && kept.value.value.Wrapped() == v.Wrapped() <==>
             (forall x :: x in v.Wrapped() ==> Allows(p, x)) &&
             (AddOp in p ==> forall x :: x in p[AddOp].Wrapped() && Allows(p, x) ==> x in v.Wrapped())) &&
            (kept.Ok? ==> kept.value.value.IsList())
  {
    var again := if AddOp in p then v.Wrapped() + p[AddOp].Wrapped() else v.Wrapped();
    if p[SubsetOfOp].Members().Ok? {
      var kept := p[SubsetOfOp].Members().value * again;
      assert forall x :: x in kept <==> Allows(p, x) && x in again;
    }
  }

  /** A policy is applied in place to the leaf's own metadata; doing it again succeeds and changes nothing but list
      order, if and only if the claim is repeatable. */
  lemma {:induction false} ApplyingTwice(cur: Option<Value>, p: ClaimPolicy, w: Option<Value>)
    requires Progressing(BUILTIN) && Evaluate(cur, p, BUILTIN) == Ok(w)
    ensures SameAgain(w, p) <==> ValueOp in p || Repeatable(cur, p)
  {
    BuiltinIsResolve(cur, p);
    if ValueOp in p {
      BuiltinIsResolve(w, p);
    } else if Filled(cur, p).None? {
      BuiltinIsResolve(w, p);
    } else if Filled(cur, p).value.IsList() {
      ListsApplyTwice(cur, p, w);
    } else {
      ScalarsApplyTwice(cur, p, w);
    }
  }

  /** A scalar `add` on an absent claim is the exception: the first run leaves a scalar, the second a list. */
  lemma ScalarAddIsNotRepeatable()
    ensures var p: ClaimPolicy := map[AddOp := Scalar(Str("x"))];
            Progressing(BUILTIN) &&
            Evaluate(None, p, BUILTIN) == Ok(Some(Scalar(Str("x")))) &&
            Evaluate(Some(Scalar(Str("x"))), p, BUILTIN) == Ok(Some(Unordered({Str("x")})))
  {
    var p: ClaimPolicy := map[AddOp := Scalar(Str("x"))];
    BuiltinIsResolve(None, p);
    BuiltinIsResolve(Some(Scalar(Str("x"))), p);
    assert {Str("x")} + {Str("x")} == {Str("x")};
  }
}
