/** Folding `combine_claim_policy` over all the policies a chain has for one claim, superior first. */
module ClaimFold {
  import opened Wrappers
  import opened Statements
  import opened ClaimPolicies

  /** The first policy is kept as it is; every later one is combined into it. */
  function Fold(ps: seq<ClaimPolicy>): Result<ClaimPolicy>
    requires ps != []
  {
    if |ps| == 1 then
      Ok(ps[0])
    else
      var sofar :- Fold(ps[..|ps| - 1]);
      CombineClaim(sofar, ps[|ps| - 1])
  }

  lemma FoldOfTwo(p: ClaimPolicy, q: ClaimPolicy)
    ensures Fold([p, q]) == CombineClaim(p, q)
  {
    assert [p, q][..1] == [p];
    assert Fold([p]) == Ok(p);
  }

  // ---- Below a `value` ----

  /** The policies from `k` on leave `essential` to that at `j`. */
  ghost predicate LastEssential(ps: seq<ClaimPolicy>, k: nat, j: int) {
    k < j < |ps| && EssentialAlone(ps[j]) && forall i :: j < i < |ps| ==> !EssentialAlone(ps[i])
  }

  /** From the statement on that leaves a `value`, the rest of a chain folds if and only if every policy below bears that
      value. The fold then is what the statement left, or that value with the last `essential` given alone. */
  lemma {:induction false} FoldFromValue(ps: seq<ClaimPolicy>, k: nat, s: ClaimPolicy)
    requires k < |ps| && Fold(ps[..k + 1]) == Ok(s) && ValueOp in s
    ensures Fold(ps).Ok? <==> forall j :: k < j < |ps| ==> BearableUnder(ps[j], s[ValueOp])
    ensures Fold(ps).Ok? && (forall j :: k < j < |ps| ==> !EssentialAlone(ps[j])) ==> Fold(ps) == Ok(s)
    ensures forall j :: Fold(ps).Ok? && LastEssential(ps, k, j) ==>
              Fold(ps) == Ok(map[ValueOp := s[ValueOp], EssentialOp := ps[j][EssentialOp]])
    decreases |ps|
  {
    if k == |ps| - 1 {
      assert ps[..k + 1] == ps;
    } else {
      var front, last := ps[..|ps| - 1], ps[|ps| - 1];
      assert front[..k + 1] == ps[..k + 1];
      assert forall j :: 0 <= j < |front| ==> front[j] == ps[j];
      FoldFromValue(front, k, s);
      if Fold(front).Ok? {
        FrontKeepsValue(front, k, s);
        UnderValueIff(Fold(front).value, last);
        forall j | Fold(ps).Ok? && LastEssential(ps, k, j)
          ensures Fold(ps) == Ok(map[ValueOp := s[ValueOp], EssentialOp := ps[j][EssentialOp]])
        {
          if j < |front| {
            assert LastEssential(front, k, j);
          }
        }
      }
    }
  }

  lemma FrontKeepsValue(ps: seq<ClaimPolicy>, k: nat, s: ClaimPolicy)
    requires k < |ps| && Fold(ps).Ok? && ValueOp in s
    requires (forall j :: k < j < |ps| ==> !EssentialAlone(ps[j])) ==> Fold(ps) == Ok(s)
    requires forall j :: LastEssential(ps, k, j) ==>
               Fold(ps) == Ok(map[ValueOp := s[ValueOp], EssentialOp := ps[j][EssentialOp]])
    ensures ValueOp in Fold(ps).value && Fold(ps).value[ValueOp] == s[ValueOp]
  {
    if j :| k < j < |ps| && EssentialAlone(ps[j]) {
      var last := LastOf(ps, k, j);
      assert LastEssential(ps, k, last);
    }
  }

  lemma {:induction false} LastOf(ps: seq<ClaimPolicy>, k: nat, j: nat) returns (last: nat)
    requires k < j < |ps| && EssentialAlone(ps[j])
    ensures LastEssential(ps, k, last)
    decreases |ps| - j
  {
    if i :| j < i < |ps| && EssentialAlone(ps[i]) {
      last := LastOf(ps, k, i);
    } else {
      last := j;
    }
  }

  /** So a claim with a `value` on top folds exactly when every later policy bears it. */
  lemma {:induction false} ValueOnTop(ps: seq<ClaimPolicy>)
    requires ps != [] && ValueOp in ps[0]
    ensures Fold(ps).Ok? <==> forall j :: 0 < j < |ps| ==> BearableUnder(ps[j], ps[0][ValueOp])
    ensures Fold(ps).Ok? ==> ValueOp in Fold(ps).value && Fold(ps).value[ValueOp] == ps[0][ValueOp]
  {
    assert ps[..1] == [ps[0]];
    FoldFromValue(ps, 0, ps[0]);
    if Fold(ps).Ok? {
      FrontKeepsValue(ps, 0, ps[0]);
    }
  }

  // ---- Closed form for claims governed by one operator ----

  ghost predicate GovernedBy(op: Operator, ps: seq<ClaimPolicy>) {
    forall p: ClaimPolicy :: p in ps ==> Recognised(p) == {op}
  }

  predicate Narrowing(op: Operator) {
    op == SubsetOfOp || op == OneOfOp || op == SupersetOfOp
  }

  /** The members every policy in `ps` gives under `op`. */
  function Common(op: Operator, ps: seq<ClaimPolicy>): set<Atom>
    requires ps != [] && forall p: ClaimPolicy :: p in ps ==> op in p && p[op].Members().Ok?
  {
    set a | a in ps[0][op].Members().value && forall p: ClaimPolicy :: p in ps ==> a in p[op].Members().value
  }

  /** The members some policy in `ps` gives under `op`. */
  function Pooled(op: Operator, ps: seq<ClaimPolicy>): set<Atom>
    requires forall p: ClaimPolicy :: p in ps ==> op in p
  {
    set p: ClaimPolicy, a | p in ps && a in p[op].Wrapped() :: a
  }

  ghost predicate AllSets(op: Operator, ps: seq<ClaimPolicy>)
    requires forall p: ClaimPolicy :: p in ps ==> op in p
  {
    forall p: ClaimPolicy :: p in ps ==> p[op].Members().Ok?
  }

  lemma SingleStep(op: Operator, p: ClaimPolicy, q: ClaimPolicy)
    requires Narrowing(op) || op == AddOp
    requires Recognised(p) == {op} == Recognised(q)
    ensures op in p && op in q
    ensures CombineClaim(p, q) ==
            match CombineSets(op, p[op], q[op])
            case Failure => Failure
            case Ok(comb) => if comb == {} then Failure else Ok(map[op := Unordered(comb)])
  {
    assert op in Recognised(p) && op in Recognised(q);
    assert ValueOp !in Recognised(p) && EssentialOp !in Recognised(p) && EssentialOp !in Recognised(q);
    assert Recognised(p) + Recognised(q) == {op};
    assert !Mixed({op});
    match DoPolicy(p, q, op)
    case Failure =>
      assert exists o :: o in {op} && DoPolicy(p, q, o).Failure?;
    case Ok(v) =>
      var rule := map[op := v];
      assert rule == map o | o in {op} :: DoPolicy(p, q, o).value;
      assert Rule(p, q, {op}).Ok?;
      OneOperatorIsCoherent(op, rule);
      assert Rule(p, q, {op}).value == rule;
      assert ValueOp !in p && !DropsEssential(p, q);
      assert CombineClaim(p, q) == Ok(rule);
  }

  lemma OneOperatorIsCoherent(op: Operator, rule: ClaimPolicy)
    requires rule.Keys == {op}
    ensures Coherent(rule) == Ok(true)
  {
    assert SubsetOfOp !in rule.Keys || SupersetOfOp !in rule.Keys;
    assert SubsetOfOp !in rule.Keys || AddOp !in rule.Keys;
    assert SupersetOfOp !in rule.Keys || AddOp !in rule.Keys;
    assert DefaultOp in rule.Keys ==> SubsetOfOp !in rule.Keys && SupersetOfOp !in rule.Keys && OneOfOp !in rule.Keys;
  }

  lemma NarrowTwo(op: Operator, p: ClaimPolicy, q: ClaimPolicy)
    requires Narrowing(op) && Recognised(p) == {op} == Recognised(q)
    ensures op in p && op in q
    ensures CombineClaim(p, q).Ok? <==>
            p[op].Members().Ok? && q[op].Members().Ok? && p[op].Members().value * q[op].Members().value != {}
    ensures CombineClaim(p, q).Ok? ==>
            CombineClaim(p, q).value == map[op := Unordered(p[op].Members().value * q[op].Members().value)]
  {
    SingleStep(op, p, q);
  }

  lemma CommonNext(op: Operator, front: seq<ClaimPolicy>, last: ClaimPolicy)
    requires front != [] && forall p: ClaimPolicy :: p in front + [last] ==> op in p && p[op].Members().Ok?
    ensures forall p: ClaimPolicy :: p in front ==> op in p && p[op].Members().Ok?
    ensures op in last && last[op].Members().Ok?
    ensures Common(op, front + [last]) == Common(op, front) * last[op].Members().value
  {
    forall p: ClaimPolicy | p in front || p == last
      ensures p in front + [last]
    {
    }
    assert (front + [last])[0] == front[0];
  }

  lemma HaveOperator(op: Operator, ps: seq<ClaimPolicy>)
    requires GovernedBy(op, ps)
    ensures forall p: ClaimPolicy :: p in ps ==> op in p
  {
    forall p: ClaimPolicy | p in ps
      ensures op in p
    {
      assert op in Recognised(p);
    }
  }

  /** `subset_of`, `one_of` and `superset_of`: the fold gives the intersection of all lists, and raises exactly
      when a claim is mentioned at least twice and the intersection is empty (or something is not a set at all). */
  lemma {:induction false} NarrowingFold(op: Operator, ps: seq<ClaimPolicy>)
    requires Narrowing(op) && ps != [] && GovernedBy(op, ps)
    ensures forall p: ClaimPolicy :: p in ps ==> op in p
    ensures Fold(ps).Ok? <==> |ps| == 1 || (AllSets(op, ps) && Common(op, ps) != {})
    ensures Fold(ps).Ok? ==> Recognised(Fold(ps).value) == {op} && op in Fold(ps).value
    ensures Fold(ps).Ok? && AllSets(op, ps) ==> Fold(ps).value[op].Members() == Ok(Common(op, ps))
    ensures |ps| > 1 && Fold(ps).Ok? ==> AllSets(op, ps) && Fold(ps).value == map[op := Unordered(Common(op, ps))]
  {
    HaveOperator(op, ps);
    if |ps| == 1 {
      if AllSets(op, ps) {
        assert Common(op, ps) == ps[0][op].Members().value;
      }
    } else {
      var front, last := ps[..|ps| - 1], ps[|ps| - 1];
      assert ps == front + [last];
      NarrowingFold(op, front);
      NarrowingNext(op, front, last);
    }
  }

  /** One more policy under what the policies before it have come to. */
  lemma NarrowingNext(op: Operator, front: seq<ClaimPolicy>, last: ClaimPolicy)
    requires Narrowing(op) && front != [] && GovernedBy(op, front + [last])
    requires forall p: ClaimPolicy :: p in front + [last] ==> op in p
    requires forall p: ClaimPolicy :: p in front ==> op in p
    requires Fold(front).Ok? <==> |front| == 1 || (AllSets(op, front) && Common(op, front) != {})
    requires Fold(front).Ok? ==> Recognised(Fold(front).value) == {op} && op in Fold(front).value
    requires Fold(front).Ok? && AllSets(op, front) ==> Fold(front).value[op].Members() == Ok(Common(op, front))
    ensures var ps := front + [last];
            (Fold(ps).Ok? <==> AllSets(op, ps) && Common(op, ps) != {}) &&
            (Fold(ps).Ok? ==> Fold(ps).value == map[op := Unordered(Common(op, ps))])
  {
    var ps := front + [last];
    assert ps[..|ps| - 1] == front && ps[|ps| - 1] == last && last in ps;
    assert AllSets(op, ps) <==> AllSets(op, front) && last[op].Members().Ok?;
    if AllSets(op, ps) {
      CommonNext(op, front, last);
    }
    if Fold(front).Ok? {
      NarrowTwo(op, Fold(front).value, last);
      if !AllSets(op, front) {
        assert front == [front[0]] && Fold(front).value == front[0];
      }
    }
  }

  /** `add`: the fold gives the union of all lists, and raises exactly when the first two mentions add nothing.
      Later mentions cannot repair that, so with empty lists the order of the statements matters. */
  lemma {:induction false} WideningFold(ps: seq<ClaimPolicy>)
    requires ps != [] && GovernedBy(AddOp, ps)
    ensures forall p: ClaimPolicy :: p in ps ==> AddOp in p
    ensures Fold(ps).Ok? <==> |ps| == 1 || Pooled(AddOp, ps[..2]) != {}
    ensures Fold(ps).Ok? ==> Recognised(Fold(ps).value) == {AddOp} && AddOp in Fold(ps).value &&
                             Fold(ps).value[AddOp].Wrapped() == Pooled(AddOp, ps)
    ensures |ps| > 1 && Fold(ps).Ok? ==> Fold(ps).value == map[AddOp := Unordered(Pooled(AddOp, ps))]
  {
    forall p | p in ps
      ensures AddOp in p
    {
      assert AddOp in Recognised(p);
    }
    if |ps| == 1 {
      assert ps[0] in ps;
      assert Pooled(AddOp, ps) == ps[0][AddOp].Wrapped();
    } else {
      var front, last := ps[..|ps| - 1], ps[|ps| - 1];
      assert ps == front + [last];
      WideningFold(front);
      assert Pooled(AddOp, ps) == Pooled(AddOp, front) + last[AddOp].Wrapped() by {
        assert last in ps;
      }
      if |ps| == 2 {
        assert ps[..2] == ps;
      } else {
        assert ps[..2] == front[..2];
        assert Pooled(AddOp, ps[..2]) <= Pooled(AddOp, ps);
      }
      if Fold(front).Ok? {
        SingleStep(AddOp, Fold(front).value, last);
      }
    }
  }

  ghost predicate AddsNothing(p: ClaimPolicy) {
    AddOp in p ==> p[AddOp].Wrapped() == {}
  }

  /** No two of the policies add nothing, or all do. */
  ghost predicate OrderFree(ps: seq<ClaimPolicy>) {
    (forall i, j :: 0 <= i < j < |ps| ==> !AddsNothing(ps[i]) || !AddsNothing(ps[j])) ||
    (forall p: ClaimPolicy :: p in ps ==> AddsNothing(p))
  }

  ghost predicate FoldsAlike(ps: seq<ClaimPolicy>) {
    forall qs: seq<ClaimPolicy> :: ps != [] && qs != [] && multiset(qs) == multiset(ps) ==> Fold(qs) == Fold(ps)
  }

  lemma SameMembers(ps: seq<ClaimPolicy>, qs: seq<ClaimPolicy>)
    requires multiset(ps) == multiset(qs)
    ensures |ps| == |qs| && forall p: ClaimPolicy :: p in ps <==> p in qs
  {
    assert |multiset(ps)| == |ps| && |multiset(qs)| == |qs|;
    forall p: ClaimPolicy
      ensures p in ps <==> p in qs
    {
      assert p in ps <==> p in multiset(ps);
    }
  }

  lemma WithoutOne<T>(a: seq<T>, x: T, b: seq<T>, l: seq<T>, r: seq<T>)
    requires multiset(a + [x] + b) == multiset(l + [x] + r)
    ensures multiset(a + b) == multiset(l + r)
  {
    assert multiset(a + [x] + b) == multiset(a) + multiset{x} + multiset(b) == multiset(a + b) + multiset{x};
    assert multiset(l + [x] + r) == multiset(l) + multiset{x} + multiset(r) == multiset(l + r) + multiset{x};
    assert multiset(a + b) == multiset(a + [x] + b) - multiset{x} == multiset(l + r);
  }

  lemma TwoOccurrences(ps: seq<ClaimPolicy>, qs: seq<ClaimPolicy>, i: nat, j: nat) returns (k: nat, l: nat)
    requires i < j < |ps| && multiset(ps) == multiset(qs)
    ensures k < |qs| && l < |qs| && k != l && qs[k] == ps[i] && qs[l] == ps[j]
  {
    SameMembers(ps, qs);
    assert ps[i] in ps;
    k :| 0 <= k < |qs| && qs[k] == ps[i];
    assert qs == qs[..k] + [ps[i]] + qs[k + 1..] && ps == ps[..i] + [ps[i]] + ps[i + 1..];
    WithoutOne(ps[..i], ps[i], ps[i + 1..], qs[..k], qs[k + 1..]);
    var m := PlaceOf(ps[..i] + ps[i + 1..], j - 1, qs[..k] + qs[k + 1..]);
    l := if m < k then m else m + 1;
  }

  lemma PlaceOf(ps: seq<ClaimPolicy>, j: nat, qs: seq<ClaimPolicy>) returns (m: nat)
    requires j < |ps| && multiset(ps) == multiset(qs)
    ensures m < |qs| && qs[m] == ps[j]
  {
    SameMembers(ps, qs);
    assert ps[j] in ps;
    m :| 0 <= m < |qs| && qs[m] == ps[j];
  }

  lemma FirstTwoAdd(ps: seq<ClaimPolicy>)
    requires |ps| > 1 && GovernedBy(AddOp, ps) && forall p: ClaimPolicy :: p in ps ==> AddOp in p
    ensures Pooled(AddOp, ps[..2]) != {} <==> !AddsNothing(ps[0]) || !AddsNothing(ps[1])
  {
    assert ps[..2] == [ps[0], ps[1]];
    assert Pooled(AddOp, ps[..2]) == ps[0][AddOp].Wrapped() + ps[1][AddOp].Wrapped() by {
      assert ps[0] in ps[..2] && ps[1] in ps[..2];
    }
  }

  lemma OrderFreeFold(ps: seq<ClaimPolicy>, qs: seq<ClaimPolicy>)
    requires ps != [] && qs != [] && GovernedBy(AddOp, ps) && multiset(ps) == multiset(qs) && OrderFree(ps)
    ensures Fold(qs) == Fold(ps)
  {
    SameMembers(ps, qs);
    WideningFold(ps);
    WideningFold(qs);
    if |ps| == 1 {
      assert ps[0] in qs;
    } else {
      FirstTwoAdd(ps);
      FirstTwoAdd(qs);
      assert qs[0] in ps && qs[1] in ps && ps[0] in ps && ps[1] in ps;
      if AddsNothing(qs[0]) && AddsNothing(qs[1]) {
        var k, l := TwoOccurrences(qs, ps, 0, 1);
      }
      assert Pooled(AddOp, ps) == Pooled(AddOp, qs);
    }
  }

  lemma InFront(ps: seq<ClaimPolicy>, k: nat) returns (qs: seq<ClaimPolicy>)
    requires k < |ps|
    ensures |qs| == |ps| && qs[0] == ps[k] && multiset(qs) == multiset(ps)
    ensures forall i :: 0 <= i < k ==> qs[i + 1] == ps[i]
  {
    qs := [ps[k]] + ps[..k] + ps[k + 1..];
    assert ps == ps[..k] + [ps[k]] + ps[k + 1..];
  }

  lemma TwoInFront(ps: seq<ClaimPolicy>, i: nat, j: nat) returns (qs: seq<ClaimPolicy>)
    requires i < j < |ps|
    ensures |qs| == |ps| && qs[0] == ps[i] && qs[1] == ps[j] && multiset(qs) == multiset(ps)
  {
    var half := InFront(ps, j);
    qs := InFront(half, i + 1);
  }

  /** The first two policies decide whether any order of `ps` can be folded. */
  lemma OrderDecides(ps: seq<ClaimPolicy>, qs: seq<ClaimPolicy>)
    requires |ps| > 1 && GovernedBy(AddOp, ps) && multiset(qs) == multiset(ps)
    ensures |qs| > 1 && (Fold(qs).Ok? <==> !AddsNothing(qs[0]) || !AddsNothing(qs[1]))
  {
    SameMembers(ps, qs);
    WideningFold(qs);
    FirstTwoAdd(qs);
  }

  lemma OrderMatters(ps: seq<ClaimPolicy>, i: nat, j: nat, k: nat)
    requires i < j < |ps| && k < |ps| && GovernedBy(AddOp, ps)
    requires AddsNothing(ps[i]) && AddsNothing(ps[j]) && !AddsNothing(ps[k])
    ensures !FoldsAlike(ps)
  {
    var good := InFront(ps, k);
    var bad := TwoInFront(ps, i, j);
    OrderDecides(ps, good);
    OrderDecides(ps, bad);
    assert Fold(good) != Fold(bad);
  }

  /** The order in which statements add to a claim makes no difference if and only if no two of them add nothing, or
      all do. */
  lemma {:induction false} OrderFreeIff(ps: seq<ClaimPolicy>)
    requires ps != [] && GovernedBy(AddOp, ps)
    ensures FoldsAlike(ps) <==> OrderFree(ps)
  {
    if OrderFree(ps) {
      forall qs: seq<ClaimPolicy> | qs != [] && multiset(qs) == multiset(ps)
        ensures Fold(qs) == Fold(ps)
      {
        OrderFreeFold(ps, qs);
      }
    } else {
      var i, j :| 0 <= i < j < |ps| && AddsNothing(ps[i]) && AddsNothing(ps[j]);
      var p: ClaimPolicy :| p in ps && !AddsNothing(p);
      var k :| 0 <= k < |ps| && ps[k] == p;
      OrderMatters(ps, i, j, k);
    }
  }

  /** Swapping two statements can turn success into an exception when some `add` lists are empty. */
  lemma WideningDependsOnOrder()
    ensures var none: ClaimPolicy := map[AddOp := List([])];
            var some: ClaimPolicy := map[AddOp := List([Str("x")])];
            multiset([none, some, none]) == multiset([none, none, some]) &&
            Fold([none, some, none]).Ok? && Fold([none, none, some]).Failure?
  {
    var none: ClaimPolicy := map[AddOp := List([])];
    var some: ClaimPolicy := map[AddOp := List([Str("x")])];
    assert Recognised(none) == {AddOp} == Recognised(some);
    WideningFold([none, some, none]);
    WideningFold([none, none, some]);
    assert [none, some, none][..2] == [none, some];
    assert [none, none, some][..2] == [none, none];
    assert Str("x") in some[AddOp].Wrapped();
    assert Str("x") in Pooled(AddOp, [none, some]);
    assert Pooled(AddOp, [none, none]) == {};
  }
}
