/** Applying the one combined policy of a chain gives what applying the statements' policies one by one gives. */
module MeaningPreservation {
  import opened Wrappers
  import opened Statements
  import opened ClaimPolicies
  import opened ClaimFold
  import opened PolicyOperators
  import opened ClaimCompliance

  /** The statements' own policies for one claim, superior first. */
  function EvaluateEach(cur: Option<Value>, ps: seq<ClaimPolicy>): Result<Option<Value>>
    requires Progressing(BUILTIN)
  {
    if ps == [] then
      Ok(cur)
    else
      var sofar :- EvaluateEach(cur, ps[..|ps| - 1]);
      Evaluate(sofar, ps[|ps| - 1], BUILTIN)
  }

  const FAMILY := {SubsetOfOp, SupersetOfOp, AddOp, EssentialOp}

  ghost predicate InFamily(p: ClaimPolicy) {
    Recognised(p) <= FAMILY && BooleanEssential(p) &&
    (AddOp in p ==> p[AddOp].IsList() && p[AddOp].Wrapped() != {})
  }

  ghost predicate AllInFamily(ps: seq<ClaimPolicy>) {
    forall p: ClaimPolicy :: p in ps ==> InFamily(p)
  }

  ghost predicate ListOrAbsent(cur: Option<Value>) {
    cur.Some? ==> cur.value.IsList()
  }

  ghost function Start(cur: Option<Value>): set<Atom> {
    if cur.Some? then cur.value.Wrapped() else {}
  }

  ghost function Adds(p: ClaimPolicy): set<Atom> {
    if AddOp in p then p[AddOp].Wrapped() else {}
  }

  /** The members one policy leaves: start, plus added, within allowed. */
  ghost function Outcome(have: set<Atom>, p: ClaimPolicy): set<Atom> {
    set x | x in have + Adds(p) && Allows(p, x)
  }

  ghost predicate Wants(p: ClaimPolicy, have: set<Atom>) {
    SupersetOfOp in p ==> p[SupersetOfOp].Members().Ok? && p[SupersetOfOp].Members().value <= have
  }

  lemma FamilyResolves(cur: Option<Value>, p: ClaimPolicy)
    requires InFamily(p) && Progressing(BUILTIN)
    ensures Evaluate(cur, p, BUILTIN) == RunSets(if AddOp in p then ActAdd(cur, p[AddOp]) else cur, p)
  {
    BuiltinIsResolve(cur, p);
    assert forall op :: op in p && !op.OtherOp? ==> op in Recognised(p);
    assert ValueOp !in p && DefaultOp !in p && OneOfOp !in p;
  }

  /** One policy of the family on a list or absent claim: when it raises, and what it leaves. */
  lemma EvaluateInFamily(cur: Option<Value>, p: ClaimPolicy)
    requires InFamily(p) && ListOrAbsent(cur) && Progressing(BUILTIN)
    ensures cur.None? && AddOp !in p ==> Evaluate(cur, p, BUILTIN) == if Demands(p) then Failure else Ok(None)
    ensures cur.Some? || AddOp in p ==>
      var left := Outcome(Start(cur), p);
      (Evaluate(cur, p, BUILTIN).Ok? <==> (SubsetOfOp in p ==> left != {}) && Wants(p, left)) &&
      (Evaluate(cur, p, BUILTIN).Ok? ==>
         var w := Evaluate(cur, p, BUILTIN).value; w.Some? && w.value.IsList() && w.value.Wrapped() == left)
  {
    FamilyResolves(cur, p);
    var filled := if AddOp in p then ActAdd(cur, p[AddOp]) else cur;
    if filled.Some? {
      assert filled.value.IsList() && filled.value.Wrapped() == Start(cur) + Adds(p);
      var left := Outcome(Start(cur), p);
      if SubsetOfOp in p {
        if p[SubsetOfOp].Members().Ok? {
          assert p[SubsetOfOp].Members().value * filled.value.Wrapped() == left;
        } else {
          assert left == {};
        }
      } else {
        assert filled.value.Wrapped() == left;
      }
    }
  }

  // ---- What the statements leave one by one ----

  ghost function Left(have: set<Atom>, ps: seq<ClaimPolicy>): set<Atom> {
    if ps == [] then have else Outcome(Left(have, ps[..|ps| - 1]), ps[|ps| - 1])
  }

  /** Every statement from `i` on allows `x`. */
  ghost predicate AllowedFrom(ps: seq<ClaimPolicy>, i: nat, x: Atom) {
    forall j :: i <= j < |ps| ==> Allows(ps[j], x)
  }

  /** `x` is added at `i` and passes that statement and all below. */
  ghost predicate Survives(ps: seq<ClaimPolicy>, i: nat, x: Atom)
    requires i < |ps|
  {
    x in Adds(ps[i]) && AllowedFrom(ps, i, x)
  }

  lemma AllowedNext(ps: seq<ClaimPolicy>, i: nat, x: Atom)
    requires i < |ps|
    ensures AllowedFrom(ps, i, x) <==> AllowedFrom(ps[..|ps| - 1], i, x) && Allows(ps[|ps| - 1], x)
  {
    var front := ps[..|ps| - 1];
    assert forall j :: 0 <= j < |front| ==> front[j] == ps[j];
    if AllowedFrom(front, i, x) && Allows(ps[|ps| - 1], x) {
      forall j | i <= j < |ps|
        ensures Allows(ps[j], x)
      {
        assert j < |front| ==> Allows(front[j], x);
      }
    }
  }

  /** What is left is what every statement allows of the start, and what survives of the additions. */
  lemma {:induction false} LeftMeans(have: set<Atom>, ps: seq<ClaimPolicy>, x: Atom)
    ensures x in Left(have, ps) <==>
            (x in have && AllowedFrom(ps, 0, x)) || exists i :: 0 <= i < |ps| && Survives(ps, i, x)
  {
    if ps != [] {
      var front, last := ps[..|ps| - 1], ps[|ps| - 1];
      LeftMeans(have, front, x);
      AllowedNext(ps, 0, x);
      forall i | 0 <= i < |front|
        ensures Survives(ps, i, x) <==> Survives(front, i, x) && Allows(last, x)
      {
        AllowedNext(ps, i, x);
      }
      assert Survives(ps, |front|, x) <==> x in Adds(last) && Allows(last, x);
    }
  }

  ghost predicate Uses(op: Operator, ps: seq<ClaimPolicy>) {
    exists p: ClaimPolicy :: p in ps && op in p
  }

  ghost predicate SomeDemands(ps: seq<ClaimPolicy>) {
    exists p: ClaimPolicy :: p in ps && Demands(p)
  }

  ghost function AllAdds(ps: seq<ClaimPolicy>): set<Atom> {
    set p: ClaimPolicy, x | p in ps && x in Adds(p) :: x
  }

  /** What applying the statements one by one has left and checked. */
  lemma {:induction false} EachLeaves(cur: Option<Value>, ps: seq<ClaimPolicy>, w: Option<Value>)
    requires AllInFamily(ps) && ListOrAbsent(cur) && Progressing(BUILTIN) && EvaluateEach(cur, ps) == Ok(w)
    ensures w.None? <==> cur.None? && !Uses(AddOp, ps)
    ensures w.Some? ==> w.value.IsList() && w.value.Wrapped() == Left(Start(cur), ps)
    ensures w.Some? && Uses(SubsetOfOp, ps) ==> w.value.Wrapped() != {}
    ensures cur.Some? ==> forall p: ClaimPolicy :: p in ps ==> Wants(p, Start(cur) + AllAdds(ps))
    ensures SomeDemands(ps) ==> w.Some?
  {
    if ps != [] {
      var front, last := ps[..|ps| - 1], ps[|ps| - 1];
      assert ps == front + [last];
      var before := EvaluateEach(cur, front).value;
      EachLeaves(cur, front, before);
      EvaluateInFamily(before, last);
      LeftWithin(Start(cur), front);
      if cur.Some? {
        LeftWithin(Start(cur), ps);
        assert Left(Start(cur), ps) == w.value.Wrapped();
        assert AllAdds(front) <= AllAdds(ps);
      }
      if w.Some? && Uses(SubsetOfOp, ps) && SubsetOfOp !in last {
        assert Uses(SubsetOfOp, front);
        assert Adds(last) <= w.value.Wrapped() && Start(before) <= w.value.Wrapped();
      }
    }
  }

  lemma {:induction false} LeftWithin(have: set<Atom>, ps: seq<ClaimPolicy>)
    ensures Left(have, ps) <= have + AllAdds(ps)
  {
    forall x | x in Left(have, ps)
      ensures x in have + AllAdds(ps)
    {
      LeftMeans(have, ps, x);
      if x !in have {
        var i :| 0 <= i < |ps| && Survives(ps, i, x);
        assert ps[i] in ps;
      }
    }
  }

  /** A list with a member every statement allows passes all of them, where none wants more than it may have. */
  lemma {:induction false} EachSucceeds(cur: Option<Value>, ps: seq<ClaimPolicy>, x: Atom)
    requires AllInFamily(ps) && ListOrAbsent(cur) && Progressing(BUILTIN) && !Uses(SupersetOfOp, ps)
    requires x in Start(cur) && AllowedFrom(ps, 0, x)
    ensures EvaluateEach(cur, ps).Ok?
  {
    if ps != [] {
      var front, last := ps[..|ps| - 1], ps[|ps| - 1];
      assert ps == front + [last];
      AllowedNext(ps, 0, x);
      EachSucceeds(cur, front, x);
      var before := EvaluateEach(cur, front).value;
      EachLeaves(cur, front, before);
      LeftMeans(Start(cur), front, x);
      EvaluateInFamily(before, last);
      assert x in Outcome(Start(before), last);
    }
  }

  // ---- What the combined policy says ----

  lemma CombinedEntry(r: ClaimPolicy, q: ClaimPolicy, rq: ClaimPolicy, op: Operator)
    requires ValueFree(r) && CombineClaim(r, q) == Ok(rq) && op in {SubsetOfOp, SupersetOfOp, AddOp}
    ensures op in rq <==> op in r || op in q
    ensures op in r && op in q ==> CombineSets(op, r[op], q[op]).Ok? && CombineSets(op, r[op], q[op]).value != {} &&
                                   rq[op] == Unordered(CombineSets(op, r[op], q[op]).value)
    ensures op in r && op !in q ==> rq[op] == r[op]
    ensures op !in r && op in q ==> rq[op] == q[op]
  {
    RuleEntries(r, q, rq);
    assert op in r <==> op in Recognised(r);
    assert op in q <==> op in Recognised(q);
  }

  lemma CombinedInFamily(r: ClaimPolicy, q: ClaimPolicy, rq: ClaimPolicy)
    requires InFamily(r) && InFamily(q) && CombineClaim(r, q) == Ok(rq)
    ensures ValueFree(r) && InFamily(rq) && rq.Keys == Recognised(r) + Recognised(q)
  {
    assert ValueOp in r ==> ValueOp in Recognised(r);
    RuleEntries(r, q, rq);
    CombineDemands(r, q, rq);
    CombinedEntry(r, q, rq, AddOp);
    assert Recognised(rq) == rq.Keys;
  }

  /** A combination adds what either adds, allows what both allow, and wants no more than either wants. */
  lemma CombinedSets(r: ClaimPolicy, q: ClaimPolicy, rq: ClaimPolicy)
    requires InFamily(r) && InFamily(q) && CombineClaim(r, q) == Ok(rq)
    ensures InFamily(rq) && forall op :: op in FAMILY ==> (op in rq <==> op in r || op in q)
    ensures Adds(rq) == Adds(r) + Adds(q)
    ensures forall x :: Allows(rq, x) <==> Allows(r, x) && Allows(q, x)
    ensures forall have :: Wants(r, have) && Wants(q, have) ==> Wants(rq, have)
    ensures Demands(rq) <==> Demands(r) || Demands(q)
  {
    CombinedInFamily(r, q, rq);
    CombinedEntry(r, q, rq, SubsetOfOp);
    CombinedEntry(r, q, rq, SupersetOfOp);
    CombinedEntry(r, q, rq, AddOp);
    CombineDemands(r, q, rq);
    assert EssentialOp in r <==> EssentialOp in Recognised(r);
    assert EssentialOp in q <==> EssentialOp in Recognised(q);
  }

  /** The fold adds what some statement adds, allows what all allow, demands what some demands. */
  lemma {:induction false} FoldSets(ps: seq<ClaimPolicy>, r: ClaimPolicy)
    requires ps != [] && AllInFamily(ps) && Fold(ps) == Ok(r)
    ensures InFamily(r) && forall op :: op in FAMILY ==> (op in r <==> Uses(op, ps))
    ensures Adds(r) == AllAdds(ps)
    ensures forall x :: Allows(r, x) <==> AllowedFrom(ps, 0, x)
    ensures forall have :: (forall p: ClaimPolicy :: p in ps ==> Wants(p, have)) ==> Wants(r, have)
    ensures Demands(r) <==> SomeDemands(ps)
  {
    var front, last := ps[..|ps| - 1], ps[|ps| - 1];
    assert ps == front + [last];
    forall x
      ensures AllowedFrom(ps, 0, x) <==> AllowedFrom(front, 0, x) && Allows(last, x)
    {
      AllowedNext(ps, 0, x);
    }
    if |ps| == 1 {
      assert r == last && front == [];
    } else {
      var sofar := Fold(front).value;
      FoldSets(front, sofar);
      CombinedSets(sofar, last, r);
      AllOfNext(front, last);
    }
  }

  lemma AllOfNext(front: seq<ClaimPolicy>, last: ClaimPolicy)
    ensures AllAdds(front + [last]) == AllAdds(front) + Adds(last)
    ensures forall op :: Uses(op, front + [last]) <==> Uses(op, front) || op in last
    ensures SomeDemands(front + [last]) <==> SomeDemands(front) || Demands(last)
    ensures forall have :: (forall p: ClaimPolicy :: p in front + [last] ==> Wants(p, have)) <==>
                           (forall p: ClaimPolicy :: p in front ==> Wants(p, have)) && Wants(last, have)
  {
    assert forall p: ClaimPolicy :: p in front + [last] <==> p in front || p == last;
    forall op
      ensures Uses(op, front + [last]) <==> Uses(op, front) || op in last
    {
      assert last in front + [last];
    }
  }

  // ---- Combining preserves meaning ----

  /** What is added at one statement and let through by all below is allowed by those above too. */
  ghost predicate AddsStay(ps: seq<ClaimPolicy>) {
    forall i, x :: 0 <= i < |ps| && Survives(ps, i, x) ==> AllowedFrom(ps, 0, x)
  }

  /** `x` survives from some statement that adds it. */
  ghost predicate Surviving(ps: seq<ClaimPolicy>, x: Atom) {
    exists i :: 0 <= i < |ps| && Survives(ps, i, x)
  }

  /** Whatever is added and allowed by all survives; additions stay when all that survives is allowed by all. */
  lemma SurvivingMeans(ps: seq<ClaimPolicy>, r: ClaimPolicy, x: Atom)
    requires ps != [] && AllInFamily(ps) && Fold(ps) == Ok(r)
    ensures Surviving(ps, x) ==> x in Adds(r)
    ensures x in Adds(r) && Allows(r, x) ==> Surviving(ps, x)
    ensures AddsStay(ps) && Surviving(ps, x) ==> Allows(r, x)
  {
    FoldSets(ps, r);
    if i :| 0 <= i < |ps| && Survives(ps, i, x) {
      assert ps[i] in ps;
    }
    if x in AllAdds(ps) && Allows(r, x) {
      var p: ClaimPolicy :| p in ps && x in Adds(p);
      var i :| 0 <= i < |ps| && ps[i] == p;
      assert Survives(ps, i, x);
    }
  }

  lemma NotStaying(ps: seq<ClaimPolicy>, r: ClaimPolicy) returns (x: Atom)
    requires ps != [] && AllInFamily(ps) && Fold(ps) == Ok(r) && !AddsStay(ps)
    ensures Surviving(ps, x) && !Allows(r, x)
  {
    FoldSets(ps, r);
    var i;
    i, x :| 0 <= i < |ps| && Survives(ps, i, x) && !AllowedFrom(ps, 0, x);
  }

  /** The statements leave what the combined policy describes exactly where additions stay. */
  lemma StayingIsAllowed(have: set<Atom>, ps: seq<ClaimPolicy>, r: ClaimPolicy)
    requires ps != [] && AllInFamily(ps) && Fold(ps) == Ok(r)
    ensures Left(have, ps) == Outcome(have, r) <==> AddsStay(ps)
  {
    FoldSets(ps, r);
    forall x
      ensures x in Left(have, ps) <==> (x in have && Allows(r, x)) || Surviving(ps, x)
      ensures Surviving(ps, x) ==> x in Adds(r)
      ensures x in Adds(r) && Allows(r, x) ==> Surviving(ps, x)
      ensures AddsStay(ps) && Surviving(ps, x) ==> Allows(r, x)
    {
      LeftMeans(have, ps, x);
      SurvivingMeans(ps, r, x);
    }
    if !AddsStay(ps) {
      var x := NotStaying(ps, r);
      assert x in Left(have, ps) && x !in Outcome(have, r);
    }
  }

  /** Where the claim is present or added: additions stay, and what all statements demand is left. */
  ghost predicate Preserves(cur: Option<Value>, ps: seq<ClaimPolicy>, r: ClaimPolicy) {
    cur.Some? || AddOp in r ==> AddsStay(ps) && Wants(r, Outcome(Start(cur), r))
  }

  /** The combined policy succeeds, with the same members. */
  ghost predicate SameCombined(cur: Option<Value>, r: ClaimPolicy, w: Option<Value>)
    requires Progressing(BUILTIN)
  {
    Evaluate(cur, r, BUILTIN).Ok? && SameResult(w, Evaluate(cur, r, BUILTIN).value)
  }

  /** For policies made of `subset_of`, `superset_of`, non-empty list `add` and boolean `essential`, on a list or
      absent claim: if the statements can be combined and can be applied one by one, then the combined policy can be
      applied and leaves the same members, if and only if additions stay and what all demand is left. */
  lemma {:induction false} CombiningPreservesMeaning(cur: Option<Value>, ps: seq<ClaimPolicy>, r: ClaimPolicy,
          w: Option<Value>)
    requires ps != [] && AllInFamily(ps) && Fold(ps) == Ok(r) && ListOrAbsent(cur) && Progressing(BUILTIN)
    requires EvaluateEach(cur, ps) == Ok(w)
    ensures SameCombined(cur, r, w) <==> Preserves(cur, ps, r)
  {
    EachLeaves(cur, ps, w);
    FoldSets(ps, r);
    StayingIsAllowed(Start(cur), ps, r);
    EvaluateInFamily(cur, r);
  }

  /** In particular on the absent claim: it is preserved if and only if nothing is added, or additions stay and include
      what all statements demand. */
  lemma AbsentPreservedIff(ps: seq<ClaimPolicy>, r: ClaimPolicy, w: Option<Value>)
    requires ps != [] && AllInFamily(ps) && Fold(ps) == Ok(r) && Progressing(BUILTIN)
    requires EvaluateEach(None, ps) == Ok(w)
    ensures SameCombined(None, r, w) <==> (Uses(AddOp, ps) ==> AddsStay(ps) && Wants(r, Outcome({}, r)))
  {
    FoldSets(ps, r);
    CombiningPreservesMeaning(None, ps, r, w);
  }

  /** One-by-one success carries over to the combination, on every list and on the absent claim. */
  ghost predicate MeaningPreserved(ps: seq<ClaimPolicy>)
    requires ps != [] && Fold(ps).Ok? && Progressing(BUILTIN)
  {
    forall cur :: ListOrAbsent(cur) && EvaluateEach(cur, ps).Ok? ==>
      SameCombined(cur, Fold(ps).value, EvaluateEach(cur, ps).value)
  }

  /** Every `subset_of` given is a set with a member. */
  ghost predicate SubsetsUsable(ps: seq<ClaimPolicy>) {
    forall p: ClaimPolicy :: p in ps && SubsetOfOp in p ==> p[SubsetOfOp].Members().Ok? && p[SubsetOfOp].Members().value != {}
  }

  lemma AllowedByBoth(r: ClaimPolicy, q: ClaimPolicy, rq: ClaimPolicy, before: Atom) returns (x: Atom)
    requires InFamily(r) && InFamily(q) && CombineClaim(r, q) == Ok(rq) && Allows(r, before)
    requires SubsetOfOp in q ==> q[SubsetOfOp].Members().Ok? && q[SubsetOfOp].Members().value != {}
    ensures Allows(rq, x)
  {
    CombinedInFamily(r, q, rq);
    CombinedEntry(r, q, rq, SubsetOfOp);
    x := before;
    if SubsetOfOp in q {
      if SubsetOfOp in r {
        x :| x in CombineSets(SubsetOfOp, r[SubsetOfOp], q[SubsetOfOp]).value;
      } else {
        x :| x in q[SubsetOfOp].Members().value;
      }
    }
  }

  lemma {:induction false} SomethingAllowed(ps: seq<ClaimPolicy>, r: ClaimPolicy) returns (x: Atom)
    requires ps != [] && AllInFamily(ps) && Fold(ps) == Ok(r) && SubsetsUsable(ps)
    ensures Allows(r, x)
  {
    var front, last := ps[..|ps| - 1], ps[|ps| - 1];
    assert ps == front + [last];
    if |ps| == 1 {
      x := Flag(true);
      if SubsetOfOp in last {
        x :| x in last[SubsetOfOp].Members().value;
      }
    } else {
      var sofar := Fold(front).value;
      FoldSets(front, sofar);
      x := SomethingAllowed(front, sofar);
      x := AllowedByBoth(sofar, last, r, x);
    }
  }

  lemma {:induction false} UnusableRefuses(cur: Option<Value>, ps: seq<ClaimPolicy>)
    requires AllInFamily(ps) && ListOrAbsent(cur) && cur.Some? && Progressing(BUILTIN) && !SubsetsUsable(ps)
    ensures EvaluateEach(cur, ps).Failure?
  {
    if ps != [] {
      var front, last := ps[..|ps| - 1], ps[|ps| - 1];
      assert ps == front + [last];
      if SubsetsUsable(front) && EvaluateEach(cur, front).Ok? {
        var before := EvaluateEach(cur, front).value;
        EachLeaves(cur, front, before);
        EvaluateInFamily(before, last);
        assert forall x :: !Allows(last, x);
      } else if EvaluateEach(cur, front).Ok? {
        UnusableRefuses(cur, front);
      }
    }
  }

  lemma StayingPreserves(ps: seq<ClaimPolicy>)
    requires ps != [] && AllInFamily(ps) && Fold(ps).Ok? && Progressing(BUILTIN) && !Uses(SupersetOfOp, ps) && AddsStay(ps)
    ensures MeaningPreserved(ps)
  {
    FoldSets(ps, Fold(ps).value);
    forall cur | ListOrAbsent(cur) && EvaluateEach(cur, ps).Ok?
      ensures SameCombined(cur, Fold(ps).value, EvaluateEach(cur, ps).value)
    {
      CombiningPreservesMeaning(cur, ps, Fold(ps).value, EvaluateEach(cur, ps).value);
    }
  }

  lemma NotStayingBreaks(ps: seq<ClaimPolicy>)
    requires ps != [] && AllInFamily(ps) && Fold(ps).Ok? && Progressing(BUILTIN) && !Uses(SupersetOfOp, ps)
    requires SubsetsUsable(ps) && !AddsStay(ps)
    ensures !MeaningPreserved(ps)
  {
    var r := Fold(ps).value;
    FoldSets(ps, r);
    var y := SomethingAllowed(ps, r);
    var cur := Some(Unordered({y}));
    EachSucceeds(cur, ps, y);
    CombiningPreservesMeaning(cur, ps, r, EvaluateEach(cur, ps).value);
    assert !SameCombined(cur, r, EvaluateEach(cur, ps).value);
  }

  lemma UnusablePreservesIff(ps: seq<ClaimPolicy>)
    requires ps != [] && AllInFamily(ps) && Fold(ps).Ok? && Progressing(BUILTIN) && !Uses(SupersetOfOp, ps)
    requires !SubsetsUsable(ps) && !AddsStay(ps)
    ensures MeaningPreserved(ps) <==> EvaluateEach(None, ps).Failure?
  {
    var r := Fold(ps).value;
    var i, x :| 0 <= i < |ps| && Survives(ps, i, x) && !AllowedFrom(ps, 0, x);
    assert ps[i] in ps && Uses(AddOp, ps);
    forall cur | ListOrAbsent(cur) && cur.Some?
      ensures EvaluateEach(cur, ps).Failure?
    {
      UnusableRefuses(cur, ps);
    }
    if EvaluateEach(None, ps).Ok? {
      AbsentPreservedIff(ps, r, EvaluateEach(None, ps).value);
      assert !SameCombined(None, r, EvaluateEach(None, ps).value);
    }
  }

  /** Without `superset_of`, combining preserves meaning on every list and on the absent claim if and only if additions
      stay. (Beside a `subset_of` that allows nothing, also where the statements refuse the absent claim: then they
      refuse everything.) */
  lemma {:induction false} MeaningPreservedIff(ps: seq<ClaimPolicy>)
    requires ps != [] && AllInFamily(ps) && Fold(ps).Ok? && Progressing(BUILTIN) && !Uses(SupersetOfOp, ps)
    ensures MeaningPreserved(ps) <==> AddsStay(ps) || (!SubsetsUsable(ps) && EvaluateEach(None, ps).Failure?)
  {
    if AddsStay(ps) {
      StayingPreserves(ps);
    } else if SubsetsUsable(ps) {
      NotStayingBreaks(ps);
    } else {
      UnusablePreservesIff(ps);
    }
  }

  /** What all statements demand, all statements allow. */
  ghost predicate DemandsAllowed(r: ClaimPolicy) {
    SupersetOfOp in r && r[SupersetOfOp].Members().Ok? ==> forall x :: x in r[SupersetOfOp].Members().value ==> Allows(r, x)
  }

  /** On a list that passes one by one, preserving does not depend on the list: additions stay, and what all statements
      demand is allowed by all. */
  lemma {:induction false} ListPreservedIff(ps: seq<ClaimPolicy>, r: ClaimPolicy, v: Value, w: Option<Value>)
    requires ps != [] && AllInFamily(ps) && Fold(ps) == Ok(r) && v.IsList() && Progressing(BUILTIN)
    requires EvaluateEach(Some(v), ps) == Ok(w)
    ensures SameCombined(Some(v), r, w) <==> AddsStay(ps) && DemandsAllowed(r)
  {
    var have := v.Wrapped();
    EachLeaves(Some(v), ps, w);
    FoldSets(ps, r);
    CombiningPreservesMeaning(Some(v), ps, r, w);
    assert Wants(r, have + AllAdds(ps));
    assert Wants(r, Outcome(have, r)) <==> DemandsAllowed(r);
  }

  // ---- Whether one statement's demand is enforced ----

  /** Every list that `r` lets through has the members. */
  ghost predicate AlwaysHolds(r: ClaimPolicy, wanted: set<Atom>)
    requires Progressing(BUILTIN)
  {
    forall v: Value :: v.IsList() && Evaluate(Some(v), r, BUILTIN).Ok? ==>
      var w := Evaluate(Some(v), r, BUILTIN).value; w.Some? && wanted <= w.value.Wrapped()
  }

  /** What every list that passes holds: what is demanded, and the allowed additions. */
  ghost function Guaranteed(r: ClaimPolicy): set<Atom>
    requires SupersetOfOp in r && r[SupersetOfOp].Members().Ok?
  {
    Outcome(r[SupersetOfOp].Members().value, r)
  }

  lemma PassingHoldsGuaranteed(r: ClaimPolicy, v: Value)
    requires InFamily(r) && SupersetOfOp in r && v.IsList() && Progressing(BUILTIN)
    requires Evaluate(Some(v), r, BUILTIN).Ok?
    ensures r[SupersetOfOp].Members().Ok? && r[SupersetOfOp].Members().value <= Guaranteed(r) <= Outcome(v.Wrapped(), r)
    ensures SubsetOfOp in r ==> exists x :: x in Outcome(v.Wrapped(), r)
  {
    EvaluateInFamily(Some(v), r);
    assert Wants(r, Outcome(v.Wrapped(), r));
    if SubsetOfOp in r {
      var x :| x in Outcome(v.Wrapped(), r);
    }
  }

  /** Where some list passes: members are on every list that passes if and only if they are guaranteed, or nothing is
      guaranteed, some member must be left all the same, and they are on every list of one allowed member. */
  lemma {:induction false} DemandEnforcedIff(r: ClaimPolicy, wanted: set<Atom>, passing: Value)
    requires InFamily(r) && SupersetOfOp in r && Progressing(BUILTIN)
    requires passing.IsList() && Evaluate(Some(passing), r, BUILTIN).Ok?
    ensures r[SupersetOfOp].Members().Ok?
    ensures AlwaysHolds(r, wanted) <==>
            if SubsetOfOp in r && Guaranteed(r) == {} then forall x :: Allows(r, x) ==> wanted <= {x}
            else wanted <= Guaranteed(r)
  {
    PassingHoldsGuaranteed(r, passing);
    var least, demanded := Guaranteed(r), r[SupersetOfOp].Members().value;
    forall v: Value | v.IsList()
      ensures Evaluate(Some(v), r, BUILTIN).Ok? ==>
        var w := Evaluate(Some(v), r, BUILTIN).value;
        w.Some? && w.value.Wrapped() == Outcome(v.Wrapped(), r) && least <= w.value.Wrapped() &&
        (SubsetOfOp in r ==> exists x :: x in w.value.Wrapped() && Allows(r, x))
    {
      EvaluateInFamily(Some(v), r);
      if Evaluate(Some(v), r, BUILTIN).Ok? {
        PassingHoldsGuaranteed(r, v);
      }
    }
    if SubsetOfOp in r && least == {} {
      forall x | Allows(r, x)
        ensures AlwaysHolds(r, wanted) ==> wanted <= {x}
      {
        assert Outcome({x}, r) == {x};
        EvaluateInFamily(Some(Unordered({x})), r);
      }
    } else {
      EvaluateInFamily(Some(Unordered(demanded)), r);
    }
  }

  // ---- When the combination checks it ----

  ghost predicate OnlyUses(ops: set<Operator>, ps: seq<ClaimPolicy>) {
    forall p: ClaimPolicy :: p in ps ==> Recognised(p) <= ops
  }

  lemma {:induction false} FoldUses(ops: set<Operator>, ps: seq<ClaimPolicy>)
    requires ps != [] && OnlyUses(ops, ps) && AllInFamily(ps) && Fold(ps).Ok?
    ensures Recognised(Fold(ps).value) <= ops
    ensures |ps| > 1 ==> Fold(ps).value.Keys <= ops && Coherent(Fold(ps).value) == Ok(true)
  {
    if |ps| > 1 {
      var front, last := ps[..|ps| - 1], ps[|ps| - 1];
      assert ps == front + [last];
      FoldUses(ops, front);
      FoldSets(front, Fold(front).value);
      CombinedInFamily(Fold(front).value, last, Fold(ps).value);
      assert ValueOp !in Recognised(Fold(front).value);
      CombineKeeps(Fold(front).value, last, Fold(ps).value);
    }
  }

  /** Where the combined `add` was checked against the combined `subset_of`, additions stay. */
  lemma CheckedAddsStay(ps: seq<ClaimPolicy>, r: ClaimPolicy)
    requires ps != [] && AllInFamily(ps) && Fold(ps) == Ok(r)
    requires AddOp in r && SubsetOfOp in r ==> Within(r[AddOp], r[SubsetOfOp]) == Ok(true)
    ensures AddsStay(ps)
  {
    FoldSets(ps, r);
    forall i, x | 0 <= i < |ps| && Survives(ps, i, x)
      ensures AllowedFrom(ps, 0, x)
    {
      assert ps[i] in ps && x in AllAdds(ps);
      assert Allows(r, x);
    }
  }

  /** What is demanded is allowed and, if anything is added, added. */
  ghost predicate DemandsFit(r: ClaimPolicy) {
    (SupersetOfOp in r && SubsetOfOp in r ==> Within(r[SupersetOfOp], r[SubsetOfOp]) == Ok(true)) &&
    (SupersetOfOp in r && AddOp in r ==> Within(r[SupersetOfOp], r[AddOp]) == Ok(true))
  }

  lemma FittingIsLeft(cur: Option<Value>, r: ClaimPolicy)
    requires InFamily(r) && DemandsFit(r)
    requires if cur.Some? then Wants(r, Start(cur) + Adds(r)) else AddOp in r
    ensures Wants(r, Outcome(Start(cur), r))
  {
    if SupersetOfOp in r && cur.None? {
      assert Within(r[SupersetOfOp], r[AddOp]) == Ok(true);
    }
  }

  /** With two kinds of set operator only, `combine_claim_policy` has checked all that is needed. */
  lemma {:induction false} TwoOperatorsFit(a: Operator, b: Operator, ps: seq<ClaimPolicy>)
    requires a in {SubsetOfOp, SupersetOfOp, AddOp} && b in {SubsetOfOp, SupersetOfOp, AddOp}
    requires |ps| > 1 && OnlyUses({a, b}, ps) && AllInFamily(ps) && Fold(ps).Ok?
    ensures AddsStay(ps) && DemandsFit(Fold(ps).value)
  {
    var r := Fold(ps).value;
    FoldUses({a, b}, ps);
    if AddOp in r && SubsetOfOp in r {
      assert r.Keys == {SubsetOfOp, AddOp};
      assert SupersetOfOp !in r.Keys && DefaultOp !in r.Keys;
    }
    if SupersetOfOp in r && SubsetOfOp in r {
      assert r.Keys == {SupersetOfOp, SubsetOfOp};
    }
    if SupersetOfOp in r && AddOp in r {
      assert r.Keys == {SupersetOfOp, AddOp};
      assert SubsetOfOp !in r.Keys && DefaultOp !in r.Keys;
    }
    CheckedAddsStay(ps, r);
  }

  /** So for two kinds meaning is always preserved. */
  lemma {:induction false} TwoOperatorsPreserveMeaning(a: Operator, b: Operator, cur: Option<Value>, ps: seq<ClaimPolicy>,
          w: Option<Value>)
    requires a in {SubsetOfOp, SupersetOfOp, AddOp} && b in {SubsetOfOp, SupersetOfOp, AddOp}
    requires ps != [] && OnlyUses({a, b}, ps) && AllInFamily(ps) && ListOrAbsent(cur) && Progressing(BUILTIN)
    requires Fold(ps).Ok? && EvaluateEach(cur, ps) == Ok(w)
    ensures SameCombined(cur, Fold(ps).value, w)
  {
    var r := Fold(ps).value;
    if |ps| == 1 {
      assert EvaluateEach(cur, ps[..0]) == Ok(cur);
    } else {
      TwoOperatorsFit(a, b, ps);
      FoldSets(ps, r);
      EachLeaves(cur, ps, w);
      CombiningPreservesMeaning(cur, ps, r, w);
      if cur.Some? || AddOp in r {
        FittingIsLeft(cur, r);
      }
    }
  }

  // ---- A default between two policies ----

  lemma {:induction false} EachConcat(cur: Option<Value>, ps: seq<ClaimPolicy>, qs: seq<ClaimPolicy>)
    requires Progressing(BUILTIN)
    ensures EvaluateEach(cur, ps + qs) ==
            if EvaluateEach(cur, ps).Ok? then EvaluateEach(EvaluateEach(cur, ps).value, qs) else Failure
    decreases |qs|
  {
    if qs == [] {
      assert ps + qs == ps;
    } else {
      assert (ps + qs)[..|ps + qs| - 1] == ps + qs[..|qs| - 1];
      EachConcat(cur, ps, qs[..|qs| - 1]);
    }
  }

  /** A default `v` that comes in below the policies `above` comes out the same under the combined policy `r`: additions
      stay; what is allowed of `v` is added anyway, or else what the policies below allow of it is allowed by all; and
      what all statements demand is left. */
  ghost predicate DefaultFits(above: seq<ClaimPolicy>, v: Value, below: seq<ClaimPolicy>, r: ClaimPolicy) {
    AddsStay(above + below) && Wants(r, Outcome(v.Wrapped(), r)) &&
    if Uses(AddOp, above) then
      forall x :: x in v.Wrapped() && Allows(r, x) ==> x in Adds(r)
    else
      (forall x :: x in v.Wrapped() && AllowedFrom(below, 0, x) ==> Allows(r, x)) &&
      (AddOp !in r && SubsetOfOp in r ==> v.Wrapped() != {})
  }

  lemma AllowedInBoth(above: seq<ClaimPolicy>, below: seq<ClaimPolicy>, i: nat, x: Atom)
    ensures AllowedFrom(above + below, |above| + i, x) <==> AllowedFrom(below, i, x)
    ensures AllowedFrom(above + below, 0, x) ==> AllowedFrom(below, 0, x)
  {
    var ps := above + below;
    assert forall j :: 0 <= j < |below| ==> ps[|above| + j] == below[j];
    if AllowedFrom(ps, |above| + i, x) {
      forall j | i <= j < |below|
        ensures Allows(below[j], x)
      {
        assert Allows(ps[|above| + j], x);
      }
    }
    if AllowedFrom(ps, 0, x) {
      forall j | 0 <= j < |below|
        ensures Allows(below[j], x)
      {
        assert Allows(ps[|above| + j], x);
      }
    }
  }

  /** Below policies that add nothing, what is left is what those below allow, and all that survives. */
  lemma BelowLeaves(above: seq<ClaimPolicy>, have: set<Atom>, below: seq<ClaimPolicy>, x: Atom)
    requires !Uses(AddOp, above)
    ensures x in Left(have, below) <==> (x in have && AllowedFrom(below, 0, x)) || Surviving(above + below, x)
    ensures AllowedFrom(above + below, 0, x) ==> AllowedFrom(below, 0, x)
  {
    var ps := above + below;
    LeftMeans(have, below, x);
    AllowedInBoth(above, below, 0, x);
    forall i | 0 <= i < |below|
      ensures Survives(below, i, x) <==> Survives(ps, |above| + i, x)
    {
      AllowedInBoth(above, below, i, x);
    }
    assert forall j :: 0 <= j < |above| ==> ps[j] in above;
    if i :| 0 <= i < |ps| && Survives(ps, i, x) {
      assert i >= |above| && Survives(below, i - |above|, x);
    }
  }

  lemma DefaultUnderAdds(above: seq<ClaimPolicy>, v: Value, below: seq<ClaimPolicy>, w: Option<Value>, r: ClaimPolicy)
    requires above != [] && AllInFamily(above + below) && v.IsList() && Progressing(BUILTIN)
    requires Uses(AddOp, above) && EvaluateEach(None, above + below) == Ok(w) && Fold(above + below) == Ok(r)
    ensures SameCombined(Some(v), r, w) <==> DefaultFits(above, v, below, r)
  {
    var ps := above + below;
    FoldSets(ps, r);
    var p: ClaimPolicy :| p in above && AddOp in p;
    assert p in ps;
    EachLeaves(None, ps, w);
    EvaluateInFamily(Some(v), r);
    UnderAddsSame(v.Wrapped(), ps, r);
  }

  /** A default adds nothing to what the statements leave of nothing, if and only if additions stay and what is allowed
      of it is added. */
  lemma UnderAddsSame(have: set<Atom>, ps: seq<ClaimPolicy>, r: ClaimPolicy)
    requires ps != [] && AllInFamily(ps) && Fold(ps) == Ok(r)
    ensures Left({}, ps) == Outcome(have, r) <==>
            AddsStay(ps) && forall x :: x in have && Allows(r, x) ==> x in Adds(r)
  {
    StayingIsAllowed({}, ps, r);
    if AddsStay(ps) {
      assert Outcome({}, r) <= Outcome(have, r);
      if Outcome({}, r) == Outcome(have, r) {
        forall x | x in have && Allows(r, x)
          ensures x in Adds(r)
        {
          assert x in Outcome(have, r);
        }
      }
    } else {
      var x := NotStaying(ps, r);
      LeftMeans({}, ps, x);
      assert x in Left({}, ps) && x !in Outcome(have, r);
    }
  }

  lemma WithoutAddsSame(above: seq<ClaimPolicy>, have: set<Atom>, below: seq<ClaimPolicy>, r: ClaimPolicy)
    requires above != [] && AllInFamily(above + below) && Fold(above + below) == Ok(r) && !Uses(AddOp, above)
    ensures Left(have, below) == Outcome(have, r) <==>
            AddsStay(above + below) && forall x :: x in have && AllowedFrom(below, 0, x) ==> Allows(r, x)
  {
    var ps := above + below;
    FoldSets(ps, r);
    forall x
      ensures x in Left(have, below) <==> (x in have && AllowedFrom(below, 0, x)) || Surviving(ps, x)
      ensures Allows(r, x) ==> AllowedFrom(below, 0, x)
      ensures Surviving(ps, x) ==> x in Adds(r)
      ensures x in Adds(r) && Allows(r, x) ==> Surviving(ps, x)
      ensures AddsStay(ps) && Surviving(ps, x) ==> Allows(r, x)
    {
      BelowLeaves(above, have, below, x);
      SurvivingMeans(ps, r, x);
    }
    if !AddsStay(ps) {
      var x := NotStaying(ps, r);
      assert x in Left(have, below) && x !in Outcome(have, r);
    }
  }

  lemma DefaultWithoutAdds(above: seq<ClaimPolicy>, v: Value, below: seq<ClaimPolicy>, w: Option<Value>, r: ClaimPolicy)
    requires above != [] && AllInFamily(above + below) && v.IsList() && Progressing(BUILTIN)
    requires !Uses(AddOp, above) && EvaluateEach(Some(v), below) == Ok(w) && Fold(above + below) == Ok(r)
    ensures SameCombined(Some(v), r, w) <==> DefaultFits(above, v, below, r)
  {
    var have := v.Wrapped();
    FoldSets(above + below, r);
    EvaluateInFamily(Some(v), r);
    assert forall p: ClaimPolicy :: p in below ==> p in above + below;
    EachLeaves(Some(v), below, w);
    WithoutAddsSame(above, have, below, r);
    if Left(have, below) == Outcome(have, r) {
      SomethingIsLeft(above, have, below, r);
    }
  }

  lemma AddedIsLeft(above: seq<ClaimPolicy>, have: set<Atom>, below: seq<ClaimPolicy>)
    requires AllInFamily(above + below) && !Uses(AddOp, above) && Uses(AddOp, above + below)
    requires Uses(SubsetOfOp, below) ==> Left(have, below) != {}
    ensures Left(have, below) != {}
  {
    var p: ClaimPolicy :| p in above + below && AddOp in p;
    assert p in below && InFamily(p);
    var i :| 0 <= i < |below| && below[i] == p;
    var x :| x in p[AddOp].Wrapped();
    if !Uses(SubsetOfOp, below) {
      LeftMeans(have, below, x);
      assert Survives(below, i, x);
    }
  }

  /** Where the members agree, some are left unless the claim is an empty list that nothing is added to. */
  lemma SomethingIsLeft(above: seq<ClaimPolicy>, have: set<Atom>, below: seq<ClaimPolicy>, r: ClaimPolicy)
    requires above != [] && AllInFamily(above + below) && Fold(above + below) == Ok(r) && !Uses(AddOp, above)
    requires Left(have, below) == Outcome(have, r)
    requires Uses(SubsetOfOp, below) ==> Left(have, below) != {}
    ensures SubsetOfOp in r ==> (Outcome(have, r) != {} <==> (AddOp !in r ==> have != {}))
  {
    FoldSets(above + below, r);
    if AddOp in r {
      AddedIsLeft(above, have, below);
    } else if !Uses(SubsetOfOp, below) {
      WithoutAddsSame(above, have, below, r);
      assert forall x :: AllowedFrom(below, 0, x);
      assert Outcome(have, r) == have;
    }
  }

  /** One by one, `v` is used where the policies above it have left the claim absent; combined, it is used from the
      start. The two agree if and only if `v` fits. */
  lemma {:induction false} DefaultFitsIff(above: seq<ClaimPolicy>, v: Value, below: seq<ClaimPolicy>, r: ClaimPolicy,
          first: Option<Value>, w: Option<Value>)
    requires above != [] && AllInFamily(above + below) && Fold(above + below) == Ok(r) && v.IsList() && Progressing(BUILTIN)
    requires EvaluateEach(None, above) == Ok(first)
    requires EvaluateEach(if first.Some? then first else Some(v), below) == Ok(w)
    ensures SameCombined(Some(v), r, w) <==> DefaultFits(above, v, below, r)
  {
    assert forall p: ClaimPolicy :: p in above ==> p in above + below;
    EachLeaves(None, above, first);
    EachConcat(None, above, below);
    if Uses(AddOp, above) {
      DefaultUnderAdds(above, v, below, w, r);
    } else {
      DefaultWithoutAdds(above, v, below, w, r);
    }
  }

  lemma EachOfTwo(cur: Option<Value>, p: ClaimPolicy, q: ClaimPolicy, v: Option<Value>)
    requires Progressing(BUILTIN) && Evaluate(cur, p, BUILTIN) == Ok(v)
    ensures EvaluateEach(cur, [p, q]) == Evaluate(v, q, BUILTIN)
  {
    assert [p, q][..1] == [p] && [p][..0] == [];
    assert EvaluateEach(cur, [p]) == Ok(v);
  }

  const ALLOW_X: ClaimPolicy := map[SubsetOfOp := List([Str("x")])]
  const DEMAND_X: ClaimPolicy := map[SubsetOfOp := List([Str("x")]), EssentialOp := TRUE]
  const ADD_Z: ClaimPolicy := map[AddOp := List([Str("z")])]
  const ADD_NONE: ClaimPolicy := map[AddOp := List([])]
  const DEMAND_X_ADD_Z: ClaimPolicy := map[SubsetOfOp := List([Str("x")]), EssentialOp := TRUE, AddOp := List([Str("z")])]

  lemma DemandThenAdd()
    ensures Fold([DEMAND_X, ADD_Z]) == Ok(DEMAND_X_ADD_Z)
  {
    var ops := Recognised(DEMAND_X) + Recognised(ADD_Z);
    assert ops == {SubsetOfOp, EssentialOp, AddOp};
    assert DEMAND_X_ADD_Z == map op | op in ops :: DoPolicy(DEMAND_X, ADD_Z, op).value;
    assert Rule(DEMAND_X, ADD_Z, ops) == Ok(DEMAND_X_ADD_Z);
    assert EssentialOp in DEMAND_X_ADD_Z.Keys;
    assert Coherent(DEMAND_X_ADD_Z) == Ok(true);
    FoldOfTwo(DEMAND_X, ADD_Z);
  }

  lemma OneMember(a: string)
    ensures List([Str(a)]).Wrapped() == {Str(a)} && List([Str(a)]).Members() == Ok({Str(a)})
  {
    assert forall x :: x in [Str(a)] <==> x == Str(a);
  }

  lemma DemandedByX()
    ensures Progressing(BUILTIN)
    ensures Evaluate(Some(List([Str("x")])), DEMAND_X, BUILTIN) == Ok(Some(Unordered({Str("x")})))
    ensures Evaluate(Some(Unordered({Str("x")})), ADD_Z, BUILTIN) == Ok(Some(Unordered({Str("x"), Str("z")})))
  {
    OneMember("x");
    OneMember("z");
    BuiltinIsResolve(Some(List([Str("x")])), DEMAND_X);
    BuiltinIsResolve(Some(Unordered({Str("x")})), ADD_Z);
    assert {Str("x")} * {Str("x")} == {Str("x")} && {Str("x")} + {Str("z")} == {Str("x"), Str("z")};
  }

  lemma CombinedDropsZ()
    ensures Progressing(BUILTIN)
    ensures Evaluate(Some(List([Str("x")])), DEMAND_X_ADD_Z, BUILTIN) == Ok(Some(Unordered({Str("x")})))
  {
    OneMember("x");
    OneMember("z");
    BuiltinIsResolve(Some(List([Str("x")])), DEMAND_X_ADD_Z);
    assert {Str("x")} * ({Str("x")} + {Str("z")}) == {Str("x")};
    assert Str("z") in {Str("z")} && Str("z") !in {Str("x")};
  }

  /** `z` is let through when added below the list that excludes it, not when added above. */
  lemma OrderOfTheAddition()
    ensures !AddsStay([DEMAND_X, ADD_Z]) && AddsStay([ADD_Z, DEMAND_X])
  {
    OneMember("x");
    OneMember("z");
    var ps, qs := [DEMAND_X, ADD_Z], [ADD_Z, DEMAND_X];
    assert ps[0] == DEMAND_X && !Allows(ps[0], Str("z"));
    assert Survives(ps, 1, Str("z")) && !AllowedFrom(ps, 0, Str("z"));
    forall i, x | 0 <= i < |qs| && Survives(qs, i, x)
      ensures AllowedFrom(qs, 0, x)
    {
      assert Allows(qs[1], x) && qs[1] == DEMAND_X;
    }
  }

  /** A third operator switches that check off: with `essential` present an addition outside `subset_of` is
      combined, survives one-by-one application, and is dropped by the combined policy. */
  lemma {:induction false} EssentialHidesTheGuard()
    ensures var cur := Some(List([Str("x")]));
            Progressing(BUILTIN) && AllInFamily([DEMAND_X, ADD_Z]) &&
            Fold([DEMAND_X, ADD_Z]) == Ok(DEMAND_X_ADD_Z) && !AddsStay([DEMAND_X, ADD_Z]) &&
            EvaluateEach(cur, [DEMAND_X, ADD_Z]) == Ok(Some(Unordered({Str("x"), Str("z")}))) &&
            Evaluate(cur, DEMAND_X_ADD_Z, BUILTIN) == Ok(Some(Unordered({Str("x")})))
  {
    DemandThenAdd();
    DemandedByX();
    CombinedDropsZ();
    OrderOfTheAddition();
    EachOfTwo(Some(List([Str("x")])), DEMAND_X, ADD_Z, Some(Unordered({Str("x")})));
    OneMember("z");
    assert Str("z") in ADD_Z[AddOp].Wrapped();
    assert Recognised(DEMAND_X) == {SubsetOfOp, EssentialOp} && Recognised(ADD_Z) == {AddOp};
  }

  const WANT_X: ClaimPolicy := map[SupersetOfOp := List([Str("x")]), EssentialOp := FALSE]
  const ADD_Y: ClaimPolicy := map[AddOp := List([Str("y")])]
  const WANT_X_ADD_Y: ClaimPolicy := map[SupersetOfOp := List([Str("x")]), EssentialOp := FALSE, AddOp := List([Str("y")])]

  lemma WantThenAdd()
    ensures Fold([WANT_X, ADD_Y]) == Ok(WANT_X_ADD_Y)
  {
    var ops := Recognised(WANT_X) + Recognised(ADD_Y);
    assert ops == {SupersetOfOp, EssentialOp, AddOp};
    assert WANT_X_ADD_Y == map op | op in ops :: DoPolicy(WANT_X, ADD_Y, op).value;
    assert Rule(WANT_X, ADD_Y, ops) == Ok(WANT_X_ADD_Y);
    assert EssentialOp in WANT_X_ADD_Y.Keys;
    assert Coherent(WANT_X_ADD_Y) == Ok(true);
    FoldOfTwo(WANT_X, ADD_Y);
  }

  /** It also hides that what is added must include what is demanded: one by one, a `superset_of` does not look at the
      claim a lower statement adds; combined it does, and raises. */
  lemma {:induction false} DemandOnAddedClaim()
    ensures Progressing(BUILTIN) && AllInFamily([WANT_X, ADD_Y]) && AddsStay([WANT_X, ADD_Y])
    ensures Fold([WANT_X, ADD_Y]) == Ok(WANT_X_ADD_Y)
    ensures EvaluateEach(None, [WANT_X, ADD_Y]) == Ok(Some(List([Str("y")])))
    ensures Evaluate(None, WANT_X_ADD_Y, BUILTIN) == Failure
  {
    WantThenAdd();
    OneMember("x");
    OneMember("y");
    BuiltinIsResolve(None, WANT_X);
    BuiltinIsResolve(None, ADD_Y);
    BuiltinIsResolve(None, WANT_X_ADD_Y);
    EachOfTwo(None, WANT_X, ADD_Y, None);
    assert Str("y") in ADD_Y[AddOp].Wrapped() && Str("x") != Str("y");
    assert Recognised(WANT_X) == {SupersetOfOp, EssentialOp} && Recognised(ADD_Y) == {AddOp};
  }

  /** An empty `add` is why lists must be non-empty: it creates an empty claim that the combined policy rejects. */
  lemma {:induction false} EmptyAddBreaksMeaning()
    ensures Progressing(BUILTIN) && Fold([ALLOW_X, ADD_NONE]).Ok? &&
            EvaluateEach(None, [ALLOW_X, ADD_NONE]) == Ok(Some(List([]))) &&
            Evaluate(None, Fold([ALLOW_X, ADD_NONE]).value, BUILTIN) == Failure
  {
    var r: ClaimPolicy := map[SubsetOfOp := List([Str("x")]), AddOp := List([])];
    var ops := Recognised(ALLOW_X) + Recognised(ADD_NONE);
    assert ops == {SubsetOfOp, AddOp};
    assert r == map op | op in ops :: DoPolicy(ALLOW_X, ADD_NONE, op).value;
    assert Rule(ALLOW_X, ADD_NONE, ops) == Ok(r);
    assert r.Keys == {SubsetOfOp, AddOp};
    assert SupersetOfOp !in r.Keys && DefaultOp !in r.Keys;
    assert Coherent(r) == Ok(true);
    FoldOfTwo(ALLOW_X, ADD_NONE);
    BuiltinIsResolve(None, ALLOW_X);
    EachOfTwo(None, ALLOW_X, ADD_NONE, None);
    BuiltinIsResolve(None, ADD_NONE);
    BuiltinIsResolve(None, r);
  }
}
