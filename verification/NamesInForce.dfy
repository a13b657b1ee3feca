/** Which chains naming constraints let through, said of the lists in force at each statement: `meets_restrictions` in
    constraints.py. */
module NamesInForce {
  import opened Wrappers
  import opened Statements
  import opened Names
  import opened ChainConstraints

  datatype Kind = Permitted | Excluded

  function GivenList(given: NamingConstraints, kind: Kind): Option<seq<string>> {
    if kind == Permitted then given.permitted else given.excluded
  }

  /** The list in force below the first `n` statements. The first that is not empty is taken as it is; later ones update it,
      and naming constraints without the list then raise. */
  function InForce(chain: seq<EntityStatement>, n: nat, kind: Kind): Result<seq<string>>
    requires n <= |chain|
  {
    if n == 0 then
      Ok([])
    else
      var before :- InForce(chain, n - 1, kind);
      match chain[n - 1].constraints
      case Some(Constraints(_, Some(given))) =>
        (match GivenList(given, kind)
         case None => if before == [] then Ok([]) else Failure
         case Some(names) => if before == [] then Ok(names) else if names == [] then Ok(before) else UpdateSpecs(names, before))
      case _ => Ok(before)
  }

  /** An update raises if and only if some name it has to compare lacks a scheme. */
  lemma {:induction false} UpdateRaisesIff(news: seq<string>, olds: seq<string>)
    ensures UpdateSpecs(news, olds).Ok? <==>
            news == [] || olds == [] || forall n :: n in news || n in olds ==> HasScheme(n)
  {
    if olds != [] {
      RefinementsRaiseIff(news, olds[0]);
      UpdateRaisesIff(news, olds[1..]);
      assert forall o :: o in olds <==> o == olds[0] || o in olds[1..];
    }
  }

  lemma {:induction false} RefinementsRaiseIff(news: seq<string>, old_: string)
    ensures Refinements(news, old_).Ok? <==> news == [] || (HasScheme(old_) && forall n :: n in news ==> HasScheme(n))
  {
    if news != [] {
      RefinementsRaiseIff(news[1..], old_);
      assert forall n :: n in news <==> n == news[0] || n in news[1..];
    }
  }

  // ---- One subject ----

  /** The names are gone through in order, and this is the first that the subject is under, or cannot be compared with. */
  ghost predicate FirstAnswer(subject: string, names: seq<string>, k: int, answer: Result<bool>) {
    0 <= k < |names| && MoreSpecific(subject, names[k]) == answer &&
    forall i :: 0 <= i < k ==> MoreSpecific(subject, names[i]) == Ok(false)
  }

  ghost predicate UnderOne(subject: string, names: seq<string>) {
    exists k :: FirstAnswer(subject, names, k, Ok(true))
  }

  ghost predicate UnderNone(subject: string, names: seq<string>) {
    forall k :: 0 <= k < |names| ==> MoreSpecific(subject, names[k]) == Ok(false)
  }

  lemma {:induction false} CoveredIff(subject: string, names: seq<string>)
    ensures Covered(subject, names) == Ok(true) <==> UnderOne(subject, names)
    ensures Covered(subject, names) == Ok(false) <==> UnderNone(subject, names)
  {
    if names != [] {
      var rest := names[1..];
      CoveredIff(subject, rest);
      assert forall i :: 0 <= i < |rest| ==> rest[i] == names[i + 1];
      if MoreSpecific(subject, names[0]) == Ok(true) {
        assert FirstAnswer(subject, names, 0, Ok(true));
      } else {
        if k :| FirstAnswer(subject, rest, k, Ok(true)) && MoreSpecific(subject, names[0]) == Ok(false) {
          assert FirstAnswer(subject, names, k + 1, Ok(true));
        }
        if k :| FirstAnswer(subject, names, k, Ok(true)) {
          assert MoreSpecific(subject, names[0]) == Ok(false);
          assert FirstAnswer(subject, rest, k - 1, Ok(true));
        }
        if UnderNone(subject, rest) && MoreSpecific(subject, names[0]) == Ok(false) {
          assert forall k :: 0 < k < |names| ==> names[k] == rest[k - 1];
        }
      }
    }
  }

  /** The subject is under no excluded name and, where there are permitted names, under one of them. */
  ghost predicate LetThrough(subject: string, permitted: seq<string>, excluded: seq<string>) {
    UnderNone(subject, excluded) && (permitted == [] || UnderOne(subject, permitted))
  }

  ghost predicate TurnedAway(subject: string, permitted: seq<string>, excluded: seq<string>) {
    UnderOne(subject, excluded) || (UnderNone(subject, excluded) && permitted != [] && UnderNone(subject, permitted))
  }

  lemma AllowedIff(subject: string, naming: Naming)
    ensures Allowed(subject, naming) == Ok(true) <==> LetThrough(subject, naming.permitted, naming.excluded)
    ensures Allowed(subject, naming) == Ok(false) <==> TurnedAway(subject, naming.permitted, naming.excluded)
  {
    CoveredIff(subject, naming.excluded);
    CoveredIff(subject, naming.permitted);
  }

  ghost predicate AllSchemes(names: seq<string>) {
    forall n :: n in names ==> HasScheme(n)
  }

  /** Where all names have schemes the order of the lists plays no part. */
  lemma LetThroughMeans(subject: string, permitted: seq<string>, excluded: seq<string>)
    requires HasScheme(subject) && AllSchemes(permitted) && AllSchemes(excluded)
    ensures LetThrough(subject, permitted, excluded) <==>
            !UnderSome(subject, excluded) && (permitted == [] || UnderSome(subject, permitted))
  {
    CoveredIff(subject, excluded);
    CoveredIff(subject, permitted);
    SchemesAnswer(subject, excluded);
    SchemesAnswer(subject, permitted);
    CoveredMeans(subject, excluded);
    CoveredMeans(subject, permitted);
  }

  lemma {:induction false} SchemesAnswer(subject: string, names: seq<string>)
    requires HasScheme(subject) && AllSchemes(names)
    ensures Covered(subject, names).Ok?
  {
    if names != [] {
      assert names[0] in names;
      SchemesAnswer(subject, names[1..]);
    }
  }

  // ---- A whole chain ----

  /** The statement at `i` is let through: a superior without constraints always, one with constraints if its limit is not
      negative, both lists can be updated and its subject passes; the leaf if its subject passes. */
  ghost predicate PassesAt(chain: seq<EntityStatement>, i: nat)
    requires i < |chain|
  {
    if i == |chain| - 1 then
      SubjectPasses(chain[i].sub, InForce(chain, i, Permitted), InForce(chain, i, Excluded))
    else
      chain[i].constraints.Some? ==>
        !NegativeLength(chain[i]) &&
        SubjectPasses(chain[i].sub, InForce(chain, i + 1, Permitted), InForce(chain, i + 1, Excluded))
  }

  ghost predicate SubjectPasses(subject: string, permitted: Result<seq<string>>, excluded: Result<seq<string>>) {
    permitted.Ok? && excluded.Ok? && LetThrough(subject, permitted.value, excluded.value)
  }

  /** It is turned away, rather than raising. */
  ghost predicate StopsAt(chain: seq<EntityStatement>, i: nat)
    requires i < |chain|
  {
    if i == |chain| - 1 then
      SubjectStops(chain[i].sub, InForce(chain, i, Permitted), InForce(chain, i, Excluded))
    else
      chain[i].constraints.Some? &&
      (NegativeLength(chain[i]) ||
       SubjectStops(chain[i].sub, InForce(chain, i + 1, Permitted), InForce(chain, i + 1, Excluded)))
  }

  ghost predicate SubjectStops(subject: string, permitted: Result<seq<string>>, excluded: Result<seq<string>>) {
    permitted.Ok? && excluded.Ok? && TurnedAway(subject, permitted.value, excluded.value)
  }

  ghost predicate Unbroken(chain: seq<EntityStatement>) {
    forall i :: 0 <= i < |chain| ==> PassesAt(chain, i)
  }

  /** Some statement is turned away, and all above it are let through. */
  ghost predicate Broken(chain: seq<EntityStatement>) {
    exists i :: 0 <= i < |chain| && StopsAt(chain, i) && forall j :: 0 <= j < i ==> PassesAt(chain, j)
  }

  ghost predicate UnbrokenFrom(chain: seq<EntityStatement>, k: nat) {
    forall i :: k <= i < |chain| ==> PassesAt(chain, i)
  }

  ghost predicate BrokenFrom(chain: seq<EntityStatement>, k: nat) {
    exists i :: k <= i < |chain| && StopsAt(chain, i) && forall j :: k <= j < i ==> PassesAt(chain, j)
  }

  /** The running dictionary holds the lists in force. */
  ghost predicate HoldsInForce(chain: seq<EntityStatement>, k: nat, naming: Naming)
    requires k <= |chain|
  {
    InForce(chain, k, Permitted) == Ok(naming.permitted) && InForce(chain, k, Excluded) == Ok(naming.excluded)
  }

  lemma UpdateIsInForce(chain: seq<EntityStatement>, k: nat, naming: Naming)
    requires k < |chain| && HoldsInForce(chain, k, naming) && chain[k].constraints.Some?
    ensures var updated := UpdateNaming(chain[k].constraints.value, naming);
            (updated.Ok? <==> InForce(chain, k + 1, Permitted).Ok? && InForce(chain, k + 1, Excluded).Ok?) &&
            (updated.Ok? ==> HoldsInForce(chain, k + 1, updated.value))
  {
  }

  lemma FromNext(chain: seq<EntityStatement>, k: nat)
    requires k < |chain|
    ensures UnbrokenFrom(chain, k) <==> PassesAt(chain, k) && UnbrokenFrom(chain, k + 1)
    ensures BrokenFrom(chain, k) <==> StopsAt(chain, k) || (PassesAt(chain, k) && BrokenFrom(chain, k + 1))
  {
    if i :| k + 1 <= i < |chain| && StopsAt(chain, i) && PassesAt(chain, k) && forall j :: k + 1 <= j < i ==> PassesAt(chain, j) {
      assert forall j :: k <= j < i ==> PassesAt(chain, j);
    }
    if i :| k <= i < |chain| && StopsAt(chain, i) && forall j :: k <= j < i ==> PassesAt(chain, j) {
      assert i != k ==> PassesAt(chain, k);
    }
  }

  /** One step of the loop: what the statement does, if it has constraints. */
  lemma MeetsStep(chain: seq<EntityStatement>, k: nat, current: int, naming: Naming)
    requires k < |chain| - 1 && HoldsInForce(chain, k, naming) && chain[k].constraints.Some?
    ensures var c := chain[k].constraints.value;
            var length, updated := PathLength(c, current, false), UpdateNaming(c, naming);
            if PassesAt(chain, k) then
              updated.Ok? && HoldsInForce(chain, k + 1, updated.value) &&
              Meets(chain[k..], current, naming) == Meets(chain[k + 1..], length, updated.value)
            else Meets(chain[k..], current, naming) == (if StopsAt(chain, k) then Ok(false) else Failure)
    ensures !(PassesAt(chain, k) && StopsAt(chain, k))
  {
    var c := chain[k].constraints.value;
    var updated := UpdateNaming(c, naming);
    assert chain[k..][1..] == chain[k + 1..] && chain[k..][0] == chain[k];
    UpdateIsInForce(chain, k, naming);
    if updated.Ok? {
      AllowedIff(chain[k].sub, updated.value);
    }
  }

  lemma UnconstrainedStep(chain: seq<EntityStatement>, k: nat, current: int, naming: Naming)
    requires k < |chain| - 1 && HoldsInForce(chain, k, naming) && chain[k].constraints.None?
    ensures PassesAt(chain, k) && !StopsAt(chain, k) && HoldsInForce(chain, k + 1, naming)
    ensures Meets(chain[k..], current, naming) == Meets(chain[k + 1..], current, naming)
  {
    assert chain[k..][1..] == chain[k + 1..];
  }

  lemma LastStep(chain: seq<EntityStatement>, k: nat, current: int, naming: Naming)
    requires k == |chain| - 1 && HoldsInForce(chain, k, naming)
    ensures Meets(chain[k..], current, naming) == Ok(true) <==> UnbrokenFrom(chain, k)
    ensures Meets(chain[k..], current, naming) == Ok(false) <==> BrokenFrom(chain, k)
  {
    FromNext(chain, k);
    AllowedIff(chain[k].sub, naming);
  }

  lemma {:induction false} MeetsFrom(chain: seq<EntityStatement>, k: nat, current: int, naming: Naming)
    requires k < |chain| && HoldsInForce(chain, k, naming)
    ensures Meets(chain[k..], current, naming) == Ok(true) <==> UnbrokenFrom(chain, k)
    ensures Meets(chain[k..], current, naming) == Ok(false) <==> BrokenFrom(chain, k)
    decreases |chain| - k
  {
    if k == |chain| - 1 {
      LastStep(chain, k, current, naming);
    } else {
      FromNext(chain, k);
      if chain[k].constraints.None? {
        UnconstrainedStep(chain, k, current, naming);
        MeetsFrom(chain, k + 1, current, naming);
      } else {
        MeetsStep(chain, k, current, naming);
        if PassesAt(chain, k) {
          var c := chain[k].constraints.value;
          MeetsFrom(chain, k + 1, PathLength(c, current, false), UpdateNaming(c, naming).value);
        }
      }
    }
  }

  /** A chain is accepted if and only if the leaf and every superior with constraints is let through by the lists in force
      there, and no limit is negative. It is rejected, rather than raising, if and only if some statement is turned away
      and all above it are let through. */
  lemma {:induction false} MeetsIff(chain: seq<EntityStatement>)
    requires chain != []
    ensures Meets(chain, 0, UNCONSTRAINED) == Ok(true) <==> Unbroken(chain)
    ensures Meets(chain, 0, UNCONSTRAINED) == Ok(false) <==> Broken(chain)
  {
    assert chain[0..] == chain;
    MeetsFrom(chain, 0, 0, UNCONSTRAINED);
  }

  // ---- Chains whose names have schemes ----

  ghost predicate GivesSchemes(es: EntityStatement, kind: Kind) {
    match es.constraints
    case Some(Constraints(_, Some(given))) => GivenList(given, kind).Some? ==> AllSchemes(GivenList(given, kind).value)
    case _ => true
  }

  /** Every name in the superiors' lists, and every subject that is checked, has a scheme. */
  ghost predicate Schemed(chain: seq<EntityStatement>) {
    forall i :: 0 <= i < |chain| ==>
      GivesSchemes(chain[i], Permitted) && GivesSchemes(chain[i], Excluded) &&
      (chain[i].constraints.Some? || i == |chain| - 1 ==> HasScheme(chain[i].sub))
  }

  lemma {:induction false} InForceHasSchemes(chain: seq<EntityStatement>, n: nat, kind: Kind)
    requires n <= |chain| && InForce(chain, n, kind).Ok? && forall i :: 0 <= i < n ==> GivesSchemes(chain[i], kind)
    ensures AllSchemes(InForce(chain, n, kind).value)
  {
    if n > 0 {
      InForceHasSchemes(chain, n - 1, kind);
      var before := InForce(chain, n - 1, kind).value;
      match chain[n - 1].constraints {
      case Some(Constraints(_, Some(given))) =>
        if before != [] && GivenList(given, kind).Some? && GivenList(given, kind).value != [] {
          forall x | x in InForce(chain, n, kind).value
            ensures HasScheme(x)
          {
            UpdateHolds(GivenList(given, kind).value, before, x);
          }
        }
      case _ =>
      }
    }
  }

  /** The subject at `i` against the lists in force after `n` statements. */
  ghost predicate Fits(chain: seq<EntityStatement>, i: nat, n: nat)
    requires i < |chain| && n <= |chain|
  {
    InForce(chain, n, Permitted).Ok? && InForce(chain, n, Excluded).Ok? &&
    !UnderSome(chain[i].sub, InForce(chain, n, Excluded).value) &&
    (InForce(chain, n, Permitted).value == [] || UnderSome(chain[i].sub, InForce(chain, n, Permitted).value))
  }

  lemma FitsIff(chain: seq<EntityStatement>, i: nat, n: nat)
    requires i < |chain| && n <= |chain| && Schemed(chain) && HasScheme(chain[i].sub)
    ensures SubjectPasses(chain[i].sub, InForce(chain, n, Permitted), InForce(chain, n, Excluded)) <==> Fits(chain, i, n)
  {
    if InForce(chain, n, Permitted).Ok? && InForce(chain, n, Excluded).Ok? {
      InForceHasSchemes(chain, n, Permitted);
      InForceHasSchemes(chain, n, Excluded);
      LetThroughMeans(chain[i].sub, InForce(chain, n, Permitted).value, InForce(chain, n, Excluded).value);
    }
  }

  /** A chain whose names have schemes is accepted if and only if no superior's limit is negative, no update raises, and
      the subject of every constrained superior, and the leaf, is under no excluded name in force there and, where
      permitted names are in force, under one of them. */
  lemma {:induction false} AcceptedNamesIff(chain: seq<EntityStatement>)
    requires chain != [] && Schemed(chain)
    ensures Meets(chain, 0, UNCONSTRAINED) == Ok(true) <==>
            (forall i :: 0 <= i < |chain| - 1 && chain[i].constraints.Some? ==> !NegativeLength(chain[i]) && Fits(chain, i, i + 1)) &&
            Fits(chain, |chain| - 1, |chain| - 1)
  {
    MeetsIff(chain);
    forall i | 0 <= i < |chain| && (chain[i].constraints.Some? || i == |chain| - 1)
      ensures PassesAt(chain, i) <==>
              if i == |chain| - 1 then Fits(chain, i, i) else !NegativeLength(chain[i]) && Fits(chain, i, i + 1)
    {
      FitsIff(chain, i, if i == |chain| - 1 then i else i + 1);
    }
    if Unbroken(chain) {
      assert forall i :: 0 <= i < |chain| ==> PassesAt(chain, i);
    }
  }
}
