/** Naming and path length constraints along a chain: constraints.py. A chain is listed from the trust anchor down, the
    leaf last. */
module ChainConstraints {
  import opened Wrappers
  import opened Statements
  import opened Names

  // ---- Path length ----

  /** `calculate_path_length` */
  function PathLength(c: Constraints, current: int, limited: bool): int {
    match c.maxPathLength
    case None => if limited then current - 1 else 0
    case Some(m) => if limited && m >= current - 1 then current - 1 else m
  }

  /** Folding it over constraints, with the flag set from the first assignment on. */
  function PathFold(cs: seq<Constraints>): (int, bool) {
    if cs == [] then
      (0, false)
    else
      var (current, limited) := PathFold(cs[..|cs| - 1]);
      var last := cs[|cs| - 1];
      (PathLength(last, current, limited), limited || last.maxPathLength.Some?)
  }

  /** What the limit set at `j` leaves when the fold has reached the end of `cs`. */
  function Left(cs: seq<Constraints>, j: nat): int
    requires j < |cs| && cs[j].maxPathLength.Some?
  {
    cs[j].maxPathLength.value - (|cs| - 1 - j)
  }

  ghost predicate Assigned(cs: seq<Constraints>, j: int) {
    0 <= j < |cs| && cs[j].maxPathLength.Some?
  }

  /** The fold is the minimum of what the limits leave, so it is negative exactly when some limit is exceeded. */
  lemma {:induction false} PathFoldIsMinimum(cs: seq<Constraints>)
    ensures PathFold(cs).1 <==> exists j :: Assigned(cs, j)
    ensures forall j :: Assigned(cs, j) ==> PathFold(cs).0 <= Left(cs, j)
    ensures PathFold(cs).1 ==> exists j :: Assigned(cs, j) && PathFold(cs).0 == Left(cs, j)
    ensures PathFold(cs).0 < 0 <==> exists j :: Assigned(cs, j) && Left(cs, j) < 0
  {
    if cs != [] {
      var front, n := cs[..|cs| - 1], |cs| - 1;
      PathFoldIsMinimum(front);
      forall j
        ensures Assigned(front, j) ==> Assigned(cs, j) && Left(cs, j) == Left(front, j) - 1
        ensures Assigned(cs, j) ==> j == n || Assigned(front, j)
      {
      }
      if cs[n].maxPathLength.Some? {
        assert Assigned(cs, n) && Left(cs, n) == cs[n].maxPathLength.value;
      }
      if PathFold(front).1 {
        var j :| Assigned(front, j) && PathFold(front).0 == Left(front, j);
        assert Assigned(cs, j);
        assert PathFold(cs).0 == Left(cs, j) || (Assigned(cs, n) && PathFold(cs).0 == Left(cs, n));
      }
    }
  }

  // ---- Naming constraints ----

  /** The running dictionary; None and the empty list are both written []. */
  datatype Naming = Naming(permitted: seq<string>, excluded: seq<string>)

  const UNCONSTRAINED := Naming([], [])

  /** The new names that are more specific than an old one. */
  function Refinements(news: seq<string>, old_: string): Result<seq<string>> {
    if news == [] then
      Ok([])
    else
      var first :- MoreSpecific(news[0], old_);
      var rest :- Refinements(news[1..], old_);
      Ok(if first then [news[0]] + rest else rest)
  }

  /** `update_specs`: every old name gives way to the new names that refine it, or stays if there are none. */
  function UpdateSpecs(news: seq<string>, olds: seq<string>): Result<seq<string>> {
    if olds == [] then
      Ok([])
    else
      var refined :- Refinements(news, olds[0]);
      var rest :- UpdateSpecs(news, olds[1..]);
      Ok((if refined == [] then [olds[0]] else refined) + rest)
  }

  lemma NothingDone(r: Result<seq<string>>)
    ensures Prefixed([], r) == r
  {
    if r.Ok? {
      assert [] + r.value == r.value;
    }
  }

  lemma PrefixedTwice(a: seq<string>, b: seq<string>, r: Result<seq<string>>)
    ensures Prefixed(a, Prefixed(b, r)) == Prefixed(a + b, r)
  {
    if r.Ok? {
      assert a + (b + r.value) == (a + b) + r.value;
    }
  }

  function Prefixed(done: seq<string>, rest: Result<seq<string>>): Result<seq<string>> {
    if rest.Ok? then Ok(done + rest.value) else Failure
  }

  /** The inner loop of `update_specs`: appends the new names that refine one old name. */
  method AppendRefinements(news: seq<string>, old_: string, updated: seq<string>)
    returns (r: Result<seq<string>>, replaced: bool)
    ensures r == Prefixed(updated, Refinements(news, old_))
    ensures r.Ok? ==> (replaced <==> Refinements(news, old_).value != [])
  {
    ghost var refined: seq<string> := [];
    var result := updated;
    replaced := false;
    var j := 0;
    assert news[0..] == news;
    NothingDone(Refinements(news, old_));
    while j < |news|
      invariant 0 <= j <= |news|
      invariant result == updated + refined && (replaced <==> refined != [])
      invariant Refinements(news, old_) == Prefixed(refined, Refinements(news[j..], old_))
    {
      assert news[j..][0] == news[j] && news[j..][1..] == news[j + 1..];
      var more := CompareNames(news[j], old_);
      if more.Failure? {
        return Failure, replaced;
      }
      PrefixedTwice(refined, if more.value then [news[j]] else [], Refinements(news[j + 1..], old_));
      if more.value {
        result := result + [news[j]];
        replaced := true;
        refined := refined + [news[j]];
      }
      j := j + 1;
    }
    assert news[j..] == [] && refined + [] == refined;
    r := Ok(result);
  }

  /** The outer loop of `update_specs`. */
  method CollectUpdatedSpecs(news: seq<string>, olds: seq<string>) returns (r: Result<seq<string>>)
    ensures r == UpdateSpecs(news, olds)
  {
    var updated: seq<string> := [];
    var i := 0;
    assert olds[0..] == olds;
    NothingDone(UpdateSpecs(news, olds));
    while i < |olds|
      invariant 0 <= i <= |olds|
      invariant UpdateSpecs(news, olds) == Prefixed(updated, UpdateSpecs(news, olds[i..]))
    {
      assert olds[i..][0] == olds[i] && olds[i..][1..] == olds[i + 1..];
      ghost var before, refined := updated, Refinements(news, olds[i]);
      var appended, replaced := AppendRefinements(news, olds[i], updated);
      if appended.Failure? {
        return Failure;
      }
      updated := if replaced then appended.value else appended.value + [olds[i]];
      assert updated == before + (if refined.value == [] then [olds[i]] else refined.value);
      PrefixedTwice(before, if refined.value == [] then [olds[i]] else refined.value, UpdateSpecs(news, olds[i + 1..]));
      i := i + 1;
    }
    assert olds[i..] == [] && updated + [] == updated;
    r := Ok(updated);
  }

  /** One key of `add_constraints`. Once a list is set, a later statement whose naming constraints lack the key raises
      a KeyError. */
  function AddKey(given: Option<seq<string>>, current: seq<string>): Result<seq<string>> {
    if current == [] then
      Ok(if given.Some? then given.value else [])
    else if given.None? then
      Failure
    else if given.value == [] then
      Ok(current)
    else
      UpdateSpecs(given.value, current)
  }

  function AddConstraints(given: NamingConstraints, naming: Naming): Result<Naming> {
    var permitted :- AddKey(given.permitted, naming.permitted);
    var excluded :- AddKey(given.excluded, naming.excluded);
    Ok(Naming(permitted, excluded))
  }

  function UpdateNaming(c: Constraints, naming: Naming): Result<Naming> {
    if c.naming.None? then Ok(naming) else AddConstraints(c.naming.value, naming)
  }

  /** `permitted` and `excluded`: is the subject more specific than some name of the list? Stops at the first hit. */
  function Covered(subject: string, names: seq<string>): Result<bool> {
    if names == [] then
      Ok(false)
    else
      var hit :- MoreSpecific(subject, names[0]);
      if hit then Ok(true) else Covered(subject, names[1..])
  }

  method IsCovered(subject: string, names: seq<string>) returns (r: Result<bool>)
    ensures r == Covered(subject, names)
  {
    var i := 0;
    while i < |names|
      invariant 0 <= i <= |names|
      invariant Covered(subject, names) == Covered(subject, names[i..])
    {
      assert names[i..][0] == names[i] && names[i..][1..] == names[i + 1..];
      var hit := CompareNames(subject, names[i]);
      if hit.Failure? || hit.value {
        return hit;
      }
      i := i + 1;
    }
    r := Ok(false);
  }

  /** The subject is not excluded, and is permitted if there is a list of permitted names. */
  function Allowed(subject: string, naming: Naming): Result<bool> {
    var out :- Covered(subject, naming.excluded);
    if out then Ok(false)
    else if naming.permitted == [] then Ok(true)
    else Covered(subject, naming.permitted)
  }

  /** The rest of the loop of `meets_restrictions` and its check of the leaf. The flag `max_assigned` is never set. */
  function Meets(chain: seq<EntityStatement>, current: int, naming: Naming): Result<bool>
    requires chain != []
  {
    var statement := chain[0];
    if |chain| == 1 then
      Allowed(statement.sub, naming)
    else if statement.constraints.None? then
      Meets(chain[1..], current, naming)
    else
      var c := statement.constraints.value;
      var length := PathLength(c, current, false);
      if length < 0 then
        Ok(false)
      else
        var updated :- UpdateNaming(c, naming);
        var allowed :- Allowed(statement.sub, updated);
        if allowed then Meets(chain[1..], length, updated) else Ok(false)
  }

  /** The dictionary `naming_constraints` that `add_constraints` writes into. */
  class NamingStore {
    var permitted: seq<string>
    var excluded: seq<string>

    constructor ()
      ensures Current() == UNCONSTRAINED
    {
      permitted, excluded := [], [];
    }

    function Current(): Naming
      reads this
    {
      Naming(permitted, excluded)
    }

    /** `update_naming_constraints`; when the excluded names cannot be updated the permitted ones already are. */
    method Update(c: Constraints) returns (ok: bool)
      modifies this
      ensures ok <==> UpdateNaming(c, old(Current())).Ok?
      ensures ok ==> Current() == UpdateNaming(c, old(Current())).value
      ensures !ok ==> c.naming.Some? && excluded == old(excluded) &&
                      var given := AddKey(c.naming.value.permitted, old(permitted));
                      permitted == if given.Ok? then given.value else old(permitted)
    {
      if c.naming.None? {
        return true;
      }
      var given := c.naming.value;
      var newPermitted := UpdateKey(given.permitted, permitted);
      if newPermitted.Failure? {
        return false;
      }
      permitted := newPermitted.value;
      var newExcluded := UpdateKey(given.excluded, excluded);
      if newExcluded.Failure? {
        return false;
      }
      excluded := newExcluded.value;
      ok := true;
    }
  }

  method UpdateKey(given: Option<seq<string>>, current: seq<string>) returns (r: Result<seq<string>>)
    ensures r == AddKey(given, current)
  {
    if current == [] {
      r := Ok(if given.Some? then given.value else []);
    } else if given.None? {
      r := Failure;
    } else if given.value == [] {
      r := Ok(current);
    } else {
      r := CollectUpdatedSpecs(given.value, current);
    }
  }

  method IsAllowed(subject: string, naming: Naming) returns (r: Result<bool>)
    ensures r == Allowed(subject, naming)
  {
    var out := IsCovered(subject, naming.excluded);
    if out.Failure? {
      return Failure;
    }
    if out.value {
      return Ok(false);
    }
    if naming.permitted == [] {
      return Ok(true);
    }
    r := IsCovered(subject, naming.permitted);
  }

  /** `meets_restrictions`; on an empty chain `trust_chain[-1]` raises. */
  method MeetsRestrictions(chain: seq<EntityStatement>) returns (r: Result<bool>)
    ensures r == if chain == [] then Failure else Meets(chain, 0, UNCONSTRAINED)
  {
    if chain == [] {
      return Failure;
    }
    var current := 0;
    var store := new NamingStore();
    var i := 0;
    while i < |chain| - 1
      invariant 0 <= i <= |chain| - 1 && fresh(store)
      invariant Meets(chain, 0, UNCONSTRAINED) == Meets(chain[i..], current, store.Current())
    {
      assert chain[i..][0] == chain[i] && chain[i..][1..] == chain[i + 1..];
      var statement := chain[i];
      i := i + 1;
      if statement.constraints.None? {
        continue;
      }
      current := PathLength(statement.constraints.value, current, false);
      if current < 0 {
        return Ok(false);
      }
      var ok := store.Update(statement.constraints.value);
      if !ok {
        return Failure;
      }
      var allowed := IsAllowed(statement.sub, store.Current());
      if allowed.Failure? || !allowed.value {
        return allowed;
      }
    }
    r := IsAllowed(chain[|chain| - 1].sub, store.Current());
  }

  // ---- Permitted names only narrow ----

  ghost predicate UnderSome(subject: string, names: seq<string>) {
    exists n :: n in names && Under(subject, n)
  }

  /** Every name of `news` refines some name of `olds`, and every name of `olds` is refined by some name of `news`. */
  ghost predicate Narrows(news: seq<string>, olds: seq<string>) {
    (forall n :: n in news ==> UnderSome(n, olds)) &&
    (forall o :: o in olds ==> HasRefinement(o, news))
  }

  ghost predicate HasRefinement(o: string, names: seq<string>) {
    exists n :: n in names && Under(n, o)
  }

  lemma {:induction false} CoveredMeans(subject: string, names: seq<string>)
    requires Covered(subject, names).Ok?
    ensures Covered(subject, names).value <==> UnderSome(subject, names)
  {
    if names != [] && !Under(subject, names[0]) {
      CoveredMeans(subject, names[1..]);
      assert forall n :: n in names <==> n == names[0] || n in names[1..];
    }
  }

  /** `permitted` and `excluded` carry over to every more specific subject. */
  lemma {:induction false} CoverageIsMonotone(subject: string, specific: string, names: seq<string>)
    requires Under(specific, subject) && Covered(subject, names) == Ok(true)
    ensures Covered(specific, names) == Ok(true)
  {
    MoreSpecificIsPartialOrder(specific, subject, names[0]);
    if !Under(subject, names[0]) {
      CoverageIsMonotone(subject, specific, names[1..]);
    }
  }

  lemma RefinementsAre(news: seq<string>, old_: string)
    requires Refinements(news, old_).Ok?
    ensures forall n :: n in Refinements(news, old_).value <==> n in news && Under(n, old_)
    ensures news != [] ==> HasScheme(old_)
  {
    if news != [] {
      RefinementsAre(news[1..], old_);
      assert forall n :: n in news <==> n == news[0] || n in news[1..];
    }
  }

  lemma UnderSomeOfMore(n: string, names: seq<string>, more: seq<string>)
    requires UnderSome(n, names) && forall m :: m in names ==> m in more
    ensures UnderSome(n, more)
  {
    var m :| m in names && Under(n, m);
    assert m in more;
  }

  lemma RefinementInMore(o: string, names: seq<string>, more: seq<string>)
    requires HasRefinement(o, names) && forall m :: m in names ==> m in more
    ensures HasRefinement(o, more)
  {
    var m :| m in names && Under(m, o);
    assert m in more;
  }

  lemma NarrowsConcat(head: seq<string>, o: string, tail: seq<string>, rest: seq<string>)
    requires Narrows(head, [o]) && Narrows(tail, rest)
    ensures Narrows(head + tail, [o] + rest)
  {
    forall n | n in head + tail
      ensures UnderSome(n, [o] + rest)
    {
      if n in head {
        UnderSomeOfMore(n, [o], [o] + rest);
      } else {
        UnderSomeOfMore(n, rest, [o] + rest);
      }
    }
    forall p | p in [o] + rest
      ensures HasRefinement(p, head + tail)
    {
      if p == o {
        assert p in [o];
        RefinementInMore(p, head, head + tail);
      } else {
        RefinementInMore(p, tail, head + tail);
      }
    }
  }

  lemma NarrowsOne(head: seq<string>, o: string)
    requires head != [] && forall n :: n in head ==> Under(n, o)
    ensures Narrows(head, [o])
  {
    assert o in [o] && head[0] in head;
  }

  /** A non-empty list never becomes empty, and only ever narrows. */
  lemma {:induction false} UpdateNarrows(news: seq<string>, olds: seq<string>)
    requires news != [] && olds != [] && UpdateSpecs(news, olds).Ok?
    ensures UpdateSpecs(news, olds).value != [] && Narrows(UpdateSpecs(news, olds).value, olds)
    ensures forall o :: o in olds ==> HasScheme(o)
  {
    var o, rest := olds[0], olds[1..];
    assert olds == [o] + rest;
    var refined := Refinements(news, o).value;
    var head := if refined == [] then [o] else refined;
    RefinementsAre(news, o);
    MoreSpecificIsPartialOrder(o, o, o);
    if rest == [] {
      assert Narrows([], []);
    } else {
      UpdateNarrows(news, rest);
    }
    NarrowsOne(head, o);
    NarrowsConcat(head, o, UpdateSpecs(news, rest).value, rest);
  }

  /** Every well-formed name lies under some name of `top`. */
  ghost predicate NarrowedFrom(names: seq<string>, top: seq<string>) {
    forall n :: n in names && HasScheme(n) ==> UnderSome(n, top)
  }

  lemma UnderSomeUp(subject: string, names: seq<string>, top: seq<string>)
    requires UnderSome(subject, names) && NarrowedFrom(names, top)
    ensures UnderSome(subject, top)
  {
    var n :| n in names && Under(subject, n);
    var t :| t in top && Under(n, t);
    MoreSpecificIsPartialOrder(subject, n, t);
  }

  /** The subjects that are checked from `k` on: those of constrained statements, and the leaf. */
  ghost predicate CheckedUnder(chain: seq<EntityStatement>, k: nat, top: seq<string>) {
    forall i :: k <= i < |chain| && (chain[i].constraints.Some? || i == |chain| - 1) ==> UnderSome(chain[i].sub, top)
  }

  lemma CheckedNext(chain: seq<EntityStatement>, k: nat, top: seq<string>)
    requires chain != [] && CheckedUnder(chain[1..], k, top)
    ensures CheckedUnder(chain, k + 1, top)
  {
    assert forall i :: 1 <= i < |chain| ==> chain[i] == chain[1..][i - 1];
  }

  lemma AllowedIsPermitted(subject: string, naming: Naming)
    requires Allowed(subject, naming) == Ok(true) && naming.permitted != []
    ensures UnderSome(subject, naming.permitted)
  {
    CoveredMeans(subject, naming.permitted);
  }

  /** What an accepted constrained statement has passed. */
  lemma MeetsNext(chain: seq<EntityStatement>, current: int, naming: Naming)
    requires |chain| > 1 && chain[0].constraints.Some? && Meets(chain, current, naming) == Ok(true)
    ensures var c := chain[0].constraints.value;
            UpdateNaming(c, naming).Ok? && Allowed(chain[0].sub, UpdateNaming(c, naming).value) == Ok(true) &&
            Meets(chain[1..], PathLength(c, current, false), UpdateNaming(c, naming).value) == Ok(true)
  {
  }

  lemma CheckedFirst(chain: seq<EntityStatement>, top: seq<string>)
    requires chain != [] && CheckedUnder(chain, 1, top) && UnderSome(chain[0].sub, top)
    ensures CheckedUnder(chain, 0, top)
  {
  }

  /** From a state whose permitted names lie under `top`, acceptance puts every constrained subject and the leaf under
      `top`. */
  lemma {:induction false} StaysUnder(chain: seq<EntityStatement>, current: int, naming: Naming, top: seq<string>)
    requires chain != [] && Meets(chain, current, naming) == Ok(true)
    requires naming.permitted != [] && NarrowedFrom(naming.permitted, top)
    ensures CheckedUnder(chain, 0, top)
  {
    if |chain| == 1 {
      AllowedIsPermitted(chain[0].sub, naming);
      UnderSomeUp(chain[0].sub, naming.permitted, top);
    } else if chain[0].constraints.None? {
      StaysUnder(chain[1..], current, naming, top);
      CheckedNext(chain, 0, top);
    } else {
      var c := chain[0].constraints.value;
      var next := UpdateNaming(c, naming).value;
      MeetsNext(chain, current, naming);
      PermittedNarrows(c, naming, top);
      AllowedIsPermitted(chain[0].sub, next);
      UnderSomeUp(chain[0].sub, next.permitted, top);
      StaysUnder(chain[1..], PathLength(c, current, false), next, top);
      CheckedNext(chain, 0, top);
      CheckedFirst(chain, top);
    }
  }

  lemma PermittedNarrows(c: Constraints, naming: Naming, top: seq<string>)
    requires UpdateNaming(c, naming).Ok? && naming.permitted != [] && NarrowedFrom(naming.permitted, top)
    ensures var p := UpdateNaming(c, naming).value.permitted; p != [] && NarrowedFrom(p, top)
  {
    if c.naming.Some? && c.naming.value.permitted.Some? && c.naming.value.permitted.value != [] {
      var news := c.naming.value.permitted.value;
      UpdateNarrows(news, naming.permitted);
      forall n | n in UpdateSpecs(news, naming.permitted).value
        ensures UnderSome(n, top)
      {
        UnderSomeUp(n, naming.permitted, top);
      }
    }
  }

  predicate GivesPermitted(es: EntityStatement) {
    es.constraints.Some? && es.constraints.value.naming.Some? &&
    es.constraints.value.naming.value.permitted.Some? && es.constraints.value.naming.value.permitted.value != []
  }

  /** The statement at `k`, not the leaf's own, is the first to give a non-empty `permitted` list. */
  ghost predicate FirstPermitted(chain: seq<EntityStatement>, k: nat) {
    k < |chain| - 1 && GivesPermitted(chain[k]) && forall i :: 0 <= i < k ==> !GivesPermitted(chain[i])
  }

  lemma NamesUnderThemselves(names: seq<string>)
    ensures NarrowedFrom(names, names)
  {
    forall n | n in names && HasScheme(n)
      ensures UnderSome(n, names)
    {
      MoreSpecificIsPartialOrder(n, n, n);
    }
  }

  lemma FirstListHolds(chain: seq<EntityStatement>, current: int, naming: Naming)
    requires |chain| > 1 && naming.permitted == [] && Meets(chain, current, naming) == Ok(true)
    requires GivesPermitted(chain[0])
    ensures CheckedUnder(chain, 0, chain[0].constraints.value.naming.value.permitted.value)
  {
    var c := chain[0].constraints.value;
    var top := c.naming.value.permitted.value;
    var next := UpdateNaming(c, naming).value;
    MeetsNext(chain, current, naming);
    assert next.permitted == top;
    AllowedIsPermitted(chain[0].sub, next);
    NamesUnderThemselves(top);
    StaysUnder(chain[1..], PathLength(c, current, false), next, top);
    CheckedNext(chain, 0, top);
    CheckedFirst(chain, top);
  }

  /** On every accepted chain, the leaf and the subject of each constrained statement from there on is permitted by the
      first non-empty list met. */
  lemma {:induction false} PermittedOnlyNarrows(chain: seq<EntityStatement>, current: int, naming: Naming, k: nat)
    requires chain != [] && naming.permitted == [] && Meets(chain, current, naming) == Ok(true)
    requires FirstPermitted(chain, k)
    ensures CheckedUnder(chain, k, chain[k].constraints.value.naming.value.permitted.value)
  {
    var top := chain[k].constraints.value.naming.value.permitted.value;
    if k == 0 {
      FirstListHolds(chain, current, naming);
    } else {
      FirstPermittedNext(chain, k);
      if chain[0].constraints.None? {
        PermittedOnlyNarrows(chain[1..], current, naming, k - 1);
      } else {
        var c := chain[0].constraints.value;
        MeetsNext(chain, current, naming);
        PermittedOnlyNarrows(chain[1..], PathLength(c, current, false), UpdateNaming(c, naming).value, k - 1);
      }
      CheckedNext(chain, k - 1, top);
    }
  }

  lemma FirstPermittedNext(chain: seq<EntityStatement>, k: nat)
    requires k > 0 && FirstPermitted(chain, k)
    ensures FirstPermitted(chain[1..], k - 1) && chain[1..][k - 1] == chain[k]
  {
    assert forall i :: 0 <= i < |chain| - 1 ==> chain[1..][i] == chain[i + 1];
  }

  // ---- What `meets_restrictions` does not enforce ----

  function WithoutLength(es: EntityStatement): EntityStatement {
    if es.constraints.None? then es else es.(constraints := Some(es.constraints.value.(maxPathLength := None)))
  }

  function WithoutLengths(chain: seq<EntityStatement>): seq<EntityStatement> {
    seq(|chain|, i requires 0 <= i < |chain| => WithoutLength(chain[i]))
  }

  predicate NegativeLength(es: EntityStatement) {
    es.constraints.Some? && es.constraints.value.maxPathLength.Some? && es.constraints.value.maxPathLength.value < 0
  }

  /** Path lengths are never counted: apart from refusing negative limits, the check ignores them. */
  lemma {:induction false} PathLengthIsNotCounted(chain: seq<EntityStatement>, current: int, other: int, naming: Naming)
    requires chain != []
    ensures Meets(chain, current, naming) == Ok(true) <==>
            (forall i :: 0 <= i < |chain| - 1 ==> !NegativeLength(chain[i])) &&
            Meets(WithoutLengths(chain), other, naming) == Ok(true)
  {
    var bare := WithoutLengths(chain);
    if |chain| > 1 {
      assert bare[1..] == WithoutLengths(chain[1..]);
      assert (forall i :: 0 <= i < |chain| - 1 ==> !NegativeLength(chain[i])) <==>
             !NegativeLength(chain[0]) && forall i :: 0 <= i < |chain[1..]| - 1 ==> !NegativeLength(chain[1..][i]) by {
        assert forall i :: 1 <= i < |chain| ==> chain[i] == chain[1..][i - 1];
      }
      if chain[0].constraints.None? {
        PathLengthIsNotCounted(chain[1..], current, other, naming);
      } else {
        var c := chain[0].constraints.value;
        if UpdateNaming(c, naming).Ok? {
          PathLengthIsNotCounted(chain[1..], PathLength(c, current, false), 0, UpdateNaming(c, naming).value);
        }
      }
    }
  }

  ghost predicate KeepsExclusions(news: seq<string>, olds: seq<string>) {
    UpdateSpecs(news, olds).Ok? && forall s :: UnderSome(s, olds) ==> UnderSome(s, UpdateSpecs(news, olds).value)
  }

  /** What an update holds: the old names that no new name refines, and the new names that refine an old one. */
  lemma {:induction false} UpdateHolds(news: seq<string>, olds: seq<string>, x: string)
    requires UpdateSpecs(news, olds).Ok?
    ensures x in UpdateSpecs(news, olds).value <==>
            (x in olds && !HasRefinement(x, news)) || (x in news && UnderSome(x, olds))
  {
    if olds != [] {
      var o, rest := olds[0], olds[1..];
      assert olds == [o] + rest;
      RefinementsAre(news, o);
      UpdateHolds(news, rest, x);
      assert UnderSome(x, olds) <==> Under(x, o) || UnderSome(x, rest);
      assert HasRefinement(o, news) <==> Refinements(news, o).value != [] by {
        if Refinements(news, o).value != [] {
          assert Refinements(news, o).value[0] in Refinements(news, o).value;
        }
      }
    }
  }

  /** An old excluded name stays excluded: under an old name that stays, or under a new name that is taken over. */
  ghost predicate StaysExcluded(o: string, news: seq<string>, olds: seq<string>) {
    (exists p :: p in olds && Under(o, p) && !HasRefinement(p, news)) ||
    (exists n :: n in news && Under(o, n) && UnderSome(n, olds))
  }

  lemma ExcludedByUpdate(o: string, news: seq<string>, olds: seq<string>)
    requires UpdateSpecs(news, olds).Ok?
    ensures UnderSome(o, UpdateSpecs(news, olds).value) <==> StaysExcluded(o, news, olds)
  {
    var updated := UpdateSpecs(news, olds).value;
    forall x
      ensures x in updated <==> (x in olds && !HasRefinement(x, news)) || (x in news && UnderSome(x, olds))
    {
      UpdateHolds(news, olds, x);
    }
  }

  /** `excluded` narrows as `permitted` does, so a subordinate can lift an exclusion. Nothing is lifted exactly when
      every old excluded name stays excluded. */
  lemma {:induction false} ExclusionsKeptIff(news: seq<string>, olds: seq<string>)
    requires news != [] && olds != [] && UpdateSpecs(news, olds).Ok?
    ensures KeepsExclusions(news, olds) <==> forall o :: o in olds ==> StaysExcluded(o, news, olds)
  {
    if KeepsExclusions(news, olds) {
      forall o | o in olds
        ensures StaysExcluded(o, news, olds)
      {
        UpdateNarrows(news, olds);
        NamesUnderThemselves(olds);
        assert UnderSome(o, olds);
        ExcludedByUpdate(o, news, olds);
      }
    } else {
      var s :| UnderSome(s, olds) && !UnderSome(s, UpdateSpecs(news, olds).value);
      var o :| o in olds && Under(s, o);
      if StaysExcluded(o, news, olds) {
        ExcludedByUpdate(o, news, olds);
        UnderIsPassedOn(s, o, UpdateSpecs(news, olds).value);
      }
    }
  }

  lemma UnderIsPassedOn(s: string, o: string, names: seq<string>)
    requires Under(s, o) && UnderSome(o, names)
    ensures UnderSome(s, names)
  {
    var n :| n in names && Under(o, n);
    MoreSpecificIsPartialOrder(s, o, n);
  }

  // ---- Whether an exclusion reaches the leaf ----

  /** The names left after one update after the other. */
  function Narrowed(updates: seq<seq<string>>, names: seq<string>): Result<seq<string>>
    decreases |updates|
  {
    if updates == [] then
      Ok(names)
    else
      var next :- UpdateSpecs(updates[0], names);
      Narrowed(updates[1..], next)
  }

  /** Every update on the way keeps every name excluded, by the lists it is made of. */
  ghost predicate EachKeeps(updates: seq<seq<string>>, names: seq<string>)
    decreases |updates|
  {
    updates == [] ||
    (UpdateSpecs(updates[0], names).Ok? && (forall o :: o in names ==> StaysExcluded(o, updates[0], names)) &&
     EachKeeps(updates[1..], UpdateSpecs(updates[0], names).value))
  }

  ghost predicate NoneEmpty(updates: seq<seq<string>>) {
    forall i :: 0 <= i < |updates| ==> updates[i] != []
  }

  /** Nothing is excluded again that was let in. */
  lemma {:induction false} NarrowedIsUnder(updates: seq<seq<string>>, names: seq<string>, s: string)
    requires names != [] && NoneEmpty(updates) && Narrowed(updates, names).Ok?
    ensures UnderSome(s, Narrowed(updates, names).value) ==> UnderSome(s, names)
    decreases |updates|
  {
    if updates != [] {
      var next := UpdateSpecs(updates[0], names).value;
      UpdateNarrows(updates[0], names);
      NarrowedIsUnder(updates[1..], next, s);
      if UnderSome(s, next) {
        UnderSomeUp(s, next, names);
      }
    }
  }

  ghost predicate AllStay(updates: seq<seq<string>>, names: seq<string>) {
    Narrowed(updates, names).Ok? && forall s :: UnderSome(s, names) ==> UnderSome(s, Narrowed(updates, names).value)
  }

  lemma StaysFirst(updates: seq<seq<string>>, names: seq<string>, next: seq<string>)
    requires updates != [] && names != [] && NoneEmpty(updates) && UpdateSpecs(updates[0], names) == Ok(next)
    requires AllStay(updates, names)
    ensures KeepsExclusions(updates[0], names) && AllStay(updates[1..], next)
  {
    UpdateNarrows(updates[0], names);
    forall s | UnderSome(s, names)
      ensures UnderSome(s, next)
    {
      NarrowedIsUnder(updates[1..], next, s);
    }
    forall s | UnderSome(s, next)
      ensures UnderSome(s, names)
    {
      UnderSomeUp(s, next, names);
    }
  }

  /** What was excluded at first is still excluded after all updates, if and only if every single one keeps it. */
  lemma {:induction false} ExclusionsReachIff(updates: seq<seq<string>>, names: seq<string>)
    requires names != [] && NoneEmpty(updates) && Narrowed(updates, names).Ok?
    ensures AllStay(updates, names) <==> EachKeeps(updates, names)
    decreases |updates|
  {
    if updates != [] {
      var next, rest := UpdateSpecs(updates[0], names).value, updates[1..];
      UpdateNarrows(updates[0], names);
      ExclusionsKeptIff(updates[0], names);
      ExclusionsReachIff(rest, next);
      if AllStay(updates, names) {
        StaysFirst(updates, names, next);
      }
    }
  }

  predicate GivesExcluded(es: EntityStatement) {
    es.constraints.Some? && es.constraints.value.naming.Some? &&
    es.constraints.value.naming.value.excluded.Some? && es.constraints.value.naming.value.excluded.value != []
  }

  /** The non-empty `excluded` lists of a chain, the leaf's own aside. */
  function ExcludedGiven(chain: seq<EntityStatement>): seq<seq<string>> {
    if |chain| <= 1 then []
    else (if GivesExcluded(chain[0]) then [chain[0].constraints.value.naming.value.excluded.value] else []) + ExcludedGiven(chain[1..])
  }

  lemma {:induction false} GivenAreNotEmpty(chain: seq<EntityStatement>)
    ensures NoneEmpty(ExcludedGiven(chain))
  {
    if |chain| > 1 {
      GivenAreNotEmpty(chain[1..]);
    }
  }

  /** The chain with another subject at its end. */
  function WithLeaf(chain: seq<EntityStatement>, subject: string): seq<EntityStatement>
    requires chain != []
  {
    chain[|chain| - 1 := chain[|chain| - 1].(sub := subject)]
  }

  ghost predicate NonePermits(chain: seq<EntityStatement>) {
    forall i :: 0 <= i < |chain| ==> !GivesPermitted(chain[i])
  }

  lemma ExcludedNext(c: Constraints, naming: Naming)
    requires naming.excluded != [] && UpdateNaming(c, naming).Ok?
    ensures var next := UpdateNaming(c, naming).value;
            if c.naming.Some? && c.naming.value.excluded.Some? && c.naming.value.excluded.value != [] then
              UpdateSpecs(c.naming.value.excluded.value, naming.excluded) == Ok(next.excluded) && next.excluded != []
            else next.excluded == naming.excluded
  {
    if c.naming.Some? && c.naming.value.excluded.Some? && c.naming.value.excluded.value != [] {
      UpdateNarrows(c.naming.value.excluded.value, naming.excluded);
    }
  }

  /** The first step does not look at the leaf. */
  lemma OtherNext(chain: seq<EntityStatement>, current: int, naming: Naming, subject: string)
    requires |chain| > 1 && Meets(chain, current, naming) == Ok(true) && naming.excluded != []
    ensures var c := chain[0].constraints;
            if c.None? then
              Meets(WithLeaf(chain, subject), current, naming) == Meets(WithLeaf(chain[1..], subject), current, naming) &&
              ExcludedGiven(chain) == ExcludedGiven(chain[1..])
            else
              var next := UpdateNaming(c.value, naming);
              next.Ok? && next.value.excluded != [] &&
              Meets(WithLeaf(chain, subject), current, naming) ==
              Meets(WithLeaf(chain[1..], subject), PathLength(c.value, current, false), next.value) &&
              Narrowed(ExcludedGiven(chain), naming.excluded) == Narrowed(ExcludedGiven(chain[1..]), next.value.excluded)
  {
    var other := WithLeaf(chain, subject);
    assert other[1..] == WithLeaf(chain[1..], subject) && other[0] == chain[0];
    if chain[0].constraints.Some? {
      MeetsNext(chain, current, naming);
      ExcludedNext(chain[0].constraints.value, naming);
      if GivesExcluded(chain[0]) {
        assert ExcludedGiven(chain)[1..] == ExcludedGiven(chain[1..]);
      } else {
        assert ExcludedGiven(chain) == ExcludedGiven(chain[1..]);
      }
    }
  }

  /** The same superiors accept another leaf exactly when the excluded names they leave do not cover it. */
  lemma {:induction false} OtherLeaf(chain: seq<EntityStatement>, current: int, naming: Naming, subject: string)
    requires chain != [] && Meets(chain, current, naming) == Ok(true) && NonePermits(chain)
    requires naming.permitted == [] && naming.excluded != []
    ensures Narrowed(ExcludedGiven(chain), naming.excluded).Ok?
    ensures var left := Narrowed(ExcludedGiven(chain), naming.excluded).value;
            Covered(chain[|chain| - 1].sub, left) == Ok(false) &&
            (Meets(WithLeaf(chain, subject), current, naming) == Ok(true) <==> Covered(subject, left) == Ok(false))
  {
    if |chain| > 1 {
      OtherNext(chain, current, naming, subject);
      assert !GivesPermitted(chain[0]) && forall i :: 0 <= i < |chain| - 1 ==> chain[1..][i] == chain[i + 1];
      if chain[0].constraints.None? {
        OtherLeaf(chain[1..], current, naming, subject);
      } else {
        var c := chain[0].constraints.value;
        MeetsNext(chain, current, naming);
        OtherLeaf(chain[1..], PathLength(c, current, false), UpdateNaming(c, naming).value, subject);
      }
    }
  }

  /** Asking whether a name is covered raises only for a name without a scheme, on its own side or in the list. */
  lemma {:induction false} CoverageIsDefined(subject: string, other: string, names: seq<string>)
    requires names != [] && Covered(other, names) == Ok(false) && HasScheme(subject)
    ensures Covered(subject, names).Ok?
  {
    if |names| > 1 {
      CoverageIsDefined(subject, other, names[1..]);
    }
  }

  /** The names that are excluded before the chain are still refused at its leaf, whatever the leaf, if and only if every
      update by a superior keeps them. */
  lemma {:induction false} ExclusionReachesLeafIff(chain: seq<EntityStatement>, current: int, naming: Naming)
    requires chain != [] && Meets(chain, current, naming) == Ok(true) && NonePermits(chain)
    requires naming.permitted == [] && naming.excluded != []
    ensures (forall s :: UnderSome(s, naming.excluded) ==> Meets(WithLeaf(chain, s), current, naming) != Ok(true)) <==>
            EachKeeps(ExcludedGiven(chain), naming.excluded)
  {
    OtherLeaf(chain, current, naming, "");
    GivenAreNotEmpty(chain);
    ExclusionsReachIff(ExcludedGiven(chain), naming.excluded);
    var left := Narrowed(ExcludedGiven(chain), naming.excluded).value;
    NarrowedIsNotEmpty(ExcludedGiven(chain), naming.excluded);
    forall s | UnderSome(s, naming.excluded)
      ensures Meets(WithLeaf(chain, s), current, naming) == Ok(true) <==> !UnderSome(s, left)
    {
      OtherLeaf(chain, current, naming, s);
      CoverageIsDefined(s, chain[|chain| - 1].sub, left);
      CoveredMeans(s, left);
    }
  }

  lemma {:induction false} NarrowedIsNotEmpty(updates: seq<seq<string>>, names: seq<string>)
    requires names != [] && NoneEmpty(updates) && Narrowed(updates, names).Ok?
    ensures Narrowed(updates, names).value != []
    decreases |updates|
  {
    if updates != [] {
      UpdateNarrows(updates[0], names);
      NarrowedIsNotEmpty(updates[1..], UpdateSpecs(updates[0], names).value);
    }
  }

  function Http(host: string): string {
    "http://" + host
  }

  lemma HttpHost(host: string)
    ensures RemoveScheme(Http(host)) == Ok(host)
  {
    assert Http(host)[4] == ':' && "https://"[4] == 's';
    assert Http(host)[7..] == host;
  }

  lemma OneLabel()
    ensures Split("x") == ["x"] && Split(".x") == ["", "x"]
  {
    assert "x"[1..] == "" && ['x'] + "" == "x" && [""][1..] == [];
    assert ".x"[1..] == "x";
  }

  lemma TwoLabels(c: char)
    requires c != '.'
    ensures Split([c] + ".x") == [[c], "x"]
  {
    OneLabel();
    assert ([c] + ".x")[1..] == ".x" && ["", "x"][1..] == ["x"] && [c] + "" == [c];
  }

  lemma HostLabels()
    ensures Reverse(Split("x")) == ["x"] && Reverse(Split("a.x")) == ["x", "a"] && Reverse(Split("b.x")) == ["x", "b"]
  {
    OneLabel();
    TwoLabels('a');
    TwoLabels('b');
    assert "a.x" == ['a'] + ".x" && "b.x" == ['b'] + ".x";
    ReverseTwo("a", "x");
    ReverseTwo("b", "x");
  }

  lemma ReverseTwo(a: string, b: string)
    ensures Reverse([a, b]) == [b, a] && Reverse([a]) == [a]
  {
    assert [a, b][1..] == [b];
  }

  lemma HostOrder()
    ensures Below(["x", "a"], ["x"]) && Below(["x", "b"], ["x"]) && !Below(["x", "b"], ["x", "a"])
  {
    assert ["x", "b"][1..] == ["b"] && ["x", "a"][1..] == ["a"] && ["x"][1..] == [];
    assert "b"[0] != "a"[0];
    assert !Agrees(["b"], ["a"]);
  }

  lemma HttpOrder()
    ensures MoreSpecific(Http("a.x"), Http("x")) == Ok(true) == MoreSpecific(Http("b.x"), Http("x"))
    ensures MoreSpecific(Http("b.x"), Http("a.x")) == Ok(false)
  {
    HttpHost("x");
    HttpHost("a.x");
    HttpHost("b.x");
    HostLabels();
    HostOrder();
  }

  /** The anchor excludes everything under `x`; once a subordinate excludes `a.x`, `b.x` is let in. */
  lemma {:induction false} ExclusionIsLifted()
    ensures Covered(Http("b.x"), [Http("x")]) == Ok(true)
    ensures UpdateSpecs([Http("a.x")], [Http("x")]) == Ok([Http("a.x")])
    ensures Covered(Http("b.x"), [Http("a.x")]) == Ok(false)
  {
    HttpOrder();
    var x, a := [Http("x")], [Http("a.x")];
    assert x[1..] == [] && a[1..] == [];
    assert Refinements([], Http("x")) == Ok([]);
    assert Refinements(a, Http("x")) == Ok(a + []);
    assert UpdateSpecs(a, []) == Ok([]);
    assert a + [] == a;
  }

  function Excluding(sub: Entity, names: seq<string>): EntityStatement {
    EntityStatement("", sub, None, None, None, NoEndpoint,
                    Some(Constraints(None, Some(NamingConstraints(None, Some(names))))), map[], map[])
  }

  lemma OtherLabel()
    ensures Reverse(Split("c")) == ["c"]
  {
    assert "c"[1..] == "" && ['c'] + "" == "c" && [""][1..] == [];
    assert Split("c") == ["c"];
    ReverseTwo("c", "c");
  }

  lemma OtherOrder()
    ensures !Below(["c"], ["x"]) && !Below(["c"], ["x", "a"])
  {
    assert "c"[0] != "x"[0];
    assert !Agrees(["c"], ["x"]) && !Agrees(["c"], ["x", "a"]);
  }

  lemma NotBelowOther()
    ensures MoreSpecific(Http("c"), Http("x")) == Ok(false) == MoreSpecific(Http("c"), Http("a.x"))
  {
    HttpHost("x");
    HttpHost("a.x");
    HttpHost("c");
    HostLabels();
    OtherLabel();
    OtherOrder();
  }

  lemma CoveredByOne(subject: string, name: string)
    ensures Covered(subject, [name]) == MoreSpecific(subject, name)
  {
    assert [name][1..] == [];
  }

  const X_EXCLUDED := Excluding(Http("c"), [Http("x")])
  const A_X_EXCLUDED := Excluding(Http("c"), [Http("a.x")])

  lemma LowAccepts(leaf: EntityStatement)
    requires leaf.sub == Http("b.x")
    ensures Meets([A_X_EXCLUDED, leaf], 0, Naming([], [Http("x")])) == Ok(true)
  {
    ExclusionIsLifted();
    NotBelowOther();
    CoveredByOne(Http("c"), Http("a.x"));
    assert [A_X_EXCLUDED, leaf][1..] == [leaf];
    assert UpdateNaming(A_X_EXCLUDED.constraints.value, Naming([], [Http("x")])) == Ok(Naming([], [Http("a.x")]));
    assert Meets([leaf], 0, Naming([], [Http("a.x")])) == Ok(true);
  }

  /** So a whole chain accepts a leaf that its anchor excludes. */
  lemma {:induction false} ExcludedLeafIsAccepted(leaf: EntityStatement)
    requires leaf.sub == Http("b.x")
    ensures Covered(leaf.sub, X_EXCLUDED.constraints.value.naming.value.excluded.value) == Ok(true)
    ensures Meets([X_EXCLUDED, A_X_EXCLUDED, leaf], 0, UNCONSTRAINED) == Ok(true)
  {
    ExclusionIsLifted();
    NotBelowOther();
    CoveredByOne(Http("c"), Http("x"));
    LowAccepts(leaf);
    assert [X_EXCLUDED, A_X_EXCLUDED, leaf][1..] == [A_X_EXCLUDED, leaf];
    assert UpdateNaming(X_EXCLUDED.constraints.value, UNCONSTRAINED) == Ok(Naming([], [Http("x")]));
  }
}
