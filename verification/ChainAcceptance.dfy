/** Which chains are accepted and which keys the jar takes in, said of the tokens: `verify_signature` and
    `verify_trust_chain` in verifier.py. */
module ChainAcceptance {
  import opened Wrappers
  import opened Statements
  import opened ChainConstraints
  import opened NamesInForce
  import opened ChainVerification

  predicate Held(jar: Jar, e: Entity, k: Key) {
    e in jar && k in jar[e]
  }

  /** The token is about the entity and lists the key. */
  predicate Lists(jws: Jws, e: Entity, k: Key) {
    jws.Jws? && jws.payload.sub == e && jws.payload.jwks.Some? && k in jws.payload.jwks.value
  }

  /** An initial key, or one listed in an earlier token of the call. */
  ghost predicate KnownAt(jar: Jar, tokens: seq<Jws>, i: nat, e: Entity, k: Key)
    requires i <= |tokens|
  {
    Held(jar, e, k) || exists j :: 0 <= j < i && Lists(tokens[j], e, k)
  }

  /** Token `i` verifies with such a key of its issuer. */
  ghost predicate VerifiesAt(w: World, jar: Jar, tokens: seq<Jws>, i: nat)
    requires i < |tokens|
  {
    tokens[i].Jws? &&
    exists k :: KnownAt(jar, tokens, i, tokens[i].payload.iss, k) && w.selects(tokens[i], k) && w.verifies(tokens[i], k)
  }

  ghost predicate AllSigned(tokens: seq<Jws>) {
    forall i :: 0 <= i < |tokens| ==> tokens[i].Jws?
  }

  /** The loop gets past token `i`: it is not a signed JWT and skipped, or it verifies and has `jwks`, which only the last
      may lack, with none skipped before it. */
  ghost predicate GoesPast(w: World, jar: Jar, tokens: seq<Jws>, i: nat)
    requires i < |tokens|
  {
    tokens[i].NotJws? ||
    (VerifiesAt(w, jar, tokens, i) && (tokens[i].payload.jwks.None? ==> i == |tokens| - 1 && AllSigned(tokens)))
  }

  ghost predicate Reaches(w: World, jar: Jar, tokens: seq<Jws>, n: nat)
    requires n <= |tokens|
  {
    forall i :: 0 <= i < n ==> GoesPast(w, jar, tokens, i)
  }

  /** The call gets as far as token `j`, which verifies and brings the key. */
  ghost predicate Brings(w: World, jar: Jar, tokens: seq<Jws>, j: int, e: Entity, k: Key) {
    0 <= j < |tokens| && Reaches(w, jar, tokens, j) && VerifiesAt(w, jar, tokens, j) && Lists(tokens[j], e, k)
  }

  // ---- The loop, token by token ----

  lemma {:induction false} WalkNext(w: World, jar: Jar, front: seq<Jws>, jws: Jws, verified: seq<EntityStatement>, last: int)
    ensures var before := Walk(w, jar, front, verified, last);
            Walk(w, jar, front + [jws], verified, last) ==
            if before.result.Failure? then before else Walk(w, before.jar, [jws], before.result.value, last)
    decreases |front|
  {
    var tokens := front + [jws];
    if front == [] {
      assert tokens == [jws];
    } else {
      assert tokens[0] == front[0] && tokens[1..] == front[1..] + [jws];
      if front[0].NotJws? {
        WalkNext(w, jar, front[1..], jws, verified, last);
      } else if Verifiable(w, jar, front[0]) {
        var payload := front[0].payload;
        if payload.jwks.Some? {
          WalkNext(w, AddKeys(jar, payload.sub, payload.jwks.value), front[1..], jws, verified + [payload], last);
        } else if |verified| == last {
          WalkNext(w, jar, front[1..], jws, verified + [payload], last);
        }
      }
    }
  }

  lemma {:induction false} PayloadsNext(front: seq<Jws>, jws: Jws)
    ensures Payloads(front + [jws]) == Payloads(front) + if jws.Jws? then [jws.payload] else []
    ensures |Payloads(front)| <= |front| && (|Payloads(front)| == |front| <==> AllSigned(front))
    decreases |front|
  {
    var tokens := front + [jws];
    if front == [] {
      assert tokens == [jws] && tokens[1..] == [];
    } else {
      assert tokens[0] == front[0] && tokens[1..] == front[1..] + [jws];
      PayloadsNext(front[1..], jws);
      assert AllSigned(front) <==> front[0].Jws? && AllSigned(front[1..]) by {
        assert forall i :: 1 <= i < |front| ==> front[i] == front[1..][i - 1];
      }
    }
  }

  /** The jar after the first `n` tokens, where the loop has come that far. */
  ghost predicate JarAt(w: World, jar: Jar, tokens: seq<Jws>, n: nat, after: Jar)
    requires n <= |tokens|
  {
    forall e, k :: Held(after, e, k) <==> Held(jar, e, k) || exists j :: j < n && Brings(w, jar, tokens, j, e, k)
  }

  /** The loop has come as far as token `n`, or has stopped before, in the right state. */
  ghost predicate WalkedTo(w: World, jar: Jar, tokens: seq<Jws>, n: nat)
    requires n <= |tokens|
  {
    var o := Walk(w, jar, tokens[..n], [], |tokens| - 1);
    (o.result.Ok? <==> Reaches(w, jar, tokens, n)) &&
    (o.result.Ok? ==> o.result.value == Payloads(tokens[..n])) && JarAt(w, jar, tokens, n, o.jar)
  }

  /** Where the loop has come to token `i`, its jar holds the keys known there. */
  lemma JarIsKnown(w: World, jar: Jar, tokens: seq<Jws>, i: nat, after: Jar)
    requires i < |tokens| && Reaches(w, jar, tokens, i) && JarAt(w, jar, tokens, i, after)
    ensures forall e, k :: Held(after, e, k) <==> KnownAt(jar, tokens, i, e, k)
    ensures tokens[i].Jws? ==> (Verifiable(w, after, tokens[i]) <==> VerifiesAt(w, jar, tokens, i))
  {
    forall e, k
      ensures Held(after, e, k) <==> KnownAt(jar, tokens, i, e, k)
    {
      if j :| 0 <= j < i && Lists(tokens[j], e, k) {
        assert GoesPast(w, jar, tokens, j) && Reaches(w, jar, tokens, j);
        assert Brings(w, jar, tokens, j, e, k);
      }
    }
    if tokens[i].Jws? {
      var e := tokens[i].payload.iss;
      assert forall k :: k in KeysOf(after, e) <==> Held(after, e, k);
    }
  }

  lemma BroughtNext(w: World, jar: Jar, tokens: seq<Jws>, n: nat, before: Jar, after: Jar)
    requires n < |tokens| && JarAt(w, jar, tokens, n, before)
    requires forall e, k :: Held(after, e, k) <==> Held(before, e, k) || Brings(w, jar, tokens, n, e, k)
    ensures JarAt(w, jar, tokens, n + 1, after)
  {
    forall e, k
      ensures Held(after, e, k) <==> Held(jar, e, k) || exists j :: j < n + 1 && Brings(w, jar, tokens, j, e, k)
    {
      if j :| j < n && Brings(w, jar, tokens, j, e, k) {
        assert j < n + 1;
      }
      if j :| j < n + 1 && Brings(w, jar, tokens, j, e, k) {
        assert j < n || j == n;
      }
    }
  }

  /** May the token at `n` lack `jwks`, as the loop decides it? */
  lemma LastIsCounted(tokens: seq<Jws>, n: nat)
    requires n < |tokens| && tokens[n].Jws?
    ensures |Payloads(tokens[..n])| == |tokens| - 1 <==> n == |tokens| - 1 && AllSigned(tokens)
  {
    var front := tokens[..n];
    PayloadsNext(front, tokens[n]);
    assert forall i :: 0 <= i < n ==> front[i] == tokens[i];
  }

  lemma OneToken(w: World, jar: Jar, jws: Jws, verified: seq<EntityStatement>, last: int)
    ensures Walk(w, jar, [jws], verified, last) ==
            if jws.NotJws? then Outcome(jar, Ok(verified))
            else if !Verifiable(w, jar, jws) then Outcome(jar, Failure)
            else if jws.payload.jwks.Some? then
              Outcome(AddKeys(jar, jws.payload.sub, jws.payload.jwks.value), Ok(verified + [jws.payload]))
            else Outcome(jar, if |verified| == last then Ok(verified + [jws.payload]) else Failure)
  {
    assert [jws][1..] == [];
  }

  lemma WalkedOneMore(w: World, jar: Jar, tokens: seq<Jws>, n: nat)
    requires n < |tokens| && WalkedTo(w, jar, tokens, n)
    ensures WalkedTo(w, jar, tokens, n + 1)
  {
    var front, jws, last := tokens[..n], tokens[n], |tokens| - 1;
    assert tokens[..n + 1] == front + [jws];
    var before, after := Walk(w, jar, front, [], last), Walk(w, jar, tokens[..n + 1], [], last);
    WalkNext(w, jar, front, jws, [], last);
    PayloadsNext(front, jws);
    assert Reaches(w, jar, tokens, n + 1) <==> Reaches(w, jar, tokens, n) && GoesPast(w, jar, tokens, n);
    if before.result.Ok? {
      OneToken(w, before.jar, jws, before.result.value, last);
      JarIsKnown(w, jar, tokens, n, before.jar);
      if jws.Jws? {
        LastIsCounted(tokens, n);
      }
    }
    KeysGrow(w, jar, tokens, n, before, after);
    BroughtNext(w, jar, tokens, n, before.jar, after.jar);
  }

  lemma KeysGrow(w: World, jar: Jar, tokens: seq<Jws>, n: nat, before: Outcome, after: Outcome)
    requires n < |tokens| && (before.result.Ok? <==> Reaches(w, jar, tokens, n))
    requires before.result.Failure? ==> after == before
    requires before.result.Ok? ==>
      after.jar == if tokens[n].Jws? && VerifiesAt(w, jar, tokens, n) && tokens[n].payload.jwks.Some?
                   then AddKeys(before.jar, tokens[n].payload.sub, tokens[n].payload.jwks.value) else before.jar
    ensures forall e, k :: Held(after.jar, e, k) <==> Held(before.jar, e, k) || Brings(w, jar, tokens, n, e, k)
  {
  }

  lemma {:induction false} WalkIsRight(w: World, jar: Jar, tokens: seq<Jws>, n: nat)
    requires n <= |tokens|
    ensures WalkedTo(w, jar, tokens, n)
  {
    if n > 0 {
      WalkIsRight(w, jar, tokens, n - 1);
      WalkedOneMore(w, jar, tokens, n - 1);
    }
  }

  // ---- Acceptance ----

  /** The top issuer is held and every token verifies in turn. */
  ghost predicate Authentic(w: World, jar: Jar, tokens: seq<Jws>) {
    tokens != [] && tokens[0].Jws? && tokens[0].payload.iss in jar && Reaches(w, jar, tokens, |tokens|)
  }

  ghost predicate Verified(w: World, jar: Jar, tokens: seq<Jws>) {
    Authentic(w, jar, tokens) && Unbroken(Payloads(tokens))
  }

  /** The issuer of a signed JWT is not in the jar, or a restriction turns an authentic chain away. */
  ghost predicate Rejected(w: World, jar: Jar, tokens: seq<Jws>) {
    tokens != [] && tokens[0].Jws? &&
    (tokens[0].payload.iss !in jar || (Authentic(w, jar, tokens) && Broken(Payloads(tokens))))
  }

  /** A chain is accepted if and only if it starts with a signed JWT whose issuer is in the jar, every token verifies with an
      initial key of its issuer or one listed in an earlier token about that issuer, all but the last carry `jwks`, and the
      statements meet the restrictions. What is returned then are the statements; the empty list stands for a rejection. */
  lemma {:induction false} AcceptedIff(w: World, jar: Jar, tokens: seq<Jws>)
    ensures var r := Verify(w, jar, tokens).result;
            (r.Ok? && r.value != [] <==> Verified(w, jar, tokens)) &&
            (r.Ok? && r.value != [] ==> r.value == Payloads(tokens)) &&
            (r == Ok([]) <==> Rejected(w, jar, tokens))
  {
    if tokens != [] && tokens[0].Jws? && tokens[0].payload.iss in jar {
      WalkIsRight(w, jar, tokens, |tokens|);
      assert tokens[..|tokens|] == tokens;
      assert Payloads(tokens) != [];
      MeetsIff(Payloads(tokens));
    }
  }

  ghost predicate Accepted(w: World, jar: Jar, tokens: seq<Jws>) {
    Verified(w, jar, tokens) && AllDated(Payloads(tokens))
  }

  /** `__call__` accepts a chain if and only if every statement is dated, too; otherwise it rejects, or raises. */
  lemma {:induction false} CallAcceptsIff(w: World, jar: Jar, tokens: seq<Jws>)
    ensures var r := Accept(w, jar, tokens).result;
            (r.Ok? && r.value != [] <==> Accepted(w, jar, tokens)) &&
            (r.Ok? && r.value != [] ==> r.value == Payloads(tokens)) &&
            (r == Ok([]) <==> Rejected(w, jar, tokens))
    ensures Accept(w, jar, tokens).jar == Verify(w, jar, tokens).jar
  {
    AcceptedIff(w, jar, tokens);
    if Authentic(w, jar, tokens) {
      assert Payloads(tokens) != [];
      ExpiresWithTheFirst(Payloads(tokens));
    }
  }

  // ---- Keys ----

  ghost predicate CallBrings(w: World, jar: Jar, tokens: seq<Jws>, e: Entity, k: Key) {
    tokens != [] && tokens[0].Jws? && tokens[0].payload.iss in jar && exists j :: Brings(w, jar, tokens, j, e, k)
  }

  lemma KeysAfterCall(w: World, jar: Jar, tokens: seq<Jws>, e: Entity, k: Key)
    ensures Held(Verify(w, jar, tokens).jar, e, k) <==> Held(jar, e, k) || CallBrings(w, jar, tokens, e, k)
  {
    if tokens != [] && tokens[0].Jws? && tokens[0].payload.iss in jar {
      WalkIsRight(w, jar, tokens, |tokens|);
      assert tokens[..|tokens|] == tokens;
    }
  }

  /** After any sequence of calls, accepted, rejected or raising, the jar holds a key for an entity if and only if it did
      before or a token about the entity lists it that some call got as far as verifying. */
  lemma {:induction false} KeysAfterCallsIff(w: World, jar: Jar, calls: seq<seq<Jws>>, e: Entity, k: Key)
    ensures Held(JarAfter(w, jar, calls), e, k) <==>
            Held(jar, e, k) || exists i :: 0 <= i < |calls| && CallBrings(w, JarAfter(w, jar, calls[..i]), calls[i], e, k)
    decreases |calls|
  {
    if calls != [] {
      var front, tokens := calls[..|calls| - 1], calls[|calls| - 1];
      assert calls == front + [tokens];
      KeysAfterCallsIff(w, jar, front, e, k);
      JarAfterNext(w, jar, front, tokens);
      KeysAfterCall(w, JarAfter(w, jar, front), tokens, e, k);
      assert calls[..|front|] == front;
      forall i | 0 <= i < |front|
        ensures calls[..i] == front[..i] && calls[i] == front[i]
      {
      }
    }
  }
}
