/** The order on host names behind naming constraints: `remove_scheme` and `more_specific` in constraints.py. */
module Names {
  import opened Wrappers

  /** `s.split('.')` */
  function Split(s: string): (labels: seq<string>)
    ensures labels != []
  {
    if s == [] then
      [""]
    else
      var rest := Split(s[1..]);
      if s[0] == '.' then [""] + rest else [[s[0]] + rest[0]] + rest[1..]
  }

  function Join(labels: seq<string>): string
    requires labels != []
  {
    if |labels| == 1 then labels[0] else labels[0] + "." + Join(labels[1..])
  }

  /** The labels hold no dot, and joined by dots they give the name back. */
  lemma {:induction false} JoinSplit(s: string)
    ensures Join(Split(s)) == s
    ensures forall part :: part in Split(s) ==> '.' !in part
  {
    if s != [] {
      var rest := Split(s[1..]);
      JoinSplit(s[1..]);
      assert forall part :: part in rest <==> part == rest[0] || part in rest[1..];
      if s[0] == '.' {
        assert ([""] + rest)[1..] == rest;
        assert Join(Split(s)) == "" + "." + Join(rest);
      } else {
        var labels := [[s[0]] + rest[0]] + rest[1..];
        assert labels[1..] == rest[1..];
        assert Join(labels) == [s[0]] + Join(rest);
      }
    }
  }

  /** `remove_scheme`: a ValueError for anything but http and https. */
  function RemoveScheme(url: string): Result<string> {
    if "https://" <= url then Ok(url[8..])
    else if "http://" <= url then Ok(url[7..])
    else Failure
  }

  lemma {:induction false} RemoveSchemeIff(url: string, name: string)
    ensures RemoveScheme(url) == Ok(name) <==> url == "https://" + name || url == "http://" + name
  {
    var s, h := "https://", "http://";
    assert s <= url ==> url == s + url[8..];
    assert h <= url ==> url == h + url[7..];
    assert (s + name)[8..] == name && (h + name)[7..] == name;
    assert h <= url ==> url[4] == h[4] == ':';
    assert s <= url ==> url[4] == s[4] == 's';
  }

  predicate HasScheme(url: string) {
    RemoveScheme(url).Ok?
  }

  /** The labels of a name, last label first. */
  function Labels(url: string): seq<string>
    requires HasScheme(url)
  {
    Reverse(Split(RemoveScheme(url).value))
  }

  /** The verdict of the first place where two label lists differ: an empty label of `b` matches anything. */
  predicate Agrees(a: seq<string>, b: seq<string>) {
    a == [] || b == [] || (if a[0] != b[0] then b[0] == "" else Agrees(a[1..], b[1..]))
  }

  predicate Below(a: seq<string>, b: seq<string>) {
    |a| >= |b| && Agrees(a, b)
  }

  /** `more_specific(a, b)` */
  function MoreSpecific(a: string, b: string): Result<bool> {
    if HasScheme(a) && HasScheme(b) then Ok(Below(Labels(a), Labels(b))) else Failure
  }

  ghost predicate Under(a: string, b: string) {
    MoreSpecific(a, b) == Ok(true)
  }

  /** The loop of `more_specific` over the zipped, reversed labels. */
  method CompareNames(a: string, b: string) returns (r: Result<bool>)
    ensures r == MoreSpecific(a, b)
  {
    var aName, bName := RemoveScheme(a), RemoveScheme(b);
    if aName.Failure? || bName.Failure? {
      return Failure;
    }
    var aPart, bPart := Reverse(Split(aName.value)), Reverse(Split(bName.value));
    if |aPart| < |bPart| {
      return Ok(false);
    }
    var i := 0;
    while i < |bPart|
      invariant 0 <= i <= |bPart|
      invariant Agrees(aPart, bPart) == Agrees(aPart[i..], bPart[i..])
    {
      if aPart[i] != bPart[i] {
        return Ok(bPart[i] == "");
      }
      assert aPart[i..][1..] == aPart[i + 1..] && bPart[i..][1..] == bPart[i + 1..];
      i := i + 1;
    }
    r := Ok(true);
  }

  // ---- The order ----

  /** An independent reading: `b` is a prefix of `a`, or the two part where `b` has an empty label and `a` has not. */
  ghost predicate BelowAt(a: seq<string>, b: seq<string>, k: nat) {
    k <= |b| && |b| <= |a| && a[..k] == b[..k] && (k < |b| ==> b[k] == "" && a[k] != "")
  }

  lemma {:induction false} BelowMeans(a: seq<string>, b: seq<string>)
    ensures Below(a, b) <==> exists k: nat :: BelowAt(a, b, k)
  {
    if |a| >= |b| {
      if b == [] {
        assert BelowAt(a, b, 0);
      } else if a[0] != b[0] {
        if b[0] == "" {
          assert BelowAt(a, b, 0);
        }
      } else {
        BelowMeans(a[1..], b[1..]);
        if Below(a, b) {
          var k: nat :| BelowAt(a[1..], b[1..], k);
          assert a[..k + 1] == [a[0]] + a[1..][..k] && b[..k + 1] == [b[0]] + b[1..][..k];
          assert BelowAt(a, b, k + 1);
        }
        if k: nat :| BelowAt(a, b, k) {
          assert k != 0;
          assert a[1..][..k - 1] == a[..k][1..] && b[1..][..k - 1] == b[..k][1..];
          assert BelowAt(a[1..], b[1..], k - 1);
        }
      }
    }
  }

  lemma AgreesReflexive(a: seq<string>)
    ensures Agrees(a, a)
  {
  }

  lemma {:induction false} AgreesAntisymmetric(a: seq<string>, b: seq<string>)
    requires Agrees(a, b) && Agrees(b, a) && |a| == |b|
    ensures a == b
  {
    if a != [] {
      AgreesAntisymmetric(a[1..], b[1..]);
      assert a == [a[0]] + a[1..] && b == [b[0]] + b[1..];
    }
  }

  lemma {:induction false} AgreesTransitive(a: seq<string>, b: seq<string>, c: seq<string>)
    requires Agrees(a, b) && Agrees(b, c) && |a| >= |b| >= |c|
    ensures Agrees(a, c)
  {
    if c != [] && a[0] == b[0] == c[0] {
      AgreesTransitive(a[1..], b[1..], c[1..]);
    }
  }

  lemma {:induction false} ReverseInjective<T>(s: seq<T>, t: seq<T>)
    requires Reverse(s) == Reverse(t)
    ensures s == t
  {
    forall i | 0 <= i < |s|
      ensures s[i] == t[i]
    {
      assert Reverse(s)[|s| - 1 - i] == s[i] && Reverse(t)[|t| - 1 - i] == t[i];
    }
  }

  /** `more_specific` is a partial order on names without their scheme, whatever empty labels the names have. */
  lemma MoreSpecificIsPartialOrder(a: string, b: string, c: string)
    ensures HasScheme(a) ==> Under(a, a)
    ensures Under(a, b) && Under(b, a) ==> RemoveScheme(a) == RemoveScheme(b)
    ensures Under(a, b) && Under(b, c) ==> Under(a, c)
  {
    if HasScheme(a) {
      AgreesReflexive(Labels(a));
    }
    if Under(a, b) && Under(b, a) {
      AgreesAntisymmetric(Labels(a), Labels(b));
      ReverseInjective(Split(RemoveScheme(a).value), Split(RemoveScheme(b).value));
      JoinSplit(RemoveScheme(a).value);
      JoinSplit(RemoveScheme(b).value);
    }
    if Under(a, b) && Under(b, c) {
      AgreesTransitive(Labels(a), Labels(b), Labels(c));
    }
  }
}
