/** The data the federation functions exchange: claim values, claim policies, entity statements, signed tokens. */
module Statements {
  import opened Wrappers

  type Entity = string

  datatype Atom = Str(s: string) | Num(n: int) | Flag(b: bool)

  /** A claim value. `Unordered` is a Python list made by `list(set(...))`: its members are fixed, its order is not. */
  datatype Value = Scalar(atom: Atom) | List(items: seq<Atom>) | Unordered(members: set<Atom>) {

    /** `isinstance(v, list)` */
    predicate IsList() {
      !Scalar?
    }

    /** `set(v)`: a string gives its characters, any other scalar is a TypeError. */
    function Members(): Result<set<Atom>> {
      match this
      case List(items) => Ok(set a | a in items)
      case Unordered(members) => Ok(members)
      case Scalar(Str(s)) => Ok(set c | c in s :: Str([c]))
      case Scalar(_) => Failure
    }

    /** `set(v)` of a list, `{v}` of a scalar. */
    function Wrapped(): set<Atom> {
      match this
      case List(items) => set a | a in items
      case Unordered(members) => members
      case Scalar(a) => {a}
    }

    /** `a in v`: membership in a list, the substring test in a string. */
    function Contains(a: Atom): Result<bool> {
      match this
      case List(items) => Ok(a in items)
      case Unordered(members) => Ok(a in members)
      case Scalar(Str(t)) => if a.Str? then Ok(IsSubstring(a.s, t)) else Failure
      case Scalar(_) => Failure
    }

    /** `bool(v)` */
    predicate Truthy() {
      match this
      case List(items) => items != []
      case Unordered(members) => members != {}
      case Scalar(Str(s)) => s != ""
      case Scalar(Num(n)) => n != 0
      case Scalar(Flag(b)) => b
    }
  }

  const TRUE := Scalar(Flag(true))
  const FALSE := Scalar(Flag(false))

  predicate IsSubstring(s: string, t: string) {
    s <= t || (t != [] && IsSubstring(s, t[1..]))
  }

  ghost predicate OccursAt(s: string, t: string, i: int) {
    0 <= i && i + |s| <= |t| && t[i..i + |s|] == s
  }

  lemma {:induction false} SubstringMeans(s: string, t: string)
    ensures IsSubstring(s, t) <==> exists i :: OccursAt(s, t, i)
  {
    if s <= t {
      assert OccursAt(s, t, 0);
    } else if t != [] {
      SubstringMeans(s, t[1..]);
      if i :| OccursAt(s, t[1..], i) {
        assert t[i + 1..i + 1 + |s|] == t[1..][i..i + |s|];
        assert OccursAt(s, t, i + 1);
      }
      if i :| OccursAt(s, t, i) {
        assert i != 0 ==> t[1..][i - 1..i - 1 + |s|] == t[i..i + |s|];
        assert OccursAt(s, t[1..], i - 1);
      }
    }
  }

  /** Equal, or two lists with the same members: what `set(a) == set(b)` compares in lists. */
  predicate SameSet(v: Value, w: Value) {
    v == w || (v.IsList() && w.IsList() && v.Wrapped() == w.Wrapped())
  }

  /** The keys of a claim policy; `OtherOp` is a key the code does not recognise. */
  datatype Operator =
    | ValueOp | AddOp | DefaultOp | OneOfOp | SubsetOfOp | SupersetOfOp | EssentialOp
    | OtherOp(name: string)

  function OperatorNamed(name: string): Operator {
    match name
    case "value" => ValueOp
    case "add" => AddOp
    case "default" => DefaultOp
    case "one_of" => OneOfOp
    case "subset_of" => SubsetOfOp
    case "superset_of" => SupersetOfOp
    case "essential" => EssentialOp
    case _ => OtherOp(name)
  }

  type ClaimPolicy = map<Operator, Value>

  type Claims = map<string, Value>

  /** A policy for each of some claims. */
  type Policies = map<string, ClaimPolicy>

  /** What one statement says for one entity type. An absent part is an empty map. */
  datatype TypePolicy = TypePolicy(metadata: Claims, policy: Policies)

  const NO_POLICY := TypePolicy(map[], map[])

  datatype NamingConstraints = NamingConstraints(permitted: Option<seq<string>>, excluded: Option<seq<string>>)

  datatype Constraints = Constraints(maxPathLength: Option<int>, naming: Option<NamingConstraints>)

  datatype Key = Key(kid: string, material: nat)

  /** `metadata.federation_entity` of a configuration and the fetch endpoint in it; a missing
      `federation_entity` makes the lookup raise, a missing or empty endpoint does not. */
  datatype FetchEndpoint = NoFederationEntity | NoEndpoint | FetchAt(url: string)

  /** The payload of a statement. Nothing checks that `exp` is there; what reads it raises if it is not. */
  datatype EntityStatement = EntityStatement(
    iss: Entity,
    sub: Entity,
    exp: Option<int>,
    jwks: Option<seq<Key>>,
    authorityHints: Option<seq<Entity>>,
    fetchEndpoint: FetchEndpoint,
    constraints: Option<Constraints>,
    metadata: map<string, Claims>,
    metadataPolicy: map<string, Policies>)

  /** A document: a signed statement, or text that is not a signed JWT. */
  datatype Jws = Jws(payload: EntityStatement, signature: nat) | NotJws(text: string)

  /** Everything outside the program: which keys verify a token, and what the network serves.
      `None` stands for a request that raises. */
  datatype World = World(
    selects: (Jws, Key) -> bool,
    verifies: (Jws, Key) -> bool,
    configuration: Entity -> Option<Jws>,
    statement: (string, Entity, Entity) -> Option<Jws>)
}
