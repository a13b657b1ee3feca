/** The record that follows one accepted chain through verification and policy application: `TrustChain` in
    statement.py. */
module TrustChains {
  import opened Wrappers
  import opened Statements

  class TrustChain {
    var anchor: Entity
    var exp: int
    var issPath: seq<Entity>
    var verifiedChain: seq<EntityStatement>
    var chain: seq<Jws>
    var metadata: map<string, Option<Claims>>
    /** For a chain of one statement: what `metadata` is replaced by. */
    var replaced: Option<Claims>
    var combinedPolicy: map<string, TypePolicy>

    constructor (exp: int, verifiedChain: seq<EntityStatement>)
      ensures this.exp == exp && this.verifiedChain == verifiedChain
      ensures anchor == "" && issPath == [] && chain == [] && metadata == map[] && replaced == None && combinedPolicy == map[]
    {
      this.exp, this.verifiedChain := exp, verifiedChain;
      anchor, issPath, chain := "", [], [];
      metadata, replaced, combinedPolicy := map[], None, map[];
    }
  }
}
