/** The claim tree of a token: the template the signer is configured with and the
    concrete claims object it produces have the same shape (`jwt.MapClaims`, a map
    from claim name to a string, a nested map or any other JSON value). */
module Claims {

  /** A JSON value that is neither a string nor an object: what the template walk
      copies verbatim. `Int` holds the 64-bit timestamps the signer injects, `Number`
      a decoded JSON number. */
  datatype Literal =
    | Null
    | Bool(b: bool)
    | Int(i: int)
    | Number(x: real)
    | Array(items: seq<Literal>)

  /** One node of a claim tree. */
  datatype Claim =
    | Str(s: string)
    | Scalar(v: Literal)
    | Nested(m: map<string, Claim>)

  type ClaimMap = map<string, Claim>

  /** Both claims are strings, both are scalars, or both are nested maps. */
  predicate SameKind(a: Claim, b: Claim) {
    || (a.Str? && b.Str?)
    || (a.Scalar? && b.Scalar?)
    || (a.Nested? && b.Nested?)
  }

  /** No string leaf is empty and no nested map is empty, at any depth: the shape of
      every claims object the template walk produces. */
  predicate Pruned(c: Claim)
    decreases c, 1
  {
    match c
    case Str(s) => s != ""
    case Scalar(_) => true
    case Nested(m) => |m| > 0 && PrunedMap(m)
  }

  predicate PrunedMap(m: ClaimMap)
    decreases Nested(m), 0
  {
    forall k | k in m :: Pruned(m[k])
  }

  /** A template as the Caddyfile front end builds it: non-empty claim names, only
      non-empty string leaves and non-empty nested maps. */
  predicate CaddyfileClaim(c: Claim)
    decreases c, 1
  {
    match c
    case Str(s) => s != ""
    case Scalar(_) => false
    case Nested(m) => |m| > 0 && CaddyfileMap(m)
  }

  predicate CaddyfileMap(m: ClaimMap)
    decreases Nested(m), 0
  {
    forall k | k in m :: k != "" && CaddyfileClaim(m[k])
  }

  /** Every template the Caddyfile front end can build is already pruned. */
  lemma {:induction false} CaddyfileClaimIsPruned(c: Claim)
    requires CaddyfileClaim(c)
    ensures Pruned(c)
    decreases c, 1
  {
    match c
    case Str(_) =>
    case Scalar(_) =>
    case Nested(m) => CaddyfileMapIsPruned(m);
  }

  lemma {:induction false} CaddyfileMapIsPruned(m: ClaimMap)
    requires CaddyfileMap(m)
    ensures PrunedMap(m)
    decreases Nested(m), 0
  {
    forall k | k in m
      ensures Pruned(m[k])
    {
      CaddyfileClaimIsPruned(m[k]);
    }
  }
}
