/** The template walk `fillClaims`: every string leaf is passed through the request's
    replacer, every nested map is walked recursively, every other value is copied, and
    a claim whose expansion is empty (an empty string, or a nested map all of whose
    claims were dropped) is left out of its parent. */
module FillClaims {
  import opened Wrappers
  import opened Claims

  /** The expansion of one template value, or None when the value is pruned. */
  function Expand(c: Claim, repl: string -> string): (r: Option<Claim>)
    decreases c, 1
    ensures r.Some? ==> SameKind(c, r.value)
    ensures c.Scalar? ==> r == Some(c)
    ensures c.Str? ==> (r.Some? <==> repl(c.s) != "")
    ensures c.Str? && r.Some? ==> r.value.s == repl(c.s)
  {
    match c
    case Str(s) =>
      var expanded := repl(s);
      if expanded == "" then None else Some(Str(expanded))
    case Scalar(_) => Some(c)
    case Nested(m) =>
      var nested := Fill(m, repl);
      if |nested| == 0 then None else Some(Nested(nested))
  }

  /** The claims object `fillClaims` builds from the template `pat`. */
  function Fill(pat: ClaimMap, repl: string -> string): (r: ClaimMap)
    decreases Nested(pat), 0
    ensures r.Keys <= pat.Keys
    ensures forall k | k in r :: SameKind(pat[k], r[k])
    ensures forall k | k in pat && pat[k].Str? ::
              (k in r <==> repl(pat[k].s) != "") && (k in r ==> r[k] == Str(repl(pat[k].s)))
    ensures forall k | k in pat && pat[k].Scalar? :: k in r && r[k] == pat[k]
  {
    map k | k in pat && Expand(pat[k], repl).Some? :: Expand(pat[k], repl).value
  }

  /** A nested map is kept under its key exactly when its own expansion is non-empty,
      and then it is that expansion. */
  lemma NestedKeptIffNonEmpty(pat: ClaimMap, repl: string -> string, k: string)
    requires k in pat && pat[k].Nested?
    ensures k in Fill(pat, repl) <==> |Fill(pat[k].m, repl)| > 0
    ensures k in Fill(pat, repl) ==> Fill(pat, repl)[k] == Nested(Fill(pat[k].m, repl))
  {
  }

  /** A claim has a live leaf when it holds a non-string, non-map value, or a string
      leaf whose replacement is non-empty, somewhere inside it. */
  predicate HasLiveLeaf(c: Claim, repl: string -> string)
    decreases c
  {
    match c
    case Str(s) => repl(s) != ""
    case Scalar(_) => true
    case Nested(m) => exists k | k in m :: HasLiveLeaf(m[k], repl)
  }

  /** A value survives the walk exactly when it has a live leaf: pruning removes a
      nested map only when every leaf below it expanded to nothing. */
  lemma {:induction false} KeptIffLiveLeaf(c: Claim, repl: string -> string)
    ensures Expand(c, repl).Some? <==> HasLiveLeaf(c, repl)
    decreases c
  {
    match c
    case Str(_) =>
    case Scalar(_) =>
    case Nested(m) =>
      forall k | k in m
        ensures Expand(m[k], repl).Some? <==> HasLiveLeaf(m[k], repl)
      {
        KeptIffLiveLeaf(m[k], repl);
      }
      var nested := Fill(m, repl);
      if HasLiveLeaf(c, repl) {
        var k :| k in m && HasLiveLeaf(m[k], repl);
        assert k in nested;
      } else {
        assert nested.Keys == {};
      }
  }

  /** A key of the template is in the claims object exactly when its value has a live
      leaf. */
  lemma FillKeys(pat: ClaimMap, repl: string -> string)
    ensures forall k | k in pat :: k in Fill(pat, repl) <==> HasLiveLeaf(pat[k], repl)
  {
    forall k | k in pat
      ensures k in Fill(pat, repl) <==> HasLiveLeaf(pat[k], repl)
    {
      KeptIffLiveLeaf(pat[k], repl);
    }
  }

  /** Whatever the replacer does, the expansion of a value has no empty string and no
      empty nested map at any depth. */
  lemma {:induction false} ExpandIsPruned(c: Claim, repl: string -> string)
    requires Expand(c, repl).Some?
    ensures Pruned(Expand(c, repl).value)
    decreases c, 1
  {
    match c
    case Str(_) =>
    case Scalar(_) =>
    case Nested(m) => FillIsPruned(m, repl);
  }

  /** Whatever the replacer does, the claims object has no empty string and no empty
      nested map at any depth. */
  lemma {:induction false} FillIsPruned(pat: ClaimMap, repl: string -> string)
    ensures PrunedMap(Fill(pat, repl))
    decreases Nested(pat), 0
  {
    var r := Fill(pat, repl);
    forall k | k in r
      ensures Pruned(r[k])
    {
      ExpandIsPruned(pat[k], repl);
    }
  }

  /** Every string leaf of a claim expands to a non-empty string and every nested map is
      non-empty. */
  predicate AllLeavesResolve(c: Claim, repl: string -> string)
    decreases c
  {
    match c
    case Str(s) => repl(s) != ""
    case Scalar(_) => true
    case Nested(m) => |m| > 0 && forall k | k in m :: AllLeavesResolve(m[k], repl)
  }

  /** A claim whose every leaf resolves has a live leaf. */
  lemma {:induction false} ResolvedHasLiveLeaf(c: Claim, repl: string -> string)
    requires AllLeavesResolve(c, repl)
    ensures HasLiveLeaf(c, repl)
    decreases c
  {
    match c
    case Str(_) =>
    case Scalar(_) =>
    case Nested(m) =>
      var k :| k in m;
      ResolvedHasLiveLeaf(m[k], repl);
  }

  /** When every placeholder of the template resolves, nothing is pruned: the claims
      object has exactly the template's keys (and, by `Fill`'s contract, each string
      leaf under its key with its expanded value). */
  lemma ResolvedKeepsAllKeys(pat: ClaimMap, repl: string -> string)
    requires forall k | k in pat :: AllLeavesResolve(pat[k], repl)
    ensures Fill(pat, repl).Keys == pat.Keys
  {
    forall k | k in pat
      ensures k in Fill(pat, repl)
    {
      ResolvedHasLiveLeaf(pat[k], repl);
      KeptIffLiveLeaf(pat[k], repl);
    }
  }

  /** The replacer that leaves every string as it is. */
  function Identity(s: string): string {
    s
  }

  /** With a replacer that changes nothing, the walk leaves a pruned value as it is. */
  lemma {:induction false} ExpandIdentityOnPruned(c: Claim)
    requires Pruned(c)
    ensures Expand(c, Identity) == Some(c)
    decreases c, 1
  {
    match c
    case Str(_) =>
    case Scalar(_) =>
    case Nested(m) => FillIdentityOnPruned(m);
  }

  /** With a replacer that changes nothing, the walk leaves a pruned map as it is. */
  lemma {:induction false} FillIdentityOnPruned(pat: ClaimMap)
    requires PrunedMap(pat)
    ensures Fill(pat, Identity) == pat
    decreases Nested(pat), 0
  {
    var r := Fill(pat, Identity);
    forall k | k in pat
      ensures k in r && r[k] == pat[k]
    {
      ExpandIdentityOnPruned(pat[k]);
    }
    assert r.Keys == pat.Keys;
  }

  /** Pruning is idempotent: walking a claims object again with a replacer that changes
      nothing gives it back unchanged. */
  lemma PruningIsIdempotent(pat: ClaimMap, repl: string -> string)
    ensures Fill(Fill(pat, repl), Identity) == Fill(pat, repl)
  {
    FillIsPruned(pat, repl);
    FillIdentityOnPruned(Fill(pat, repl));
  }

  /** The replacer of the scenario below: `{user}` resolves to "alice", `{name}` to
      nothing. */
  function ScenarioReplacer(s: string): string {
    if s == "{user}" then "alice" else if s == "{name}" then "" else s
  }

  /** A nested map whose only string leaf resolves to nothing is dropped, together with
      its key, while the resolved string and the boolean stay. */
  lemma ProfileScenario()
    ensures Fill(map["sub" := Str("{user}"),
                     "admin" := Scalar(Bool(true)),
                     "profile" := Nested(map["name" := Str("{name}")])], ScenarioReplacer)
            == map["sub" := Str("alice"), "admin" := Scalar(Bool(true))]
  {
  }
}
