# jwt_signer claim-template engine, modelled in Dafny

`jwt_signer` is a Caddy HTTP handler. For each request it mints a short-lived HS256 JSON
Web Token from a claim template and publishes it as the replacer variable
`http.jwt_signer.digest_str`. The template is a nested map. Its string leaves may hold
placeholders, which the request's replacer fills in. The handler is configured with a
duration template, a secret template and the claim template.

This project models the parts of `signer.go` that carry logic:

- `claims.dfy` (module `Claims`): the claim tree. A node is a string leaf, a nested map,
  or any other JSON value (`Literal`) that is copied verbatim. The module also states
  what a pruned tree is and what a template built from the Caddyfile looks like.
- `fill.dfy` (module `FillClaims`): `fillClaims`, the recursive walk that expands string
  leaves. A leaf that expands to `""` is dropped. A nested map left empty is dropped from
  its parent, at every depth. The lemmas prove these pruning and membership rules by
  structural induction. A claim survives exactly when it has a live leaf. The result is
  pruned at every depth. Walking again with the identity replacer changes nothing.
- `signer.dfy` (module `Signer`): `Validate` and `ServeHTTP`. The request's replacer,
  `time.ParseDuration`, `time.Now` and the HS256 signer are inputs of the model
  (`Env`). The request fails, and nothing is published, if there is no replacer, if the
  duration or secret replaces to `""`, if the duration does not parse, or if signing
  fails. Otherwise `iat` and `exp` are written over the expanded claims last, the claims
  are signed, and the token is published.
- `caddyfile.dfy` (module `Caddyfile`): `UnmarshalCaddyfile` and `parseClaimsCaddyfile`,
  over a directive already split into lines (`Entry`: key, arguments, nested block).
- `wrappers.dfy` (module `Wrappers`): `Option` and `Result`.

Points worth knowing:

- Pruning treats "expands to nothing" as "absent", not as "present with value `""`".
  This is a deliberate choice in the code. It removes whole nested groups whose
  placeholders are all unresolved.
- Go iterates maps in an unspecified order. So when both the duration and the secret
  are empty, which name `Validate` and `ServeHTTP` report is not fixed. The model takes
  the order as an input (`Order`). The contracts say the reported name is always an
  empty one, and that it does not depend on the order when only one is empty.
- Time is in nanoseconds since the epoch. `Time.Unix()` rounds down, which is Dafny's
  `/` by a positive divisor. So `exp - iat` equals the duration whenever the duration is
  whole seconds, at any clock. For a duration with a fraction of a second, it is the
  duration's whole seconds or one more, depending on the clock.
- Duplicate keys in a claims block are not rejected: the last line wins
  (`Caddyfile.LastLineWins`). This follows the code.
- A template built from the Caddyfile holds nested `jwt.MapClaims` values. The code's
  type switch matches `map[string]any`. Caddy turns the adapted Caddyfile into JSON and
  decodes it again before use, so at request time nested maps are `map[string]any`. The
  model treats every nested map alike.

## Model

| member | source | states |
|---|---|---|
| `Claims.CaddyfileClaimIsPruned` | signer.go:160-184 | a claim built from the Caddyfile has no empty string and no empty nested map at any depth |
| `Claims.CaddyfileMapIsPruned` | signer.go:151-192 | a claims map built from the Caddyfile is pruned at every depth |
| `FillClaims.Expand` | signer.go:103-120 | an expanded value has the kind of its template value; a non-string, non-map value is always kept unchanged; a string leaf is kept exactly when its replacement is non-empty, with the replaced text |
| `FillClaims.Fill` | signer.go:99-128 | output keys are template keys with the same kind; a string leaf replacing to `""` is absent and otherwise holds exactly the replaced string; every other non-map value is present and unchanged whatever the replacer does |
| `FillClaims.NestedKeptIffNonEmpty` | signer.go:110-116 | a nested map appears under its key exactly when its own expansion is non-empty, and then holds that expansion |
| `FillClaims.KeptIffLiveLeaf` | signer.go:102-127 | a value survives the walk exactly when, somewhere inside it, there is a non-string value or a string whose replacement is non-empty |
| `FillClaims.FillKeys` | signer.go:102-127 | a template key is in the claims object exactly when its value has such a live leaf |
| `FillClaims.ExpandIsPruned` | signer.go:104-116 | a kept value holds no empty string and no empty map at any depth |
| `FillClaims.FillIsPruned` | signer.go:104-127 | for every replacer, no empty map and no empty string appears at any nested level of the claims object |
| `FillClaims.ResolvedKeepsAllKeys` | signer.go:104-120 | when every placeholder resolves and no nested map is empty, the claims object has exactly the template's keys |
| `FillClaims.ExpandIdentityOnPruned` | signer.go:103-120 | the identity replacer leaves a pruned value unchanged |
| `FillClaims.FillIdentityOnPruned` | signer.go:99-128 | the identity replacer leaves a pruned claims map unchanged |
| `FillClaims.PruningIsIdempotent` | signer.go:99-128 | walking a claims object again with the identity replacer returns it unchanged |
| `FillClaims.ProfileScenario` | signer.go:102-127 | `{sub: "{user}", admin: true, profile: {name: "{name}"}}` with `{name}` unresolved gives `{sub: "alice", admin: true}` |
| `Signer.InOrder` | signer.go:62-67 | the checked parameters are visited in some order, each exactly once |
| `Signer.FirstEmpty` | signer.go:67-71 | no name is reported exactly when every value is non-empty; otherwise the reported name is the first empty one in iteration order |
| `Signer.Validate` | signer.go:37-50 | the handler is accepted exactly when duration and secret are both non-empty; an error names an empty parameter, and the only empty one when just one is |
| `Signer.UnixSeconds` | signer.go:84-85 | Unix seconds are the nanosecond time rounded down to a whole second |
| `Signer.Stamp` | signer.go:80-85 | `iat` and `exp` are set at the top level, overwriting any template-produced ones, and every other claim is left as it is |
| `Signer.Issue` | signer.go:55-92 | a token is issued exactly when a replacer exists, duration and secret replace to non-empty strings, the duration parses and signing succeeds; then it is the signature of the expanded claims plus `iat = now` and `exp = now + dur`. Each failure carries its cause: no replacer gives `NoReplacer`; an empty duration or secret gives `EmptyAfterReplacement` naming an empty one; a parse failure gives `InvalidDuration` with the replaced text; a signing failure gives `SigningFailed` with the signing library's message |
| `Signer.Serve` | signer.go:87-96 | on any failure the published variables are unchanged; on success only the token's variable is set, to the signed token |
| `Signer.ValidityWindow` | signer.go:83-85 | `exp - iat` is the duration's whole seconds or one more, and exactly the duration for a whole-second duration at any clock |
| `Signer.IssuedWindowIsDuration` | signer.go:80-85 | an issued token with a whole-second duration, at any clock, has `exp - iat` equal to the duration |
| `Signer.DurationChangesClaims` | signer.go:84-85 | two different whole-second durations give different signed claims objects |
| `Signer.FifteenMinutesScenario` | signer.go:73-85 | a fifteen-minute duration at second 1000 gives `iat = 1000`, `exp = 1900` |
| `Caddyfile.ParseEntry` | signer.go:154-184 | a claim line is refused for an empty key, an empty value, extra arguments after the value, a value followed by a non-empty block (reported as a `{` line with no value, since the parser reads the brace as the next key), an empty or missing block without a value, or an error inside its block (reported under the key); an accepted line with a value is that string, and one without is the nested map its block parses to |
| `Caddyfile.ParseBlock` | signer.go:151-192 | a parsed block has exactly the keys of its lines, and is a well-formed template: non-empty names, non-empty strings and non-empty nested maps only |
| `Caddyfile.ParseEntryOkIffValid` | signer.go:154-184 | a line parses exactly when its key is non-empty and it has one non-empty value and no block, or no value and a non-empty block of valid lines |
| `Caddyfile.ParseBlockOkIffValid` | signer.go:151-192 | a block parses exactly when every one of its lines is valid, at every depth |
| `Caddyfile.FirstBadLineReported` | signer.go:154-185 | a failed block reports the error of its first bad line, and all lines before it parse |
| `Caddyfile.LastLineWins` | signer.go:170-181 | a key of a parsed block holds the claim of the last line with that key |
| `Caddyfile.Unmarshal` | signer.go:137-149 | the directive needs exactly two positional arguments, which become duration and secret; block errors pass through unchanged; the claims are the parsed block |
| `Caddyfile.EmptyBlocks` | signer.go:174-191 | a missing top-level claims block gives no claims, while a claim line with neither value nor block is refused |
| `Caddyfile.CaddyfileTemplateSurvivesIdentity` | signer.go:104-116 | a template loaded from the Caddyfile loses nothing to pruning under the identity replacer |

## Left out

- Placeholder syntax and resolution of `caddy.Replacer`: the replacer is an opaque `string -> string` function. The published-variables map of `Serve` is not connected to what that function reads.
- HS256 signing and the JSON encoding of claims by golang-jwt: an opaque, deterministic function that may fail with a message.
- `time.ParseDuration` and `time.Now`: an opaque partial parser to nanoseconds and an input clock. Overflow of Go's 64-bit nanosecond durations and times is not modelled.
- Logging with zap: it has no effect on behaviour.
- Module registration, directive ordering, `CaddyModule`, `parseCaddyfile`, `Provision`, and the hand-off to the next handler: this is host plumbing. `Serve` stops before the hand-off.
- The Caddyfile lexer and the `Dispenser` cursor: the directive arrives split into lines. The parser does not enter a block opened by a line that has a value. Its next loop turn reads the `{` as a key with neither value nor block, so the directive fails. The model reports this as `NoValue("{")`, the error for a block written over several lines. A block written on one line (`k v { a b }`) gives a different error message in the code.
- Caddyfile.ParseEntry: an `Entry` cannot tell `k v` apart from `k v` followed by a block that is closed at once. The model accepts both as the value `v`. The code rejects the multi-line form. (Written without a space, `k v {}` is three tokens, and the model, like the code, refuses it with `TooManyArguments`.) Brace tokens in other unusual places are not modelled either.
- The missing-replacer case: the code's type assertion panics when the request context holds no replacer at all, and returns an error for a nil replacer. Both become `NoReplacer`.
- Which concrete Go type a nested map has (`jwt.MapClaims` or `map[string]any`): see the note above. Every nested map is walked.
- JSON arrays are copied verbatim. The model's arrays hold only non-string, non-object literals; no rule looks inside them.
- Concurrent requests sharing the template: the model is sequential, and the template is an immutable value.
- Signer.DurationChangesClaims: it proves that the signed claims objects differ, not the tokens, because the signer is opaque and need not be injective.
