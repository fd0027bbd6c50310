/** The `jwt_signer` handler: the configured signer, its load-time validation and the
    per-request token issuance of `ServeHTTP`. The request's replacer, the duration
    parser, the clock and the HS256 signer are parameters of the model. */
module Signer {
  import opened Wrappers
  import opened Claims
  import FillClaims

  /** A configured handler: the duration and secret templates and the claim template. */
  datatype JwtSigner = JwtSigner(dur: string, secret: string, claims: ClaimMap)

  /** The order in which a Go map of two parameters happens to be iterated; Go leaves
      it unspecified, so the model takes it as an input. */
  datatype Order = DurationFirst | SecretFirst

  /** The two named parameters of a check, in iteration order. */
  function InOrder(order: Order, dur: (string, string), secret: (string, string)): (ps: seq<(string, string)>)
    ensures multiset(ps) == multiset{dur, secret}
  {
    match order
    case DurationFirst => [dur, secret]
    case SecretFirst => [secret, dur]
  }

  /** The name of the first parameter, in iteration order, whose value is empty. */
  function FirstEmpty(params: seq<(string, string)>): (r: Option<string>)
    ensures r.None? <==> forall i | 0 <= i < |params| :: params[i].1 != ""
    ensures r.Some? ==> exists i | 0 <= i < |params| ::
              params[i] == (r.value, "") && forall j | 0 <= j < i :: params[j].1 != ""
  {
    if |params| == 0 then None
    else if params[0].1 == "" then Some(params[0].0)
    else FirstEmpty(params[1..])
  }

  datatype ValidationError = MissingParameter(name: string)

  /** `Validate`: the handler is usable only with a duration and a secret. */
  function Validate(s: JwtSigner, order: Order): (r: Option<ValidationError>)
    ensures r.None? <==> s.dur != "" && s.secret != ""
    ensures r.Some? ==> || (r.value == MissingParameter("duration") && s.dur == "")
                        || (r.value == MissingParameter("secret") && s.secret == "")
    ensures s.dur == "" && s.secret != "" ==> r == Some(MissingParameter("duration"))
    ensures s.dur != "" && s.secret == "" ==> r == Some(MissingParameter("secret"))
  {
    match FirstEmpty(InOrder(order, ("duration", s.dur), ("secret", s.secret)))
    case None => None
    case Some(name) => Some(MissingParameter(name))
  }

  /** Everything a request brings that is outside this handler. */
  datatype Env = Env(
    /** The request's placeholder replacer (`ReplaceAll(_, "")`), if the request has one. */
    replacer: Option<string -> string>,
    /** `time.ParseDuration`: a duration in nanoseconds, or None on a parse error. */
    parseDuration: string -> Option<int>,
    /** HS256 signing of a claims object with a secret: the compact token or the
        signing library's error message. */
    sign: (ClaimMap, string) -> Result<string, string>,
    /** `time.Now()`, in nanoseconds since the Unix epoch. */
    nowNanos: int,
    /** Iteration order of the map of values checked for emptiness. */
    order: Order)

  datatype ServeError =
    | NoReplacer
    | EmptyAfterReplacement(name: string)
    | InvalidDuration(text: string)
    | SigningFailed(message: string)

  /** A signed token and the claims object it was signed over. */
  datatype Token = Token(claims: ClaimMap, signed: string)

  const NanosPerSecond: int := 1_000_000_000

  /** The replacer variable under which the token is published. */
  const DigestName: string := "http.jwt_signer.digest_str"

  /** `Time.Unix()`: whole seconds since the epoch, rounded down (also before the epoch). */
  function UnixSeconds(nanos: int): (sec: int)
    ensures sec * NanosPerSecond <= nanos < (sec + 1) * NanosPerSecond
  {
    nanos / NanosPerSecond
  }

  /** The claims object with the reserved `iat` and `exp` claims set last. */
  function Stamp(cs: ClaimMap, nowNanos: int, durNanos: int): (r: ClaimMap)
    ensures r.Keys == cs.Keys + {"iat", "exp"}
    ensures r["iat"] == Scalar(Int(UnixSeconds(nowNanos)))
    ensures r["exp"] == Scalar(Int(UnixSeconds(nowNanos + durNanos)))
    ensures forall k | k in cs && k != "iat" && k != "exp" :: r[k] == cs[k]
  {
    cs["iat" := Scalar(Int(UnixSeconds(nowNanos)))]["exp" := Scalar(Int(UnixSeconds(nowNanos + durNanos)))]
  }

  /** The token `ServeHTTP` issues for one request, or the error that ends the request. */
  function Issue(s: JwtSigner, env: Env): (r: Result<Token, ServeError>)
    ensures r.Ok? <==>
              && env.replacer.Some?
              && var repl := env.replacer.value;
              && repl(s.dur) != ""
              && repl(s.secret) != ""
              && env.parseDuration(repl(s.dur)).Some?
              && var dur := env.parseDuration(repl(s.dur)).value;
              && env.sign(Stamp(FillClaims.Fill(s.claims, repl), env.nowNanos, dur), repl(s.secret)).Ok?
    ensures env.replacer.None? ==> r == Err(NoReplacer)
    ensures r.Err? && r.error.EmptyAfterReplacement? ==>
              || (r.error.name == "dur" && env.replacer.value(s.dur) == "")
              || (r.error.name == "secret" && env.replacer.value(s.secret) == "")
    ensures env.replacer.Some? && env.replacer.value(s.dur) == "" && env.replacer.value(s.secret) != "" ==>
              r == Err(EmptyAfterReplacement("dur"))
    ensures env.replacer.Some? && env.replacer.value(s.dur) != "" && env.replacer.value(s.secret) == "" ==>
              r == Err(EmptyAfterReplacement("secret"))
    ensures env.replacer.Some? && env.replacer.value(s.dur) == "" && env.replacer.value(s.secret) == "" ==>
              r.Err? && r.error.EmptyAfterReplacement?
    ensures env.replacer.Some? && env.replacer.value(s.dur) != "" && env.replacer.value(s.secret) != ""
            && env.parseDuration(env.replacer.value(s.dur)).None? ==>
              r == Err(InvalidDuration(env.replacer.value(s.dur)))
    ensures env.replacer.Some? && env.replacer.value(s.dur) != "" && env.replacer.value(s.secret) != ""
            && env.parseDuration(env.replacer.value(s.dur)).Some? ==>
              var repl := env.replacer.value;
              var dur := env.parseDuration(repl(s.dur)).value;
              var signed := env.sign(Stamp(FillClaims.Fill(s.claims, repl), env.nowNanos, dur), repl(s.secret));
              signed.Err? ==> r == Err(SigningFailed(signed.error))
    ensures r.Err? && r.error.InvalidDuration? ==>
              && env.replacer.value(s.dur) != "" && env.replacer.value(s.secret) != ""
              && r.error.text == env.replacer.value(s.dur)
              && env.parseDuration(r.error.text).None?
    ensures r.Ok? ==>
              var repl := env.replacer.value;
              var dur := env.parseDuration(repl(s.dur)).value;
              && env.sign(r.value.claims, repl(s.secret)) == Ok(r.value.signed)
              && r.value.claims.Keys == FillClaims.Fill(s.claims, repl).Keys + {"iat", "exp"}
              && r.value.claims["iat"] == Scalar(Int(UnixSeconds(env.nowNanos)))
              && r.value.claims["exp"] == Scalar(Int(UnixSeconds(env.nowNanos + dur)))
              && forall k | k in r.value.claims && k != "iat" && k != "exp" ::
                   r.value.claims[k] == FillClaims.Fill(s.claims, repl)[k]
  {
    match env.replacer
    case None => Err(NoReplacer)
    case Some(repl) =>
      var durStr, secret := repl(s.dur), repl(s.secret);
      match FirstEmpty(InOrder(env.order, ("dur", durStr), ("secret", secret)))
      case Some(name) => Err(EmptyAfterReplacement(name))
      case None =>
        match env.parseDuration(durStr)
        case None => Err(InvalidDuration(durStr))
        case Some(dur) =>
          var cs := Stamp(FillClaims.Fill(s.claims, repl), env.nowNanos, dur);
          match env.sign(cs, secret)
          case Err(message) => Err(SigningFailed(message))
          case Ok(signed) => Ok(Token(cs, signed))
  }

  /** `ServeHTTP` up to the hand-off to the next handler: the replacer's published
      variables after the request, and the error, if any. */
  function Serve(s: JwtSigner, env: Env, vars: map<string, string>): (r: (map<string, string>, Option<ServeError>))
    ensures r.1.Some? ==> r.0 == vars
    ensures r.1.Some? ==> Issue(s, env).Err? && r.1.value == Issue(s, env).error
    ensures r.1.None? <==> Issue(s, env).Ok?
    ensures r.1.None? ==> r.0 == vars[DigestName := Issue(s, env).value.signed]
  {
    match Issue(s, env)
    case Err(e) => (vars, Some(e))
    case Ok(tok) => (vars[DigestName := tok.signed], None)
  }

  /** The validity window is the parsed duration, rounded to whole seconds: exactly the
      duration when the duration is whole seconds, whatever the clock, and otherwise its
      whole seconds or one second more. */
  lemma ValidityWindow(nowNanos: int, durNanos: int)
    ensures var window := UnixSeconds(nowNanos + durNanos) - UnixSeconds(nowNanos);
            durNanos / NanosPerSecond <= window <= durNanos / NanosPerSecond + 1
    ensures durNanos % NanosPerSecond == 0 ==>
              UnixSeconds(nowNanos + durNanos) - UnixSeconds(nowNanos) == durNanos / NanosPerSecond
  {
  }

  /** An issued token carries `exp - iat` equal to the duration whenever the parsed
      duration is whole seconds, at any clock and whatever `iat`/`exp` the template held. */
  lemma IssuedWindowIsDuration(s: JwtSigner, env: Env)
    requires Issue(s, env).Ok?
    requires env.parseDuration(env.replacer.value(s.dur)).value % NanosPerSecond == 0
    ensures var cs := Issue(s, env).value.claims;
            cs["exp"].v.i - cs["iat"].v.i
              == env.parseDuration(env.replacer.value(s.dur)).value / NanosPerSecond
  {
  }

  /** Two requests that differ only in a whole-second duration sign different claims
      objects: the `exp` claims differ. */
  lemma DurationChangesClaims(cs: ClaimMap, nowNanos: int, d1: int, d2: int)
    requires d1 % NanosPerSecond == 0 && d2 % NanosPerSecond == 0
    requires d1 != d2
    ensures Stamp(cs, nowNanos, d1) != Stamp(cs, nowNanos, d2)
  {
  }

  /** A duration of fifteen minutes issued at second 1000 gives `iat = 1000` and
      `exp = 1900`. */
  lemma FifteenMinutesScenario(s: JwtSigner, env: Env)
    requires Issue(s, env).Ok?
    requires env.nowNanos == 1000 * NanosPerSecond
    requires env.parseDuration(env.replacer.value(s.dur)) == Some(15 * 60 * NanosPerSecond)
    ensures Issue(s, env).value.claims["iat"] == Scalar(Int(1000))
    ensures Issue(s, env).value.claims["exp"] == Scalar(Int(1900))
  {
  }
}
