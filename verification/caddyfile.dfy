/** Building the handler from its Caddyfile directive (`UnmarshalCaddyfile` and
    `parseClaimsCaddyfile`), over the directive already split into lines and tokens:

        jwt_signer <duration> <secret> {
            <key> <value>
            <key> {
                ...
            }
        }
*/
module Caddyfile {
  import opened Wrappers
  import opened Claims
  import Signer
  import FillClaims

  /** One line of a claims block: its key, the arguments that follow the key on the
      same line, and the lines of the block it opens (empty when it opens none, or one
      that is closed at once). */
  datatype Entry = Entry(key: string, args: seq<string>, block: seq<Entry>)

  /** The directive: its positional arguments and its claims block. */
  datatype Directive = Directive(args: seq<string>, block: seq<Entry>)

  datatype ConfigError =
    | NoKey
    | EmptyValue(key: string)
    | TooManyArguments(key: string)
    | NestedUnder(key: string, inner: ConfigError)
    | NoValue(key: string)
    | WrongArgumentCount

  /** The token that opens a block. After a line with a value the parser does not
      enter the block that line opens: the next turn of its loop reads the brace as
      the key of a line of its own, which has neither a value nor a block. */
  const BlockOpen: string := "{"

  /** The claim one line of a claims block declares. */
  function ParseEntry(e: Entry): (r: Result<Claim, ConfigError>)
    decreases e, 1
    ensures r.Ok? ==> CaddyfileClaim(r.value)
    ensures r.Ok? && |e.args| > 0 ==> r.value == Str(e.args[0])
    ensures r.Ok? && |e.args| == 0 ==>
              ParseBlock(e.block).Ok? && r.value == Nested(ParseBlock(e.block).value)
    ensures e.key == "" ==> r == Err(NoKey)
    ensures e.key != "" && |e.args| > 0 && e.args[0] == "" ==> r == Err(EmptyValue(e.key))
    ensures e.key != "" && |e.args| > 1 && e.args[0] != "" ==> r == Err(TooManyArguments(e.key))
    ensures e.key != "" && |e.args| == 1 && e.args[0] != "" && |e.block| > 0 ==>
              r == Err(NoValue(BlockOpen))
    ensures e.key != "" && |e.args| == 0 && |e.block| == 0 ==> r == Err(NoValue(e.key))
    ensures e.key != "" && |e.args| == 0 && ParseBlock(e.block).Err? ==>
              r == Err(NestedUnder(e.key, ParseBlock(e.block).error))
  {
    if e.key == "" then Err(NoKey)
    else if |e.args| > 0 then
      var val := e.args[0];
      if val == "" then Err(EmptyValue(e.key))
      else if |e.args| > 1 then Err(TooManyArguments(e.key))
      else if |e.block| > 0 then Err(NoValue(BlockOpen))
      else Ok(Str(val))
    else
      match ParseBlock(e.block)
      case Err(inner) => Err(NestedUnder(e.key, inner))
      case Ok(nested) =>
        if |nested| > 0 then Ok(Nested(nested)) else Err(NoValue(e.key))
  }

  /** The claims map a block declares, line by line; a later line with the same key
      replaces an earlier one, and the first bad line ends the parse. */
  function ParseBlock(es: seq<Entry>): (r: Result<ClaimMap, ConfigError>)
    decreases es, 0
    ensures r.Ok? ==> CaddyfileMap(r.value)
    ensures r.Ok? ==> r.value.Keys == set i | 0 <= i < |es| :: es[i].key
  {
    if |es| == 0 then Ok(map[])
    else
      var cs :- ParseBlock(es[..|es| - 1]);
      var last := es[|es| - 1];
      var c :- ParseEntry(last);
      assert forall i | 0 <= i < |es| - 1 :: es[..|es| - 1][i] == es[i];
      Ok(cs[last.key := c])
  }

  /** When a claims line is acceptable, independently of how it is parsed: a non-empty
      key with exactly one non-empty value and no block, or with no value and a
      non-empty block of acceptable lines. */
  predicate ValidEntry(e: Entry)
    decreases e
  {
    && e.key != ""
    && if |e.args| > 0 then |e.args| == 1 && e.args[0] != "" && |e.block| == 0
       else |e.block| > 0 && forall i | 0 <= i < |e.block| :: ValidEntry(e.block[i])
  }

  lemma {:induction false} ParseEntryOkIffValid(e: Entry)
    ensures ParseEntry(e).Ok? <==> ValidEntry(e)
    decreases e, 1
  {
    if e.key != "" && |e.args| == 0 {
      ParseBlockOkIffValid(e.block);
      if |e.block| > 0 && ParseBlock(e.block).Ok? {
        assert e.block[0].key in ParseBlock(e.block).value;
      }
    }
  }

  /** A block parses exactly when every one of its lines is acceptable, at every depth. */
  lemma {:induction false} ParseBlockOkIffValid(es: seq<Entry>)
    ensures ParseBlock(es).Ok? <==> forall i | 0 <= i < |es| :: ValidEntry(es[i])
    decreases es, 0
  {
    if |es| > 0 {
      var init := es[..|es| - 1];
      var last := es[|es| - 1];
      ParseBlockOkIffValid(init);
      ParseEntryOkIffValid(last);
      assert forall i | 0 <= i < |init| :: init[i] == es[i];
      assert ParseBlock(es).Ok? <==> ParseBlock(init).Ok? && ParseEntry(last).Ok?;
      assert (forall i | 0 <= i < |es| :: ValidEntry(es[i]))
         <==> (forall i | 0 <= i < |init| :: ValidEntry(init[i])) && ValidEntry(last);
    }
  }

  /** A block that does not parse fails with the error of its first bad line. */
  lemma {:induction false} FirstBadLineReported(es: seq<Entry>)
    requires ParseBlock(es).Err?
    ensures exists i | 0 <= i < |es| ::
              && ParseEntry(es[i]) == Err(ParseBlock(es).error)
              && forall j | 0 <= j < i :: ParseEntry(es[j]).Ok?
  {
    var init := es[..|es| - 1];
    assert forall i | 0 <= i < |init| :: init[i] == es[i];
    if ParseBlock(init).Err? {
      FirstBadLineReported(init);
      var i :| 0 <= i < |init| && ParseEntry(init[i]) == Err(ParseBlock(init).error)
               && forall j | 0 <= j < i :: ParseEntry(init[j]).Ok?;
      assert ParseEntry(es[i]) == Err(ParseBlock(es).error);
    } else {
      ParseBlockOkIffValid(init);
      forall j | 0 <= j < |init|
        ensures ParseEntry(es[j]).Ok?
      {
        ParseEntryOkIffValid(es[j]);
      }
      assert ParseEntry(es[|es| - 1]) == Err(ParseBlock(es).error);
    }
  }

  /** Each key of a parsed block holds the claim of the last line with that key. */
  lemma {:induction false} LastLineWins(es: seq<Entry>, i: nat)
    requires ParseBlock(es).Ok?
    requires i < |es|
    requires forall j | i < j < |es| :: es[j].key != es[i].key
    ensures ParseEntry(es[i]).Ok?
    ensures ParseBlock(es).value[es[i].key] == ParseEntry(es[i]).value
  {
    var init := es[..|es| - 1];
    assert forall j | 0 <= j < |init| :: init[j] == es[j];
    if i < |es| - 1 {
      LastLineWins(init, i);
    }
  }

  /** `UnmarshalCaddyfile`: exactly two positional arguments (duration and secret),
      then the claims block. An absent or empty top-level block is accepted and gives
      no claims. */
  function Unmarshal(d: Directive): (r: Result<Signer.JwtSigner, ConfigError>)
    ensures r.Ok? <==> |d.args| == 2 && ParseBlock(d.block).Ok?
    ensures |d.args| != 2 ==> r == Err(WrongArgumentCount)
    ensures |d.args| == 2 && ParseBlock(d.block).Err? ==> r == Err(ParseBlock(d.block).error)
    ensures r.Ok? ==> && r.value.dur == d.args[0]
                      && r.value.secret == d.args[1]
                      && r.value.claims == ParseBlock(d.block).value
                      && CaddyfileMap(r.value.claims)
                      && r.value.claims.Keys == set i | 0 <= i < |d.block| :: d.block[i].key
  {
    if |d.args| != 2 then Err(WrongArgumentCount)
    else
      var claims :- ParseBlock(d.block);
      Ok(Signer.JwtSigner(d.args[0], d.args[1], claims))
  }

  /** A directive without a claims block configures a handler with no claims, while a
      claim line that opens an empty block is refused. */
  lemma EmptyBlocks(dur: string, secret: string, key: string)
    requires key != ""
    ensures Unmarshal(Directive([dur, secret], [])) == Ok(Signer.JwtSigner(dur, secret, map[]))
    ensures Unmarshal(Directive([dur, secret], [Entry(key, [], [])])) == Err(NoValue(key))
  {
  }

  /** A handler loaded from the Caddyfile, with a replacer that changes nothing, signs
      exactly the claims it was configured with: nothing in such a template is pruned. */
  lemma CaddyfileTemplateSurvivesIdentity(d: Directive)
    requires Unmarshal(d).Ok?
    ensures FillClaims.Fill(Unmarshal(d).value.claims, FillClaims.Identity) == Unmarshal(d).value.claims
  {
    CaddyfileMapIsPruned(Unmarshal(d).value.claims);
    FillClaims.FillIdentityOnPruned(Unmarshal(d).value.claims);
  }
}
