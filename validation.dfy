/**
 * express-validator rule chains: each chain names one request field and
 * lists validators with their messages; every failing validator of a chain
 * reports its own error, and the guard after the chains answers 400 with
 * the collected errors or lets the request through.
 */
module Validation {
  import opened Wrappers
  import opened Http
  import JsNumbers

  /** One validator with the message attached by `.withMessage(...)`. */
  datatype Rule =
    | NotEmpty(msg: string)
    | Length(least: nat, most: Option<nat>, msg: string)
    | Int(lower: Option<int>, upper: Option<int>, msg: string)
    | Email(msg: string)

  /** `body(path)`, `query(path)` or `param(path)` with its validators;
      `optional` is `.optional()`, which skips an absent field. */
  datatype Chain = Chain(location: Location, path: string, optional: bool, rules: seq<Rule>)

  /** The request fields the validators can see, as text. */
  datatype Input = Input(body: map<string, string>, query: map<string, string>, params: map<string, string>)

  /** express-validator's `isEmail`, left abstract. */
  type EmailCheck = string -> bool

  function Lookup(input: Input, location: Location, path: string): Option<string> {
    var fields := match location
      case Body => input.body
      case Query => input.query
      case Params => input.params;
    if path in fields then Some(fields[path]) else None
  }

  /** Whether one validator accepts the field's text. */
  predicate Passes(rule: Rule, value: string, isEmail: EmailCheck) {
    match rule
    case NotEmpty(_) => value != ""
    case Length(min, max, _) => min <= |value| && (max.None? || |value| <= max.value)
    case Int(min, max, _) => JsNumbers.IsInt(value, min, max)
    case Email(_) => isEmail(value)
  }

  /** One error per failing validator, in the chain's order. */
  function RuleErrors(location: Location, path: string, rules: seq<Rule>, value: string, isEmail: EmailCheck): (errs: seq<FieldError>)
    ensures |errs| <= |rules|
    ensures forall e :: e in errs ==> e.location == location && e.path == path
  {
    if |rules| == 0 then []
    else
      var here := if Passes(rules[0], value, isEmail) then [] else [FieldError(location, path, rules[0].msg)];
      here + RuleErrors(location, path, rules[1..], value, isEmail)
  }

  /** The errors one chain adds; an absent field is validated as the empty text. */
  function ChainErrors(chain: Chain, input: Input, isEmail: EmailCheck): seq<FieldError> {
    var value := Lookup(input, chain.location, chain.path);
    if chain.optional && value.None? then []
    else RuleErrors(chain.location, chain.path, chain.rules, value.GetOr(""), isEmail)
  }

  /** `validationResult(req).array()` after all chains have run. */
  function Errors(chains: seq<Chain>, input: Input, isEmail: EmailCheck): seq<FieldError> {
    if |chains| == 0 then []
    else ChainErrors(chains[0], input, isEmail) + Errors(chains[1..], input, isEmail)
  }

  /** A chain accepts the request: its field is optional and absent, or every validator passes. */
  predicate ChainAccepts(chain: Chain, input: Input, isEmail: EmailCheck) {
    var value := Lookup(input, chain.location, chain.path);
    (chain.optional && value.None?)
    || forall r :: r in chain.rules ==> Passes(r, value.GetOr(""), isEmail)
  }

  /** What the guard after the chains decides. */
  datatype Verdict = Rejected(errors: seq<FieldError>) | Forwarded

  /** `if (!errors.isEmpty()) return res.status(400).json({ errors }); next();` */
  function Guard(errors: seq<FieldError>): (v: Verdict)
    ensures v.Forwarded? <==> errors == []
    ensures v.Rejected? ==> v.errors == errors
  {
    if errors != [] then Rejected(errors) else Forwarded
  }

  /** A rule list reports nothing exactly when every rule passes; otherwise it
      reports the failing rules' messages. */
  lemma {:induction false} RuleErrorsEmptyIff(location: Location, path: string, rules: seq<Rule>, value: string, isEmail: EmailCheck)
    ensures RuleErrors(location, path, rules, value, isEmail) == [] <==> forall r :: r in rules ==> Passes(r, value, isEmail)
    ensures forall r :: r in rules && !Passes(r, value, isEmail) ==>
      FieldError(location, path, r.msg) in RuleErrors(location, path, rules, value, isEmail)
    decreases |rules|
  {
    if |rules| > 0 {
      RuleErrorsEmptyIff(location, path, rules[1..], value, isEmail);
      assert forall r :: r in rules ==> r == rules[0] || r in rules[1..];
    }
  }

  /** All chains together report nothing exactly when each chain accepts. */
  lemma {:induction false} ErrorsEmptyIff(chains: seq<Chain>, input: Input, isEmail: EmailCheck)
    ensures Errors(chains, input, isEmail) == [] <==> forall c :: c in chains ==> ChainAccepts(c, input, isEmail)
    decreases |chains|
  {
    if |chains| > 0 {
      var c := chains[0];
      var value := Lookup(input, c.location, c.path);
      RuleErrorsEmptyIff(c.location, c.path, c.rules, value.GetOr(""), isEmail);
      assert ChainErrors(c, input, isEmail) == [] <==> ChainAccepts(c, input, isEmail);
      ErrorsEmptyIff(chains[1..], input, isEmail);
      assert Errors(chains, input, isEmail) == [] <==>
        ChainErrors(c, input, isEmail) == [] && Errors(chains[1..], input, isEmail) == [];
      assert forall d :: d in chains ==> d == c || d in chains[1..];
    }
  }

  /** Two chains report the first chain's errors, then the second's. */
  lemma ErrorsOfTwo(c0: Chain, c1: Chain, input: Input, isEmail: EmailCheck)
    ensures Errors([c0, c1], input, isEmail) == ChainErrors(c0, input, isEmail) + ChainErrors(c1, input, isEmail)
  {
    assert [c0, c1][1..] == [c1];
    assert [c1][1..] == [];
    assert Errors([c1], input, isEmail) == ChainErrors(c1, input, isEmail) + [];
  }

  /** Three chains report their errors in order. */
  lemma ErrorsOfThree(c0: Chain, c1: Chain, c2: Chain, input: Input, isEmail: EmailCheck)
    ensures Errors([c0, c1, c2], input, isEmail) ==
      ChainErrors(c0, input, isEmail) + ChainErrors(c1, input, isEmail) + ChainErrors(c2, input, isEmail)
  {
    assert [c0, c1, c2][1..] == [c1, c2];
    ErrorsOfTwo(c1, c2, input, isEmail);
  }

  /** A required field with one validator is accepted exactly when the validator passes. */
  lemma OneRuleIff(location: Location, path: string, rule: Rule, input: Input, isEmail: EmailCheck)
    ensures ChainErrors(Chain(location, path, false, [rule]), input, isEmail) == [] <==>
      Passes(rule, Lookup(input, location, path).GetOr(""), isEmail)
  {
    assert [rule][1..] == [];
  }

  /** An optional field with one validator is accepted when absent or when the validator passes. */
  lemma OptionalRuleIff(location: Location, path: string, rule: Rule, input: Input, isEmail: EmailCheck)
    ensures ChainErrors(Chain(location, path, true, [rule]), input, isEmail) == [] <==>
      Lookup(input, location, path).None? || Passes(rule, Lookup(input, location, path).value, isEmail)
  {
    assert [rule][1..] == [];
  }

  /** A required field with two validators is accepted exactly when both pass. */
  lemma TwoRulesIff(location: Location, path: string, r0: Rule, r1: Rule, input: Input, isEmail: EmailCheck)
    ensures ChainErrors(Chain(location, path, false, [r0, r1]), input, isEmail) == [] <==>
      Passes(r0, Lookup(input, location, path).GetOr(""), isEmail) && Passes(r1, Lookup(input, location, path).GetOr(""), isEmail)
  {
    var value := Lookup(input, location, path).GetOr("");
    assert [r0, r1][1..] == [r1];
    assert [r1][1..] == [];
    assert RuleErrors(location, path, [r1], value, isEmail) == [] <==> Passes(r1, value, isEmail);
  }

  /** Every error of a failing validator in any chain shows up in the result. */
  lemma {:induction false} ErrorsReport(chains: seq<Chain>, input: Input, isEmail: EmailCheck, i: nat, r: Rule)
    requires i < |chains| && r in chains[i].rules
    requires !(chains[i].optional && Lookup(input, chains[i].location, chains[i].path).None?)
    requires !Passes(r, Lookup(input, chains[i].location, chains[i].path).GetOr(""), isEmail)
    ensures FieldError(chains[i].location, chains[i].path, r.msg) in Errors(chains, input, isEmail)
    decreases i
  {
    if i == 0 {
      var c := chains[0];
      RuleErrorsEmptyIff(c.location, c.path, c.rules, Lookup(input, c.location, c.path).GetOr(""), isEmail);
    } else {
      ErrorsReport(chains[1..], input, isEmail, i - 1, r);
    }
  }
}
