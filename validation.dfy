/** The request validators of `validation/studentValidation.js` and
    `validation/feesValidation.js` are chains of express-validator checks,
    one chain per body field, followed by a handler that answers 400 with
    every collected error or calls `next`. This module gives the checks
    their meaning and runs a list of chains; every failing check of a chain
    adds its own error, in order (no chain stops at its first failure). */
module Validation {

  import opened Wrappers
  import Text
  import Decimal

  /** A body value: a string (numbers are given by their text), `null`, or
      an array of strings. */
  datatype Value = Str(s: string) | Null | List(items: seq<string>)

  /** The request body: a field that is not a key is `undefined`. */
  type Body = map<string, Value>

  /** The checks the two validators use. */
  datatype Pattern = Letters | Digits(count: nat)

  datatype Check =
    | NotEmpty
    | Matches(pattern: Pattern)
    | IsIn(options: seq<string>)
    | IsEmail
    | IsIso8601
    | NotFutureDate
    | FloatAtLeast(bound: real)
    | IntAtLeast(min: int)
    | SubjectGiven

  /** `.optional()` skips an `undefined` value; `.optional({ checkFalsy:
      true })` also skips `null` and the empty string. */
  datatype Optionality = Required | Optional | OptionalFalsy

  datatype Step = Step(check: Check, message: string)

  datatype Chain = Chain(field: string, optionality: Optionality, steps: seq<Step>)

  datatype FieldError = FieldError(field: string, message: string)

  /** What the model takes from outside: validator.js's `isEmail`,
      `isISO8601` and the number `isFloat` reads, the instant `new Date`
      reads from a string (milliseconds in local time, `None` for an
      invalid date), and the current instant in local time. */
  datatype Env = Env(
    isEmail: string -> bool, isIso8601: string -> bool, asFloat: string -> Option<real>,
    instantOf: string -> Option<int>, now: int)

  const MillisPerDay := 24 * 60 * 60 * 1000

  function Lookup(body: Body, field: string): Option<Value> {
    if field in body then Some(body[field]) else None
  }

  /** The text the standard checks see: `undefined` and `null` become the
      empty string, an array its comma-joined items. */
  function TextOf(v: Option<Value>): string {
    match v
    case None => ""
    case Some(Str(s)) => s
    case Some(Null) => ""
    case Some(List(items)) => Text.Join(items, ",")
  }

  /** JavaScript falsiness of a body value. */
  predicate Falsy(v: Option<Value>) {
    v.None? || v == Some(Null) || v == Some(Str(""))
  }

  /** `/^[A-Za-z\s]+$/`. */
  predicate IsNameText(s: string) {
    s != [] && forall k :: 0 <= k < |s| ==> Text.IsAsciiLetter(s[k]) || Text.IsSpace(s[k])
  }

  /** `/^\d{n}$/`. */
  predicate IsDigitsText(s: string, n: nat) {
    |s| == n && Decimal.AllDigits(s)
  }

  /** validator.js's `isInt` text with leading zeroes allowed: an optional
      sign and at least one digit. */
  predicate IsIntText(s: string) {
    if |s| > 0 && (s[0] == '+' || s[0] == '-') then |s| > 1 && Decimal.AllDigits(s[1..])
    else |s| > 0 && Decimal.AllDigits(s)
  }

  function IntValue(s: string): int
    requires IsIntText(s)
  {
    if s[0] == '-' then -(Decimal.DecimalValue(s[1..]) as int)
    else if s[0] == '+' then Decimal.DecimalValue(s[1..]) as int
    else Decimal.DecimalValue(s) as int
  }

  /** `setHours(0, 0, 0, 0)`: the local midnight that starts the day. */
  function StartOfDay(instant: int): int {
    (instant / MillisPerDay) * MillisPerDay
  }

  /** `isNotFutureDate`: a falsy value or an invalid date is refused;
      otherwise the day of the date may not come after today. */
  predicate IsNotFutureDate(v: Option<Value>, env: Env) {
    !Falsy(v) && env.instantOf(TextOf(v)).Some?
    && StartOfDay(env.instantOf(TextOf(v)).value) <= StartOfDay(env.now)
  }

  /** The subject rule's custom check: `!subjects` or an empty array is
      refused. */
  predicate HasSubject(v: Option<Value>) {
    !Falsy(v) && v != Some(List([]))
  }

  predicate Passes(check: Check, v: Option<Value>, env: Env) {
    var t := TextOf(v);
    match check
    case NotEmpty => t != []
    case Matches(Letters) => IsNameText(t)
    case Matches(Digits(n)) => IsDigitsText(t, n)
    case IsIn(options) => t in options
    case IsEmail => env.isEmail(t)
    case IsIso8601 => env.isIso8601(t)
    case NotFutureDate => IsNotFutureDate(v, env)
    case FloatAtLeast(min) => env.asFloat(t).Some? && env.asFloat(t).value >= min
    case IntAtLeast(min) => IsIntText(t) && IntValue(t) >= min
    case SubjectGiven => HasSubject(v)
  }

  predicate Skipped(optionality: Optionality, v: Option<Value>) {
    match optionality
    case Required => false
    case Optional => v.None?
    case OptionalFalsy => Falsy(v)
  }

  /** The errors of one chain on one value: one per failing step, in order. */
  function StepErrors(field: string, steps: seq<Step>, v: Option<Value>, env: Env): (errs: seq<FieldError>)
    ensures |errs| <= |steps|
    ensures forall k :: 0 <= k < |errs| ==> errs[k].field == field
  {
    if steps == [] then []
    else
      var rest := StepErrors(field, steps[1..], v, env);
      if Passes(steps[0].check, v, env) then rest else [FieldError(field, steps[0].message)] + rest
  }

  lemma {:induction false} StepErrorsEmptyIff(field: string, steps: seq<Step>, v: Option<Value>, env: Env)
    ensures StepErrors(field, steps, v, env) == [] <==> forall j :: 0 <= j < |steps| ==> Passes(steps[j].check, v, env)
  {
    if steps != [] {
      StepErrorsEmptyIff(field, steps[1..], v, env);
      assert forall j :: 1 <= j < |steps| ==> steps[j] == steps[1..][j - 1];
    }
  }

  /** Every error names a failing step of the chain by its message. */
  lemma {:induction false} StepErrorsAreFailures(field: string, steps: seq<Step>, v: Option<Value>, env: Env)
    ensures forall e :: e in StepErrors(field, steps, v, env) ==>
      exists j :: 0 <= j < |steps| && steps[j].message == e.message && !Passes(steps[j].check, v, env)
  {
    if steps != [] {
      StepErrorsAreFailures(field, steps[1..], v, env);
      assert forall j :: 0 <= j < |steps| - 1 ==> steps[1..][j] == steps[j + 1];
    }
  }

  function ChainErrors(chain: Chain, body: Body, env: Env): seq<FieldError> {
    var v := Lookup(body, chain.field);
    if Skipped(chain.optionality, v) then [] else StepErrors(chain.field, chain.steps, v, env)
  }

  /** A chain accepts the body when it skips the value or every step
      passes. */
  predicate Accepts(chain: Chain, body: Body, env: Env) {
    var v := Lookup(body, chain.field);
    Skipped(chain.optionality, v) || forall j :: 0 <= j < |chain.steps| ==> Passes(chain.steps[j].check, v, env)
  }

  /** `validationResult(req)`: the errors of all chains, in chain order. */
  function Errors(chains: seq<Chain>, body: Body, env: Env): seq<FieldError> {
    if chains == [] then [] else ChainErrors(chains[0], body, env) + Errors(chains[1..], body, env)
  }

  /** The error list is empty exactly when every chain accepts. */
  lemma {:induction false} ErrorsEmptyIff(chains: seq<Chain>, body: Body, env: Env)
    ensures Errors(chains, body, env) == [] <==> forall i :: 0 <= i < |chains| ==> Accepts(chains[i], body, env)
  {
    if chains != [] {
      var c := chains[0];
      StepErrorsEmptyIff(c.field, c.steps, Lookup(body, c.field), env);
      ErrorsEmptyIff(chains[1..], body, env);
      assert forall i :: 1 <= i < |chains| ==> chains[i] == chains[1..][i - 1];
    }
  }

  lemma ChainErrorsEmptyIff(chain: Chain, body: Body, env: Env)
    ensures ChainErrors(chain, body, env) == [] <==> Accepts(chain, body, env)
  {
    StepErrorsEmptyIff(chain.field, chain.steps, Lookup(body, chain.field), env);
  }

  /** The chains of two lists report their errors one list after the
      other. */
  lemma {:induction false} ErrorsAppend(a: seq<Chain>, b: seq<Chain>, body: Body, env: Env)
    ensures Errors(a + b, body, env) == Errors(a, body, env) + Errors(b, body, env)
  {
    if a == [] {
      assert a + b == b;
    } else {
      var ab := a + b;
      assert ab[0] == a[0];
      assert ab[1..] == a[1..] + b;
      ErrorsAppend(a[1..], b, body, env);
      var x, y, z := ChainErrors(a[0], body, env), Errors(a[1..], body, env), Errors(b, body, env);
      assert Errors(ab, body, env) == x + (y + z);
      assert Errors(a, body, env) == x + y;
      ConcatAssociative(x, y, z);
    }
  }

  lemma ConcatAssociative(x: seq<FieldError>, y: seq<FieldError>, z: seq<FieldError>)
    ensures x + (y + z) == (x + y) + z
  {
  }

  /** A list reports nothing exactly when its first chain accepts and the
      rest report nothing. */
  lemma ErrorsConsEmptyIff(chains: seq<Chain>, body: Body, env: Env)
    requires chains != []
    ensures Errors(chains, body, env) == [] <==> Accepts(chains[0], body, env) && Errors(chains[1..], body, env) == []
  {
    ChainErrorsEmptyIff(chains[0], body, env);
  }

  /** Five chains report nothing exactly when each of them accepts. */
  lemma ErrorsOfFive(c0: Chain, c1: Chain, c2: Chain, c3: Chain, c4: Chain, body: Body, env: Env)
    ensures Errors([c0, c1, c2, c3, c4], body, env) == []
        <==> Accepts(c0, body, env) && Accepts(c1, body, env) && Accepts(c2, body, env)
             && Accepts(c3, body, env) && Accepts(c4, body, env)
  {
    var s := [c0, c1, c2, c3, c4];
    ErrorsConsEmptyIff(s, body, env);
    assert s[1..] == [c1, c2, c3, c4];
    ErrorsConsEmptyIff(s[1..], body, env);
    assert s[2..] == s[1..][1..] == [c2, c3, c4];
    ErrorsConsEmptyIff(s[2..], body, env);
    assert s[3..] == s[2..][1..] == [c3, c4];
    ErrorsConsEmptyIff(s[3..], body, env);
    assert s[4..] == s[3..][1..] == [c4];
    ErrorsConsEmptyIff(s[4..], body, env);
    assert s[4..][1..] == [];
  }

  function FilledChain(field: string, optionality: Optionality): Chain {
    Chain(field, optionality, [Step(NotEmpty, field + " is required")])
  }

  /** A chain of a rule that checks a pattern or a choice after `notEmpty`
      on add, and on update only the pattern or the choice. */
  function CheckedChain(field: string, optionality: Optionality, check: Check, message: string): Chain {
    if optionality == Required then Chain(field, Required, [Step(NotEmpty, field + " is required"), Step(check, message)])
    else Chain(field, optionality, [Step(check, message)])
  }

  lemma FilledChainAccepts(field: string, optionality: Optionality, body: Body, env: Env)
    ensures Accepts(FilledChain(field, optionality), body, env)
        <==> Skipped(optionality, Lookup(body, field)) || TextOf(Lookup(body, field)) != []
  {
    var c := FilledChain(field, optionality);
    if Accepts(c, body, env) && !Skipped(optionality, Lookup(body, field)) {
      assert Passes(c.steps[0].check, Lookup(body, field), env);
    }
  }

  lemma CheckedChainAccepts(field: string, optionality: Optionality, check: Check, message: string,
                            body: Body, env: Env)
    ensures Accepts(CheckedChain(field, optionality, check, message), body, env)
        <==> Skipped(optionality, Lookup(body, field))
             || ((optionality == Required ==> TextOf(Lookup(body, field)) != []) && Passes(check, Lookup(body, field), env))
  {
    var c := CheckedChain(field, optionality, check, message);
    var v := Lookup(body, field);
    if !Skipped(optionality, v) && (optionality == Required ==> TextOf(Lookup(body, field)) != []) && Passes(check, v, env) {
      assert forall j :: 0 <= j < |c.steps| ==> Passes(c.steps[j].check, v, env);
    }
    if Accepts(c, body, env) && !Skipped(optionality, v) {
      assert Passes(c.steps[|c.steps| - 1].check, v, env);
      if optionality == Required {
        assert Passes(c.steps[0].check, v, env);
      }
    }
  }

  /** The update chain `u` of a field leaves an absent field alone and, on
      a present one, accepts exactly what the add chain `a` accepts. */
  predicate LikeAddWhenPresent(u: Chain, a: Chain, body: Body, env: Env) {
    && u.field == a.field
    && (u.field !in body ==> Accepts(u, body, env))
    && (u.field in body ==> (Accepts(u, body, env) <==> Accepts(a, body, env)))
  }

  /** An optional chain with the same steps as its required twin. */
  lemma SameStepsLikeAdd(u: Chain, a: Chain, body: Body, env: Env)
    requires u.field == a.field && u.optionality == Optional && a.optionality == Required
    requires u.steps == a.steps
    ensures LikeAddWhenPresent(u, a, body, env)
  {
  }

  /** An optional chain whose required twin adds `notEmpty` in front of
      its one step, when that step already refuses the empty text. */
  lemma FilledFirstLikeAdd(u: Chain, a: Chain, body: Body, env: Env)
    requires u.field == a.field && u.optionality == Optional && a.optionality == Required
    requires |u.steps| == 1 && |a.steps| == 2 && a.steps[0].check == NotEmpty && a.steps[1] == u.steps[0]
    requires Passes(u.steps[0].check, Lookup(body, u.field), env) ==> TextOf(Lookup(body, u.field)) != []
    ensures LikeAddWhenPresent(u, a, body, env)
  {
    var v := Lookup(body, u.field);
    if Accepts(u, body, env) && u.field in body {
      assert Passes(u.steps[0].check, v, env);
      assert forall j :: 0 <= j < |a.steps| ==> Passes(a.steps[j].check, v, env);
    }
    if Accepts(a, body, env) {
      assert Passes(a.steps[1].check, v, env);
    }
  }

  /** The closing handler: 400 with the error list, or `next()`. */
  datatype Decision = BadRequest(errors: seq<FieldError>) | Next

  function Decide(chains: seq<Chain>, body: Body, env: Env): (d: Decision)
    ensures d.Next? <==> forall i :: 0 <= i < |chains| ==> Accepts(chains[i], body, env)
    ensures d.BadRequest? ==> d.errors == Errors(chains, body, env) && d.errors != []
  {
    ErrorsEmptyIff(chains, body, env);
    var errors := Errors(chains, body, env);
    if errors == [] then Next else BadRequest(errors)
  }

  /** `isNotFutureDate` works by the day: every instant of today passes,
      even one later than now, and no instant of a later day does. */
  lemma NotFutureByDay(v: Option<Value>, env: Env)
    requires !Falsy(v) && env.instantOf(TextOf(v)).Some?
    ensures IsNotFutureDate(v, env) <==> env.instantOf(TextOf(v)).value / MillisPerDay <= env.now / MillisPerDay
  {
    var d, t := env.instantOf(TextOf(v)).value / MillisPerDay, env.now / MillisPerDay;
    assert StartOfDay(env.instantOf(TextOf(v)).value) == d * MillisPerDay;
    assert StartOfDay(env.now) == t * MillisPerDay;
    MultiplyMonotone(d, t);
  }

  lemma MultiplyMonotone(a: int, b: int)
    ensures a * MillisPerDay <= b * MillisPerDay <==> a <= b
  {
    if a <= b {
      assert b * MillisPerDay - a * MillisPerDay == (b - a) * MillisPerDay;
    } else {
      assert a * MillisPerDay - b * MillisPerDay == (a - b) * MillisPerDay;
    }
  }

  /** A missing date is never accepted. */
  lemma MissingDateRefused(env: Env)
    ensures !IsNotFutureDate(None, env) && !IsNotFutureDate(Some(Null), env) && !IsNotFutureDate(Some(Str("")), env)
  {
  }

  /** The integer text: `"+7"`, `"007"` and `"-3"` are integers with the
      values 7, 7 and -3; the empty text and a bare sign are not. */
  lemma IntTextExamples()
    ensures IsIntText("007") && IntValue("007") == 7
    ensures IsIntText("+7") && IntValue("+7") == 7
    ensures IsIntText("-3") && IntValue("-3") == -3
    ensures !IsIntText("") && !IsIntText("-") && !IsIntText("1.5")
  {
    assert "007"[..2] == "00" && "00"[..1] == "0" && "0"[..0] == "";
    assert Decimal.DecimalValue("0") == 0;
    assert Decimal.DecimalValue("00") == 0;
    assert Decimal.DecimalValue("007") == 7;
    assert "+7"[1..] == "7" && "-3"[1..] == "3";
    assert "1.5"[1] == '.';
  }
}
