/** `validation/feesValidation.js`: the chains of `addFees` and
    `updateFees`. */
module FeesValidation {

  import opened Wrappers
  import opened Validation

  /** The messages of the five amount and date checks. */
  const TotalFeesMessage := "totalFees must be a non-negative number"
  const TotalInstallmentsMessage := "totalInstallments must be at least 1"
  const InstalmentNumberMessage := "instalmentNumber must be a positive integer"
  const FeesPaidMessage := "feesPaid must be a non-negative number"
  const DateMessage := "date cannot be in the future"
  const AdmissionDateMessage := "admissionDate cannot be in the future"

  const StudentIdChain := FilledChain("studentId", Required)

  function AdmissionDateChain(required: Optionality): Chain {
    CheckedChain("admissionDate", required, NotFutureDate, AdmissionDateMessage)
  }

  /** The five chains after the admission date, in the source's order. */
  function AmountChains(required: Optionality): seq<Chain> {
    [ CheckedChain("totalFees", required, FloatAtLeast(0.0), TotalFeesMessage),
      CheckedChain("totalInstallments", required, IntAtLeast(1), TotalInstallmentsMessage),
      CheckedChain("instalmentNumber", required, IntAtLeast(1), InstalmentNumberMessage),
      CheckedChain("feesPaid", required, FloatAtLeast(0.0), FeesPaidMessage),
      CheckedChain("date", required, NotFutureDate, DateMessage) ]
  }

  const AddFeesChains := [StudentIdChain, AdmissionDateChain(Required)] + AmountChains(Required)
  const UpdateFeesChains := [AdmissionDateChain(Optional)] + AmountChains(Optional)

  function Field(body: Body, field: string): string {
    TextOf(Lookup(body, field))
  }

  /** A number of at least `min` as `isFloat` reads it. */
  predicate FloatAtLeastText(t: string, min: real, env: Env) {
    env.asFloat(t).Some? && env.asFloat(t).value >= min
  }

  predicate IntAtLeastText(t: string, min: int) {
    IsIntText(t) && IntValue(t) >= min
  }

  /** What a new fees record must look like: a student id, two dates that
      are not in the future, non-negative amounts, and instalment counts of
      at least one. */
  predicate ValidNewFees(body: Body, env: Env) {
    ValidHead(body, env) && ValidAmounts(body, env)
  }

  /** The student and the admission date. */
  predicate ValidHead(body: Body, env: Env) {
    && Field(body, "studentId") != []
    && Field(body, "admissionDate") != [] && IsNotFutureDate(Lookup(body, "admissionDate"), env)
  }

  /** The last five fields of a new fees record. */
  predicate ValidAmounts(body: Body, env: Env) {
    && Field(body, "totalFees") != [] && FloatAtLeastText(Field(body, "totalFees"), 0.0, env)
    && Field(body, "totalInstallments") != [] && IntAtLeastText(Field(body, "totalInstallments"), 1)
    && Field(body, "instalmentNumber") != [] && IntAtLeastText(Field(body, "instalmentNumber"), 1)
    && Field(body, "feesPaid") != [] && FloatAtLeastText(Field(body, "feesPaid"), 0.0, env)
    && Field(body, "date") != [] && IsNotFutureDate(Lookup(body, "date"), env)
  }

  /** The same five fields, as the checks see them. */
  predicate AmountsPass(body: Body, env: Env) {
    && Field(body, "totalFees") != [] && Passes(FloatAtLeast(0.0), Lookup(body, "totalFees"), env)
    && Field(body, "totalInstallments") != [] && Passes(IntAtLeast(1), Lookup(body, "totalInstallments"), env)
    && Field(body, "instalmentNumber") != [] && Passes(IntAtLeast(1), Lookup(body, "instalmentNumber"), env)
    && Field(body, "feesPaid") != [] && Passes(FloatAtLeast(0.0), Lookup(body, "feesPaid"), env)
    && Field(body, "date") != [] && Passes(NotFutureDate, Lookup(body, "date"), env)
  }

  lemma AmountsPassMeaning(body: Body, env: Env)
    ensures AmountsPass(body, env) <==> ValidAmounts(body, env)
  {
  }

  lemma AmountsAcceptIff(body: Body, env: Env)
    ensures Errors(AmountChains(Required), body, env) == [] <==> ValidAmounts(body, env)
  {
    var r := Required;
    var c := AmountChains(r);
    ErrorsOfFive(c[0], c[1], c[2], c[3], c[4], body, env);
    CheckedChainAccepts("totalFees", r, FloatAtLeast(0.0), TotalFeesMessage, body, env);
    CheckedChainAccepts("totalInstallments", r, IntAtLeast(1), TotalInstallmentsMessage, body, env);
    CheckedChainAccepts("instalmentNumber", r, IntAtLeast(1), InstalmentNumberMessage, body, env);
    CheckedChainAccepts("feesPaid", r, FloatAtLeast(0.0), FeesPaidMessage, body, env);
    CheckedChainAccepts("date", r, NotFutureDate, DateMessage, body, env);
    assert Errors(c, body, env) == [] <==> AmountsPass(body, env);
    AmountsPassMeaning(body, env);
  }

  lemma HeadAcceptIff(body: Body, env: Env)
    ensures Errors([StudentIdChain, AdmissionDateChain(Required)], body, env) == [] <==> ValidHead(body, env)
  {
    var head := [StudentIdChain, AdmissionDateChain(Required)];
    ErrorsConsEmptyIff(head, body, env);
    assert head[1..] == [AdmissionDateChain(Required)];
    ErrorsConsEmptyIff(head[1..], body, env);
    assert head[1..][1..] == [];
    FilledChainAccepts("studentId", Required, body, env);
    CheckedChainAccepts("admissionDate", Required, NotFutureDate, AdmissionDateMessage, body, env);
    assert Errors(head, body, env) == [] <==>
      Field(body, "studentId") != [] && Field(body, "admissionDate") != []
      && Passes(NotFutureDate, Lookup(body, "admissionDate"), env);
  }

  /** `addFees` calls `next` exactly for a valid new fees record. */
  lemma AddFeesAcceptsIff(body: Body, env: Env)
    ensures Decide(AddFeesChains, body, env).Next? <==> ValidNewFees(body, env)
  {
    ErrorsAppend([StudentIdChain, AdmissionDateChain(Required)], AmountChains(Required), body, env);
    HeadAcceptIff(body, env);
    AmountsAcceptIff(body, env);
  }

  /** On update every field may be absent, and a present field is held to
      the same bound as on add (given that `isFloat` and `new Date` refuse
      the empty text). */
  lemma UpdateChecksPresentFieldsLikeAdd(body: Body, env: Env, i: nat)
    requires i < |UpdateFeesChains| && env.asFloat("").None? && env.instantOf("").None?
    ensures UpdateFeesChains[i].field == AddFeesChains[i + 1].field
    ensures UpdateFeesChains[i].field !in body ==> Accepts(UpdateFeesChains[i], body, env)
    ensures UpdateFeesChains[i].field in body ==>
      (Accepts(UpdateFeesChains[i], body, env) <==> Accepts(AddFeesChains[i + 1], body, env))
  {
    var u, a := UpdateFeesChains[i], AddFeesChains[i + 1];
    var step := u.steps[0];
    assert a == CheckedChain(u.field, Required, step.check, step.message);
    assert u == CheckedChain(u.field, Optional, step.check, step.message);
    CheckedChainAccepts(u.field, Optional, step.check, step.message, body, env);
    CheckedChainAccepts(u.field, Required, step.check, step.message, body, env);
    if u.field in body && Passes(step.check, Lookup(body, u.field), env) {
      assert TextOf(Lookup(body, u.field)) != [];
    }
  }

  /** An instalment number must be a whole number of at least one: "0" and
      "-1" are refused, "1" and "12" pass. */
  lemma InstalmentNumberExamples(env: Env)
    ensures !Accepts(AddFeesChains[4], map["instalmentNumber" := Str("0")], env)
    ensures Accepts(AddFeesChains[4], map["instalmentNumber" := Str("1")], env)
    ensures !Accepts(UpdateFeesChains[3], map["instalmentNumber" := Str("-1")], env)
    ensures Accepts(UpdateFeesChains[3], map["instalmentNumber" := Str("12")], env)
  {
    var c := AddFeesChains[4];
    var u := UpdateFeesChains[3];
    assert c.steps[1].check == IntAtLeast(1) && u.steps[0].check == IntAtLeast(1);
    assert Decimal.DecimalValue("1") == 1 by { assert "1"[..0] == ""; }
    assert "-1"[1..] == "1";
    assert "12"[..1] == "1" && "1"[..0] == "";
    assert Decimal.DecimalValue("12") == 12;
  }
}
