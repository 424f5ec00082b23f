/** `validation/studentValidation.js`: the chains of `addStudent` and
    `updateStudent`. */
module StudentValidation {

  import opened Wrappers
  import opened Validation

  function NameChain(field: string, optionality: Optionality): Chain {
    var letters := Step(Matches(Letters), field + " must contain only letters");
    if optionality == Required then Chain(field, Required, [Step(NotEmpty, field + " is required"), letters])
    else Chain(field, optionality, [letters])
  }

  /** A name chain accepts exactly a letters-only text, unless it skips. */
  lemma NameChainAccepts(field: string, optionality: Optionality, body: Body, env: Env)
    ensures Accepts(NameChain(field, optionality), body, env)
        <==> Skipped(optionality, Lookup(body, field)) || IsNameText(Field(body, field))
  {
    var c := NameChain(field, optionality);
    if !Skipped(optionality, Lookup(body, field)) && IsNameText(Field(body, field)) {
      assert forall j :: 0 <= j < |c.steps| ==> Passes(c.steps[j].check, Lookup(body, field), env);
    }
    if Accepts(c, body, env) && !Skipped(optionality, Lookup(body, field)) {
      assert Passes(c.steps[|c.steps| - 1].check, Lookup(body, field), env);
    }
  }

  const SubjectMessage := "At least one subject is required"
  const Genders := ["Male", "Female", "Other"]
  const Handicapped := ["Yes", "No"]

  /** The chains in the source's order, in three groups of five;
      `required` says whether they are `addStudent`'s (`Required`) or
      `updateStudent`'s (`Optional`). */
  function StudentChains(required: Optionality): seq<Chain> {
    NameChains(required) + ContactChains(required) + ProfileChains(required)
  }

  function NameChains(required: Optionality): seq<Chain> {
    [ NameChain("surName", required),
      NameChain("firstName", required),
      NameChain("guardianName", required),
      NameChain("mothersName", required),
      SubjectChain(required) ]
  }

  function SubjectChain(required: Optionality): Chain {
    Chain("subject", required, [Step(SubjectGiven, SubjectMessage)])
  }

  const EmailChain := Chain("email", OptionalFalsy, [Step(IsEmail, "Invalid email")])

  function ContactChains(required: Optionality): seq<Chain> {
    [ FilledChain("address", required),
      CheckedChain("aadhaarNumber", required, Matches(Digits(12)), "aadhaarNumber must be 12 digits"),
      CheckedChain("mobileNo", required, Matches(Digits(10)), "mobileNo must be 10 digits"),
      EmailChain,
      FilledChain("birthPlace", required) ]
  }

  function ProfileChains(required: Optionality): seq<Chain> {
    [ CheckedChain("dateOfBirth", required, IsIso8601, "Invalid dateOfBirth"),
      CheckedChain("gender", required, IsIn(Genders), "Invalid gender value"),
      CheckedChain("handicapped", required, IsIn(Handicapped), "Invalid handicapped value"),
      FilledChain("latestEducation", required),
      FilledChain("previousSchoolName", required) ]
  }

  const AddStudentChains := StudentChains(Required)
  const UpdateStudentChains := StudentChains(Optional)

  function Field(body: Body, field: string): string {
    TextOf(Lookup(body, field))
  }

  /** What an added student must look like: letters-only names, at least
      one subject, the free-text fields filled, a 12-digit Aadhaar number
      and a 10-digit mobile number, a valid email or none, an ISO 8601 date
      of birth, and a listed gender and handicapped value. */
  predicate ValidNewStudent(body: Body, env: Env) {
    ValidNames(body) && ValidContact(body, env) && ValidProfile(body, env)
  }

  predicate ValidNames(body: Body) {
    && IsNameText(Field(body, "surName")) && IsNameText(Field(body, "firstName"))
    && IsNameText(Field(body, "guardianName")) && IsNameText(Field(body, "mothersName"))
    && HasSubject(Lookup(body, "subject"))
  }

  predicate ValidContact(body: Body, env: Env) {
    && Field(body, "address") != []
    && IsDigitsText(Field(body, "aadhaarNumber"), 12)
    && IsDigitsText(Field(body, "mobileNo"), 10)
    && (Falsy(Lookup(body, "email")) || env.isEmail(Field(body, "email")))
    && Field(body, "birthPlace") != []
  }

  predicate ValidProfile(body: Body, env: Env) {
    && Field(body, "dateOfBirth") != [] && env.isIso8601(Field(body, "dateOfBirth"))
    && Field(body, "gender") in Genders
    && Field(body, "handicapped") in Handicapped
    && Field(body, "latestEducation") != [] && Field(body, "previousSchoolName") != []
  }

  /** `addStudent` calls `next` exactly for a valid new student, and
      otherwise answers 400 with the errors. */
  lemma AddStudentAcceptsIff(body: Body, env: Env)
    ensures Decide(AddStudentChains, body, env).Next? <==> ValidNewStudent(body, env)
  {
    var r := Required;
    ErrorsAppend(NameChains(r) + ContactChains(r), ProfileChains(r), body, env);
    ErrorsAppend(NameChains(r), ContactChains(r), body, env);
    NamesAcceptIff(body, env);
    ContactAcceptIff(body, env);
    ProfileAcceptIff(body, env);
  }

  lemma NamesAcceptIff(body: Body, env: Env)
    ensures Errors(NameChains(Required), body, env) == [] <==> ValidNames(body)
  {
    var r := Required;
    ErrorsOfFive(NameChain("surName", r), NameChain("firstName", r), NameChain("guardianName", r),
                 NameChain("mothersName", r), SubjectChain(r), body, env);
    NameChainAccepts("surName", r, body, env);
    NameChainAccepts("firstName", r, body, env);
    NameChainAccepts("guardianName", r, body, env);
    NameChainAccepts("mothersName", r, body, env);
    SubjectChainAccepts(r, body, env);
  }

  lemma ContactAcceptIff(body: Body, env: Env)
    ensures Errors(ContactChains(Required), body, env) == [] <==> ValidContact(body, env)
  {
    var r := Required;
    ErrorsOfFive(FilledChain("address", r),
                 CheckedChain("aadhaarNumber", r, Matches(Digits(12)), "aadhaarNumber must be 12 digits"),
                 CheckedChain("mobileNo", r, Matches(Digits(10)), "mobileNo must be 10 digits"),
                 EmailChain, FilledChain("birthPlace", r), body, env);
    FilledChainAccepts("address", r, body, env);
    CheckedChainAccepts("aadhaarNumber", r, Matches(Digits(12)), "aadhaarNumber must be 12 digits", body, env);
    CheckedChainAccepts("mobileNo", r, Matches(Digits(10)), "mobileNo must be 10 digits", body, env);
    EmailChainAccepts(body, env);
    FilledChainAccepts("birthPlace", r, body, env);
  }

  lemma ProfileAcceptIff(body: Body, env: Env)
    ensures Errors(ProfileChains(Required), body, env) == [] <==> ValidProfile(body, env)
  {
    var r := Required;
    ErrorsOfFive(CheckedChain("dateOfBirth", r, IsIso8601, "Invalid dateOfBirth"),
                 CheckedChain("gender", r, IsIn(Genders), "Invalid gender value"),
                 CheckedChain("handicapped", r, IsIn(Handicapped), "Invalid handicapped value"),
                 FilledChain("latestEducation", r), FilledChain("previousSchoolName", r), body, env);
    CheckedChainAccepts("dateOfBirth", r, IsIso8601, "Invalid dateOfBirth", body, env);
    CheckedChainAccepts("gender", r, IsIn(Genders), "Invalid gender value", body, env);
    CheckedChainAccepts("handicapped", r, IsIn(Handicapped), "Invalid handicapped value", body, env);
    FilledChainAccepts("latestEducation", r, body, env);
    FilledChainAccepts("previousSchoolName", r, body, env);
  }

  lemma SubjectChainAccepts(optionality: Optionality, body: Body, env: Env)
    ensures Accepts(SubjectChain(optionality), body, env)
        <==> Skipped(optionality, Lookup(body, "subject")) || HasSubject(Lookup(body, "subject"))
  {
    var c := SubjectChain(optionality);
    if Accepts(c, body, env) && !Skipped(optionality, Lookup(body, "subject")) {
      assert Passes(c.steps[0].check, Lookup(body, "subject"), env);
    }
  }

  lemma EmailChainAccepts(body: Body, env: Env)
    ensures Accepts(EmailChain, body, env) <==> Falsy(Lookup(body, "email")) || env.isEmail(Field(body, "email"))
  {
    var c := EmailChain;
    if Accepts(c, body, env) && !Falsy(Lookup(body, "email")) {
      assert Passes(c.steps[0].check, Lookup(body, "email"), env);
    }
  }

  /** Chain `i` of the whole list is chain `i` of its group of five. */
  lemma StudentChainAt(required: Optionality, i: nat)
    requires i < 15
    ensures StudentChains(required)[i]
         == if i < 5 then NameChains(required)[i]
            else if i < 10 then ContactChains(required)[i - 5]
            else ProfileChains(required)[i - 10]
  {
    var n, c, p := NameChains(required), ContactChains(required), ProfileChains(required);
    assert StudentChains(required) == n + c + p;
    assert |n| == 5 && |c| == 5 && |p| == 5;
  }

  lemma NamesLikeAdd(i: nat, body: Body, env: Env)
    requires i < 5
    ensures LikeAddWhenPresent(NameChains(Optional)[i], NameChains(Required)[i], body, env)
  {
    var u, a := NameChains(Optional)[i], NameChains(Required)[i];
    if i < 4 {
      assert u == NameChain(u.field, Optional) && a == NameChain(u.field, Required);
      FilledFirstLikeAdd(u, a, body, env);
    } else {
      SameStepsLikeAdd(u, a, body, env);
    }
  }

  lemma ContactLikeAdd(i: nat, body: Body, env: Env)
    requires i < 5
    ensures LikeAddWhenPresent(ContactChains(Optional)[i], ContactChains(Required)[i], body, env)
  {
    var u, a := ContactChains(Optional)[i], ContactChains(Required)[i];
    if i == 1 || i == 2 {
      FilledFirstLikeAdd(u, a, body, env);
    } else if i != 3 {
      SameStepsLikeAdd(u, a, body, env);
    }
  }

  lemma ProfileLikeAdd(i: nat, body: Body, env: Env)
    requires i < 5 && !env.isIso8601("")
    ensures LikeAddWhenPresent(ProfileChains(Optional)[i], ProfileChains(Required)[i], body, env)
  {
    var u, a := ProfileChains(Optional)[i], ProfileChains(Required)[i];
    if i < 3 {
      assert "" !in Genders && "" !in Handicapped;
      FilledFirstLikeAdd(u, a, body, env);
    } else {
      SameStepsLikeAdd(u, a, body, env);
    }
  }

  /** On update every field may be absent, and a present field is held to
      the same rule as on add (given that the empty text is no ISO 8601
      date). */
  lemma UpdateChecksPresentFieldsLikeAdd(body: Body, env: Env, i: nat)
    requires i < |UpdateStudentChains| && !env.isIso8601("")
    ensures UpdateStudentChains[i].field == AddStudentChains[i].field
    ensures UpdateStudentChains[i].field !in body ==> Accepts(UpdateStudentChains[i], body, env)
    ensures UpdateStudentChains[i].field in body ==>
      (Accepts(UpdateStudentChains[i], body, env) <==> Accepts(AddStudentChains[i], body, env))
  {
    StudentChainAt(Optional, i);
    StudentChainAt(Required, i);
    if i < 5 {
      NamesLikeAdd(i, body, env);
    } else if i < 10 {
      ContactLikeAdd(i - 5, body, env);
    } else {
      ProfileLikeAdd(i - 10, body, env);
    }
  }

  /** An empty update body is accepted. */
  lemma EmptyUpdateAccepted(env: Env)
    ensures Decide(UpdateStudentChains, map[], env) == Next
  {
    forall i | 0 <= i < |UpdateStudentChains|
      ensures Accepts(UpdateStudentChains[i], map[], env)
    {
      StudentChainAt(Optional, i);
    }
  }

  /** A blank surname on add is reported twice: as missing and as not
      letters. */
  lemma BlankSurnameTwoErrors(env: Env)
    ensures ChainErrors(NameChain("surName", Required), map["surName" := Str("")], env)
         == [FieldError("surName", "surName is required"), FieldError("surName", "surName must contain only letters")]
  {
    var required, letters := "surName is required", "surName must contain only letters";
    SurnameMessages();
    assert NameChain("surName", Required)
        == Chain("surName", Required, [Step(NotEmpty, required), Step(Matches(Letters), letters)]);
    BlankFailsBothSteps("surName", required, letters, env);
  }

  lemma SurnameMessages()
    ensures "surName" + " is required" == "surName is required"
    ensures "surName" + " must contain only letters" == "surName must contain only letters"
  {
  }

  lemma BlankFailsBothSteps(field: string, required: string, letters: string, env: Env)
    ensures ChainErrors(Chain(field, Required, [Step(NotEmpty, required), Step(Matches(Letters), letters)]),
                        map[field := Str("")], env)
         == [FieldError(field, required), FieldError(field, letters)]
  {
    var steps := [Step(NotEmpty, required), Step(Matches(Letters), letters)];
    var v := Some(Str(""));
    assert Lookup(map[field := Str("")], field) == v;
    assert !Passes(NotEmpty, v, env) && !Passes(Matches(Letters), v, env);
    assert steps[1..][1..] == [];
    assert StepErrors(field, steps[1..], v, env) == [FieldError(field, letters)];
  }
}
