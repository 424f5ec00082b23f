/** The fee records of `service/feesService.js`: a soft-delete table whose
    records copy the paying student's identity, carry a derived
    `monthlyInstallments`, and are summarised per student. */
module Fees {

  import opened Wrappers
  import Text
  import opened SoftDelete
  import opened Students

  /** A JavaScript number after `Number(x)`: a finite value, or NaN or an
      infinity (`Number(undefined)` is NaN). Finite values are reals; the
      floating-point rounding is not modelled. */
  datatype Num = Finite(value: real) | NonFinite

  /** The copy of the student kept in a fee record. The fees schema
      (models/fees.js) declares no `batchStart` or `batchEnd` under
      `selectedStudent`, so the copy never holds them. */
  datatype SelectedStudent = SelectedStudent(
    studentId: nat, name: Option<string>, aadhaarNumber: Option<string>,
    mobileNo: Option<string>, subjects: seq<string>)

  /** A fee record; dates are milliseconds since the epoch. */
  datatype Fee = Fee(
    selectedStudent: SelectedStudent, subjects: seq<string>, admissionDate: Option<int>,
    totalFees: real, totalInstallments: real, monthlyInstallments: real,
    instalmentNumber: real, feesPaid: real, date: Option<int>)

  /** The body of `addFees`, with `Number` already applied to the numeric
      fields; a falsy `studentId` is absent. */
  datatype FeesInput = FeesInput(
    studentId: Option<nat>, admissionDate: Option<int>, totalFees: Num,
    totalInstallments: Num, feesPaid: Num, instalmentNumber: Num, date: Option<int>)

  datatype FeesError =
    | StudentIdRequired   // "studentId is required"
    | StudentNotFound     // STUDENT_NOT_FOUND
    | InvalidNumeric      // INVALID_NUMERIC
    | ValidationFailed    // the schema's `required` and `min` checks on save

  /** `totalInstallments > 0 ? totalFees / totalInstallments : 0`. */
  function MonthlyInstallments(totalFees: real, totalInstallments: real): (m: real)
    ensures totalInstallments > 0.0 ==> m * totalInstallments == totalFees
    ensures totalInstallments <= 0.0 ==> m == 0.0
    ensures totalFees >= 0.0 ==> m >= 0.0
  {
    if totalInstallments > 0.0 then totalFees / totalInstallments else 0.0
  }

  /** The `trim: true` setters of the copy's name, Aadhaar number and mobile
      number. */
  function TrimSelected(sel: SelectedStudent): (r: SelectedStudent)
    ensures r.studentId == sel.studentId && r.subjects == sel.subjects
    ensures r.name == TrimOpt(sel.name) && r.aadhaarNumber == TrimOpt(sel.aadhaarNumber)
    ensures r.mobileNo == TrimOpt(sel.mobileNo)
  {
    sel.(name := TrimOpt(sel.name), aadhaarNumber := TrimOpt(sel.aadhaarNumber), mobileNo := TrimOpt(sel.mobileNo))
  }

  /** `selectedStudent` as stored: the student's id, name, Aadhaar number
      and mobile number, through the setters, and its subject list or
      `[]`. */
  function Selected(id: nat, s: Student): (sel: SelectedStudent)
    ensures sel.studentId == id && sel.name == TrimOpt(s.name)
    ensures sel.aadhaarNumber == TrimOpt(s.aadhaarNumber) && sel.mobileNo == TrimOpt(s.mobileNo)
    ensures sel.subjects == (if s.subject.Some? then s.subject.value else [])
  {
    TrimSelected(SelectedStudent(id, s.name, s.aadhaarNumber, s.mobileNo, s.subject.GetOr([])))
  }

  /** A student whose copied strings are already trimmed is copied
      unchanged. */
  lemma SelectedOfTrimmed(id: nat, s: Student)
    requires PaddingFree(s.name) && PaddingFree(s.aadhaarNumber) && PaddingFree(s.mobileNo)
    ensures Selected(id, s) == SelectedStudent(id, s.name, s.aadhaarNumber, s.mobileNo, s.subject.GetOr([]))
  {
    TrimOptOfPaddingFree(s.name);
    TrimOptOfPaddingFree(s.aadhaarNumber);
    TrimOptOfPaddingFree(s.mobileNo);
  }

  /** So is every student `addStudent` stores. */
  lemma SelectedOfStoredCopies(id: nat, data: Student)
    ensures var s := StoredNew(data);
      Selected(id, s) == SelectedStudent(id, s.name, s.aadhaarNumber, s.mobileNo, s.subject.GetOr([]))
  {
    var s := StoredNew(data);
    assert PaddingFree(s.name) && PaddingFree(s.aadhaarNumber) && PaddingFree(s.mobileNo);
    SelectedOfTrimmed(id, s);
  }

  /** A required string path: present and not blank once trimmed. */
  predicate Filled(o: Option<string>) {
    o.Some? && Text.Trim(o.value) != []
  }

  /** The schema's checks on save (models/fees.js). */
  predicate SchemaValid(f: Fee) {
    && Filled(f.selectedStudent.name) && Filled(f.selectedStudent.aadhaarNumber)
    && Filled(f.selectedStudent.mobileNo)
    && f.admissionDate.Some? && f.date.Some?
    && f.totalFees >= 0.0 && f.totalInstallments >= 1.0 && f.monthlyInstallments >= 0.0
    && f.instalmentNumber >= 1.0 && f.feesPaid >= 0.0
  }

  predicate AllFinite(input: FeesInput) {
    input.totalFees.Finite? && input.totalInstallments.Finite?
    && input.feesPaid.Finite? && input.instalmentNumber.Finite?
  }

  /** The document `addFees` builds for a found student from finite
      numbers, before the schema checks it. */
  function Draft(id: nat, student: Student, input: FeesInput): (doc: Fee)
    requires AllFinite(input)
    ensures doc.selectedStudent == Selected(id, student) && doc.subjects == doc.selectedStudent.subjects
    ensures doc.totalFees == input.totalFees.value && doc.totalInstallments == input.totalInstallments.value
    ensures doc.feesPaid == input.feesPaid.value && doc.instalmentNumber == input.instalmentNumber.value
    ensures doc.monthlyInstallments == MonthlyInstallments(doc.totalFees, doc.totalInstallments)
    ensures doc.admissionDate == input.admissionDate && doc.date == input.date
  {
    var selected := Selected(id, student);
    var totalFees, totalInstallments := input.totalFees.value, input.totalInstallments.value;
    Fee(selected, selected.subjects, input.admissionDate, totalFees, totalInstallments,
        MonthlyInstallments(totalFees, totalInstallments),
        input.instalmentNumber.value, input.feesPaid.value, input.date)
  }

  /** `addFees`: the checks in order, then the record to store. */
  function AddFeesRecord(students: seq<Row<Student>>, input: FeesInput): (r: Result<Fee, FeesError>)
    ensures input.studentId.None? <==> r == Err(StudentIdRequired)
    ensures r == Err(StudentNotFound) <==> input.studentId.Some? && !IsLive(students, input.studentId.value)
    ensures r == Err(InvalidNumeric) <==>
      input.studentId.Some? && IsLive(students, input.studentId.value) && !AllFinite(input)
    ensures r == Err(ValidationFailed) <==>
      input.studentId.Some? && IsLive(students, input.studentId.value) && AllFinite(input)
      && !SchemaValid(Draft(input.studentId.value, students[input.studentId.value].data, input))
    ensures r.Ok? <==>
      input.studentId.Some? && IsLive(students, input.studentId.value) && AllFinite(input)
      && SchemaValid(Draft(input.studentId.value, students[input.studentId.value].data, input))
    ensures r.Ok? ==>
      && input.studentId.Some? && IsLive(students, input.studentId.value) && AllFinite(input)
      && r.value == Draft(input.studentId.value, students[input.studentId.value].data, input)
  {
    if input.studentId.None? then Err(StudentIdRequired)
    else
      match FindLive(students, input.studentId.value)
      case None => Err(StudentNotFound)
      case Some(student) =>
        if !AllFinite(input) then Err(InvalidNumeric)
        else
          var doc := Draft(input.studentId.value, student, input);
          if SchemaValid(doc) then Ok(doc) else Err(ValidationFailed)
  }

  /** A fee the schema accepts, with the instalment `addFees` derives
      (`AddFeesRecord` only returns such fees), never owes a negative
      instalment, and its instalments add up to the total. */
  lemma SavedFeeInstalments(f: Fee)
    requires SchemaValid(f) && f.monthlyInstallments == MonthlyInstallments(f.totalFees, f.totalInstallments)
    ensures f.monthlyInstallments >= 0.0 && f.monthlyInstallments * f.totalInstallments == f.totalFees
  {
    InstalmentsAddUp(f.totalFees, f.totalInstallments, f.monthlyInstallments);
  }

  lemma InstalmentsAddUp(total: real, count: real, m: real)
    requires total >= 0.0 && count >= 1.0 && m == MonthlyInstallments(total, count)
    ensures m >= 0.0 && m * count == total
  {
    assert count > 0.0;
  }

  /** The body of `updateFees` as the update sees it: `{ ...data }` passes
      every field through, so besides the fields `updateFees` reads, a body
      may carry its own `selectedStudent`, `subjects`,
      `monthlyInstallments` and `isDeleted`. Numeric fields are already
      numbers; a falsy `studentId` is absent, and `studentId` itself is no
      path of the schema, so it is never stored. */
  datatype FeesPatch = FeesPatch(
    studentId: Option<nat>, admissionDate: Option<int>, totalFees: Option<real>,
    totalInstallments: Option<real>, instalmentNumber: Option<real>,
    feesPaid: Option<real>, date: Option<int>,
    selectedStudent: Option<SelectedStudent>, subjects: Option<seq<string>>,
    monthlyInstallments: Option<real>, isDeleted: Option<bool>)

  /** A body that sets only the fields `updateFees` reads. */
  predicate ReadFieldsOnly(patch: FeesPatch) {
    patch.selectedStudent.None? && patch.subjects.None? && patch.monthlyInstallments.None? && patch.isDeleted.None?
  }

  /** The `update` object applied to the stored record: present fields
      replace stored ones; a new student replaces the copy and the subjects,
      whatever the body gives for them; when either total is supplied, both
      totals are written (the missing one from the stored record) together
      with the recomputed instalment, whatever the body gives for it. */
  function ApplyUpdate(f: Fee, patch: FeesPatch, selected: Option<SelectedStudent>): (r: Fee)
    ensures selected.Some? ==> r.selectedStudent == selected.value && r.subjects == selected.value.subjects
    ensures selected.None? && patch.selectedStudent.Some? ==> r.selectedStudent == TrimSelected(patch.selectedStudent.value)
    ensures selected.None? && patch.selectedStudent.None? ==> r.selectedStudent == f.selectedStudent
    ensures selected.None? ==> r.subjects == patch.subjects.GetOr(f.subjects)
    ensures r.admissionDate == Coalesce(patch.admissionDate, f.admissionDate)
    ensures r.totalFees == patch.totalFees.GetOr(f.totalFees)
    ensures r.totalInstallments == patch.totalInstallments.GetOr(f.totalInstallments)
    ensures patch.totalFees.Some? || patch.totalInstallments.Some? ==>
      r.monthlyInstallments == MonthlyInstallments(r.totalFees, r.totalInstallments)
    ensures patch.totalFees.None? && patch.totalInstallments.None? ==>
      r.monthlyInstallments == patch.monthlyInstallments.GetOr(f.monthlyInstallments)
    ensures r.instalmentNumber == patch.instalmentNumber.GetOr(f.instalmentNumber)
    ensures r.feesPaid == patch.feesPaid.GetOr(f.feesPaid)
    ensures r.date == Coalesce(patch.date, f.date)
  {
    var sel := if selected.Some? then selected.value
      else if patch.selectedStudent.Some? then TrimSelected(patch.selectedStudent.value)
      else f.selectedStudent;
    var subjects := if selected.Some? then selected.value.subjects else patch.subjects.GetOr(f.subjects);
    var totals := patch.totalFees.Some? || patch.totalInstallments.Some?;
    var totalFees := patch.totalFees.GetOr(f.totalFees);
    var totalInstallments := patch.totalInstallments.GetOr(f.totalInstallments);
    Fee(sel, subjects, Coalesce(patch.admissionDate, f.admissionDate), totalFees, totalInstallments,
        if totals then MonthlyInstallments(totalFees, totalInstallments)
        else patch.monthlyInstallments.GetOr(f.monthlyInstallments),
        patch.instalmentNumber.GetOr(f.instalmentNumber), patch.feesPaid.GetOr(f.feesPaid),
        Coalesce(patch.date, f.date))
  }

  /** An empty body changes nothing. */
  lemma EmptyUpdateKeepsFee(f: Fee)
    ensures ApplyUpdate(f, FeesPatch(None, None, None, None, None, None, None, None, None, None, None), None) == f
  {
  }

  /** The copy of the student a body's `studentId` names, when it is live. */
  function SelectedFor(students: seq<Row<Student>>, patch: FeesPatch): (r: Option<SelectedStudent>)
    ensures r.Some? <==> patch.studentId.Some? && IsLive(students, patch.studentId.value)
    ensures r.Some? ==> r.value == Selected(patch.studentId.value, students[patch.studentId.value].data)
  {
    if patch.studentId.Some? && IsLive(students, patch.studentId.value)
    then Some(Selected(patch.studentId.value, students[patch.studentId.value].data)) else None
  }

  /** `updateFees`: a new student that is not live is refused; with a total
      supplied the stored record must be live or the answer is `null`; then
      only a live record is updated, and a body's `isDeleted` is written
      with the rest. The update runs without the schema's validators. */
  function UpdateFeesRows(fees: seq<Row<Fee>>, students: seq<Row<Student>>, id: int, patch: FeesPatch)
    : (r: Result<(seq<Row<Fee>>, Option<Fee>), FeesError>)
    ensures r.Err? <==> patch.studentId.Some? && !IsLive(students, patch.studentId.value)
    ensures r.Err? ==> r.error == StudentNotFound
    ensures r.Ok? ==> (r.value.1.Some? <==> IsLive(fees, id))
    ensures r.Ok? && !IsLive(fees, id) ==> r.value.0 == fees
    ensures r.Ok? && IsLive(fees, id) ==>
      && r.value.0 == fees[id := Row(ApplyUpdate(fees[id].data, patch, SelectedFor(students, patch)),
                                     patch.isDeleted.GetOr(false))]
      && r.value.1 == Some(r.value.0[id].data)
  {
    var selected := SelectedFor(students, patch);
    if patch.studentId.Some? && selected.None? then Err(StudentNotFound)
    else if (patch.totalFees.Some? || patch.totalInstallments.Some?) && !IsLive(fees, id) then Ok((fees, None))
    else Ok(UpdateLiveSetting(fees, id, (f: Fee) => ApplyUpdate(f, patch, selected), patch.isDeleted))
  }

  /** The stored instalment agrees with the stored totals. */
  predicate InstalmentDerived(f: Fee) {
    f.monthlyInstallments == MonthlyInstallments(f.totalFees, f.totalInstallments)
  }

  /** An update keeps `monthlyInstallments` derived from the totals when it
      supplies a total (the other comes from the stored record), or when
      its body has no `monthlyInstallments` of its own. */
  lemma UpdateKeepsInstalmentDerived(fees: seq<Row<Fee>>, students: seq<Row<Student>>, id: int, patch: FeesPatch)
    requires IsLive(fees, id) && InstalmentDerived(fees[id].data)
    requires patch.monthlyInstallments.None? || patch.totalFees.Some? || patch.totalInstallments.Some?
    ensures var r := UpdateFeesRows(fees, students, id, patch);
      r.Ok? ==> r.value.1.Some? && InstalmentDerived(r.value.1.value) && r.value.0[id].data == r.value.1.value
  {
  }

  /** A body with a `monthlyInstallments` and neither total stores that
      instalment as given, so one that differs from the totals' quotient
      leaves the record with an instalment that no longer agrees. */
  lemma UpdateStoresBodyInstalment(fees: seq<Row<Fee>>, students: seq<Row<Student>>, id: int,
                                   patch: FeesPatch, m: real)
    requires IsLive(fees, id) && patch.studentId.None?
    requires patch.totalFees.None? && patch.totalInstallments.None? && patch.monthlyInstallments == Some(m)
    ensures var r := UpdateFeesRows(fees, students, id, patch);
      && r.Ok? && r.value.1.Some? && r.value.1.value.monthlyInstallments == m
      && (m != MonthlyInstallments(fees[id].data.totalFees, fees[id].data.totalInstallments) ==>
            !InstalmentDerived(r.value.1.value))
  {
  }

  /** A body with `isDeleted: true` deletes the record through the update:
      the reply is the record, which is then no longer found. */
  lemma UpdateCanDelete(fees: seq<Row<Fee>>, students: seq<Row<Student>>, id: int, patch: FeesPatch)
    requires IsLive(fees, id) && patch.isDeleted == Some(true)
    requires patch.studentId.None? || IsLive(students, patch.studentId.value)
    ensures var r := UpdateFeesRows(fees, students, id, patch);
      r.Ok? && r.value.1.Some? && r.value.0[id].isDeleted && FindLive(r.value.0, id).None?
  {
  }

  /** Updating a deleted or absent record answers `null` and changes
      nothing, whatever the body supplies. */
  lemma UpdateOfMissingIsNull(fees: seq<Row<Fee>>, students: seq<Row<Student>>, id: int, patch: FeesPatch)
    requires !IsLive(fees, id)
    requires patch.studentId.None? || IsLive(students, patch.studentId.value)
    ensures UpdateFeesRows(fees, students, id, patch) == Ok((fees, None))
  {
  }

  // ---------------------------------------------------------------------
  // The per-student summary.

  /** One group of the aggregation `$group` by `selectedStudent.studentId`. */
  datatype Group = Group(
    studentId: nat, lastPaymentDate: Option<int>, totalFees: real,
    totalInstallments: real, monthlyInstallments: real, totalPaid: real)

  function Max(a: real, b: real): real {
    if a >= b then a else b
  }

  /** `$max` over dates: a missing date is ignored. */
  function MaxDate(a: Option<int>, b: Option<int>): (r: Option<int>)
    ensures r.None? <==> a.None? && b.None?
    ensures r.Some? ==> (r == a || r == b)
    ensures a.Some? ==> r.Some? && r.value >= a.value
    ensures b.Some? ==> r.Some? && r.value >= b.value
  {
    if a.None? then b else if b.None? then a else if a.value >= b.value then a else b
  }

  function Start(f: Fee): Group {
    Group(f.selectedStudent.studentId, f.date, f.totalFees, f.totalInstallments,
          f.monthlyInstallments, f.feesPaid)
  }

  function Combine(g: Group, f: Fee): Group {
    Group(g.studentId, MaxDate(g.lastPaymentDate, f.date), Max(g.totalFees, f.totalFees),
          Max(g.totalInstallments, f.totalInstallments),
          Max(g.monthlyInstallments, f.monthlyInstallments), g.totalPaid + f.feesPaid)
  }

  predicate PaysFor(row: Row<Fee>, id: nat) {
    !row.isDeleted && row.data.selectedStudent.studentId == id
  }

  /** The student has at least one live fee. */
  predicate HasLiveFee(fees: seq<Row<Fee>>, id: nat) {
    exists k :: 0 <= k < |fees| && PaysFor(fees[k], id)
  }

  /** The group of one student over the live fees, or none when that
      student has no live fee. */
  function Aggregate(fees: seq<Row<Fee>>, id: nat): (g: Option<Group>)
    ensures g.Some? ==> g.value.studentId == id
    decreases |fees|
  {
    if fees == [] then None
    else
      var n := |fees| - 1;
      var rest := Aggregate(fees[..n], id);
      if !PaysFor(fees[n], id) then rest
      else if rest.None? then Some(Start(fees[n].data))
      else Some(Combine(rest.value, fees[n].data))
  }

  /** The sum of `feesPaid` over a student's live fees. */
  function PaidBy(fees: seq<Row<Fee>>, id: nat): real
    decreases |fees|
  {
    if fees == [] then 0.0
    else
      var n := |fees| - 1;
      PaidBy(fees[..n], id) + (if PaysFor(fees[n], id) then fees[n].data.feesPaid else 0.0)
  }

  /** The three amounts the aggregation takes the `$max` of. */
  datatype Amount = TotalFeesAmount | InstallmentsAmount | MonthlyAmount

  function AmountOf(f: Fee, a: Amount): real {
    match a
    case TotalFeesAmount => f.totalFees
    case InstallmentsAmount => f.totalInstallments
    case MonthlyAmount => f.monthlyInstallments
  }

  function GroupAmount(g: Group, a: Amount): real {
    match a
    case TotalFeesAmount => g.totalFees
    case InstallmentsAmount => g.totalInstallments
    case MonthlyAmount => g.monthlyInstallments
  }

  /** `v` is the largest amount `a` among the student's live fees: no fee
      exceeds it and one attains it. */
  predicate IsLargest(fees: seq<Row<Fee>>, id: nat, a: Amount, v: real) {
    && (forall k :: 0 <= k < |fees| && PaysFor(fees[k], id) ==> AmountOf(fees[k].data, a) <= v)
    && (exists k :: 0 <= k < |fees| && PaysFor(fees[k], id) && AmountOf(fees[k].data, a) == v)
  }

  /** `d` is the latest `date` among the student's live fees: none when no
      such fee has a date, otherwise one of their dates and no earlier than
      any of them. */
  predicate IsLatest(fees: seq<Row<Fee>>, id: nat, d: Option<int>) {
    && (d.None? <==> forall k :: 0 <= k < |fees| && PaysFor(fees[k], id) ==> fees[k].data.date.None?)
    && (d.Some? ==> exists k :: 0 <= k < |fees| && PaysFor(fees[k], id) && fees[k].data.date == d)
    && (forall k :: 0 <= k < |fees| && PaysFor(fees[k], id) && fees[k].data.date.Some? ==>
          d.Some? && fees[k].data.date.value <= d.value)
  }

  lemma LargestFirst(fees: seq<Row<Fee>>, id: nat, a: Amount)
    requires fees != [] && PaysFor(fees[|fees| - 1], id)
    requires forall k :: 0 <= k < |fees| - 1 ==> !PaysFor(fees[k], id)
    ensures IsLargest(fees, id, a, AmountOf(fees[|fees| - 1].data, a))
  {
  }

  lemma LargestNext(fees: seq<Row<Fee>>, id: nat, a: Amount, v: real)
    requires fees != [] && IsLargest(fees[..|fees| - 1], id, a, v)
    ensures var f := fees[|fees| - 1];
      IsLargest(fees, id, a, if PaysFor(f, id) then Max(v, AmountOf(f.data, a)) else v)
  {
    var n := |fees| - 1;
    assert forall k :: 0 <= k < n ==> fees[..n][k] == fees[k];
    var j :| 0 <= j < n && PaysFor(fees[..n][j], id) && AmountOf(fees[..n][j].data, a) == v;
    assert PaysFor(fees[j], id);
  }

  lemma LatestFirst(fees: seq<Row<Fee>>, id: nat)
    requires fees != [] && PaysFor(fees[|fees| - 1], id)
    requires forall k :: 0 <= k < |fees| - 1 ==> !PaysFor(fees[k], id)
    ensures IsLatest(fees, id, fees[|fees| - 1].data.date)
  {
  }

  lemma LatestNext(fees: seq<Row<Fee>>, id: nat, d: Option<int>)
    requires fees != [] && IsLatest(fees[..|fees| - 1], id, d)
    ensures var f := fees[|fees| - 1];
      IsLatest(fees, id, if PaysFor(f, id) then MaxDate(d, f.data.date) else d)
  {
    var n := |fees| - 1;
    assert forall k :: 0 <= k < n ==> fees[..n][k] == fees[k];
    var f := fees[n];
    var d' := if PaysFor(f, id) then MaxDate(d, f.data.date) else d;
    if d.Some? {
      var j :| 0 <= j < n && PaysFor(fees[..n][j], id) && fees[..n][j].data.date == d;
      assert PaysFor(fees[j], id) && fees[j].data.date == d;
    }
    if d'.None? {
      forall k | 0 <= k < |fees| && PaysFor(fees[k], id)
        ensures fees[k].data.date.None?
      {
        if k < n {
          assert PaysFor(fees[..n][k], id);
        }
      }
    }
  }

  /** A student has a group exactly when some live fee is theirs; its
      `totalPaid` is their sum of `feesPaid`; its `totalFees`,
      `totalInstallments` and `monthlyInstallments` are the largest of
      theirs, and its `lastPaymentDate` is their latest `date`. */
  lemma {:induction false} AggregateMeaning(fees: seq<Row<Fee>>, id: nat)
    ensures var g := Aggregate(fees, id);
      && (g.Some? <==> HasLiveFee(fees, id))
      && (g.Some? ==> g.value.totalPaid == PaidBy(fees, id))
      && (g.Some? ==> forall a :: IsLargest(fees, id, a, GroupAmount(g.value, a)))
      && (g.Some? ==> IsLatest(fees, id, g.value.lastPaymentDate))
    decreases |fees|
  {
    if fees != [] {
      var n := |fees| - 1;
      AggregateMeaning(fees[..n], id);
      assert forall k :: 0 <= k < n ==> fees[..n][k] == fees[k];
      var rest := Aggregate(fees[..n], id);
      var g := Aggregate(fees, id);
      if PaysFor(fees[n], id) && rest.None? {
        assert PaidBy(fees[..n], id) == 0.0 by {
          PaidWithoutFees(fees[..n], id);
        }
        LatestFirst(fees, id);
        forall a ensures IsLargest(fees, id, a, GroupAmount(g.value, a)) {
          LargestFirst(fees, id, a);
        }
      } else if rest.Some? {
        LatestNext(fees, id, rest.value.lastPaymentDate);
        forall a ensures IsLargest(fees, id, a, GroupAmount(g.value, a)) {
          LargestNext(fees, id, a, GroupAmount(rest.value, a));
        }
      }
    }
  }

  lemma {:induction false} PaidWithoutFees(fees: seq<Row<Fee>>, id: nat)
    requires forall k :: 0 <= k < |fees| ==> !PaysFor(fees[k], id)
    ensures PaidBy(fees, id) == 0.0
    decreases |fees|
  {
    if fees != [] {
      PaidWithoutFees(fees[..|fees| - 1], id);
    }
  }

  /** The position of a student's group, if any. */
  function GroupIndex(groups: seq<Group>, id: nat): (r: Option<nat>)
    ensures r.Some? ==> r.value < |groups| && groups[r.value].studentId == id
    ensures r.None? ==> forall k :: 0 <= k < |groups| ==> groups[k].studentId != id
  {
    if groups == [] then None
    else if groups[0].studentId == id then Some(0)
    else match GroupIndex(groups[1..], id)
      case None => None
      case Some(k) => Some(k + 1)
  }

  /** The aggregation: live fees folded into one group per student, in the
      order the students first appear. */
  function Groups(fees: seq<Row<Fee>>): seq<Group>
    decreases |fees|
  {
    if fees == [] then []
    else
      var n := |fees| - 1;
      var rest := Groups(fees[..n]);
      if fees[n].isDeleted then rest
      else
        var f := fees[n].data;
        match GroupIndex(rest, f.selectedStudent.studentId)
        case None => rest + [Start(f)]
        case Some(k) => rest[k := Combine(rest[k], f)]
  }

  predicate DistinctStudents(groups: seq<Group>) {
    forall i, j :: 0 <= i < j < |groups| ==> groups[i].studentId != groups[j].studentId
  }

  /** The aggregation has one group per student with a live fee, and each
      group is that student's aggregate. */
  ghost predicate GroupsFaithful(fees: seq<Row<Fee>>) {
    && DistinctStudents(Groups(fees))
    && (forall k :: 0 <= k < |Groups(fees)| ==>
          Aggregate(fees, Groups(fees)[k].studentId) == Some(Groups(fees)[k]))
    && (forall id: nat :: Aggregate(fees, id).Some? ==> GroupIndex(Groups(fees), id).Some?)
  }

  lemma {:induction false} GroupsMeaning(fees: seq<Row<Fee>>)
    ensures DistinctStudents(Groups(fees))
    ensures forall k :: 0 <= k < |Groups(fees)| ==>
      Aggregate(fees, Groups(fees)[k].studentId) == Some(Groups(fees)[k])
    ensures forall id: nat :: Aggregate(fees, id).Some? ==> GroupIndex(Groups(fees), id).Some?
    decreases |fees|
  {
    if fees != [] {
      GroupsMeaning(fees[..|fees| - 1]);
      GroupsStep(fees);
    }
  }

  /** One more fee keeps the aggregation faithful. */
  lemma GroupsStep(fees: seq<Row<Fee>>)
    requires fees != [] && GroupsFaithful(fees[..|fees| - 1])
    ensures GroupsFaithful(fees)
  {
    var n := |fees| - 1;
    var rest := Groups(fees[..n]);
    assert forall id: nat :: !PaysFor(fees[n], id) ==> Aggregate(fees, id) == Aggregate(fees[..n], id);
    if !fees[n].isDeleted {
      var id := fees[n].data.selectedStudent.studentId;
      match GroupIndex(rest, id)
      case None => GroupsStepNew(fees);
      case Some(k) => GroupsStepKnown(fees, k);
    }
  }

  /** A live fee of a student without a group appends that student's group. */
  lemma GroupsStepNew(fees: seq<Row<Fee>>)
    requires fees != [] && GroupsFaithful(fees[..|fees| - 1]) && !fees[|fees| - 1].isDeleted
    requires GroupIndex(Groups(fees[..|fees| - 1]), fees[|fees| - 1].data.selectedStudent.studentId).None?
    ensures GroupsFaithful(fees)
  {
    var n := |fees| - 1;
    var rest := Groups(fees[..n]);
    var f := fees[n].data;
    var id := f.selectedStudent.studentId;
    assert forall other: nat :: other != id ==> Aggregate(fees, other) == Aggregate(fees[..n], other);
    assert Aggregate(fees[..n], id).None?;
    var groups := rest + [Start(f)];
    assert Groups(fees) == groups;
    forall other: nat | Aggregate(fees, other).Some?
      ensures GroupIndex(groups, other).Some?
    {
      if other != id {
        var j := GroupIndex(rest, other).value;
        assert groups[j].studentId == other;
      } else {
        assert groups[|rest|].studentId == id;
      }
    }
  }

  /** A live fee of a student with a group at `k` folds into that group. */
  lemma GroupsStepKnown(fees: seq<Row<Fee>>, k: nat)
    requires fees != [] && GroupsFaithful(fees[..|fees| - 1]) && !fees[|fees| - 1].isDeleted
    requires GroupIndex(Groups(fees[..|fees| - 1]), fees[|fees| - 1].data.selectedStudent.studentId) == Some(k)
    ensures GroupsFaithful(fees)
  {
    var n := |fees| - 1;
    var rest := Groups(fees[..n]);
    var f := fees[n].data;
    var id := f.selectedStudent.studentId;
    assert forall other: nat :: other != id ==> Aggregate(fees, other) == Aggregate(fees[..n], other);
    var groups := rest[k := Combine(rest[k], f)];
    assert Groups(fees) == groups;
    forall other: nat | Aggregate(fees, other).Some?
      ensures GroupIndex(groups, other).Some?
    {
      var j := if other == id then k else GroupIndex(rest, other).value;
      assert groups[j].studentId == other;
    }
  }

  /** One row of `getFeesSummaryByStudent`. */
  datatype SummaryRow = SummaryRow(
    studentId: nat, name: string, subjects: seq<string>,
    batchStart: Option<string>, batchEnd: Option<string>,
    totalInstallments: real, totalFees: real, monthlyInstallments: real,
    totalPaid: real, amountDue: real, lastPaymentDate: Option<int>)

  /** The truthy parts of surname, first name and guardian name, in that
      order. */
  function SummaryNameParts(s: Student): seq<string> {
    (if Truthy(s.surName) then [s.surName.value] else [])
    + (if Truthy(s.firstName) then [s.firstName.value] else [])
    + (if Truthy(s.guardianName) then [s.guardianName.value] else [])
  }

  /** The row of one group, given the live student found for it, if any.
      `student.batchStart || null` is always `null`: a student document has
      no `batchStart` or `batchEnd` path to read. */
  function RowOf(g: Group, student: Option<Student>): (r: SummaryRow)
    ensures r.studentId == g.studentId && r.totalPaid == g.totalPaid && r.totalFees == g.totalFees
    ensures r.totalInstallments == g.totalInstallments && r.monthlyInstallments == g.monthlyInstallments
    ensures r.lastPaymentDate == g.lastPaymentDate
    ensures r.amountDue == Max(0.0, g.totalFees - g.totalPaid)
    ensures r.batchStart.None? && r.batchEnd.None?
    ensures student.Some? ==> r.name == Text.Join(SummaryNameParts(student.value), " ")
    ensures student.Some? ==> r.subjects == student.value.subject.GetOr([])
    ensures student.None? ==> r.name == [] && r.subjects == []
  {
    var name := if student.Some? then Text.Join(SummaryNameParts(student.value), " ") else [];
    var subjects := if student.Some? && student.value.subject.Some? then student.value.subject.value else [];
    SummaryRow(g.studentId, name, subjects, None, None, g.totalInstallments, g.totalFees,
               g.monthlyInstallments, g.totalPaid, Max(0.0, g.totalFees - g.totalPaid), g.lastPaymentDate)
  }

  /** `getFeesSummaryByStudent`: one row per group, with the group's student
      looked up among the live students. */
  function Summary(fees: seq<Row<Fee>>, students: seq<Row<Student>>): (rows: seq<SummaryRow>)
    ensures |rows| == |Groups(fees)|
    ensures forall k :: 0 <= k < |rows| ==>
      rows[k] == RowOf(Groups(fees)[k], FindLive(students, Groups(fees)[k].studentId))
  {
    var groups := Groups(fees);
    seq(|groups|, k requires 0 <= k < |groups| => RowOf(groups[k], FindLive(students, groups[k].studentId)))
  }

  /** The summary is empty exactly when there is no live fee. */
  lemma SummaryEmptyIff(fees: seq<Row<Fee>>, students: seq<Row<Student>>)
    ensures Summary(fees, students) == [] <==> forall k :: 0 <= k < |fees| ==> fees[k].isDeleted
  {
    GroupsMeaning(fees);
    if exists k :: 0 <= k < |fees| && !fees[k].isDeleted {
      var k :| 0 <= k < |fees| && !fees[k].isDeleted;
      var id := fees[k].data.selectedStudent.studentId;
      AggregateMeaning(fees, id);
      assert PaysFor(fees[k], id);
    } else {
      NoLiveFeesNoGroups(fees);
    }
  }

  lemma {:induction false} NoLiveFeesNoGroups(fees: seq<Row<Fee>>)
    requires forall k :: 0 <= k < |fees| ==> fees[k].isDeleted
    ensures Groups(fees) == []
    decreases |fees|
  {
    if fees != [] {
      NoLiveFeesNoGroups(fees[..|fees| - 1]);
    }
  }

  /** Some summary row is about that student. */
  predicate InSummary(rows: seq<SummaryRow>, id: nat) {
    exists k :: 0 <= k < |rows| && rows[k].studentId == id
  }

  function RowAmount(r: SummaryRow, a: Amount): real {
    match a
    case TotalFeesAmount => r.totalFees
    case InstallmentsAmount => r.totalInstallments
    case MonthlyAmount => r.monthlyInstallments
  }

  /** The summary has exactly one row per student with a live fee; the row
      holds that student's total paid, their largest `totalFees`,
      `totalInstallments` and `monthlyInstallments`, their latest payment
      date, and `max(0, totalFees - totalPaid)` as the amount due. */
  lemma SummaryMeaning(fees: seq<Row<Fee>>, students: seq<Row<Student>>)
    ensures var rows := Summary(fees, students);
      && (forall i, j :: 0 <= i < j < |rows| ==> rows[i].studentId != rows[j].studentId)
      && (forall id: nat :: InSummary(rows, id) <==> HasLiveFee(fees, id))
      && (forall k :: 0 <= k < |rows| ==>
            && rows[k].totalPaid == PaidBy(fees, rows[k].studentId)
            && rows[k].amountDue == Max(0.0, rows[k].totalFees - rows[k].totalPaid)
            && (forall a :: IsLargest(fees, rows[k].studentId, a, RowAmount(rows[k], a)))
            && IsLatest(fees, rows[k].studentId, rows[k].lastPaymentDate))
  {
    var rows := Summary(fees, students);
    var groups := Groups(fees);
    GroupsMeaning(fees);
    forall id: nat
      ensures InSummary(rows, id) <==> HasLiveFee(fees, id)
    {
      AggregateMeaning(fees, id);
      if InSummary(rows, id) {
        var k :| 0 <= k < |rows| && rows[k].studentId == id;
        assert groups[k].studentId == id;
      }
      if HasLiveFee(fees, id) {
        var k := GroupIndex(groups, id).value;
        assert rows[k].studentId == id;
      }
    }
    forall k | 0 <= k < |rows|
      ensures rows[k].totalPaid == PaidBy(fees, rows[k].studentId)
      ensures forall a :: IsLargest(fees, rows[k].studentId, a, RowAmount(rows[k], a))
      ensures IsLatest(fees, rows[k].studentId, rows[k].lastPaymentDate)
    {
      AggregateMeaning(fees, groups[k].studentId);
      forall a ensures RowAmount(rows[k], a) == GroupAmount(groups[k], a) {
      }
    }
  }

  /** With all three parts present, the summary name is surname, first
      name and guardian name joined by single spaces, untrimmed. */
  lemma SummaryNameOfAll(s: Student)
    requires Truthy(s.surName) && Truthy(s.firstName) && Truthy(s.guardianName)
    ensures Text.Join(SummaryNameParts(s), " ")
         == s.surName.value + " " + s.firstName.value + " " + s.guardianName.value
  {
    var parts := SummaryNameParts(s);
    assert parts == [s.surName.value, s.firstName.value, s.guardianName.value];
    assert parts[1..][1..] == [s.guardianName.value];
  }

  /** The `fees` collection. */
  class FeesTable {
    var rows: seq<Row<Fee>>

    constructor ()
      ensures rows == []
    {
      rows := [];
    }

    /** `addFees`: on success the table grows by the new record. */
    method AddFees(students: seq<Row<Student>>, input: FeesInput) returns (r: Result<Fee, FeesError>)
      modifies this
      ensures r == AddFeesRecord(students, input)
      ensures r.Ok? ==> rows == old(rows) + [Row(r.value, false)]
      ensures r.Err? ==> rows == old(rows)
    {
      if input.studentId.None? {
        return Err(StudentIdRequired);
      }
      var found := FindLive(students, input.studentId.value);
      if found.None? {
        return Err(StudentNotFound);
      }
      var selected := Selected(input.studentId.value, found.value);
      if !input.totalFees.Finite? || !input.totalInstallments.Finite?
         || !input.feesPaid.Finite? || !input.instalmentNumber.Finite? {
        return Err(InvalidNumeric);
      }
      assert AllFinite(input);
      var totalFees := input.totalFees.value;
      var totalInstallments := input.totalInstallments.value;
      var monthly := if totalInstallments > 0.0 then totalFees / totalInstallments else 0.0;
      var doc := Fee(selected, selected.subjects, input.admissionDate, totalFees, totalInstallments,
                     monthly, input.instalmentNumber.value, input.feesPaid.value, input.date);
      if !SchemaValid(doc) {
        return Err(ValidationFailed);
      }
      rows := rows + [Row(doc, false)];
      r := Ok(doc);
    }

    /** `getFees`: `matches` stands for the search on the copied name and
        Aadhaar number. */
    function GetFees(page: Option<int>, limit: Option<int>, search: string, matches: Fee -> bool)
      : (r: Result<Page<Fee>, string>)
      reads this
      ensures var p, l := page.GetOr(1), limit.GetOr(10);
        && (r.Err? <==> (p - 1) * l < 0)
        && (r.Ok? ==> (p - 1) * l >= 0)
        && (r.Ok? ==> r.value.data == WithRecords(rows, PageIds(rows, SearchFilter(search, matches), (p - 1) * l, l)))
      ensures r.Ok? ==> forall k :: 0 <= k < |r.value.data| ==>
        var (id, record) := r.value.data[k];
        IsLive(rows, id) && record == rows[id].data && (search != [] ==> matches(record))
    {
      ListLive(rows, SearchFilter(search, matches), page, limit)
    }

    /** `getFeesById`. */
    function GetFeesById(id: int): (r: Option<Fee>)
      reads this
      ensures r.Some? <==> IsLive(rows, id)
      ensures r.Some? ==> r.value == rows[id].data
    {
      FindLive(rows, id)
    }

    /** `updateFees`: builds the update field by field, then applies it to
        the live record. */
    method UpdateFees(students: seq<Row<Student>>, id: int, patch: FeesPatch)
      returns (r: Result<Option<Fee>, FeesError>)
      modifies this
      ensures match UpdateFeesRows(old(rows), students, id, patch)
        case Ok((rows', answer)) => rows == rows' && r == Ok(answer)
        case Err(e) => rows == old(rows) && r == Err(e)
    {
      var selected: Option<SelectedStudent> := None;
      if patch.studentId.Some? {
        var found := FindLive(students, patch.studentId.value);
        if found.None? {
          return Err(StudentNotFound);
        }
        selected := Some(Selected(patch.studentId.value, found.value));
      }
      if patch.totalFees.Some? || patch.totalInstallments.Some? {
        if !IsLive(rows, id) {
          return Ok(None);
        }
      }
      var result := UpdateLiveSetting(rows, id, (f: Fee) => ApplyUpdate(f, patch, selected), patch.isDeleted);
      rows := result.0;
      r := Ok(result.1);
    }

    /** `deleteFees`. */
    method DeleteFees(id: int) returns (r: Option<Fee>)
      modifies this
      ensures (rows, r) == MarkDeleted(old(rows), id)
      ensures r.Some? <==> old(IsLive(rows, id))
    {
      var result := MarkDeleted(rows, id);
      rows, r := result.0, result.1;
    }

    /** `getFeesSummaryByStudent`: the aggregation, then a map from id to
        each live student of the groups, then one row per group. */
    method FeesSummary(students: seq<Row<Student>>) returns (summary: seq<SummaryRow>)
      ensures summary == Summary(rows, students)
    {
      var groups := Groups(rows);
      if |groups| == 0 {
        return [];
      }
      var studentMap := LiveStudentsOf(students, groups);
      ghost var expected := Summary(rows, students);
      summary := [];
      var k := 0;
      while k < |groups|
        invariant 0 <= k <= |groups| == |expected|
        invariant summary == expected[..k]
      {
        var g := groups[k];
        assert GroupIndex(groups, g.studentId).Some?;
        var student := LookUp(studentMap, students, groups, g.studentId);
        var row := RowOf(g, student);
        assert expected[..k + 1] == expected[..k] + [row];
        summary := summary + [row];
        k := k + 1;
      }
      assert expected[..k] == expected;
    }

    /** The student of a group, looked up in the map of live students. */
    static method LookUp(studentMap: map<nat, Student>, students: seq<Row<Student>>, groups: seq<Group>, id: nat)
      returns (student: Option<Student>)
      requires forall i :: i in studentMap <==> IsLive(students, i) && GroupIndex(groups, i).Some?
      requires forall i :: i in studentMap ==> IsLive(students, i) && studentMap[i] == students[i].data
      requires GroupIndex(groups, id).Some?
      ensures student == FindLive(students, id)
    {
      student := if id in studentMap then Some(studentMap[id]) else None;
    }

    /** `Student.find({ _id: { $in: ids }, isDeleted: false })` over the ids
        of the groups, as a map from id to student. */
    static method LiveStudentsOf(students: seq<Row<Student>>, groups: seq<Group>)
      returns (studentMap: map<nat, Student>)
      ensures forall id :: id in studentMap <==> IsLive(students, id) && GroupIndex(groups, id).Some?
      ensures forall id :: id in studentMap ==> IsLive(students, id) && studentMap[id] == students[id].data
    {
      studentMap := map[];
      var i := 0;
      while i < |students|
        invariant 0 <= i <= |students|
        invariant forall id :: id in studentMap <==>
          id < i && IsLive(students, id) && GroupIndex(groups, id).Some?
        invariant forall id :: id in studentMap ==> IsLive(students, id) && studentMap[id] == students[id].data
      {
        if !students[i].isDeleted && GroupIndex(groups, i).Some? {
          studentMap := studentMap[i := students[i].data];
        }
        i := i + 1;
      }
    }
  }
}
