/** The student records of `service/studentService.js`: a soft-delete table
    whose `name` is derived from `firstName` and `surName`. */
module Students {

  import opened Wrappers
  import Text
  import opened SoftDelete

  /** A student document, or an update body, as the service sees it: every
      field may be absent. The fields the service never reads (address,
      photo, dates of birth and so on) are not part of the model. The schema
      (models/student.js) declares no `batchStart` or `batchEnd` path, so a
      strict schema drops them from what is stored, and a stored student
      never has them. */
  datatype Student = Student(
    name: Option<string>, firstName: Option<string>, surName: Option<string>,
    guardianName: Option<string>, subject: Option<seq<string>>,
    aadhaarNumber: Option<string>, mobileNo: Option<string>)

  /** A string field is truthy when present and non-empty. */
  predicate Truthy(o: Option<string>) {
    o.Some? && o.value != []
  }

  /** `a ?? b`: `b` only when `a` is absent; an empty string is kept. */
  function Coalesce<T>(a: Option<T>, b: Option<T>): Option<T> {
    if a.Some? then a else b
  }

  function NameParts(firstName: Option<string>, surName: Option<string>): seq<string> {
    (if Truthy(firstName) then [firstName.value] else [])
    + (if Truthy(surName) then [surName.value] else [])
  }

  /** The truthy parts, first name first, joined by one space. */
  function JoinedName(firstName: Option<string>, surName: Option<string>): string {
    Text.Join(NameParts(firstName, surName), " ")
  }

  /** `buildFullName`: the truthy parts, first name first, joined by one
      space, then trimmed. */
  function BuildFullName(firstName: Option<string>, surName: Option<string>): (r: string)
    ensures Text.IsTrimmed(r)
    ensures !Truthy(firstName) && !Truthy(surName) ==> r == []
    ensures Truthy(firstName) && !Truthy(surName) ==> r == Text.Trim(firstName.value)
    ensures !Truthy(firstName) && Truthy(surName) ==> r == Text.Trim(surName.value)
  {
    Text.Trim(JoinedName(firstName, surName))
  }

  /** With both parts present and already trimmed, the full name is exactly
      the first name, one space, and the surname. */
  lemma FullNameOfBoth(firstName: string, surName: string)
    requires firstName != [] && surName != []
    requires Text.IsTrimmed(firstName) && Text.IsTrimmed(surName)
    ensures BuildFullName(Some(firstName), Some(surName)) == firstName + " " + surName
  {
    var joined := firstName + " " + surName;
    assert NameParts(Some(firstName), Some(surName)) == [firstName, surName];
    assert JoinedName(Some(firstName), Some(surName)) == joined by {
      assert [firstName, surName][1..] == [surName];
    }
    assert joined[0] == firstName[0];
    assert joined[|joined| - 1] == surName[|surName| - 1];
    Text.TrimOfTrimmed(joined);
  }

  /** The full name is empty exactly when neither part has a non-space
      character. */
  lemma FullNameEmptyIff(firstName: Option<string>, surName: Option<string>)
    ensures var joined := JoinedName(firstName, surName);
      BuildFullName(firstName, surName) == [] <==> forall k :: 0 <= k < |joined| ==> Text.IsSpace(joined[k])
  {
    var joined := JoinedName(firstName, surName);
    if forall k :: 0 <= k < |joined| ==> Text.IsSpace(joined[k]) {
      Text.TrimAllSpace(joined);
    } else {
      var k :| 0 <= k < |joined| && !Text.IsSpace(joined[k]);
      Text.TrimNonEmpty(joined, k);
    }
  }

  /** A present string passed through a `trim: true` setter. */
  function TrimOpt(o: Option<string>): (r: Option<string>)
    ensures r.None? <==> o.None?
    ensures r.Some? ==> r.value == Text.Trim(o.value) && Text.IsTrimmed(r.value)
  {
    if o.Some? then Some(Text.Trim(o.value)) else None
  }

  /** No white space around a present string: the setter leaves it alone. */
  predicate PaddingFree(o: Option<string>) {
    o.None? || Text.IsTrimmed(o.value)
  }

  lemma TrimOptOfPaddingFree(o: Option<string>)
    requires PaddingFree(o)
    ensures TrimOpt(o) == o
  {
    if o.Some? {
      Text.TrimOfTrimmed(o.value);
    }
  }

  /** The schema's `trim: true` setters, which Mongoose runs on `save` and on
      the update of `findOneAndUpdate` alike: every string path of the model
      is trimmed, the subject list is kept. */
  function TrimPaths(s: Student): (r: Student)
    ensures r.name == TrimOpt(s.name) && r.firstName == TrimOpt(s.firstName)
    ensures r.surName == TrimOpt(s.surName) && r.guardianName == TrimOpt(s.guardianName)
    ensures r.aadhaarNumber == TrimOpt(s.aadhaarNumber) && r.mobileNo == TrimOpt(s.mobileNo)
    ensures r.subject == s.subject
  {
    Student(TrimOpt(s.name), TrimOpt(s.firstName), TrimOpt(s.surName), TrimOpt(s.guardianName),
            s.subject, TrimOpt(s.aadhaarNumber), TrimOpt(s.mobileNo))
  }

  /** Setting the paths a second time changes nothing. */
  lemma TrimPathsIdempotent(s: Student)
    ensures TrimPaths(TrimPaths(s)) == TrimPaths(s)
  {
    var t := TrimPaths(s);
    TrimOptOfPaddingFree(t.name);
    TrimOptOfPaddingFree(t.firstName);
    TrimOptOfPaddingFree(t.surName);
    TrimOptOfPaddingFree(t.guardianName);
    TrimOptOfPaddingFree(t.aadhaarNumber);
    TrimOptOfPaddingFree(t.mobileNo);
  }

  /** `addStudent`: the body's `name` is always recomputed. */
  function WithDerivedName(data: Student): (r: Student)
    ensures r.name == Some(BuildFullName(data.firstName, data.surName))
    ensures r.(name := data.name) == data
  {
    data.(name := Some(BuildFullName(data.firstName, data.surName)))
  }

  /** A client-supplied `name` has no influence on what `addStudent` stores. */
  lemma AddIgnoresClientName(data: Student, clientName: Option<string>)
    ensures WithDerivedName(data.(name := clientName)) == WithDerivedName(data)
  {
  }

  /** What `addStudent` stores: the body with its recomputed `name`, after
      the setters. The name is built before the parts are trimmed, so it is
      `buildFullName` of the parts as given. */
  function StoredNew(data: Student): (r: Student)
    ensures r.name == Some(BuildFullName(data.firstName, data.surName))
    ensures r.firstName == TrimOpt(data.firstName) && r.surName == TrimOpt(data.surName)
    ensures r.guardianName == TrimOpt(data.guardianName) && r.subject == data.subject
    ensures r.aadhaarNumber == TrimOpt(data.aadhaarNumber) && r.mobileNo == TrimOpt(data.mobileNo)
  {
    Text.TrimOfTrimmed(BuildFullName(data.firstName, data.surName));
    TrimPaths(WithDerivedName(data))
  }

  /** The stored `name` agrees with the stored first name and surname. */
  predicate NameIsDerived(s: Student) {
    s.name == Some(BuildFullName(s.firstName, s.surName))
  }

  /** Why `save`, or the write of `findOneAndUpdate`, refused a student;
      the controller answers both with 500. */
  datatype StudentError =
    | RequiredFailed     // a `required` check of the schema
    | AadhaarDuplicate   // E11000 from the unique index on `aadhaarNumber`

  /** The schema's `required` checks on the string paths of the model, on the
      stored (trimmed) values: Mongoose refuses an absent or empty string.
      The subject list defaults to `[]`, which `required` accepts. */
  predicate StudentSchemaValid(s: Student) {
    && Truthy(s.name) && Truthy(s.surName) && Truthy(s.firstName)
    && Truthy(s.guardianName) && Truthy(s.aadhaarNumber) && Truthy(s.mobileNo)
  }

  /** What the unique index on `aadhaarNumber` sees: some record other than
      `except` holds `aadhaar`. Deleted records stay in the index. */
  predicate AadhaarHeld(rows: seq<Row<Student>>, aadhaar: Option<string>, except: int) {
    exists k :: 0 <= k < |rows| && k != except && rows[k].data.aadhaarNumber == aadhaar
  }

  /** The unique index holds: no two records share an `aadhaarNumber`. */
  predicate AadhaarUnique(rows: seq<Row<Student>>) {
    forall i, j :: 0 <= i < j < |rows| ==> rows[i].data.aadhaarNumber != rows[j].data.aadhaarNumber
  }

  /** `addStudent`: `new Student(data).save()` validates the stored record,
      then the unique index checks its `aadhaarNumber`. `restValid` says
      whether the schema paths this model leaves out (`photo`, `gender` and
      the others) pass their own `required` and `enum` checks. */
  function AddStudentRows(rows: seq<Row<Student>>, data: Student, restValid: bool)
    : (r: Result<seq<Row<Student>>, StudentError>)
    ensures r == Err(RequiredFailed) <==> !restValid || !StudentSchemaValid(StoredNew(data))
    ensures r == Err(AadhaarDuplicate) <==>
      restValid && StudentSchemaValid(StoredNew(data)) && AadhaarHeld(rows, StoredNew(data).aadhaarNumber, -1)
    ensures r.Ok? ==> r.value == rows + [Row(StoredNew(data), false)]
  {
    var stored := StoredNew(data);
    if !restValid || !StudentSchemaValid(stored) then Err(RequiredFailed)
    else if AadhaarHeld(rows, stored.aadhaarNumber, -1) then Err(AadhaarDuplicate)
    else Ok(rows + [Row(stored, false)])
  }

  /** A successful add keeps the unique index satisfied. */
  lemma AddKeepsAadhaarUnique(rows: seq<Row<Student>>, data: Student, restValid: bool)
    requires AadhaarUnique(rows)
    ensures var r := AddStudentRows(rows, data, restValid);
      r.Ok? ==> AadhaarUnique(r.value)
  {
    var r := AddStudentRows(rows, data, restValid);
    if r.Ok? {
      var t, stored := r.value, StoredNew(data);
      forall i, j | 0 <= i < j < |t|
        ensures t[i].data.aadhaarNumber != t[j].data.aadhaarNumber
      {
        if j == |rows| {
          assert t[i] == rows[i] && t[j].data == stored;
        } else {
          assert t[i] == rows[i] && t[j] == rows[j];
        }
      }
    }
  }

  /** Names made only of white space pass the name pattern of the validator
      but are emptied by the setters: `name` is built as `""`, and `save`
      refuses the record. */
  lemma AddRefusesBlankNames(rows: seq<Row<Student>>, data: Student, restValid: bool)
    requires data.firstName == Some("   ") && data.surName == Some("   ")
    ensures StoredNew(data).name == Some([]) && StoredNew(data).firstName == Some([])
    ensures AddStudentRows(rows, data, restValid) == Err(RequiredFailed)
  {
    var blank: string := "   ";
    assert NameParts(data.firstName, data.surName) == [blank, blank];
    var joined := blank + " " + blank;
    assert JoinedName(data.firstName, data.surName) == joined by {
      assert [blank, blank][1..] == [blank];
    }
    Text.TrimAllSpace(joined);
    Text.TrimAllSpace(blank);
  }

  /** A deleted student keeps its Aadhaar number in the unique index, so a
      new student with that number is refused. */
  lemma DeletedAadhaarStaysTaken(rows: seq<Row<Student>>, id: int, data: Student)
    requires 0 <= id < |rows| && StudentSchemaValid(StoredNew(data))
    requires rows[id].data.aadhaarNumber == TrimOpt(data.aadhaarNumber)
    ensures AddStudentRows(MarkDeleted(rows, id).0, data, true) == Err(AadhaarDuplicate)
  {
    assert MarkDeleted(rows, id).0[id].data == rows[id].data;
  }

  /** When the given parts carry no surrounding white space, the stored name
      agrees with the stored parts. */
  lemma AddKeepsNameDerived(data: Student)
    requires PaddingFree(data.firstName) && PaddingFree(data.surName)
    ensures NameIsDerived(StoredNew(data))
  {
    TrimOptOfPaddingFree(data.firstName);
    TrimOptOfPaddingFree(data.surName);
  }

  /** A first name with a trailing space is stored trimmed, while the name
      built from it keeps two spaces: `"Ann "` and `"Lee"` store `"Ann"`
      and `"Ann  Lee"`, and the stored name no longer agrees with the
      stored parts. */
  lemma AddWithPaddedPartKeepsInnerSpace(data: Student)
    requires data.firstName == Some("Ann ") && data.surName == Some("Lee")
    ensures StoredNew(data).firstName == Some("Ann")
    ensures StoredNew(data).name == Some("Ann  Lee")
    ensures !NameIsDerived(StoredNew(data))
  {
    var t := StoredNew(data);
    TrimAnnSpace();
    FullNameOfPaddedAnn();
    TrimmedLee();
    TrimmedPartsJoinOnce();
    assert t.firstName == Some("Ann") && t.surName == Some("Lee");
  }

  lemma TrimmedLee()
    ensures TrimOpt(Some("Lee")) == Some("Lee")
  {
    LeeIsTrimmed();
    Text.TrimOfTrimmed("Lee");
  }

  lemma TrimmedPartsJoinOnce()
    ensures BuildFullName(Some("Ann"), Some("Lee")) != "Ann  Lee"
  {
    LeeIsTrimmed();
    FullNameOfBoth("Ann", "Lee");
    assert |"Ann" + " " + "Lee"| == 7;
  }

  lemma LeeIsTrimmed()
    ensures Text.IsTrimmed("Ann") && Text.IsTrimmed("Lee")
  {
    assert "Ann"[0] == 'A' && "Ann"[2] == 'n';
    assert "Lee"[0] == 'L' && "Lee"[2] == 'e';
  }

  lemma TrimAnnSpace()
    ensures Text.Trim("Ann ") == "Ann"
  {
    LeeIsTrimmed();
    assert "Ann " == "Ann" + [' '];
    Text.TrimOfTrimmedThenSpace("Ann", ' ');
  }

  lemma FullNameOfPaddedAnn()
    ensures BuildFullName(Some("Ann "), Some("Lee")) == "Ann  Lee"
  {
    var joined := "Ann " + " " + "Lee";
    assert NameParts(Some("Ann "), Some("Lee")) == ["Ann ", "Lee"];
    assert JoinedName(Some("Ann "), Some("Lee")) == joined by {
      assert ["Ann ", "Lee"][1..] == ["Lee"];
    }
    assert joined == "Ann  Lee";
    assert Text.IsTrimmed(joined) by {
      assert joined[0] == 'A' && joined[|joined| - 1] == 'e';
    }
    Text.TrimOfTrimmed(joined);
  }

  /** Applying an update body: each present field replaces the stored one,
      and each absent one keeps it. */
  function Merge(existing: Student, patch: Student): (r: Student)
    ensures r.name == Coalesce(patch.name, existing.name)
    ensures r.firstName == Coalesce(patch.firstName, existing.firstName)
    ensures r.surName == Coalesce(patch.surName, existing.surName)
    ensures r.guardianName == Coalesce(patch.guardianName, existing.guardianName)
    ensures r.subject == Coalesce(patch.subject, existing.subject)
    ensures r.aadhaarNumber == Coalesce(patch.aadhaarNumber, existing.aadhaarNumber)
    ensures r.mobileNo == Coalesce(patch.mobileNo, existing.mobileNo)
  {
    Student(
      Coalesce(patch.name, existing.name), Coalesce(patch.firstName, existing.firstName),
      Coalesce(patch.surName, existing.surName), Coalesce(patch.guardianName, existing.guardianName),
      Coalesce(patch.subject, existing.subject), Coalesce(patch.aadhaarNumber, existing.aadhaarNumber),
      Coalesce(patch.mobileNo, existing.mobileNo))
  }

  /** An empty body changes nothing, and merging is the body where it has
      every field. */
  lemma MergeExtremes(existing: Student, patch: Student)
    ensures Merge(existing, Student(None, None, None, None, None, None, None)) == existing
    ensures patch.name.Some? && patch.firstName.Some? && patch.surName.Some? && patch.guardianName.Some?
      && patch.subject.Some? && patch.aadhaarNumber.Some? && patch.mobileNo.Some?
      ==> Merge(existing, patch) == patch
  {
  }

  /** The update body after `updateStudent` set its `name`: only when the
      body has a truthy first name or surname, with the other part taken
      from the stored record. That record is looked up by id alone, so a
      deleted one serves too. */
  function UpdateBody(rows: seq<Row<Student>>, id: int, data: Student): (r: Student)
    ensures r.(name := data.name) == data
    ensures (Truthy(data.firstName) || Truthy(data.surName)) && 0 <= id < |rows| ==>
      r.name == Some(BuildFullName(Coalesce(data.firstName, rows[id].data.firstName),
                                   Coalesce(data.surName, rows[id].data.surName)))
    ensures !((Truthy(data.firstName) || Truthy(data.surName)) && 0 <= id < |rows|) ==> r == data
  {
    if (Truthy(data.firstName) || Truthy(data.surName)) && 0 <= id < |rows| then
      var existing := rows[id].data;
      data.(name := Some(BuildFullName(Coalesce(data.firstName, existing.firstName),
                                       Coalesce(data.surName, existing.surName))))
    else data
  }

  /** `updateStudent`: the table after the update and the updated record, or
      `null` when the id is absent or deleted. The setters trim the body's
      strings before they replace the stored ones. The update runs without
      validators, so no `required` check applies, but the unique index
      refuses an `aadhaarNumber` that another record holds. */
  function UpdateStudentRows(rows: seq<Row<Student>>, id: int, data: Student)
    : (r: Result<(seq<Row<Student>>, Option<Student>), StudentError>)
    ensures r.Err? <==>
      IsLive(rows, id) && data.aadhaarNumber.Some? && AadhaarHeld(rows, TrimOpt(data.aadhaarNumber), id)
    ensures r.Err? ==> r.error == AadhaarDuplicate
    ensures r.Ok? ==> r.value == UpdateLive(rows, id, existing => Merge(existing, TrimPaths(UpdateBody(rows, id, data))))
  {
    var body := TrimPaths(UpdateBody(rows, id, data));
    if IsLive(rows, id) && body.aadhaarNumber.Some? && AadhaarHeld(rows, body.aadhaarNumber, id) then
      Err(AadhaarDuplicate)
    else Ok(UpdateLive(rows, id, existing => Merge(existing, body)))
  }

  /** A successful update keeps the unique index satisfied. */
  lemma UpdateKeepsAadhaarUnique(rows: seq<Row<Student>>, id: int, data: Student)
    requires AadhaarUnique(rows)
    ensures var r := UpdateStudentRows(rows, id, data);
      r.Ok? ==> AadhaarUnique(r.value.0)
  {
    var r := UpdateStudentRows(rows, id, data);
    if r.Ok? && IsLive(rows, id) {
      var t := r.value.0;
      var a := TrimOpt(data.aadhaarNumber);
      assert t[id].data.aadhaarNumber == Coalesce(a, rows[id].data.aadhaarNumber);
      forall i, j | 0 <= i < j < |t|
        ensures t[i].data.aadhaarNumber != t[j].data.aadhaarNumber
      {
        if i == id || j == id {
          var other := if i == id then j else i;
          assert t[other] == rows[other];
        } else {
          assert t[i] == rows[i] && t[j] == rows[j];
        }
      }
    }
  }

  /** The updated record: the stored one with each present field of the
      body, trimmed, and the name recomputed as `UpdateBody` says. */
  lemma UpdateStoresTrimmedBody(rows: seq<Row<Student>>, id: int, data: Student)
    requires IsLive(rows, id)
    ensures var r := UpdateStudentRows(rows, id, data);
      var body := UpdateBody(rows, id, data);
      r.Ok? ==>
      var (rows', answer) := r.value;
      && answer == Some(rows'[id].data)
      && answer.value.firstName == Coalesce(TrimOpt(data.firstName), rows[id].data.firstName)
      && answer.value.surName == Coalesce(TrimOpt(data.surName), rows[id].data.surName)
      && answer.value.name == Coalesce(TrimOpt(body.name), rows[id].data.name)
      && answer.value.guardianName == Coalesce(TrimOpt(data.guardianName), rows[id].data.guardianName)
      && answer.value.aadhaarNumber == Coalesce(TrimOpt(data.aadhaarNumber), rows[id].data.aadhaarNumber)
      && answer.value.mobileNo == Coalesce(TrimOpt(data.mobileNo), rows[id].data.mobileNo)
      && answer.value.subject == Coalesce(data.subject, rows[id].data.subject)
  {
  }

  /** An update that supplies a first name or surname without surrounding
      white space, or neither part, and no `name` of its own keeps `name`
      derived from the stored parts. */
  lemma UpdateKeepsNameDerived(rows: seq<Row<Student>>, id: int, data: Student)
    requires IsLive(rows, id) && NameIsDerived(rows[id].data)
    requires data.name.None?
    requires Truthy(data.firstName) || Truthy(data.surName) || (data.firstName.None? && data.surName.None?)
    requires PaddingFree(data.firstName) && PaddingFree(data.surName)
    ensures var r := UpdateStudentRows(rows, id, data);
      r.Ok? ==> var (rows', answer) := r.value;
        answer.Some? && NameIsDerived(answer.value) && rows'[id].data == answer.value
  {
    TrimOptOfPaddingFree(data.firstName);
    TrimOptOfPaddingFree(data.surName);
    var body := UpdateBody(rows, id, data);
    if Truthy(data.firstName) || Truthy(data.surName) {
      Text.TrimOfTrimmed(body.name.value);
    }
  }

  /** Only live records are updated; otherwise the answer is `null` and the
      table is unchanged, and other records never change. */
  lemma UpdateOnlyLive(rows: seq<Row<Student>>, id: int, data: Student)
    ensures var r := UpdateStudentRows(rows, id, data);
      && (r.Err? ==> IsLive(rows, id))
      && (r.Ok? ==> var (rows', answer) := r.value;
          && (answer.Some? <==> IsLive(rows, id))
          && (answer.None? ==> rows' == rows)
          && |rows'| == |rows|
          && (forall k :: 0 <= k < |rows| && k != id ==> rows'[k] == rows[k]))
  {
  }

  /** A body with neither a truthy first name nor surname leaves `name` as
      the body gives it. */
  lemma UpdateWithoutNamePartsKeepsName(rows: seq<Row<Student>>, id: int, data: Student)
    requires IsLive(rows, id)
    requires !Truthy(data.firstName) && !Truthy(data.surName)
    ensures var r := UpdateStudentRows(rows, id, data);
      r.Ok? ==> r.value.1 == Some(Merge(rows[id].data, TrimPaths(data)))
  {
  }

  /** Deleting changes no Aadhaar number, so the unique index still holds. */
  lemma DeleteKeepsAadhaarUnique(rows: seq<Row<Student>>, id: int)
    requires AadhaarUnique(rows)
    ensures AadhaarUnique(MarkDeleted(rows, id).0)
  {
    var t := MarkDeleted(rows, id).0;
    forall i, j | 0 <= i < j < |t|
      ensures t[i].data.aadhaarNumber != t[j].data.aadhaarNumber
    {
      assert t[i].data == rows[i].data && t[j].data == rows[j].data;
    }
  }

  /** The `students` collection. */
  class StudentTable {
    var rows: seq<Row<Student>>

    /** The unique index on `aadhaarNumber` holds. */
    predicate Valid()
      reads this
    {
      AadhaarUnique(rows)
    }

    constructor ()
      ensures Valid() && rows == []
    {
      rows := [];
    }

    /** `addStudent`: stores the body with its derived `name`, through the
        setters, unless validation or the unique index refuses it. */
    method AddStudent(data: Student, restValid: bool) returns (r: Result<Student, StudentError>)
      requires Valid()
      modifies this
      ensures Valid()
      ensures match AddStudentRows(old(rows), data, restValid)
        case Ok(rows') => rows == rows' && r == Ok(StoredNew(data))
        case Err(e) => rows == old(rows) && r == Err(e)
      ensures r.Ok? && PaddingFree(data.firstName) && PaddingFree(data.surName) ==> NameIsDerived(r.value)
    {
      var result := AddStudentRows(rows, data, restValid);
      match result {
        case Ok(rows') =>
          AddKeepsAadhaarUnique(rows, data, restValid);
          rows := rows';
          r := Ok(StoredNew(data));
          if PaddingFree(data.firstName) && PaddingFree(data.surName) {
            AddKeepsNameDerived(data);
          }
        case Err(e) =>
          r := Err(e);
      }
    }

    /** `getStudents`: `matches` stands for the case-insensitive search over
        name, mobile number and Aadhaar number. */
    function GetStudents(page: Option<int>, limit: Option<int>, search: string, matches: Student -> bool)
      : (r: Result<Page<Student>, string>)
      reads this
      ensures var p, l := page.GetOr(1), limit.GetOr(10);
        && (r.Err? <==> (p - 1) * l < 0)
        && (r.Ok? ==> (p - 1) * l >= 0)
        && (r.Ok? ==> r.value.data == WithRecords(rows, PageIds(rows, SearchFilter(search, matches), (p - 1) * l, l)))
      ensures r.Ok? ==> forall k :: 0 <= k < |r.value.data| ==>
        var (id, record) := r.value.data[k];
        IsLive(rows, id) && record == rows[id].data && (search != [] ==> matches(record))
    {
      ListLive(rows, SearchFilter(search, matches), page, limit)
    }

    /** `getStudentById`. */
    function GetStudentById(id: int): (r: Option<Student>)
      reads this
      ensures r.Some? <==> IsLive(rows, id)
      ensures r.Some? ==> r.value == rows[id].data
    {
      FindLive(rows, id)
    }

    /** `updateStudent`. */
    method UpdateStudent(id: int, data: Student) returns (r: Result<Option<Student>, StudentError>)
      requires Valid()
      modifies this
      ensures Valid()
      ensures match UpdateStudentRows(old(rows), id, data)
        case Ok((rows', answer)) => rows == rows' && r == Ok(answer)
        case Err(e) => rows == old(rows) && r == Err(e)
    {
      var d := data;
      if Truthy(d.firstName) || Truthy(d.surName) {
        if 0 <= id < |rows| {
          var existing := rows[id].data;
          var firstName := Coalesce(d.firstName, existing.firstName);
          var surName := Coalesce(d.surName, existing.surName);
          d := d.(name := Some(BuildFullName(firstName, surName)));
        }
      }
      var body := TrimPaths(d);
      if IsLive(rows, id) && body.aadhaarNumber.Some? && AadhaarHeld(rows, body.aadhaarNumber, id) {
        return Err(AadhaarDuplicate);
      }
      UpdateKeepsAadhaarUnique(rows, id, data);
      var result := UpdateLive(rows, id, existing => Merge(existing, body));
      rows := result.0;
      r := Ok(result.1);
    }

    /** `deleteStudent`. */
    method DeleteStudent(id: int) returns (r: Option<Student>)
      requires Valid()
      modifies this
      ensures Valid()
      ensures (rows, r) == MarkDeleted(old(rows), id)
      ensures r.Some? <==> old(IsLive(rows, id))
    {
      DeleteKeepsAadhaarUnique(rows, id);
      var result := MarkDeleted(rows, id);
      rows, r := result.0, result.1;
    }
  }
}
