/** The subjects of `service/subjectService.js`: a soft-delete table of
    subject names. The schema trims the name on save and keeps a unique
    (case-sensitive) index over every stored name, deleted ones included;
    `addSubject` refuses a name equal to a stored one ignoring case. */
module Subjects {

  import opened Wrappers
  import Text
  import opened SoftDelete

  datatype SubjectError =
    | NameRequired       // "Subject name is required"
    | SubjectExists      // SUBJECT_EXISTS
    | ValidationFailed   // the schema's `required` after trimming
    | DuplicateKey       // the unique index refuses the write

  /** The body of `addSubject` and `updateSubject`, passed to the model as
      it comes: besides the name it may carry `isDeleted`, the schema's only
      other path, which the write then stores as given. */
  datatype SubjectBody = SubjectBody(subjectName: Option<string>, isDeleted: Option<bool>)

  /** `!data.subjectName`: no name, or the empty one. */
  predicate MissingName(body: SubjectBody) {
    body.subjectName.None? || body.subjectName.value == []
  }

  /** The lookup `{ subjectName: /^name$/i }`, read as equality ignoring case
      (the name's own regular-expression characters are not interpreted). It
      has no `isDeleted` filter, so deleted subjects count. */
  predicate NameTaken(rows: seq<Row<string>>, name: string) {
    exists k :: 0 <= k < |rows| && Text.EqualsIgnoreCase(rows[k].data, name)
  }

  /** What the unique index sees: some stored name equal to `name`. */
  predicate StoredExactly(rows: seq<Row<string>>, name: string, except: int) {
    exists k :: 0 <= k < |rows| && k != except && rows[k].data == name
  }

  /** The unique index holds: no two stored names are equal. */
  predicate ExactUnique(rows: seq<Row<string>>) {
    forall i, j :: 0 <= i < j < |rows| ==> rows[i].data != rows[j].data
  }

  /** What `addSubject` means to keep: no two stored names are equal
      ignoring case. */
  predicate UniqueIgnoringCase(rows: seq<Row<string>>) {
    forall i, j :: 0 <= i < j < |rows| ==> !Text.EqualsIgnoreCase(rows[i].data, rows[j].data)
  }

  /** `addSubject` exactly as written: the duplicate check uses the name as
      given, while the stored name is the trimmed one; `new Subject(data)`
      takes the body's `isDeleted` too, `false` by default. */
  function AddSubjectAsWritten(rows: seq<Row<string>>, body: SubjectBody)
    : (r: Result<seq<Row<string>>, SubjectError>)
    ensures r.Ok? ==>
      body.subjectName.Some? && r.value == rows + [Row(Text.Trim(body.subjectName.value), body.isDeleted.GetOr(false))]
    ensures MissingName(body) <==> r == Err(NameRequired)
    ensures r == Err(SubjectExists) <==> !MissingName(body) && NameTaken(rows, body.subjectName.value)
    ensures r == Err(ValidationFailed) <==>
      !MissingName(body) && !NameTaken(rows, body.subjectName.value) && Text.Trim(body.subjectName.value) == []
    ensures r == Err(DuplicateKey) <==>
      && !MissingName(body) && !NameTaken(rows, body.subjectName.value)
      && Text.Trim(body.subjectName.value) != [] && StoredExactly(rows, Text.Trim(body.subjectName.value), -1)
    ensures r.Ok? <==>
      && !MissingName(body) && !NameTaken(rows, body.subjectName.value)
      && Text.Trim(body.subjectName.value) != [] && !StoredExactly(rows, Text.Trim(body.subjectName.value), -1)
  {
    if MissingName(body) then Err(NameRequired)
    else if NameTaken(rows, body.subjectName.value) then Err(SubjectExists)
    else
      var stored := Text.Trim(body.subjectName.value);
      if stored == [] then Err(ValidationFailed)
      else if StoredExactly(rows, stored, -1) then Err(DuplicateKey)
      else Ok(rows + [Row(stored, body.isDeleted.GetOr(false))])
  }

  /** `addSubject` as intended: the duplicate check compares the name that
      is stored. */
  function AddSubjectRows(rows: seq<Row<string>>, body: SubjectBody)
    : (r: Result<seq<Row<string>>, SubjectError>)
    ensures r.Ok? ==>
      body.subjectName.Some? && r.value == rows + [Row(Text.Trim(body.subjectName.value), body.isDeleted.GetOr(false))]
    ensures MissingName(body) <==> r == Err(NameRequired)
    ensures r == Err(SubjectExists) <==>
      !MissingName(body) && Text.Trim(body.subjectName.value) != []
      && NameTaken(rows, Text.Trim(body.subjectName.value))
    ensures r == Err(ValidationFailed) <==> !MissingName(body) && Text.Trim(body.subjectName.value) == []
    ensures r != Err(DuplicateKey)
  {
    if MissingName(body) then Err(NameRequired)
    else
      var stored := Text.Trim(body.subjectName.value);
      if stored == [] then Err(ValidationFailed)
      else if NameTaken(rows, stored) then Err(SubjectExists)
      else Ok(rows + [Row(stored, body.isDeleted.GetOr(false))])
  }

  /** The intended `addSubject` keeps names unique ignoring case, and so
      keeps the unique index satisfied. */
  lemma AddKeepsUniqueIgnoringCase(rows: seq<Row<string>>, body: SubjectBody)
    requires UniqueIgnoringCase(rows)
    ensures var r := AddSubjectRows(rows, body);
      r.Ok? ==> UniqueIgnoringCase(r.value) && ExactUnique(r.value)
  {
    var r := AddSubjectRows(rows, body);
    if r.Ok? {
      var s := r.value;
      var stored := Text.Trim(body.subjectName.value);
      forall i, j | 0 <= i < j < |s|
        ensures !Text.EqualsIgnoreCase(s[i].data, s[j].data)
      {
        if j == |rows| {
          assert s[i].data == rows[i].data && s[j].data == stored;
        }
      }
    }
  }

  /** The intended `addSubject` keeps the unique index satisfied. */
  lemma AddKeepsExactUnique(rows: seq<Row<string>>, body: SubjectBody)
    requires ExactUnique(rows)
    ensures var r := AddSubjectRows(rows, body);
      r.Ok? ==> ExactUnique(r.value)
  {
    var r := AddSubjectRows(rows, body);
    if r.Ok? {
      var s, stored := r.value, Text.Trim(body.subjectName.value);
      forall i, j | 0 <= i < j < |s|
        ensures s[i].data != s[j].data
      {
        if j == |rows| {
          assert s[i].data == rows[i].data && s[j].data == stored;
          assert !Text.EqualsIgnoreCase(rows[i].data, stored);
        } else {
          assert s[i] == rows[i] && s[j] == rows[j];
        }
      }
    }
  }

  /** As written, `addSubject` still keeps the unique index satisfied. */
  lemma AddAsWrittenKeepsExactUnique(rows: seq<Row<string>>, body: SubjectBody)
    requires ExactUnique(rows)
    ensures var r := AddSubjectAsWritten(rows, body);
      r.Ok? ==> ExactUnique(r.value)
  {
    var r := AddSubjectAsWritten(rows, body);
    if r.Ok? {
      var s, stored := r.value, Text.Trim(body.subjectName.value);
      assert !StoredExactly(rows, stored, -1);
      forall i, j | 0 <= i < j < |s|
        ensures s[i].data != s[j].data
      {
        if j == |rows| {
          assert s[i].data == rows[i].data && s[j].data == stored;
        } else {
          assert s[i] == rows[i] && s[j] == rows[j];
        }
      }
    }
  }

  lemma TrimSpaceMath()
    ensures Text.Trim(" math") == "math"
  {
    assert " math" == [' '] + "math";
    assert Text.IsTrimmed("math") by {
      assert "math"[0] == 'm' && "math"[3] == 'h';
    }
    Text.TrimOfSpaceThenTrimmed(' ', "math");
  }

  lemma LowerMath()
    ensures Text.Lower("Math") == "math" && Text.Lower("math") == "math"
  {
    assert Text.Lower("Math")[0] == 'm';
  }

  lemma SpaceMathNotTaken()
    ensures !NameTaken([Row("Math", false)], " math")
    ensures !StoredExactly([Row("Math", false)], "math", -1)
  {
    var rows := [Row("Math", false)];
    assert |Text.Lower(rows[0].data)| == 4 && |Text.Lower(" math")| == 5;
    assert rows[0].data[0] != "math"[0];
  }

  /** As written, `" math"` is accepted beside a stored `"Math"` and stored
      as `"math"`: two subjects equal ignoring case. */
  lemma AddAsWrittenAcceptsCaseDuplicate(rows: seq<Row<string>>, body: SubjectBody)
    requires rows == [Row("Math", false)] && body == SubjectBody(Some(" math"), None)
    ensures var r := AddSubjectAsWritten(rows, body);
      r == Ok(rows + [Row("math", false)]) && !UniqueIgnoringCase(r.value)
  {
    SpaceMathAcceptedAsWritten(rows, body);
    DuplicateMath(rows);
  }

  lemma SpaceMathAcceptedAsWritten(rows: seq<Row<string>>, body: SubjectBody)
    requires rows == [Row("Math", false)] && body == SubjectBody(Some(" math"), None)
    ensures AddSubjectAsWritten(rows, body) == Ok(rows + [Row("math", false)])
  {
    SpaceMathNotTaken();
    TrimSpaceMath();
  }

  /** As written, `" math"` beside a stored `"math"` passes the untrimmed
      lookup, and the unique index refuses the trimmed name. */
  lemma SpaceMathHitsUniqueIndex(rows: seq<Row<string>>, body: SubjectBody)
    requires rows == [Row("math", false)] && body == SubjectBody(Some(" math"), None)
    ensures AddSubjectAsWritten(rows, body) == Err(DuplicateKey)
  {
    SpaceMathMissesLowerMath(rows);
    TrimSpaceMath();
    assert rows[0].data == "math";
  }

  lemma SpaceMathMissesLowerMath(rows: seq<Row<string>>)
    requires rows == [Row("math", false)]
    ensures !NameTaken(rows, " math")
  {
    assert |Text.Lower(rows[0].data)| == 4 && |Text.Lower(" math")| == 5;
  }

  lemma DuplicateMath(rows: seq<Row<string>>)
    requires rows == [Row("Math", false)]
    ensures !UniqueIgnoringCase(rows + [Row("math", false)])
  {
    var stored := rows + [Row("math", false)];
    LowerMath();
    assert stored[0].data == "Math" && stored[1].data == "math";
    assert Text.EqualsIgnoreCase(stored[0].data, stored[1].data);
  }

  /** The intended `addSubject` refuses that same name. */
  lemma AddRefusesCaseDuplicate()
    ensures AddSubjectRows([Row("Math", false)], SubjectBody(Some(" math"), None)) == Err(SubjectExists)
  {
    TrimSpaceMath();
    LowerMath();
    assert Text.EqualsIgnoreCase([Row("Math", false)][0].data, "math");
  }

  /** A subject that was deleted still blocks its name. */
  lemma DeletedNameStaysTaken(rows: seq<Row<string>>, id: int, name: string, isDeleted: Option<bool>)
    requires 0 <= id < |rows| && Text.EqualsIgnoreCase(rows[id].data, Text.Trim(name)) && Text.Trim(name) != []
    ensures AddSubjectRows(MarkDeleted(rows, id).0, SubjectBody(Some(name), isDeleted)) == Err(SubjectExists)
  {
    assert MarkDeleted(rows, id).0[id].data == rows[id].data;
  }

  /** A body with `isDeleted: true` is stored already deleted: the new
      subject is never found, though its name stays taken. */
  lemma AddCanStoreDeleted(rows: seq<Row<string>>, name: string)
    requires AddSubjectRows(rows, SubjectBody(Some(name), Some(true))).Ok?
    ensures var rows' := AddSubjectRows(rows, SubjectBody(Some(name), Some(true))).value;
      FindLive(rows', |rows|).None? && NameTaken(rows', Text.Trim(name))
  {
    var rows' := AddSubjectRows(rows, SubjectBody(Some(name), Some(true))).value;
    assert Text.EqualsIgnoreCase(rows'[|rows|].data, Text.Trim(name));
  }

  /** `updateSubject`: the body may carry a new name, which the schema
      trims, and an `isDeleted`, both written as given; only a live subject
      matches; the unique index refuses a name stored on another subject.
      There is no check ignoring case and no `required` check, because the
      update runs without validators. */
  function UpdateSubjectRows(rows: seq<Row<string>>, id: int, body: SubjectBody)
    : (r: Result<(seq<Row<string>>, Option<string>), SubjectError>)
    ensures r.Err? <==>
      IsLive(rows, id) && body.subjectName.Some? && StoredExactly(rows, Text.Trim(body.subjectName.value), id)
    ensures r.Ok? ==> (r.value.1.Some? <==> IsLive(rows, id))
    ensures r.Ok? && !IsLive(rows, id) ==> r.value.0 == rows
    ensures r.Ok? && IsLive(rows, id) ==>
      && r.value.0 == rows[id := Row(if body.subjectName.Some? then Text.Trim(body.subjectName.value)
                                     else rows[id].data, body.isDeleted.GetOr(false))]
      && r.value.1 == Some(r.value.0[id].data)
  {
    if !IsLive(rows, id) then Ok((rows, None))
    else
      var stored := if body.subjectName.Some? then Text.Trim(body.subjectName.value) else rows[id].data;
      if body.subjectName.Some? && StoredExactly(rows, stored, id) then Err(DuplicateKey)
      else Ok(UpdateLiveSetting(rows, id, (previous: string) => stored, body.isDeleted))
  }

  /** Updates keep the unique index satisfied. */
  lemma UpdateKeepsExactUnique(rows: seq<Row<string>>, id: int, body: SubjectBody)
    requires ExactUnique(rows)
    ensures var r := UpdateSubjectRows(rows, id, body);
      r.Ok? ==> ExactUnique(r.value.0)
  {
  }

  /** A body with `isDeleted: true` and no name deletes the subject through
      the update, as `deleteSubject` would, and answers its name. */
  lemma UpdateCanDelete(rows: seq<Row<string>>, id: int)
    requires IsLive(rows, id)
    ensures UpdateSubjectRows(rows, id, SubjectBody(None, Some(true)))
         == Ok(MarkDeleted(rows, id))
  {
  }

  /** Deleting changes no name, so both uniqueness properties survive it. */
  lemma DeleteKeepsUniqueness(rows: seq<Row<string>>, id: int)
    ensures var rows' := MarkDeleted(rows, id).0;
      && (ExactUnique(rows) ==> ExactUnique(rows'))
      && (UniqueIgnoringCase(rows) ==> UniqueIgnoringCase(rows'))
  {
  }

  /** The `subjects` collection. */
  class SubjectTable {
    var rows: seq<Row<string>>

    constructor ()
      ensures rows == []
    {
      rows := [];
    }

    predicate Valid()
      reads this
    {
      ExactUnique(rows)
    }

    /** `addSubject`, with the duplicate check on the stored name: on
        success the table grows by exactly that one live record. */
    method AddSubject(body: SubjectBody) returns (r: Result<nat, SubjectError>)
      requires Valid()
      modifies this
      ensures Valid()
      ensures r.Ok? ==>
        && body.subjectName.Some? && r.value == |old(rows)|
        && rows == old(rows) + [Row(Text.Trim(body.subjectName.value), body.isDeleted.GetOr(false))]
      ensures r.Err? ==> rows == old(rows)
      ensures r.Err? <==> AddSubjectRows(old(rows), body).Err?
      ensures r.Err? ==> r.error == AddSubjectRows(old(rows), body).error
      ensures old(UniqueIgnoringCase(rows)) ==> UniqueIgnoringCase(rows)
    {
      if MissingName(body) {
        return Err(NameRequired);
      }
      var stored := Text.Trim(body.subjectName.value);
      if stored == [] {
        return Err(ValidationFailed);
      }
      var taken := NameTakenIn(rows, stored);
      if taken {
        return Err(SubjectExists);
      }
      var flag := body.isDeleted.GetOr(false);
      assert AddSubjectRows(rows, body) == Ok(rows + [Row(stored, flag)]);
      AddKeepsExactUnique(rows, body);
      if UniqueIgnoringCase(rows) {
        AddKeepsUniqueIgnoringCase(rows, body);
      }
      r := Ok(|rows|);
      rows := rows + [Row(stored, flag)];
    }

    /** The scan for a stored name equal to `name` up to case; a name that
        is not taken is not stored exactly either. */
    static method NameTakenIn(rows: seq<Row<string>>, name: string) returns (taken: bool)
      ensures taken <==> NameTaken(rows, name)
      ensures !taken ==> !StoredExactly(rows, name, -1)
    {
      var k := 0;
      while k < |rows|
        invariant 0 <= k <= |rows|
        invariant forall j :: 0 <= j < k ==> !Text.EqualsIgnoreCase(rows[j].data, name)
      {
        if Text.EqualsIgnoreCase(rows[k].data, name) {
          return true;
        }
        k := k + 1;
      }
      forall j | 0 <= j < |rows|
        ensures rows[j].data != name
      {
        assert !Text.EqualsIgnoreCase(rows[j].data, name);
      }
      return false;
    }

    /** `getSubjects`: `matches` stands for the case-insensitive search on
        the name. */
    function GetSubjects(page: Option<int>, limit: Option<int>, search: string, matches: string -> bool)
      : (r: Result<Page<string>, string>)
      reads this
      ensures var p, l := page.GetOr(1), limit.GetOr(10);
        && (r.Err? <==> (p - 1) * l < 0)
        && (r.Ok? ==> (p - 1) * l >= 0)
        && (r.Ok? ==> r.value.data == WithRecords(rows, PageIds(rows, SearchFilter(search, matches), (p - 1) * l, l)))
      ensures r.Ok? ==> forall k :: 0 <= k < |r.value.data| ==>
        var (id, record) := r.value.data[k];
        IsLive(rows, id) && record == rows[id].data && (search != [] ==> matches(record))
    {
      ListLive(rows, SearchFilter(search, matches), page, limit)
    }

    /** `getSubjectById`. */
    function GetSubjectById(id: int): (r: Option<string>)
      reads this
      ensures r.Some? <==> IsLive(rows, id)
      ensures r.Some? ==> r.value == rows[id].data
    {
      FindLive(rows, id)
    }

    /** `updateSubject`. */
    method UpdateSubject(id: int, body: SubjectBody) returns (r: Result<Option<string>, SubjectError>)
      requires Valid()
      modifies this
      ensures Valid()
      ensures match UpdateSubjectRows(old(rows), id, body)
        case Ok((rows', answer)) => rows == rows' && r == Ok(answer)
        case Err(e) => rows == old(rows) && r == Err(e)
    {
      var result := UpdateSubjectRows(rows, id, body);
      UpdateKeepsExactUnique(rows, id, body);
      if result.Ok? {
        rows := result.value.0;
        r := Ok(result.value.1);
      } else {
        r := Err(result.error);
      }
    }

    /** `deleteSubject`: marks one live subject deleted, `null` otherwise. */
    method DeleteSubject(id: int) returns (r: Option<string>)
      requires Valid()
      modifies this
      ensures Valid()
      ensures (rows, r) == MarkDeleted(old(rows), id)
      ensures old(UniqueIgnoringCase(rows)) ==> UniqueIgnoringCase(rows)
    {
      DeleteKeepsUniqueness(rows, id);
      var result := MarkDeleted(rows, id);
      rows, r := result.0, result.1;
    }
  }
}
