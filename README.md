# Institute management backend — verified model

The system is the backend of an institute-management application. It
keeps students, subjects and fee payments in soft-delete collections.
It guards its API with a single system user who signs in with a password
and a JWT, and whose account creation and password reset go through
e-mailed one-time codes. It also exports the student and fee collections
once a month as a zipped spreadsheet, mailed to the owner.

This project models that core in Dafny:

- **`text.dfy`, `decimal.dfy`, `wrappers.dfy`**: shared helpers.
  - JavaScript whitespace, `trim`, ASCII `toLowerCase`, `startsWith`,
    `indexOf` and `join`.
  - Decimal text of integers, `padStart(2, "0")` and `parseInt`.
  - `Option` and `Result`.
- **`backup_format.dfy`**: the pure formatters of `service/backupService.js`.
  - The `DD.MM.YYYY HH.MM` stamp and the `YYYY-MM` month key.
  - File-name sanitising.
  - `toISOString` text.
  - `stringifyComplex` over a JSON value type, with a JSON serialiser for
    nested dates.
  - `normalizeRow` as a loop filling a row.
- **`backup_service.dfy`**: the run as a class.
  - `BackupOrchestrator` holds the `isRunning` guard, the state file, the
    backup directory's files and the mails handed to the mailer.
  - Each step of `runBackup` is an effect that may fail. The set of failing
    steps is an input, as is everything read from outside: the owner, the
    clock, the documents and the mail settings.
  - The methods are proved against the functions `Run`, `RunSteps` and
    `DueCheck`. The lemmas state the guard, ordering, state-write and
    once-per-month properties.
- **`soft_delete.dfy`**: the record table shared by the three services.
  - A table is a sequence of rows carrying `isDeleted`, indexed by id in
    insertion order.
  - Only live rows are found, updated or deleted.
  - Listing is newest first, with MongoDB's `skip`/`limit` semantics.
- **`students.dfy`, `subjects.dfy`, `fees.dfy`**: the three services.
  - Each is a class whose `rows` field its methods reassign.
  - Each method is proved against a function on rows.
  - Derived fields are recomputed: the student name, the subject name's
    case-insensitive uniqueness, the monthly instalment and the per-student
    fee summary.
  - The schemas' `trim: true` setters are applied to what `save` and
    `findOneAndUpdate` write, and update bodies pass every schema path they
    carry, `isDeleted` included.
- **`auth_rules.dfy`**: the pure rules of `controller/authController.js`.
  - The bcrypt-prefix test and the data-URL logo parser with its size limit.
  - The token lifetime and expiry instant.
  - OTP issue, matching and purge.
- **`auth_store.dfy`**: the handlers.
  - Each handler is a transition function over the user list, the OTP
    table and the mail outbox.
  - The class `Store` has one method per handler, each proved equal to its
    transition.
- **`auth_middleware.dfy`**: the `Bearer ` extraction and the 401/`next`
  decision, with a class for the request/response pair.
- **`validation.dfy`, `student_validation.dfy`, `fees_validation.dfy`**: the
  express-validator chains.
  - Each chain is a list of checks. Every failing check adds its message,
    and the final handler answers 400 with all errors or calls `next`.
  - Lemmas state in closed form which bodies each rule set accepts, and that
    the update rules hold each present field to the add rules.

Where the code departs from its evident intent, the model follows the code.
These are the cases:

- The workbook exports every document of a collection (`find({})` at
  `service/backupService.js:95`), soft-deleted ones included.
- `updateFees` writes without schema validation, so the update bounds are
  only those of the request validator.
- The summary name is joined without trimming, unlike `buildFullName`,
  which trims.
- The schemas' `trim: true` setters run on `save` and on
  `findOneAndUpdate`, after `buildFullName` has joined the parts as given.
  So a part with surrounding white space is stored trimmed while the name
  built from it keeps the inner spaces.
- `updateFees` passes its whole body through (`{ ...data }`), and
  `updateSubject` and `addSubject` pass theirs as given. A body can
  therefore set `monthlyInstallments`, `subjects`, `selectedStudent` or
  `isDeleted` directly.
- The student schema has no `batchStart` or `batchEnd` path, nor the
  fees schema's `selectedStudent`. The copies never hold them, and the
  summary's batches are always `null`.

## Model

| member | source | states |
|---|---|---|
| `Text.Trim` | service/studentService.js:11 | the result has no leading or trailing JavaScript whitespace and is no longer than the input |
| `Text.TrimMeaning` | service/studentService.js:11 | the result is the part of the input left once the white space at both ends is removed: a slice of the input with only white space before and after it |
| `Text.TrimIdempotent` | service/backupService.js:43 | trimming twice equals trimming once |
| `Text.TrimOfSpaceThenTrimmed` | service/subjectService.js:8-9 | one leading space before a trimmed text is removed by trim |
| `Text.TrimOfTrimmedThenSpace` | models/student.js:16-20 | one trailing space after a trimmed text is removed by trim |
| `Text.Lower` | controller/authController.js:198-200 | ASCII `toLowerCase`: same length, each upper-case letter lowered and every other character kept |
| `Text.LowerIdempotent` | controller/authController.js:198-200 | lowering twice equals lowering once |
| `Text.IndexOf` | controller/authController.js:388-392 | the first position of the character, or `None` when it does not occur |
| `Text.JoinSnoc` | service/feesService.js:131 | joining one more part gives the earlier join, the separator and that part, so a join of any number of parts is its parts with the separator between each pair |
| `Text.ReplaceAll` | service/backupService.js:44 | a global one-character replace: same length, each bad character replaced and every other character kept |
| `Decimal.DecimalRoundTrip` | service/backupService.js:30 | reading the decimal text of a natural number gives it back |
| `Decimal.NatToDecimalInjective` | service/backupService.js:30 | different numbers have different decimal text |
| `Decimal.IntToDecimal` | service/backupService.js:30 | the text starts with `-` exactly for negative numbers, and is all digits otherwise |
| `Decimal.IntToDecimalInjective` | service/backupService.js:30 | different integers have different text |
| `Decimal.Pad2` | service/backupService.js:28-32 | `padStart(2, "0")`: two digits below 100, the plain decimal text otherwise |
| `Decimal.Pad2Injective` | service/backupService.js:28-32 | two-digit padding is injective below 100 |
| `Decimal.DigitPrefix` | controller/authController.js:12-16 | the longest leading run of digits |
| `Decimal.ParseIntRoundTrip` | controller/authController.js:12-16 | `parseInt` of an integer's decimal text gives the integer back |
| `BackupFormat.FormatDateTimeShape` | service/backupService.js:27-34 | the stamp is the zero-padded day, `.`, the zero-padded month, `.`, the year, a space, then the zero-padded hour, `.` and the zero-padded minute |
| `BackupFormat.FormatDateTimeInjective` | service/backupService.js:27-34 | equal stamps have the same year, month, day, hour and minute |
| `BackupFormat.FormatMonthKeyShape` | service/backupService.js:36-40 | the month key is the year, `-`, then the 1-based month zero-padded to two digits |
| `BackupFormat.MonthKeyEqualIff` | service/backupService.js:36-40 | two month keys are equal exactly when year and month agree |
| `BackupFormat.PadDigits` | service/backupService.js:49 | the zero-padded digits are at least the width long |
| `BackupFormat.IsoShape` | service/backupService.js:49 | for years 0 to 9999 the ISO text is 24 characters, `YYYY-MM-DDTHH:MM:SS.mmmZ` |
| `BackupFormat.SanitizeFileName` | service/backupService.js:42-45 | the result has none of the nine unsafe characters (`<`, `>`, `:`, `"`, `/`, `\`, the pipe, `?`, `*`) and is trimmed and non-empty; a missing or blank input gives `institute`; otherwise it has the trimmed input's length |
| `BackupFormat.SanitizeKeepsSafeCharacters` | service/backupService.js:42-45 | each position holds `_` where the trimmed input has an unsafe character, and the trimmed input's character elsewhere |
| `BackupFormat.SanitizeIdempotent` | service/backupService.js:42-45 | sanitising a sanitised name changes nothing |
| `BackupFormat.SanitizeExample` | service/backupService.js:42-45 | `A/B:C` becomes `A_B_C` |
| `BackupFormat.StampExample` | service/backupService.js:27-34 | 1 March 2024 00:05 is stamped `01.03.2024 00.05` |
| `BackupFormat.BaseNameExample` | service/backupService.js:136-139 | the artifact base name is `<sanitised institute>_backup_<stamp>` |
| `BackupFormat.EscapePlain` | service/backupService.js:52-54 | JSON escaping leaves text without quotes, backslashes or control characters unchanged |
| `BackupFormat.IsoIsPlain` | service/backupService.js:52-54 | ISO date text needs no JSON escaping |
| `BackupFormat.NestedDateIsIsoText` | service/backupService.js:52-54 | a date inside a serialised value becomes its quoted ISO text |
| `BackupFormat.JsonOfArray` | service/backupService.js:52 | an array serialises as `[` + its items + `]` |
| `BackupFormat.StringifyComplex` | service/backupService.js:47-57 | the result is flat; a Date becomes its ISO text; arrays, objects and ObjectIds become their JSON text; flat values are unchanged |
| `BackupFormat.NormalizedRecord` | service/backupService.js:59-69 | the row keeps the record's keys in order; a truthy `_id` becomes its string form, and every other value goes through `stringifyComplex` |
| `BackupFormat.NormalizedRecordIsFlat` | service/backupService.js:59-69 | every value of a normalised row is flat |
| `BackupFormat.NormalizeRow` | service/backupService.js:59-69 | the loop builds exactly the normalised record |
| `BackupFormat.FlattenExample` | service/backupService.js:59-69 | an ObjectId `_id` becomes its hex text, a Date its ISO text, and a tag array a string |
| `BackupService.ReadBackupState` | service/backupService.js:77-85 | a parsed state file gives its content; a missing or unparseable one reads as `{}` |
| `BackupService.Lookup` | service/backupService.js:200 | a property read finds a member with that key, and is `undefined` when there is none |
| `BackupService.LastBackupMonthAsWritten` | service/backupService.js:200 | reading `lastBackupMonth` throws exactly when the state is `null` or `undefined` |
| `BackupService.LastBackupMonth` | service/backupService.js:198-200 | the month of an object state, and `undefined` for any other state |
| `BackupService.FromAddress` | service/backupService.js:168 | `EMAIL_FROM` when it is set and non-empty, otherwise `EMAIL_USER` when that is set and non-empty, and none exactly when neither is; never the empty text |
| `BackupService.Rows` | service/backupService.js:95-96 | each document maps to its normalised row, in order |
| `BackupService.Publish` | service/backupService.js:141-186 | the state file is replaced by the run's record exactly when the run completes, and is unchanged otherwise |
| `BackupService.RunWhileRunningIsNoOp` | service/backupService.js:121-123 | a run started while one is running changes nothing and keeps the guard |
| `BackupService.RunReleasesGuard` | service/backupService.js:124-193 | after a run the guard is clear, whether the run completed, was skipped or failed |
| `BackupService.StateWrittenOnlyOnCompletion` | service/backupService.js:182-190 | the state file holds the new record after a completed run and is unchanged after any other outcome |
| `BackupService.NoOwnerSkips` | service/backupService.js:126-133 | with no system user the run is skipped and nothing changes |
| `BackupService.FailureKeepsState` | service/backupService.js:135-190 | a failing directory, read, workbook, zip or mail step leaves the state file unchanged and the run not completed |
| `BackupService.ArtifactNamesShareBase` | service/backupService.js:136-151 | the `.xlsx` and `.zip` names share the base `<sanitised>_backup_<stamp>` with one `now`, and differ |
| `BackupService.CompletedRunPublishes` | service/backupService.js:126-148 | a completed run had an owner and wrote the workbook before publishing |
| `BackupService.PublishArtifacts` | service/backupService.js:150-181 | publishing leaves the zip (holding the workbook under its name), reports its name, and removes the workbook unless that removal fails |
| `BackupService.CompletedArtifacts` | service/backupService.js:135-186 | after a completed run the directory holds the zip of the workbook of both collections, and the workbook is removed unless that removal fails |
| `BackupService.PublishMails` | service/backupService.js:157-179 | publishing appends the owner mail, and then the copy exactly when the from-address exists and differs from the owner ignoring case |
| `BackupService.CompletedMails` | service/backupService.js:157-179 | a completed run sent the owner mail, plus a copy to a from-address that differs from the owner ignoring case |
| `BackupService.DueCheckIdempotent` | service/backupService.js:196-202 | when the stored month equals the current month key, the due check starts no run and changes nothing |
| `BackupService.DueCheckWhileRunningIsNoOp` | service/backupService.js:196-203 | a due check during a run keeps the guard set and changes nothing |
| `BackupService.StateRecordMonth` | service/backupService.js:182-186 | the written record reads back as the month key of the run's `now` |
| `BackupService.OncePerMonth` | service/backupService.js:182-202 | after a completed monthly run, a later check in the same month starts nothing |
| `BackupService.DueCheckNeverRejectsOnState` | service/backupService.js:196-204 | with the corrected read, no state file content makes the due check throw |
| `BackupService.NullStateRejectsAsWritten` | service/backupService.js:198-200 | as written, a state file holding `null` makes the check throw, never run and change nothing; the corrected check runs |
| `BackupService.BackupOrchestrator.constructor` | service/backupService.js:21 | a fresh orchestrator is not running and has no mails |
| `BackupService.BackupOrchestrator.RunBackup` | service/backupService.js:120-194 | the new guard, store and outcome are those of `Run` on the old ones |
| `BackupService.BackupOrchestrator.Steps` | service/backupService.js:125-190 | the ordered steps change the store as `RunSteps` says |
| `BackupService.BackupOrchestrator.RunMonthlyBackupIfNeeded` | service/backupService.js:196-204 | corrected (see Findings): the new guard, store and outcome are those of `DueCheck`, which reads a non-object state as never backed up |
| `SoftDelete.FindLive` | service/studentService.js:44-46 | a record is found exactly when its id is live, and it is the stored record |
| `SoftDelete.UpdateLive` | service/studentService.js:57-59 | only a live record is updated and returned; every other row is unchanged; a missing or deleted id changes nothing |
| `SoftDelete.UpdateLiveSetting` | service/subjectService.js:44-48 | an update that may carry `isDeleted`: only a live record changes, takes the given flag (live when none is given) and is returned; otherwise null and nothing changes |
| `SoftDelete.MarkDeleted` | service/studentService.js:62-68 | exactly the live row is flagged deleted and returned; the data and every other row are unchanged |
| `SoftDelete.DeletedIsNotFound` | service/subjectService.js:40-56 | a deleted id is no longer found |
| `SoftDelete.DeleteTwice` | service/feesService.js:218-224 | a second delete returns null and changes nothing |
| `SoftDelete.DeletedIsNotUpdated` | service/subjectService.js:44-56 | a deleted record cannot be updated |
| `SoftDelete.LiveIds` | service/studentService.js:23-37 | exactly the live matching ids, newest first |
| `SoftDelete.Window` | service/studentService.js:34-37 | `skip`/`limit`: a contiguous slice from `skip`, at most `abs(limit)` long (`0` means no limit), and running to the end when shorter |
| `SoftDelete.PageOfIndex` | service/studentService.js:34 | with `skip = (page-1)*limit`, the item at index i is on page `i / limit + 1` at position `i % limit` |
| `SoftDelete.ListLive` | service/studentService.js:22-42 | a negative skip is an error; otherwise the page is exactly the window of the live matching records, newest first, that skips `(page-1)*limit` of them and takes `limit`, at most `abs(limit)` records, with the live match count and the echoed page and limit |
| `SoftDelete.PageIds` | service/studentService.js:37 | the ids on a page are the `.skip(skip).limit(limit)` window of the live matching ids: each is live and matching, newest first |
| `SoftDelete.ListedOnItsPage` | service/studentService.js:34-37 | pages tile the listing: the live match at position `(page-1)*limit + j` is item `j` of page `page`, so every live match appears on some page |
| `SoftDelete.WithRecords` | service/studentService.js:37 | each listed id is paired with its stored record |
| `SoftDelete.FirstPageStartsWithNewest` | service/studentService.js:37 | the first page starts with the newest live match |
| `Students.BuildFullName` | service/studentService.js:3-12 | the name is trimmed; it is empty when neither part is truthy, and the trimmed part when only one is |
| `Students.FullNameOfBoth` | service/studentService.js:3-12 | two trimmed parts are joined as `firstName + " " + surName` |
| `Students.FullNameEmptyIff` | service/studentService.js:3-12 | the name is empty exactly when the joined parts are all whitespace |
| `Students.WithDerivedName` | service/studentService.js:14-17 | the body's name is `buildFullName` of its parts, and nothing else changes |
| `Students.AddIgnoresClientName` | service/studentService.js:14-17 | a client-supplied `name` has no effect on the stored record |
| `Students.TrimOpt` | models/student.js:6-92 | a present string is replaced by its trim, an absent one stays absent |
| `Students.TrimPaths` | models/student.js:6-92 | every string path of the model is trimmed, the subject list is kept |
| `Students.TrimPathsIdempotent` | models/student.js:6-92 | setting the paths twice equals setting them once |
| `Students.StoredNew` | service/studentService.js:14-20 | the stored name is `buildFullName` of the parts as given; every other string is stored trimmed, the subject list as given |
| `Students.AddKeepsNameDerived` | service/studentService.js:14-20 | with parts free of surrounding white space, the stored name agrees with the stored parts |
| `Students.AddWithPaddedPartKeepsInnerSpace` | service/studentService.js:14-20 | `"Ann "` and `"Lee"` store first name `Ann` and name `Ann  Lee`, which no longer agrees with the stored parts |
| `Students.Merge` | service/studentService.js:57-59 | each of the seven fields takes the patch's value when present and keeps the stored one otherwise |
| `Students.MergeExtremes` | service/studentService.js:57-59 | an empty patch keeps the record; a patch with every field replaces it |
| `Students.AddStudentRows` | service/studentService.js:14-20 | `save` refuses exactly a record failing a `required` check (on the stored, trimmed values, or on a path outside the model), then exactly an `aadhaarNumber` another record holds; otherwise it appends `StoredNew` of the body as a live record |
| `Students.AddKeepsAadhaarUnique` | models/student.js:44-49 | a successful add keeps Aadhaar numbers unique |
| `Students.AddRefusesBlankNames` | service/studentService.js:14-20 | white-space-only first name and surname build the name `""`, and `save` refuses the record |
| `Students.DeletedAadhaarStaysTaken` | models/student.js:44-49 | a deleted student's Aadhaar number still refuses a new student |
| `Students.UpdateBody` | service/studentService.js:48-56 | the name is recomputed from the patch's parts, with the other part taken from the stored record, only when a part is given and the record exists; otherwise the patch is unchanged |
| `Students.UpdateStudentRows` | service/studentService.js:48-60 | an update of a live record fails with E11000 exactly when the body's trimmed `aadhaarNumber` is held by another record; otherwise it is the live-only update with the trimmed body merged in |
| `Students.UpdateKeepsAadhaarUnique` | models/student.js:44-49 | a successful update keeps Aadhaar numbers unique |
| `Students.DeleteKeepsAadhaarUnique` | service/studentService.js:62-68 | a delete keeps Aadhaar numbers unique |
| `Students.UpdateKeepsNameDerived` | service/studentService.js:48-59 | an update that supplies a part free of surrounding white space, or no parts and no name, keeps the name derived from the stored parts |
| `Students.UpdateStoresTrimmedBody` | service/studentService.js:48-60 | the updated record holds each present field of the body, trimmed, the recomputed name, and the stored value of every absent field |
| `Students.UpdateOnlyLive` | service/studentService.js:57-59 | an update returns a record exactly for a live id, returns null otherwise, and touches no other row |
| `Students.UpdateWithoutNamePartsKeepsName` | service/studentService.js:49 | without a truthy part the name is not recomputed: the record is the stored one merged with the trimmed body |
| `Students.StudentTable.constructor` | models/student.js:1-100 | a new table is empty |
| `Students.StudentTable.AddStudent` | service/studentService.js:14-20 | the new rows and the reply are those of `AddStudentRows`: the saved record `StoredNew` of the body, or the refusal with nothing changed; the unique index holds after; with unpadded parts the name agrees with its parts |
| `Students.StudentTable.GetStudents` | service/studentService.js:22-42 | `ListLive` over `SearchFilter(search, matches)`: an error exactly for a negative skip; otherwise the page window of the live students, each the stored record, each matching the search when one is given |
| `Students.StudentTable.GetStudentById` | service/studentService.js:44-46 | the stored record is returned exactly for a live id |
| `Students.StudentTable.UpdateStudent` | service/studentService.js:48-60 | the new rows and the reply are those of `UpdateStudentRows`, the E11000 refusal included, with nothing changed on a refusal; the unique index holds after |
| `Students.StudentTable.DeleteStudent` | service/studentService.js:62-68 | the new rows and the reply are those of `MarkDeleted`; a record is returned exactly for a live id; the unique index holds after |
| `Subjects.AddSubjectAsWritten` | service/subjectService.js:3-20 | as written: a missing or empty name is refused; the duplicate test uses the untrimmed name; a blank name fails validation; a trimmed name already stored exactly is refused with the duplicate-key error of the unique index; otherwise it is stored trimmed, with the body's `isDeleted` or `false` |
| `Subjects.AddSubjectRows` | service/subjectService.js:3-20 | corrected: the duplicate test uses the trimmed name, ignores case and includes deleted subjects; success appends exactly one row with the trimmed name and the body's `isDeleted` or `false` |
| `Subjects.AddKeepsUniqueIgnoringCase` | service/subjectService.js:8-19 | adding keeps subject names unique ignoring case |
| `Subjects.AddKeepsExactUnique` | service/subjectService.js:8-19 | the intended add keeps names unique exactly, as the unique index demands |
| `Subjects.AddAsWrittenKeepsExactUnique` | service/subjectService.js:8-19 | the code as written still keeps names unique exactly, as the unique index demands |
| `Subjects.TrimSpaceMath` | service/subjectService.js:18 | `" math"` is stored as `math` |
| `Subjects.LowerMath` | service/subjectService.js:9 | `Math` and `math` are equal ignoring case |
| `Subjects.SpaceMathNotTaken` | service/subjectService.js:8-10 | `" math"` matches no stored `Math`, and `math` is not stored exactly |
| `Subjects.SpaceMathHitsUniqueIndex` | service/subjectService.js:8-19 | as written, `" math"` beside a stored `math` passes the untrimmed lookup and is refused by the unique index with the duplicate-key error |
| `Subjects.AddAsWrittenAcceptsCaseDuplicate` | service/subjectService.js:8-19 | as written, `" math"` is added beside `Math`, breaking case-insensitive uniqueness |
| `Subjects.AddRefusesCaseDuplicate` | service/subjectService.js:8-16 | corrected, `" math"` beside `Math` is refused with `SUBJECT_EXISTS` |
| `Subjects.DeletedNameStaysTaken` | service/subjectService.js:8-16 | a soft-deleted subject's name still blocks a new one |
| `Subjects.AddCanStoreDeleted` | service/subjectService.js:18-19 | a body with `isDeleted: true` stores a subject that is never found, while its name stays taken |
| `Subjects.UpdateSubjectRows` | service/subjectService.js:44-48 | only a live subject is updated, with the trimmed name and the flag the body gives; a name clash with another stored subject is the unique index's error |
| `Subjects.UpdateKeepsExactUnique` | service/subjectService.js:44-48 | updating keeps names unique exactly |
| `Subjects.UpdateCanDelete` | service/subjectService.js:44-48 | a body of `{ isDeleted: true }` deletes a live subject exactly as `deleteSubject` does |
| `Subjects.DeleteKeepsUniqueness` | service/subjectService.js:50-56 | deleting keeps both uniqueness invariants |
| `Subjects.SubjectTable.constructor` | models/subject.js:1-21 | a new table is empty |
| `Subjects.SubjectTable.AddSubject` | service/subjectService.js:3-20 | corrected (see Findings): success appends one row with the trimmed name and the body's flag and returns its id; it fails exactly when `AddSubjectRows` does and then changes nothing; case-insensitive uniqueness is kept |
| `Subjects.SubjectTable.NameTakenIn` | service/subjectService.js:8-10 | the duplicate lookup finds a record exactly when some stored name equals the given one ignoring case, deleted records included |
| `Subjects.SubjectTable.GetSubjects` | service/subjectService.js:22-38 | `ListLive` over `SearchFilter(search, matches)`: an error exactly for a negative skip; otherwise the page window of the live subjects, each the stored name, each matching the search when one is given |
| `Subjects.SubjectTable.GetSubjectById` | service/subjectService.js:40-42 | the stored subject is returned exactly for a live id |
| `Subjects.SubjectTable.UpdateSubject` | service/subjectService.js:44-48 | the new rows and the reply are those of `UpdateSubjectRows`, name and `isDeleted` included, and the unique index stays satisfied |
| `Subjects.SubjectTable.DeleteSubject` | service/subjectService.js:50-56 | the new rows and the reply are those of `MarkDeleted`, and case-insensitive uniqueness is kept |
| `Fees.MonthlyInstallments` | service/feesService.js:42 | the instalment times the count is the total when the count is positive; it is 0 otherwise; it is never negative for a non-negative total |
| `Fees.Selected` | service/feesService.js:16-24 | the copy holds the student's id, its name, Aadhaar number and mobile number trimmed by the setters, and its subject list or `[]` |
| `Fees.TrimSelected` | models/fees.js:5-30 | the copy's name, Aadhaar number and mobile number are trimmed; id and subjects are kept |
| `Fees.SelectedOfTrimmed` | service/feesService.js:16-24 | a student whose copied strings are already trimmed is copied into `selectedStudent` unchanged |
| `Fees.SelectedOfStoredCopies` | service/feesService.js:16-24 | a student stored by `addStudent` is copied without change |
| `Fees.Draft` | service/feesService.js:16-54 | the built document copies the student, its subjects, the dates and the four numbers, and derives the instalment |
| `Fees.AddFeesRecord` | service/feesService.js:4-57 | each of the four errors holds exactly under its condition (missing id, no live student, a non-finite number, a document the schema refuses); the fee is saved exactly when the built document meets the schema, and it is that document |
| `Fees.SavedFeeInstalments` | service/feesService.js:42 | a saved fee's instalment is non-negative, and the instalments add up to the total |
| `Fees.InstalmentsAddUp` | service/feesService.js:42 | for a count of at least one the instalments add up to the total |
| `Fees.ApplyUpdate` | service/feesService.js:170-211 | each of the nine fields is stated: a looked-up student replaces the copy and the subjects, otherwise the body's own copy (trimmed) and subjects are taken; the instalment is recomputed when a total is given, otherwise the body's or the stored one is kept; every other field takes the body's value or keeps the stored one |
| `Fees.EmptyUpdateKeepsFee` | service/feesService.js:170-213 | an empty body leaves the fee unchanged |
| `Fees.SelectedFor` | service/feesService.js:172-189 | the copy of the body's student when that student is live, none otherwise |
| `Fees.UpdateFeesRows` | service/feesService.js:169-216 | an unknown or deleted student is `STUDENT_NOT_FOUND`; otherwise a live record becomes `ApplyUpdate` of it with the body's `isDeleted` or `false`, and is returned; a missing or deleted id answers null and changes nothing |
| `Fees.UpdateKeepsInstalmentDerived` | service/feesService.js:191-207 | an update that gives a total, or no `monthlyInstallments` of its own, keeps `monthlyInstallments == totalFees / totalInstallments` |
| `Fees.UpdateStoresBodyInstalment` | service/feesService.js:170 | a body with `monthlyInstallments` and neither total stores that value, breaking the derived instalment when it differs |
| `Fees.UpdateCanDelete` | service/feesService.js:170 | a body with `isDeleted: true` deletes the record through the update |
| `Fees.UpdateOfMissingIsNull` | service/feesService.js:191-195 | updating a missing or deleted record answers null and changes nothing |
| `Fees.MaxDate` | service/feesService.js:97 | the largest date given, with `null` only when none is given |
| `Fees.Aggregate` | service/feesService.js:95-101 | a group belongs to the student it was asked for |
| `Fees.AggregateMeaning` | service/feesService.js:90-103 | a student has a group exactly when it has a live fee; `totalPaid` is the sum of its `feesPaid`; `totalFees`, `totalInstallments` and `monthlyInstallments` are each the largest of its values, attained by one of its fees; `lastPaymentDate` is its latest date, null exactly when none of its fees has one |
| `Fees.LargestFirst` | service/feesService.js:98-100 | a student's first live fee gives the largest amounts |
| `Fees.LargestNext` | service/feesService.js:98-100 | one more fee keeps the larger of the two amounts as the largest |
| `Fees.LatestFirst` | service/feesService.js:97 | a student's first live fee gives the latest date |
| `Fees.LatestNext` | service/feesService.js:97 | one more fee keeps the later date as the latest |
| `Fees.PaidWithoutFees` | service/feesService.js:101 | a student with no live fee has paid nothing |
| `Fees.GroupIndex` | service/feesService.js:121 | finds the group of an id, or reports that there is none |
| `Fees.GroupsMeaning` | service/feesService.js:90-104 | one group per student with a live fee, each equal to that student's aggregate |
| `Fees.RowOf` | service/feesService.js:120-156 | a row carries the group's id, totals, instalments and last payment date, and `amountDue = max(0, totalFees - totalPaid)`; the name and subjects come from the found student, or are empty; the batches are always null |
| `Fees.Summary` | service/feesService.js:120-156 | one row per group, in order, each built from the live student with that id |
| `Fees.SummaryEmptyIff` | service/feesService.js:106-108 | the summary is empty exactly when every fee is deleted |
| `Fees.NoLiveFeesNoGroups` | service/feesService.js:90-93 | without live fees there are no groups |
| `Fees.SummaryMeaning` | service/feesService.js:90-156 | student ids are distinct; a student is listed exactly when it has a live fee; `totalPaid` is its sum of payments; `amountDue = max(0, totalFees - totalPaid)`; `totalFees`, `totalInstallments` and `monthlyInstallments` are its largest values and `lastPaymentDate` its latest date |
| `Fees.SummaryNameOfAll` | service/feesService.js:127-131 | the name joins surName, firstName and guardianName with single spaces |
| `Fees.FeesTable.constructor` | models/fees.js:1-78 | a new table is empty |
| `Fees.FeesTable.AddFees` | service/feesService.js:4-57 | the reply is `AddFeesRecord`; success appends one live fee, and an error changes nothing |
| `Fees.FeesTable.GetFees` | service/feesService.js:59-81 | `ListLive` over `SearchFilter(search, matches)`: an error exactly for a negative skip; otherwise the page window of the live fee records, each the stored record, each matching the search when one is given |
| `Fees.FeesTable.GetFeesById` | service/feesService.js:83-85 | the stored fee is returned exactly for a live id |
| `Fees.FeesTable.UpdateFees` | service/feesService.js:169-216 | the new rows and the reply are those of `UpdateFeesRows`, pass-through fields and `isDeleted` included |
| `Fees.FeesTable.DeleteFees` | service/feesService.js:218-224 | the new rows and the reply are those of `MarkDeleted`; a fee is returned exactly for a live id |
| `Fees.FeesTable.FeesSummary` | service/feesService.js:88-157 | the loop over the groups builds exactly `Summary` |
| `Fees.FeesTable.LiveStudentsOf` | service/feesService.js:110-118 | the map holds exactly the live students whose id has a group, each mapped to its stored record |
| `Fees.FeesTable.LookUp` | service/feesService.js:120 | `studentMap.get` on a grouped id gives that student exactly when it is live |
| `AuthRules.HashedPasswordPrefixes` | controller/authController.js:43-45 | a password is a bcrypt hash exactly when it starts with `$2a$`, `$2b$` or `$2y$` |
| `AuthRules.ParseLogoBase64` | controller/authController.js:380-397 | a missing or blank logo is "Logo is required"; the result is the payload after the first comma exactly when the trimmed text starts with `data:image/` and has a non-empty payload; any other input is "invalid" |
| `AuthRules.ParseTrimmedLogo` | controller/authController.js:385-396 | the same decision on the trimmed text |
| `AuthRules.ParseSeesTrimmedText` | controller/authController.js:384 | inputs with the same trimmed text parse alike |
| `AuthRules.CheckLogo` | controller/authController.js:406-429 | accepted exactly when parsing succeeds and the decoded size is non-zero and at most 5 MB; the trimmed text is stored; an oversized logo gets the size error |
| `AuthRules.ParseLogoOfDataUrl` | controller/authController.js:380-397 | `data:image/<type>,<payload>` gives the payload back |
| `AuthRules.DataUrlParsed` | controller/authController.js:385-396 | a trimmed data URL whose first comma precedes a payload gives that payload |
| `AuthRules.DataUrlShape` | controller/authController.js:385-388 | a data URL ending in a payload is trimmed and has the prefix |
| `AuthRules.FirstComma` | controller/authController.js:389 | the first comma is the separator when the head has none |
| `AuthRules.TokenLifetime` | controller/authController.js:12-28 | minutes exactly when `JWT_EXPIRES_MINUTES` parses to a positive number; otherwise days, with 14 when the days setting is missing or 0 |
| `AuthRules.ExpiresAt` | controller/authController.js:34-39 | the expiry is now plus minutes times 60000 or days times 86400000 ms |
| `AuthRules.ExpiresInAgreesWithExpiresAt` | controller/authController.js:26-39 | the `expiresIn` text given to the signer spans the same time as `expiresAt` |
| `AuthRules.SpanOfCount` | controller/authController.js:26-28 | the span of `<n>m` or `<n>d` |
| `AuthRules.DefaultLifetime` | controller/authController.js:16 | with no settings a token lasts 14 days |
| `AuthRules.OtpText` | controller/authController.js:155 | a code in [100000, 1000000) is six digits, has no leading zero and reads back as the number |
| `AuthRules.IssuedOtp` | controller/authController.js:155-164 | an issued record holds the normalised address, the purpose, only the hash of the code, and an expiry ten minutes after issue |
| `AuthRules.OtpKeyIsNormalized` | controller/authController.js:155-164 | the record key is the lower-cased, trimmed address, as the OTP schema stores it |
| `AuthRules.PurgeOtps` | controller/authController.js:114-117 | the purge removes exactly the records of that address and purpose, and keeps every other record |
| `AuthRules.PurgedCodesAreRefused` | controller/authController.js:91-117 | after the purge no code of that address and purpose is accepted |
| `AuthRules.PurgeKeepsOtherPurposes` | controller/authController.js:355-358 | the purge does not change whether a code of the other purpose is accepted |
| `AuthRules.PurgeKeepsMatches` | controller/authController.js:355-358 | records of the other purpose still match after the purge |
| `AuthRules.IssuedCodeAccepted` | controller/authController.js:91-104 | a freshly issued code is accepted, for any spelling of the address with the same key, exactly until it expires |
| `AuthRules.AppendedRecordMatches` | controller/authController.js:91-104 | a new record is the only match and matches exactly before its expiry |
| `AuthRules.OtpKeyIgnoresCase` | controller/authController.js:93 | the key of an address does not depend on its case |
| `AuthStore.FindByEmail` | controller/authController.js:198-207 | the first user with that address, or `None` |
| `AuthStore.HasSystemUser` | controller/authController.js:47-70 | the first user exactly when one exists |
| `AuthStore.IssueToken` | controller/authController.js:23-41 | the grant expires at `ExpiresAt`, and its `expiresIn` spans the same time |
| `AuthStore.CreateSucceedsIff` | controller/authController.js:72-134 | creation answers 201 exactly when all five fields are given, no user exists and the code is accepted; it then stores the one user with the hashed password and purges the codes; otherwise nothing changes |
| `AuthStore.SecondUserRefused` | controller/authController.js:83-89 | once a user exists, both creation and the creation code answer 409 and change nothing |
| `AuthStore.HandlersKeepSingleUser` | controller/authController.js:72-488 | every handler keeps at most one system user |
| `AuthStore.CodeThenCreate` | controller/authController.js:72-185 | a code requested and used within ten minutes creates the user |
| `AuthStore.ResetCodeIsSingleUse` | controller/authController.js:334-358 | a reset code cannot be used twice |
| `AuthStore.ResetNeedsMatchingEmail` | controller/authController.js:269-274 | both reset steps refuse an address other than the stored one and change nothing |
| `AuthStore.ResetChangesOnlyPassword` | controller/authController.js:349-358 | a reset changes only the password hash and keeps the creation codes |
| `AuthStore.LegacyPasswordUpgraded` | controller/authController.js:209-227 | a matching plain-text password logs in and is replaced by its bcrypt hash, which later logins check |
| `AuthStore.PlainPasswordAccepted` | controller/authController.js:218-227 | a matching plain-text password logs in and the fresh hash is stored |
| `AuthStore.HashedPasswordCompared` | controller/authController.js:209-213 | a stored hash is checked by bcrypt alone, and a login with it changes nothing |
| `AuthStore.WrongPasswordRefused` | controller/authController.js:223-227 | a wrong password answers 401 with no token and changes nothing |
| `AuthStore.LoginGrantIffOk` | controller/authController.js:229-238 | a login answers 200 exactly when it carries a token, which is `issueToken` of the user found |
| `AuthStore.LogoStoredTrimmed` | controller/authController.js:399-488 | an update answers 200 exactly for a valid logo and an existing user, stores the trimmed data URL, which parses to the same payload, and changes nothing otherwise; deleting stores the empty text |
| `AuthStore.Store.constructor` | controller/authController.js:4-5 | empty users, codes and outbox |
| `AuthStore.Store.CreateSystemUser` | controller/authController.js:72-134 | state and reply are those of `CreateSystemUserStep` |
| `AuthStore.Store.RequestSystemUserOtp` | controller/authController.js:136-185 | state and reply are those of `RequestSystemUserOtpStep` |
| `AuthStore.Store.Login` | controller/authController.js:187-248 | state and reply are those of `LoginStep` |
| `AuthStore.Store.RequestPasswordResetOtp` | controller/authController.js:250-306 | state and reply are those of `RequestPasswordResetOtpStep` |
| `AuthStore.Store.ResetPassword` | controller/authController.js:308-378 | state and reply are those of `ResetPasswordStep` |
| `AuthStore.Store.UpdateSystemUserLogo` | controller/authController.js:399-458 | state and reply are those of `UpdateLogoStep` |
| `AuthStore.Store.DeleteSystemUserLogo` | controller/authController.js:460-488 | state and reply are those of `DeleteLogoStep` |
| `AuthMiddleware.ExtractToken` | middleware/authMiddleware.js:6-9 | a token exactly when the header starts with the case-sensitive `Bearer ` and has more after it; the header is then the prefix plus the token |
| `AuthMiddleware.ExtractTokenRoundTrip` | middleware/authMiddleware.js:6-9 | the header built from a non-empty token gives it back |
| `AuthMiddleware.LowerCaseSchemeRefused` | middleware/authMiddleware.js:7 | a `bearer ` header has no token |
| `AuthMiddleware.Authenticate` | middleware/authMiddleware.js:5-28 | passes exactly when a token is extracted and verifies, with its claims; "Unauthorized" without a token; "Session expired or invalid" when verification fails |
| `AuthMiddleware.Exchange.constructor` | middleware/authMiddleware.js:5 | a fresh request has no user, no reply and no `next` call |
| `AuthMiddleware.Exchange.Run` | middleware/authMiddleware.js:5-28 | on a pass it sets `req.user` and calls `next` once without replying; otherwise it replies 401 with the message and does not call `next` |
| `AuthMiddleware.FreshRequest` | middleware/authMiddleware.js:11-21 | a fresh request reaches `next` exactly once with a valid token, with the verified claims; otherwise it never reaches it and gets 401 |
| `Validation.StepErrors` | validation/studentValidation.js:8-12 | at most one error per check, all for the chain's field |
| `Validation.StepErrorsEmptyIff` | validation/studentValidation.js:8-12 | a chain has no errors exactly when all its checks pass |
| `Validation.StepErrorsAreFailures` | validation/studentValidation.js:8-12 | each error carries the message of a failing check |
| `Validation.ErrorsEmptyIff` | validation/studentValidation.js:71-77 | the collected errors are empty exactly when every chain accepts |
| `Validation.ChainErrorsEmptyIff` | validation/studentValidation.js:8-12 | a chain's errors are empty exactly when it accepts |
| `Validation.ErrorsAppend` | validation/studentValidation.js:7-70 | the errors of two lists of chains are the errors of each, concatenated in order |
| `Validation.ErrorsConsEmptyIff` | validation/feesValidation.js:13-44 | the first chain accepts and the rest have no errors |
| `Validation.ErrorsOfFive` | validation/feesValidation.js:20-44 | five chains have no errors exactly when each accepts |
| `Validation.FilledChainAccepts` | validation/studentValidation.js:36 | a `notEmpty` chain accepts a skipped field or non-empty text |
| `Validation.CheckedChainAccepts` | validation/feesValidation.js:20-24 | a required chain accepts non-empty text that passes its check; an optional chain also accepts an absent field |
| `Validation.SameStepsLikeAdd` | validation/studentValidation.js:115-118 | an optional chain with the add chain's checks accepts a present field exactly as the add chain does |
| `Validation.FilledFirstLikeAdd` | validation/studentValidation.js:107-110 | an optional chain without `notEmpty` judges a present field like the add chain, when its check refuses empty text |
| `Validation.Decide` | validation/studentValidation.js:71-77 | `next` exactly when every chain accepts; otherwise 400 with all errors, in order |
| `Validation.NotFutureByDay` | validation/feesValidation.js:3-11 | a date passes exactly when its day is no later than today's |
| `Validation.MissingDateRefused` | validation/feesValidation.js:4 | a missing, `null` or empty date fails |
| `Validation.IntTextExamples` | validation/feesValidation.js:28 | `isInt` reads `007`, `+7` and `-3` and refuses the empty text, `-` and `1.5` |
| `StudentValidation.NameChainAccepts` | validation/studentValidation.js:8-27 | a name chain accepts a skipped field or non-empty text of ASCII letters and whitespace |
| `StudentValidation.AddStudentAcceptsIff` | validation/studentValidation.js:7-78 | `addStudent` calls `next` exactly for a body with all names, a subject, the address, a 12-digit Aadhaar, a 10-digit mobile, a valid or falsy email, the birth place, an ISO date of birth, an allowed gender and handicapped value, and both education fields |
| `StudentValidation.NamesAcceptIff` | validation/studentValidation.js:8-35 | the name and subject chains accept exactly four valid names and a non-empty subject |
| `StudentValidation.ContactAcceptIff` | validation/studentValidation.js:36-48 | the contact chains accept exactly the address, 12 and 10 digits, an optional valid email and the birth place |
| `StudentValidation.ProfileAcceptIff` | validation/studentValidation.js:49-69 | the profile chains accept exactly an ISO date of birth, `Male`/`Female`/`Other`, `Yes`/`No` and both education fields |
| `StudentValidation.SubjectChainAccepts` | validation/studentValidation.js:28-35 | a subject is present and not an empty array |
| `StudentValidation.EmailChainAccepts` | validation/studentValidation.js:47 | a falsy email is not checked; any other must be an email |
| `StudentValidation.StudentChainAt` | validation/studentValidation.js:7-69 | the fifteen chains in the source's order |
| `StudentValidation.NamesLikeAdd` | validation/studentValidation.js:81-105 | present name and subject fields are judged as on add |
| `StudentValidation.ContactLikeAdd` | validation/studentValidation.js:106-119 | present contact fields are judged as on add |
| `StudentValidation.ProfileLikeAdd` | validation/studentValidation.js:120-133 | present profile fields are judged as on add |
| `StudentValidation.UpdateChecksPresentFieldsLikeAdd` | validation/studentValidation.js:80-133 | on update an absent field passes and a present field must satisfy the add rule |
| `StudentValidation.EmptyUpdateAccepted` | validation/studentValidation.js:135-141 | an empty update body calls `next` |
| `StudentValidation.BlankSurnameTwoErrors` | validation/studentValidation.js:8-12 | an empty surname reports both "required" and "only letters" |
| `StudentValidation.BlankFailsBothSteps` | validation/studentValidation.js:8-12 | empty text fails both `notEmpty` and the letters pattern |
| `FeesValidation.AmountsAcceptIff` | validation/feesValidation.js:20-44 | the amount and date chains accept exactly totals and payments of at least 0, whole counts of at least 1, and a present day that is not in the future |
| `FeesValidation.HeadAcceptIff` | validation/feesValidation.js:14-19 | the student and admission-date chains accept exactly a student id and a present admission date that is not in the future |
| `FeesValidation.AddFeesAcceptsIff` | validation/feesValidation.js:13-53 | `addFees` calls `next` exactly for a valid new fees record |
| `FeesValidation.UpdateChecksPresentFieldsLikeAdd` | validation/feesValidation.js:55-79 | on update an absent field passes and a present field has the add bound |
| `FeesValidation.InstalmentNumberExamples` | validation/feesValidation.js:30-34 | `0` and `-1` are refused, `1` and `12` pass |

## Left out

- MongoDB itself: queries, indexes and the aggregation pipeline. Each
  collection is a sequence of rows indexed by insertion order, so
  `createdAt` order is id order. Grouping is a fold. The `.sort` on the
  owner lookup does not change whether a user exists.
- Text.Lower: only the ASCII letters `A` to `Z` are lowered. JavaScript's
  `toLowerCase` (the OTP address key) and the `i` flag of the subject
  lookup fold all of Unicode, so `école` and `École` are distinct in the
  model but the same to the code.
- AddStudent (`Students.StudentTable.AddStudent`, `Students.AddStudentRows`):
  the `required` and `enum` checks of the schema paths outside the model
  (for instance `photo`, which is set only when a file is uploaded, and the
  `gender` and `handicapped` enums) are one `restValid` flag. Which of them
  fails, and the validator's message, are not modelled. A `subject` given
  as `null` is not distinguished from an absent one. The default `[]`
  is taken to pass `required`.
- The student paths `mothersName`, `batch`, `address`, `email`,
  `birthPlace`, `dateOfBirth`, `gender`, `handicapped`, `latestEducation`,
  `previousSchoolName` and `photo` are not part of the `Student` record.
  What the model does not capture for them:
  - their trim setters;
  - their `required` and `enum` checks, except as the `restValid` flag of
    an add;
  - storing them as given, and
    `findOneAndUpdate` writing them unchecked.
- DeleteStudent (`Students.StudentTable.DeleteStudent`): assumes the
  students collection keeps an `isDeleted` flag, as the service's filters
  and updates use it. The schema in `models/student.js` has no such path,
  so a strict schema stores no flag on `save` and drops `{ isDeleted: true }`
  from the delete. What the `isDeleted: false` filters then match depends on
  Mongoose's `strictQuery` setting, which is not part of this model.
- GetStudentById (`Students.StudentTable.GetStudentById`): relies on the
  same assumed `isDeleted` flag. So do the live-student lookups of
  `GetStudents`, `UpdateStudent`, `AddFeesRecord`, `UpdateFeesRows` and the
  summary.
- UpdateKeepsNameDerived: holds only for name parts without surrounding
  white space. A padded part is stored trimmed, but the name built from it
  keeps its spaces (`AddWithPaddedPartKeepsInnerSpace`). The same condition
  is on `AddKeepsNameDerived` and on the name clause of `AddStudent`.
- AddSubject (`Subjects.SubjectTable.AddSubject`): runs the corrected
  duplicate test on the trimmed name. The code as written is
  `Subjects.AddSubjectAsWritten` (see Findings).
- RunMonthlyBackupIfNeeded
  (`BackupService.BackupOrchestrator.RunMonthlyBackupIfNeeded`): runs the
  corrected due check, which reads a state file holding `null` as never
  backed up. The code as written throws there; it is
  `BackupService.DueCheckAsWritten` (see Findings).
- Update bodies arrive with their values already cast to the schema's
  types. Mongoose's casting of update values, and its cast errors, are not
  modelled.
- Regular-expression search (`new RegExp(search, "i")`): listing takes an
  abstract `matches` predicate. The unescaped `^name$` pattern of
  `addSubject` is read as a case-insensitive equality; pattern
  metacharacters in subject names are not modelled.
- Subjects.AddSubjectAsWritten: the pattern is treated as literal text, so
  a name with regex metacharacters matches less or more in the code than in
  the model.
- Subjects.UpdateSubjectRows: the E11000 duplicate-key error of the unique
  index on update is modelled as an exact-name clash; the source leaves it
  to the database.
- XLSX encoding, `archiver` compression, `fs` reads and writes, `os.homedir`
  and `ensureBackupDir`: opaque effects, each of which may fail.
- `node-cron` and `initBackupScheduler`: external triggering. Only the due
  check is modelled.
- Concurrency: `isRunning` is a plain flag over sequential calls.
- `service/emailService.js`: a mail is a record appended to an outbox.
  Any mail may fail, as `Env.failing` says. This failure is not tied to
  the configuration. In the code, `sendBackupEmail` always throws when
  `EMAIL_USER`, `EMAIL_PASS` or `FROM_EMAIL` is unset. The model lets a
  run without `FROM_EMAIL` complete.
- The two calls of `ensureBackupDir` are one `MakeDir` failure: the due
  check's call (`service/backupService.js:197`) and the run's own
  (`service/backupService.js:135`). A failure of the first after the
  second succeeded, or the reverse, is not modelled.
- BackupFormat.StringForm: a Date is given its ISO text. JavaScript's
  `String(date)` gives the `Date.prototype.toString` text instead, a
  local-time form with the zone name. `normalizeRow` applies `String` only
  to a truthy `_id` (service/backupService.js:62-64), and the backed-up
  collections have ObjectId `_id` values, so this case does not arise there.
- JSON numbers in the workbook's stringified cells are integers; fractional
  numbers are not modelled.
- `Fees.Groups`: the groups come in first-appearance order of their
  students. MongoDB's `$group` promises no order, so the order of the
  summary rows is a choice of the model.
- bcrypt, SHA-256 and JWT signing and verification are function parameters.
  `crypto.randomInt` is a parameter in range.
- Floating point: amounts are reals. Number coercion is a
  `Finite`/`NonFinite` input. `isFloat`, `isEmail`, `isISO8601` and
  `new Date` parsing are parameters of the validator environment.
- Time zones: a date comes with its local and UTC fields decomposed.
  `setHours(0, 0, 0, 0)` is whole-day truncation of local milliseconds.
- `getLastFeesForStudent` and `getMonthlyFeesSummary` in
  `service/feesService.js`: not part of this model.
- The controllers, routes and `index.js`: HTTP wiring, including the
  `parseInt(...) || 1` paging defaults. The auth handlers' replies are
  modelled as status and message.
- The `models/systemUser.js` schema is not part of this model. Users are
  stored as given, and the stored address is taken to be lower-case (as
  `login` queries it).
- Per-item validation of array values, and express-validator's sanitisers,
  are not modelled. A value's text is its string, or its items joined by
  commas.
- The backup workbook's sheet layout and the mail templates are not
  modelled. Their content is carried as records.

## Findings

| source | as written | input that shows it | evidently intended | confidence | as-written member | corrected member |
|---|---|---|---|---|---|---|
| service/backupService.js:196-204 | `state.lastBackupMonth` is read from whatever `JSON.parse` returned, and `readBackupState` returns `null` for a file holding `null` | `backup_state.json` containing `null`: every due check throws a TypeError, so no backup ever runs again | a state that is not an object reads as never backed up, as a missing file does | not executed | `BackupService.NullStateRejectsAsWritten` | `BackupService.DueCheckNeverRejectsOnState` |
| service/subjectService.js:8-19 | the case-insensitive duplicate test uses the untrimmed name, while the schema trims the stored name | `" math"` while `Math` exists: it is accepted and stored as `math` beside `Math` | the duplicate test uses the trimmed name, so subject names stay unique ignoring case | not executed | `Subjects.AddAsWrittenAcceptsCaseDuplicate` | `Subjects.AddKeepsUniqueIgnoringCase` |
