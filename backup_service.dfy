/** The monthly backup orchestrator: a process-wide `isRunning` guard, the
    persisted `{lastBackupAt, lastBackupMonth, reason}` record, and the
    strictly ordered run (owner lookup, directory, workbook, archive, mails,
    cleanup, state write). Spreadsheet encoding, zip compression, file I/O and
    mail delivery are effects whose failure is given by `Env.failing`. */
module BackupService {

  import opened Wrappers
  import Text
  import opened BackupFormat

  const StateFileName := "backup_state.json"
  const BackupFolderName := "student_backup"
  /** `BACKUP_COLLECTIONS`, in export order. */
  const CollectionNames := ["student", "fees"]

  datatype Reason = Startup | Scheduled {
    function Name(): string {
      match this
      case Startup => "startup"
      case Scheduled => "scheduled"
    }
  }

  /** What `backup_state.json` holds: nothing, text that does not parse, or
      the JSON text of a value. */
  datatype StateFile = Missing | Unparseable | Holds(content: JsValue)

  /** `readBackupState`: the parsed content, or `{}` when the file is missing
      or does not parse. */
  function ReadBackupState(f: StateFile): (v: JsValue)
    ensures f.Holds? ==> v == f.content
    ensures !f.Holds? ==> v == ObjectValue([])
  {
    if f.Holds? then f.content else ObjectValue([])
  }

  /** Property read on a parsed object: the last member with that key wins,
      as in `JSON.parse`; no member reads as `undefined`. */
  function Lookup(fields: seq<(string, JsValue)>, key: string): (v: JsValue)
    ensures v != Undefined ==> exists k :: 0 <= k < |fields| && fields[k] == (key, v)
    ensures (forall k :: 0 <= k < |fields| ==> fields[k].0 != key) ==> v == Undefined
  {
    if fields == [] then Undefined
    else if fields[|fields| - 1].0 == key then fields[|fields| - 1].1
    else Lookup(fields[..|fields| - 1], key)
  }

  /** `state.lastBackupMonth` exactly as written: reading a property of
      `null` (a state file holding `null`) throws a TypeError. */
  function LastBackupMonthAsWritten(state: JsValue): (r: Result<JsValue, string>)
    ensures state.Null? || state.Undefined? <==> r.Err?
  {
    match state
    case Null => Err("TypeError")
    case Undefined => Err("TypeError")
    case ObjectValue(fields) => Ok(Lookup(fields, "lastBackupMonth"))
    case _ => Ok(Undefined)
  }

  /** `state.lastBackupMonth` as intended: any state that is not an object
      reads as never backed up. */
  function LastBackupMonth(state: JsValue): (r: JsValue)
    ensures state.ObjectValue? ==> r == Lookup(state.fields, "lastBackupMonth")
    ensures !state.ObjectValue? ==> r == Undefined
  {
    if state.ObjectValue? then Lookup(state.fields, "lastBackupMonth") else Undefined
  }

  /** The record `writeBackupState` stores after a successful run. */
  function StateRecord(now: Instant, reason: Reason): JsValue {
    ObjectValue([("lastBackupAt", Str(Iso(now.utc))),
                 ("lastBackupMonth", Str(FormatMonthKey(now.local))),
                 ("reason", Str(reason.Name()))])
  }

  /** The system user as the run reads it (`name email instituteName`). */
  datatype Owner = Owner(name: string, email: string, instituteName: Option<string>)

  /** The arguments of one `sendBackupEmail` call. */
  datatype Mail = Mail(to: string, name: string, instituteName: Option<string>,
                       backupDateTime: string, fileName: string, tables: seq<string>)

  datatype Sheet = Sheet(name: string, rows: seq<Record>)

  /** Files the run leaves in the backup directory. */
  datatype Artifact = Workbook(sheets: seq<Sheet>) | Archive(entries: seq<(string, Artifact)>)

  /** The effects of a run, in the order they happen. */
  datatype Step =
    | FindOwner | MakeDir | ReadCollections | WriteWorkbook | CreateZip
    | MailOwner | MailCopy | DeleteWorkbook | WriteState

  /** Everything a run consumes from outside: the owner record, the clock,
      the documents of each backed-up collection, the two mail settings and
      the set of effects that fail this time. */
  datatype Env = Env(owner: Option<Owner>, now: Instant, studentDocs: seq<Record>,
                     feeDocs: seq<Record>, emailFrom: Option<string>,
                     emailUser: Option<string>, failing: set<Step>)

  /** What persists between runs: the state file, the other files of the
      backup directory, and the mails handed to the mailer so far. */
  datatype Store = Store(stateFile: StateFile, files: map<string, Artifact>, outbox: seq<Mail>)

  datatype Outcome = AlreadyRunning | Skipped | Failed(at: Step) | Completed(zipName: string)

  datatype DueOutcome = NotDue | Rejected(error: string) | Attempted(run: Outcome)

  /** `EMAIL_FROM || EMAIL_USER`. */
  function FromAddress(env: Env): (r: Option<string>)
    ensures r.Some? ==> r.value != []
    ensures env.emailFrom.Some? && env.emailFrom.value != [] ==> r == env.emailFrom
    ensures !(env.emailFrom.Some? && env.emailFrom.value != []) && env.emailUser.Some? && env.emailUser.value != []
      ==> r == env.emailUser
    ensures r.None? <==> !(env.emailFrom.Some? && env.emailFrom.value != []) && !(env.emailUser.Some? && env.emailUser.value != [])
  {
    if env.emailFrom.Some? && env.emailFrom.value != [] then env.emailFrom
    else if env.emailUser.Some? && env.emailUser.value != [] then env.emailUser
    else None
  }

  /** A second mail goes to the from-address when there is one and it differs
      from the owner's address ignoring case. */
  predicate SendsCopy(env: Env, owner: Owner) {
    FromAddress(env).Some? && !Text.EqualsIgnoreCase(FromAddress(env).value, owner.email)
  }

  function Rows(docs: seq<Record>): (rows: seq<Record>)
    ensures |rows| == |docs|
    ensures forall k :: 0 <= k < |docs| ==> rows[k] == NormalizedRecord(docs[k])
  {
    seq(|docs|, k requires 0 <= k < |docs| => NormalizedRecord(docs[k]))
  }

  /** `buildWorkbook`: one sheet per collection, named after it. Every
      document of the collection is exported, deleted ones included: the
      query has no filter. */
  function Sheets(env: Env): seq<Sheet> {
    [Sheet(CollectionNames[0], Rows(env.studentDocs)), Sheet(CollectionNames[1], Rows(env.feeDocs))]
  }

  function BackupMail(owner: Owner, to: string, stamp: string, zipName: string): Mail {
    Mail(to, owner.name, owner.instituteName, stamp, zipName, CollectionNames)
  }

  /** Names a run at `now` uses: the stamp, and the workbook and archive
      names sharing the base `<sanitized>_backup_<stamp>`. */
  datatype Names = Names(stamp: string, excelName: string, zipName: string)

  function ArtifactNames(owner: Owner, now: Instant): Names {
    var base := BaseName(owner.instituteName, now.local);
    Names(FormatDateTime(now.local), base + ".xlsx", base + ".zip")
  }

  /** The body of `runBackup` inside its `try`: what the run does to the
      store and how it ends, given which effects fail. */
  function RunSteps(s: Store, reason: Reason, env: Env): (Store, Outcome) {
    if FindOwner in env.failing then (s, Failed(FindOwner))
    else if env.owner.None? then (s, Skipped)
    else if MakeDir in env.failing then (s, Failed(MakeDir))
    else if ReadCollections in env.failing then (s, Failed(ReadCollections))
    else if WriteWorkbook in env.failing then (s, Failed(WriteWorkbook))
    else
      var owner := env.owner.value;
      var names := ArtifactNames(owner, env.now);
      var book := Workbook(Sheets(env));
      Publish(s.(files := s.files[names.excelName := book]), reason, env, owner, names, book)
  }

  /** Everything after the workbook file is written: archive, mails,
      cleanup and, last, the state record. */
  function Publish(s: Store, reason: Reason, env: Env, owner: Owner, names: Names, book: Artifact)
    : (r: (Store, Outcome))
    ensures r.1.Failed? || r.1.Completed?
    ensures r.1.Completed? ==> r.0.stateFile == Holds(StateRecord(env.now, reason))
    ensures !r.1.Completed? ==> r.0.stateFile == s.stateFile
  {
    if CreateZip in env.failing then (s, Failed(CreateZip))
    else
      var files := s.files[names.zipName := Archive([(names.excelName, book)])];
      var outbox := s.outbox + [BackupMail(owner, owner.email, names.stamp, names.zipName)];
      if MailOwner in env.failing then (s.(files := files), Failed(MailOwner))
      else if SendsCopy(env, owner) && MailCopy in env.failing then
        (Store(s.stateFile, files, outbox), Failed(MailCopy))
      else
        var outbox' := if SendsCopy(env, owner)
          then outbox + [BackupMail(owner, FromAddress(env).value, names.stamp, names.zipName)]
          else outbox;
        var files' := if DeleteWorkbook in env.failing then files else files - {names.excelName};
        if WriteState in env.failing then (Store(s.stateFile, files', outbox'), Failed(WriteState))
        else (Store(Holds(StateRecord(env.now, reason)), files', outbox'), Completed(names.zipName))
  }

  /** `runBackup`: dropped while a run holds the guard; otherwise the guard is
      taken, the steps run, and the guard is released whatever happened. */
  function Run(running: bool, s: Store, reason: Reason, env: Env): (bool, Store, Outcome) {
    if running then (true, s, AlreadyRunning)
    else
      var r := RunSteps(s, reason, env);
      (false, r.0, r.1)
  }

  /** `runMonthlyBackupIfNeeded` with the state read as intended. The due
      check makes sure of the directory first; a failure there rejects. */
  function DueCheck(running: bool, s: Store, reason: Reason, checkNow: Instant, env: Env)
    : (bool, Store, DueOutcome)
  {
    if MakeDir in env.failing then (running, s, Rejected("mkdir"))
    else if LastBackupMonth(ReadBackupState(s.stateFile)) == Str(FormatMonthKey(checkNow.local)) then
      (running, s, NotDue)
    else
      var r := Run(running, s, reason, env);
      (r.0, r.1, Attempted(r.2))
  }

  /** `runMonthlyBackupIfNeeded` exactly as written. */
  function DueCheckAsWritten(running: bool, s: Store, reason: Reason, checkNow: Instant, env: Env)
    : (bool, Store, DueOutcome)
  {
    if MakeDir in env.failing then (running, s, Rejected("mkdir"))
    else
      match LastBackupMonthAsWritten(ReadBackupState(s.stateFile))
      case Err(e) => (running, s, Rejected(e))
      case Ok(month) =>
        if month == Str(FormatMonthKey(checkNow.local)) then (running, s, NotDue)
        else
          var r := Run(running, s, reason, env);
          (r.0, r.1, Attempted(r.2))
  }

  // ---------------------------------------------------------------------
  // Properties of the run.

  /** A trigger that arrives while a run holds the guard changes nothing. */
  lemma RunWhileRunningIsNoOp(s: Store, reason: Reason, env: Env)
    ensures Run(true, s, reason, env) == (true, s, AlreadyRunning)
  {
  }

  /** A run that took the guard gives it back, whatever the outcome. */
  lemma RunReleasesGuard(s: Store, reason: Reason, env: Env)
    ensures !Run(false, s, reason, env).0
    ensures Run(false, s, reason, env).2 != AlreadyRunning
  {
  }

  /** The state file changes only on a completed run, and then holds exactly
      the time of the run, its month key and the reason. */
  lemma StateWrittenOnlyOnCompletion(s: Store, reason: Reason, env: Env)
    ensures var r := RunSteps(s, reason, env);
      if r.1.Completed? then r.0.stateFile == Holds(StateRecord(env.now, reason))
      else r.0.stateFile == s.stateFile
  {
  }

  /** No owner: the run is skipped (not failed) with no effect at all. */
  lemma NoOwnerSkips(s: Store, reason: Reason, env: Env)
    requires env.owner.None? && FindOwner !in env.failing
    ensures RunSteps(s, reason, env) == (s, Skipped)
  {
  }

  /** A failure in any step before the state write leaves the state file as
      it was, so the next trigger tries the same month again. */
  lemma FailureKeepsState(s: Store, reason: Reason, env: Env, step: Step)
    requires step in env.failing && step != DeleteWorkbook
    requires step == MailCopy ==> env.owner.Some? && SendsCopy(env, env.owner.value)
    ensures RunSteps(s, reason, env).0.stateFile == s.stateFile
    ensures !RunSteps(s, reason, env).1.Completed?
  {
  }

  /** The workbook and the archive are named after the same base, built from
      the sanitised institute name and the run's own clock reading, and the
      two names differ. */
  lemma ArtifactNamesShareBase(owner: Owner, now: Instant)
    ensures var names := ArtifactNames(owner, now);
      var base := SanitizeFileName(owner.instituteName) + "_backup_" + FormatDateTime(now.local);
      && names.excelName == base + ".xlsx" && names.zipName == base + ".zip"
      && names.stamp == FormatDateTime(now.local)
      && names.excelName != names.zipName
  {
    var base := BaseName(owner.instituteName, now.local);
    assert (base + ".zip")[|base| + 1] == 'z';
    assert (base + ".xlsx")[|base| + 1] == 'x';
  }

  /** A completed run got past every check before the archive: it is the
      publishing stage applied to the store with the workbook written. */
  lemma CompletedRunPublishes(s: Store, reason: Reason, env: Env)
    requires RunSteps(s, reason, env).1.Completed?
    ensures env.owner.Some?
    ensures var names := ArtifactNames(env.owner.value, env.now);
      var book := Workbook(Sheets(env));
      RunSteps(s, reason, env)
        == Publish(s.(files := s.files[names.excelName := book]), reason, env, env.owner.value, names, book)
  {
  }

  lemma PublishArtifacts(s: Store, reason: Reason, env: Env, owner: Owner, names: Names, book: Artifact)
    requires Publish(s, reason, env, owner, names, book).1.Completed?
    requires names.excelName != names.zipName
    ensures var (s', outcome) := Publish(s, reason, env, owner, names, book);
      && outcome.zipName == names.zipName
      && names.zipName in s'.files
      && s'.files[names.zipName] == Archive([(names.excelName, book)])
      && (DeleteWorkbook !in env.failing ==> names.excelName !in s'.files)
  {
  }

  /** After a completed run the archive is on disk, holding the workbook
      under the workbook's name; the workbook file itself is gone unless
      deleting it failed. */
  lemma CompletedArtifacts(s: Store, reason: Reason, env: Env)
    requires RunSteps(s, reason, env).1.Completed?
    ensures env.owner.Some?
    ensures var names := ArtifactNames(env.owner.value, env.now);
      var (s', outcome) := RunSteps(s, reason, env);
      && outcome.zipName == names.zipName
      && names.zipName in s'.files
      && s'.files[names.zipName] == Archive([(names.excelName, Workbook(Sheets(env)))])
      && (DeleteWorkbook !in env.failing ==> names.excelName !in s'.files)
  {
    CompletedRunPublishes(s, reason, env);
    var names := ArtifactNames(env.owner.value, env.now);
    var book := Workbook(Sheets(env));
    ArtifactNamesShareBase(env.owner.value, env.now);
    PublishArtifacts(s.(files := s.files[names.excelName := book]), reason, env, env.owner.value, names, book);
  }

  lemma PublishMails(s: Store, reason: Reason, env: Env, owner: Owner, names: Names, book: Artifact)
    requires Publish(s, reason, env, owner, names, book).1.Completed?
    ensures var s' := Publish(s, reason, env, owner, names, book).0;
      && |s'.outbox| == |s.outbox| + (if SendsCopy(env, owner) then 2 else 1)
      && s'.outbox[..|s.outbox|] == s.outbox
      && s'.outbox[|s.outbox|] == BackupMail(owner, owner.email, names.stamp, names.zipName)
      && (SendsCopy(env, owner) ==>
            s'.outbox[|s.outbox| + 1] == BackupMail(owner, FromAddress(env).value, names.stamp, names.zipName))
  {
  }

  /** A completed run mailed the archive to the owner, and a second time to
      the from-address exactly when that address exists and differs from the
      owner's ignoring case; earlier mails are untouched. */
  lemma CompletedMails(s: Store, reason: Reason, env: Env)
    requires RunSteps(s, reason, env).1.Completed?
    ensures env.owner.Some?
    ensures var owner := env.owner.value;
      var names := ArtifactNames(owner, env.now);
      var s' := RunSteps(s, reason, env).0;
      && |s'.outbox| == |s.outbox| + (if SendsCopy(env, owner) then 2 else 1)
      && s'.outbox[..|s.outbox|] == s.outbox
      && s'.outbox[|s.outbox|] == BackupMail(owner, owner.email, names.stamp, names.zipName)
      && (SendsCopy(env, owner) ==>
            s'.outbox[|s.outbox| + 1] == BackupMail(owner, FromAddress(env).value, names.stamp, names.zipName))
  {
    var owner := env.owner.value;
    var names := ArtifactNames(owner, env.now);
    var book := Workbook(Sheets(env));
    CompletedRunPublishes(s, reason, env);
    PublishMails(s.(files := s.files[names.excelName := book]), reason, env, owner, names, book);
  }

  // ---------------------------------------------------------------------
  // Properties of the due check.

  /** When the stored month equals the current month key the due check does
      nothing: no run, no file written, no mail. */
  lemma DueCheckIdempotent(running: bool, s: Store, reason: Reason, checkNow: Instant, env: Env)
    requires MakeDir !in env.failing
    requires LastBackupMonth(ReadBackupState(s.stateFile)) == Str(FormatMonthKey(checkNow.local))
    ensures DueCheck(running, s, reason, checkNow, env) == (running, s, NotDue)
  {
  }

  /** A due check arriving while a run holds the guard changes nothing. */
  lemma DueCheckWhileRunningIsNoOp(s: Store, reason: Reason, checkNow: Instant, env: Env)
    ensures DueCheck(true, s, reason, checkNow, env).0
    ensures DueCheck(true, s, reason, checkNow, env).1 == s
  {
  }

  /** The stored record reads back the month key it was written with. */
  lemma StateRecordMonth(now: Instant, reason: Reason)
    ensures LastBackupMonth(ReadBackupState(Holds(StateRecord(now, reason))))
         == Str(FormatMonthKey(now.local))
  {
    var fields := StateRecord(now, reason).fields;
    assert fields[2].0[0] == 'r' && "lastBackupMonth"[0] == 'l';
    assert Lookup(fields, "lastBackupMonth") == Lookup(fields[..2], "lastBackupMonth");
    assert fields[..2][1] == ("lastBackupMonth", Str(FormatMonthKey(now.local)));
  }

  /** Once a run completed, every later due check in the same year and month
      is a no-op: at most one completed backup per month. */
  lemma OncePerMonth(s: Store, reason: Reason, checkNow: Instant, env: Env,
                     reason2: Reason, checkNow2: Instant, env2: Env)
    requires var r := DueCheck(false, s, reason, checkNow, env).2;
      r.Attempted? && r.run.Completed?
    requires env.now.local.year == checkNow2.local.year && env.now.local.month == checkNow2.local.month
    requires MakeDir !in env2.failing
    ensures var (running1, s1, _) := DueCheck(false, s, reason, checkNow, env);
      DueCheck(running1, s1, reason2, checkNow2, env2) == (running1, s1, NotDue)
  {
    StateWrittenOnlyOnCompletion(s, reason, env);
    var s1 := DueCheck(false, s, reason, checkNow, env).1;
    assert s1 == RunSteps(s, reason, env).0;
    assert s1.stateFile == Holds(StateRecord(env.now, reason));
    StateRecordMonth(env.now, reason);
    assert FormatMonthKey(env.now.local) == FormatMonthKey(checkNow2.local);
  }

  /** The due check as intended only rejects when the directory cannot be
      made: whatever the state file holds, a due month is attempted. */
  lemma DueCheckNeverRejectsOnState(running: bool, s: Store, reason: Reason, checkNow: Instant, env: Env)
    requires MakeDir !in env.failing
    ensures !DueCheck(running, s, reason, checkNow, env).2.Rejected?
  {
  }

  /** As written, a state file holding `null` makes every due check throw
      before any run, so no backup is ever made again. */
  lemma NullStateRejectsAsWritten(running: bool, s: Store, reason: Reason, checkNow: Instant, env: Env)
    requires s.stateFile == Holds(Null) && MakeDir !in env.failing
    ensures DueCheckAsWritten(running, s, reason, checkNow, env) == (running, s, Rejected("TypeError"))
    ensures DueCheck(running, s, reason, checkNow, env).2.Attempted?
  {
  }

  // ---------------------------------------------------------------------
  // The orchestrator.

  /** The orchestrator's own state: the guard and what persists. */
  class BackupOrchestrator {
    var isRunning: bool
    var stateFile: StateFile
    var files: map<string, Artifact>
    var outbox: seq<Mail>

    function Current(): Store
      reads this
    {
      Store(stateFile, files, outbox)
    }

    constructor (stateFile: StateFile, files: map<string, Artifact>)
      ensures !isRunning && Current() == Store(stateFile, files, [])
    {
      isRunning := false;
      this.stateFile := stateFile;
      this.files := files;
      outbox := [];
    }

    /** `runBackup({ reason })`. */
    method RunBackup(reason: Reason, env: Env) returns (outcome: Outcome)
      modifies this
      ensures (isRunning, Current(), outcome) == Run(old(isRunning), old(Current()), reason, env)
    {
      if isRunning {
        return AlreadyRunning;
      }
      isRunning := true;
      outcome := Steps(reason, env);
      isRunning := false;
    }

    /** The steps of a run, each effect in order, each failure ending it. */
    method Steps(reason: Reason, env: Env) returns (outcome: Outcome)
      modifies this`stateFile, this`files, this`outbox
      ensures (Current(), outcome) == RunSteps(old(Current()), reason, env)
    {
      if FindOwner in env.failing {
        return Failed(FindOwner);
      }
      if env.owner.None? {
        return Skipped;
      }
      var owner := env.owner.value;
      if MakeDir in env.failing {
        return Failed(MakeDir);
      }
      if ReadCollections in env.failing {
        return Failed(ReadCollections);
      }
      var book := Workbook(Sheets(env));
      if WriteWorkbook in env.failing {
        return Failed(WriteWorkbook);
      }
      var names := ArtifactNames(owner, env.now);
      var stamp, excelName, zipName := names.stamp, names.excelName, names.zipName;
      files := files[excelName := book];
      if CreateZip in env.failing {
        return Failed(CreateZip);
      }
      files := files[zipName := Archive([(excelName, book)])];
      if MailOwner in env.failing {
        return Failed(MailOwner);
      }
      outbox := outbox + [BackupMail(owner, owner.email, stamp, zipName)];
      var from := FromAddress(env);
      if from.Some? && !Text.EqualsIgnoreCase(from.value, owner.email) {
        if MailCopy in env.failing {
          return Failed(MailCopy);
        }
        outbox := outbox + [BackupMail(owner, from.value, stamp, zipName)];
      }
      if DeleteWorkbook !in env.failing {
        files := files - {excelName};
      }
      if WriteState in env.failing {
        return Failed(WriteState);
      }
      stateFile := Holds(StateRecord(env.now, reason));
      outcome := Completed(zipName);
    }

    /** `runMonthlyBackupIfNeeded(reason)`; `checkNow` is the clock reading of
      the due check, `env.now` that of the run. */
    method RunMonthlyBackupIfNeeded(reason: Reason, checkNow: Instant, env: Env) returns (r: DueOutcome)
      modifies this
      ensures (isRunning, Current(), r) == DueCheck(old(isRunning), old(Current()), reason, checkNow, env)
    {
      if MakeDir in env.failing {
        return Rejected("mkdir");
      }
      var state := ReadBackupState(stateFile);
      var currentMonth := FormatMonthKey(checkNow.local);
      if LastBackupMonth(state) == Str(currentMonth) {
        return NotDue;
      }
      var outcome := RunBackup(reason, env);
      r := Attempted(outcome);
    }
  }
}
