/**
 What each store operation means as one atomic step: the reference the step-by-step
 transactions are proved against. Ids and clock readings are inputs of the operation.
 */
module Operations {
  import opened Prelude
  import opened Codes
  import opened Tables

  datatype NewUser = NewUser(handle: string, email: string, passwordHash: string, role: Role)

  datatype User = User(id: UserId, handle: string, email: string, passwordHash: string, role: Role, createdAt: Timestamp)

  /** One catalog row; `updatedAt` is None when the instant has no RFC 3339 text. */
  datatype ProblemInput = ProblemInput(
    id: ProblemId, commitSha: string, title: string, category: string, difficulty: string, manifest: string,
    updatedAt: Option<Timestamp>)

  datatype NewSubmission = NewSubmission(
    userId: UserId, problemId: ProblemId, language: Language, sourceHash: string, sourceUri: string)

  datatype Submission = Submission(
    id: SubmissionId, userId: UserId, problemId: ProblemId, language: Language, sourceHash: string, sourceUri: string,
    status: Status, verdict: Option<Verdict>,
    createdAt: Timestamp, startedAt: Option<Timestamp>, finishedAt: Option<Timestamp>)

  datatype NewRun = NewRun(
    submissionId: SubmissionId, attempt: u32, runnerId: string, fixture: string,
    exitCode: Option<i32>, verdict: Option<Verdict>, output: Option<string>, logUri: Option<string>,
    bootMs: Option<u32>, buildMs: Option<u32>, runMs: Option<u32>)

  datatype Run = Run(id: RunId, run: NewRun, createdAt: Timestamp)

  datatype UserProgress = UserProgress(userId: UserId, problemId: ProblemId, solvedAt: Option<Timestamp>, attempts: u32)

  datatype Entity = Users | Problems | Submissions | Runs | Progress

  datatype StoreError =
    | NotFound(entity: Entity)
    | Conflict(entity: Entity)
    | IllegalTransition(id: SubmissionId, from: Status, to: Status)
    | CorruptRow(entity: Entity)
    | Database(cause: SqlError)

  datatype Op =
    | CreateUser(userId: UserId, user: NewUser, now: Timestamp)
    | ReplaceProblems(rows: seq<ProblemInput>)
    | CreateSubmission(id: SubmissionId, submission: NewSubmission, now: Timestamp)
    | SetStatus(id: SubmissionId, status: Status, now: Timestamp)
    | Finish(id: SubmissionId, verdict: Verdict, now: Timestamp)
    | RecordRun(runId: RunId, run: NewRun, now: Timestamp)

  datatype Reply =
    | UserCreated(user: User)
    | SubmissionCreated(submission: Submission)
    | RunRecorded(run: Run)
    | Completed
    | Refused(error: StoreError)

  datatype Effect = Effect(db: Db, reply: Reply)

  function Refuse(db: Db, e: StoreError): Effect {
    Effect(db, Refused(e))
  }

  // Rows as the insert statements write them.

  function UserRow(u: NewUser, now: Timestamp): UserRecord {
    UserRecord(u.handle, u.email, u.passwordHash, RoleText(u.role), now)
  }

  function ProblemRow(p: ProblemInput): ProblemRecord
    requires p.updatedAt.Some?
  {
    ProblemRecord(p.commitSha, p.title, p.category, p.difficulty, p.manifest, p.updatedAt.value)
  }

  function QueuedRow(s: NewSubmission, now: Timestamp): SubmissionRecord {
    SubmissionRecord(s.userId, s.problemId, LanguageText(s.language), s.sourceHash, s.sourceUri, StatusText(Queued), None, now, None, None)
  }

  function WidenU32(x: Option<u32>): Option<int> {
    match x case None => None case Some(v) => Some(v as int)
  }

  function WidenI32(x: Option<i32>): Option<int> {
    match x case None => None case Some(v) => Some(v as int)
  }

  function OptVerdictText(v: Option<Verdict>): Option<string> {
    match v case None => None case Some(x) => Some(VerdictText(x))
  }

  function RunRow(r: NewRun, now: Timestamp): RunRecord {
    RunRecord(
      r.submissionId, r.attempt as int, r.runnerId, r.fixture, WidenI32(r.exitCode), OptVerdictText(r.verdict),
      r.output, r.logUri, WidenU32(r.bootMs), WidenU32(r.buildMs), WidenU32(r.runMs), now)
  }

  /** Why the first unacceptable catalog row is refused, if there is one. */
  function FirstBadRow(rows: seq<ProblemInput>): Option<StoreError> {
    if rows == [] then None
    else
      var n := |rows| - 1;
      var earlier := FirstBadRow(rows[..n]);
      if earlier.Some? then earlier
      else if rows[n].updatedAt.None? then Some(CorruptRow(Problems))
      else if !DifficultyCheck(rows[n].difficulty) then Some(Database(CheckViolation))
      else None
  }

  /** The catalog the rows describe: the last row for an id wins. */
  function Catalog(rows: seq<ProblemInput>): map<ProblemId, ProblemRecord>
    requires FirstBadRow(rows).None?
  {
    if rows == [] then map[]
    else
      var n := |rows| - 1;
      Catalog(rows[..n])[rows[n].id := ProblemRow(rows[n])]
  }

  function Ids(rows: seq<ProblemInput>): set<ProblemId> {
    set i | 0 <= i < |rows| :: rows[i].id
  }

  lemma {:induction false} CatalogKeys(rows: seq<ProblemInput>)
    requires FirstBadRow(rows).None?
    ensures Catalog(rows).Keys == Ids(rows)
  {
    if rows != [] {
      var n := |rows| - 1;
      CatalogKeys(rows[..n]);
      forall x ensures x in Ids(rows) <==> x in Ids(rows[..n]) + {rows[n].id} {
        if x in Ids(rows[..n]) {
          var i :| 0 <= i < n && rows[..n][i].id == x;
          assert rows[i].id == x;
        }
        if x in Ids(rows) {
          var i :| 0 <= i < |rows| && rows[i].id == x;
          assert i == n || rows[..n][i].id == x;
        }
      }
      assert Ids(rows) == Ids(rows[..n]) + {rows[n].id};
    }
  }

  /** A catalog problem that has learner history and is missing from `keep`. */
  ghost predicate Orphans(db: Db, keep: set<ProblemId>) {
    exists p :: p in db.problems && p !in keep && Referenced(db, p)
  }

  function Lookup(progress: map<Pair, ProgressRecord>, key: Pair): Option<ProgressRecord> {
    if key in progress then Some(progress[key]) else None
  }

  /** One more counted attempt for a pair; the first acceptance stamps `solvedAt`. */
  function CreditRow(row: Option<ProgressRecord>, v: Verdict, now: Timestamp): ProgressRecord {
    var stamp := if v.IsAccepted() then Some(now) else None;
    match row
    case None => ProgressRecord(stamp, 1)
    case Some(r) => ProgressRecord(if r.solvedAt.Some? then r.solvedAt else stamp, r.attempts + 1)
  }

  function Credit(progress: map<Pair, ProgressRecord>, key: Pair, v: Verdict, now: Timestamp): map<Pair, ProgressRecord> {
    if v.Counts() then progress[key := CreditRow(Lookup(progress, key), v, now)] else progress
  }

  // The meaning of each operation. A refused operation changes no table.

  ghost function ExecCreateUser(db: Db, id: UserId, u: NewUser, now: Timestamp): Effect {
    if id in db.users || exists o :: o in db.users && (db.users[o].handle == u.handle || db.users[o].email == u.email)
    then Refuse(db, Conflict(Users))
    else Effect(db.(users := db.users[id := UserRow(u, now)]),
                UserCreated(User(id, u.handle, u.email, u.passwordHash, u.role, now)))
  }

  ghost function ExecReplaceProblems(db: Db, rows: seq<ProblemInput>): Effect {
    var bad := FirstBadRow(rows);
    if bad.Some? then Refuse(db, bad.value)
    else if Orphans(db, Ids(rows)) then Refuse(db, Database(ForeignKeyViolation))
    else Effect(db.(problems := Catalog(rows)), Completed)
  }

  ghost function ExecCreateSubmission(db: Db, id: SubmissionId, s: NewSubmission, now: Timestamp): Effect {
    if id in db.submissions then Refuse(db, Database(UniqueViolation))
    else if s.userId !in db.users || s.problemId !in db.problems then Refuse(db, Database(ForeignKeyViolation))
    else Effect(db.(submissions := db.submissions[id := QueuedRow(s, now)]),
                SubmissionCreated(Submission(id, s.userId, s.problemId, s.language, s.sourceHash, s.sourceUri,
                                             Queued, None, now, None, None)))
  }

  /** The error of a move that the current row does not allow. */
  ghost function MoveError(db: Db, id: SubmissionId, next: Status): Option<StoreError> {
    if id !in db.submissions then Some(NotFound(Submissions))
    else
      var current := ParseStatus(db.submissions[id].status);
      if current.None? then Some(CorruptRow(Submissions))
      else if !current.value.CanTransitionTo(next) then Some(IllegalTransition(id, current.value, next))
      else None
  }

  ghost function ExecSetStatus(db: Db, id: SubmissionId, next: Status, now: Timestamp): Effect {
    var error := MoveError(db, id, next);
    if error.Some? then Refuse(db, error.value)
    else Effect(db.(submissions := db.submissions[id := Moved(db.submissions[id], next, now)]), Completed)
  }

  ghost function ExecFinish(db: Db, id: SubmissionId, v: Verdict, now: Timestamp): Effect {
    var error := MoveError(db, id, Done);
    if error.Some? then Refuse(db, error.value)
    else
      var row := db.submissions[id];
      if v.Counts() && row.Key() !in db.progress && (row.userId !in db.users || row.problemId !in db.problems)
      then Refuse(db, Database(ForeignKeyViolation))
      else Effect(db.(submissions := db.submissions[id := Finished(row, v, now)],
                      progress := Credit(db.progress, row.Key(), v, now)),
                  Completed)
  }

  ghost function ExecRecordRun(db: Db, id: RunId, r: NewRun, now: Timestamp): Effect {
    if id in db.runs || AttemptTaken(db, r.submissionId, r.attempt) then Refuse(db, Conflict(Runs))
    else if r.submissionId !in db.submissions then Refuse(db, Database(ForeignKeyViolation))
    else Effect(db.(runs := db.runs[id := RunRow(r, now)]), RunRecorded(Run(id, r, now)))
  }

  /** The operation as one indivisible step. */
  ghost function Exec(db: Db, op: Op): (e: Effect)
    ensures e.reply.Refused? ==> e.db == db
  {
    match op
    case CreateUser(id, u, now) => ExecCreateUser(db, id, u, now)
    case ReplaceProblems(rows) => ExecReplaceProblems(db, rows)
    case CreateSubmission(id, s, now) => ExecCreateSubmission(db, id, s, now)
    case SetStatus(id, next, now) => ExecSetStatus(db, id, next, now)
    case Finish(id, v, now) => ExecFinish(db, id, v, now)
    case RecordRun(id, r, now) => ExecRecordRun(db, id, r, now)
  }

  function Moved(row: SubmissionRecord, next: Status, now: Timestamp): SubmissionRecord {
    row.(status := StatusText(next), startedAt := if row.startedAt.Some? then row.startedAt else Some(now))
  }

  function Finished(row: SubmissionRecord, v: Verdict, now: Timestamp): SubmissionRecord {
    row.(status := StatusText(Done), verdict := Some(VerdictText(v)), finishedAt := Some(now))
  }

  ghost predicate AttemptTaken(db: Db, submission: SubmissionId, attempt: u32) {
    exists r :: r in db.runs && db.runs[r].submissionId == submission && db.runs[r].attempt == attempt as int
  }
}
