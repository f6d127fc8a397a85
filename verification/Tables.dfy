/**
 The five tables as maps, with the declared CHECK, UNIQUE and FOREIGN KEY rules,
 and the SQL statements the store issues, one function per statement.
 Row ids are integers whose order is the order of their text; timestamps are opaque.
 */
module Tables {
  import opened Prelude
  import opened Codes

  type UserId = int
  type SubmissionId = int
  type RunId = int
  type ProblemId = string
  type Timestamp = int
  type Pair = (UserId, ProblemId)

  datatype UserRecord = UserRecord(handle: string, email: string, passwordHash: string, role: string, createdAt: Timestamp)

  datatype ProblemRecord = ProblemRecord(
    commitSha: string, title: string, category: string, difficulty: string, manifest: string, updatedAt: Timestamp)

  datatype SubmissionRecord = SubmissionRecord(
    userId: UserId, problemId: ProblemId, language: string, sourceHash: string, sourceUri: string,
    status: string, verdict: Option<string>,
    createdAt: Timestamp, startedAt: Option<Timestamp>, finishedAt: Option<Timestamp>)
  {
    function Key(): Pair { (userId, problemId) }
  }

  datatype RunRecord = RunRecord(
    submissionId: SubmissionId, attempt: int, runnerId: string, fixture: string,
    exitCode: Option<int>, verdict: Option<string>, output: Option<string>, logUri: Option<string>,
    bootMs: Option<int>, buildMs: Option<int>, runMs: Option<int>, createdAt: Timestamp)

  datatype ProgressRecord = ProgressRecord(solvedAt: Option<Timestamp>, attempts: int)

  datatype Db = Db(
    users: map<UserId, UserRecord>,
    problems: map<ProblemId, ProblemRecord>,
    submissions: map<SubmissionId, SubmissionRecord>,
    runs: map<RunId, RunRecord>,
    progress: map<Pair, ProgressRecord>)

  const EMPTY: Db := Db(map[], map[], map[], map[], map[])

  datatype SqlError = UniqueViolation | ForeignKeyViolation | CheckViolation

  // The CHECK constraints, as the migration spells them.

  predicate RoleCheck(t: string) { t == "learner" || t == "author" || t == "admin" }

  predicate DifficultyCheck(t: string) { t == "easy" || t == "medium" || t == "hard" }

  predicate LanguageCheck(t: string) { t == "rust" || t == "py" || t == "cpp" }

  predicate StatusCheck(t: string) {
    t == "QUEUED" || t == "PREPARING" || t == "BUILDING" || t == "BOOTING" || t == "RUNNING" || t == "DONE"
  }

  predicate VerdictCheck(t: string) {
    || t == "AC" || t == "WA" || t == "TLE" || t == "MLE"
    || t == "RE" || t == "CE" || t == "SE" || t == "IE"
  }

  // The schema's literal lists and the enums' codecs accept exactly the same text.

  lemma RoleCheckMatchesCodec(t: string)
    ensures RoleCheck(t) <==> ParseRole(t).Some?
  {
    assert RoleText(Learner) == "learner" && RoleText(Author) == "author" && RoleText(Admin) == "admin";
  }

  lemma DifficultyCheckMatchesCodec(t: string)
    ensures DifficultyCheck(t) <==> exists d: Difficulty :: DifficultyText(d) == t
    ensures DifficultyCheck("easy") && DifficultyCheck("medium") && DifficultyCheck("hard")
  {
    assert DifficultyText(Easy) == "easy" && DifficultyText(Medium) == "medium" && DifficultyText(Hard) == "hard";
  }

  lemma LanguageCheckMatchesCodec(t: string)
    ensures LanguageCheck(t) <==> ParseLanguage(t).Some?
  {
    assert LanguageText(Rust) == "rust" && LanguageText(Py) == "py" && LanguageText(Cpp) == "cpp";
  }

  lemma StatusCheckMatchesCodec(t: string)
    ensures StatusCheck(t) <==> ParseStatus(t).Some?
  {
    assert StatusText(Queued) == "QUEUED" && StatusText(Preparing) == "PREPARING" && StatusText(Building) == "BUILDING";
    assert StatusText(Booting) == "BOOTING" && StatusText(Running) == "RUNNING" && StatusText(Done) == "DONE";
  }

  lemma VerdictCheckMatchesCodec(t: string)
    ensures VerdictCheck(t) <==> ParseVerdict(t).Some?
  {
    assert VerdictText(Ac) == "AC" && VerdictText(Wa) == "WA" && VerdictText(Tle) == "TLE" && VerdictText(Mle) == "MLE";
    assert VerdictText(Re) == "RE" && VerdictText(Ce) == "CE" && VerdictText(Se) == "SE" && VerdictText(Ie) == "IE";
  }

  // Statements. A failed statement changes nothing; the transaction around it decides what happens next.

  function InsertUser(db: Db, id: UserId, row: UserRecord): Result<Db, SqlError> {
    if !RoleCheck(row.role) then Err(CheckViolation)
    else if id in db.users || exists o :: o in db.users && (db.users[o].handle == row.handle || db.users[o].email == row.email)
    then Err(UniqueViolation)
    else Ok(db.(users := db.users[id := row]))
  }

  /** Inserts the row, or overwrites every column but the id. */
  function UpsertProblem(db: Db, id: ProblemId, row: ProblemRecord): Result<Db, SqlError> {
    if !DifficultyCheck(row.difficulty) then Err(CheckViolation)
    else Ok(db.(problems := db.problems[id := row]))
  }

  predicate Referenced(db: Db, id: ProblemId) {
    || (exists s :: s in db.submissions && db.submissions[s].problemId == id)
    || (exists k :: k in db.progress && k.1 == id)
  }

  /** Every submission and every progress row whose problem exists still finds it among `left`. */
  ghost predicate KeepsReferences(db: Db, left: set<ProblemId>) {
    && (forall s :: s in db.submissions && db.submissions[s].problemId in db.problems ==> db.submissions[s].problemId in left)
    && (forall k :: k in db.progress && k.1 in db.problems ==> k.1 in left)
  }

  /** Immediate foreign keys: a delete is granted exactly when it leaves no row that had a problem without one. */
  function DeleteProblem(db: Db, id: ProblemId): (r: Result<Db, SqlError>)
    ensures r.Ok? <==> KeepsReferences(db, db.problems.Keys - {id})
    ensures r.Ok? ==> r.value == db.(problems := db.problems - {id})
    ensures r.Err? ==> r.error == ForeignKeyViolation && id in db.problems
  {
    if id in db.problems && Referenced(db, id) then Err(ForeignKeyViolation)
    else Ok(db.(problems := db.problems - {id}))
  }

  function InsertSubmission(db: Db, id: SubmissionId, row: SubmissionRecord): Result<Db, SqlError> {
    if !LanguageCheck(row.language) || !StatusCheck(row.status) || (row.verdict.Some? && !VerdictCheck(row.verdict.value))
    then Err(CheckViolation)
    else if id in db.submissions then Err(UniqueViolation)
    else if row.userId !in db.users || row.problemId !in db.problems then Err(ForeignKeyViolation)
    else Ok(db.(submissions := db.submissions[id := row]))
  }

  /** Writes the two lifecycle columns of one submission; no row is no error. */
  function UpdateStatus(db: Db, id: SubmissionId, status: string, startedAt: Timestamp): Result<Db, SqlError> {
    if id !in db.submissions then Ok(db)
    else if !StatusCheck(status) then Err(CheckViolation)
    else Ok(db.(submissions := db.submissions[id := db.submissions[id].(status := status, startedAt := Some(startedAt))]))
  }

  /** The terminal write of one submission; `started_at` is not among its columns. */
  function UpdateFinished(db: Db, id: SubmissionId, verdict: string, finishedAt: Timestamp): Result<Db, SqlError> {
    if id !in db.submissions then Ok(db)
    else if !VerdictCheck(verdict) then Err(CheckViolation)
    else
      var row := db.submissions[id].(status := "DONE", verdict := Some(verdict), finishedAt := Some(finishedAt));
      Ok(db.(submissions := db.submissions[id := row]))
  }

  /** One more attempt for the pair, `solved_at` filled only if empty. The second result is the number of rows hit. */
  function UpdateProgress(db: Db, key: Pair, solvedAt: Option<Timestamp>): (Db, nat) {
    if key !in db.progress then (db, 0)
    else
      var prior := db.progress[key];
      var row := ProgressRecord(if prior.solvedAt.None? then solvedAt else prior.solvedAt, prior.attempts + 1);
      (db.(progress := db.progress[key := row]), 1)
  }

  function InsertProgress(db: Db, key: Pair, row: ProgressRecord): Result<Db, SqlError> {
    if key in db.progress then Err(UniqueViolation)
    else if key.0 !in db.users || key.1 !in db.problems then Err(ForeignKeyViolation)
    else Ok(db.(progress := db.progress[key := row]))
  }

  function InsertRun(db: Db, id: RunId, row: RunRecord): Result<Db, SqlError> {
    if row.verdict.Some? && !VerdictCheck(row.verdict.value) then Err(CheckViolation)
    else if id in db.runs || exists r :: r in db.runs && db.runs[r].submissionId == row.submissionId && db.runs[r].attempt == row.attempt
    then Err(UniqueViolation)
    else if row.submissionId !in db.submissions then Err(ForeignKeyViolation)
    else Ok(db.(runs := db.runs[id := row]))
  }
}
