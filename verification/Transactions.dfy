/**
 The store's transactions as programs of single SQL statements on a private image of the tables,
 and what each of them has achieved at each of its steps.
 */
module Transactions {
  import opened Prelude
  import opened Codes
  import opened Tables
  import opened Operations
  import opened Invariant

  /** Where a transaction stands. */
  datatype Pc =
    | Opened                            // BEGIN IMMEDIATE
    | RowRead(row: SubmissionRecord)    // SELECT of the submission
    | Allowed(row: SubmissionRecord)    // the transition check passed
    | Stamped(row: SubmissionRecord)    // finish: the submission is updated
    | Missed(row: SubmissionRecord)     // finish: the progress UPDATE matched no row
    | Upserting(next: nat)              // replace: rows before `next` are written
    | Pruning(todo: set<ProblemId>)     // replace: the existing ids not looked at yet
    | Ready(reply: Reply)               // only COMMIT is left

  datatype Outcome = Goto(pc: Pc, image: Db) | Abort(error: StoreError)

  /** After the last statement of a transaction. */
  function Last(r: Result<Db, SqlError>, reply: Reply): Outcome {
    match r case Ok(image) => Goto(Ready(reply), image) case Err(e) => Abort(Database(e))
  }

  /** Uniqueness violations of these inserts are reported as conflicts. */
  function LastOrConflict(r: Result<Db, SqlError>, reply: Reply, entity: Entity): Outcome {
    if r == Err(UniqueViolation) then Abort(Conflict(entity)) else Last(r, reply)
  }

  function ReadRow(image: Db, id: SubmissionId): Outcome {
    if id !in image.submissions then Abort(NotFound(Submissions)) else Goto(RowRead(image.submissions[id]), image)
  }

  function CheckMove(image: Db, id: SubmissionId, row: SubmissionRecord, next: Status): Outcome {
    var current := ParseStatus(row.status);
    if current.None? then Abort(CorruptRow(Submissions))
    else if !current.value.CanTransitionTo(next) then Abort(IllegalTransition(id, current.value, next))
    else Goto(Allowed(row), image)
  }

  function StepSetStatus(id: SubmissionId, next: Status, now: Timestamp, pc: Pc, image: Db): Outcome {
    match pc
    case Opened => ReadRow(image, id)
    case RowRead(row) => CheckMove(image, id, row, next)
    case Allowed(row) =>
      var startedAt := if row.startedAt.Some? then row.startedAt.value else now;
      Last(UpdateStatus(image, id, StatusText(next), startedAt), Completed)
    case _ => Goto(pc, image)
  }

  function StepFinish(id: SubmissionId, v: Verdict, now: Timestamp, pc: Pc, image: Db): Outcome {
    var solvedAt := if v.IsAccepted() then Some(now) else None;
    match pc
    case Opened => ReadRow(image, id)
    case RowRead(row) => CheckMove(image, id, row, Done)
    case Allowed(row) =>
      (match UpdateFinished(image, id, VerdictText(v), now)
       case Err(e) => Abort(Database(e))
       case Ok(t) => Goto(Stamped(row), t))
    case Stamped(row) =>
      if !v.Counts() then Goto(Ready(Completed), image)
      else
        var (t, hits) := UpdateProgress(image, row.Key(), solvedAt);
        if hits == 0 then Goto(Missed(row), t) else Goto(Ready(Completed), t)
    case Missed(row) => Last(InsertProgress(image, row.Key(), ProgressRecord(solvedAt, 1)), Completed)
    case _ => Goto(pc, image)
  }

  function StepReplace(rows: seq<ProblemInput>, pc: Pc, image: Db, pick: ProblemId): Outcome {
    match pc
    case Opened => Goto(Upserting(0), image)
    case Upserting(i) =>
      if i >= |rows| then Goto(Pruning(image.problems.Keys), image)
      else if rows[i].updatedAt.None? then Abort(CorruptRow(Problems))
      else (match UpsertProblem(image, rows[i].id, ProblemRow(rows[i]))
            case Err(e) => Abort(Database(e))
            case Ok(t) => Goto(Upserting(i + 1), t))
    case Pruning(todo) =>
      if todo == {} then Goto(Ready(Completed), image)
      else if pick !in todo then Goto(pc, image)
      else if pick in Ids(rows) then Goto(Pruning(todo - {pick}), image)
      else (match DeleteProblem(image, pick)
            case Err(e) => Abort(Database(e))
            case Ok(t) => Goto(Pruning(todo - {pick}), t))
    case _ => Goto(pc, image)
  }

  /** One statement of the operation's transaction. `pick` is the id the row order of SELECT yields next. */
  function Advance(op: Op, pc: Pc, image: Db, pick: ProblemId): Outcome {
    match op
    case CreateUser(id, u, now) =>
      LastOrConflict(InsertUser(image, id, UserRow(u, now)),
                     UserCreated(User(id, u.handle, u.email, u.passwordHash, u.role, now)), Users)
    case CreateSubmission(id, s, now) =>
      Last(InsertSubmission(image, id, QueuedRow(s, now)),
           SubmissionCreated(Submission(id, s.userId, s.problemId, s.language, s.sourceHash, s.sourceUri,
                                        Queued, None, now, None, None)))
    case RecordRun(id, r, now) =>
      LastOrConflict(InsertRun(image, id, RunRow(r, now)), RunRecorded(Run(id, r, now)), Runs)
    case SetStatus(id, next, now) => StepSetStatus(id, next, now, pc, image)
    case Finish(id, v, now) => StepFinish(id, v, now, pc, image)
    case ReplaceProblems(rows) => StepReplace(rows, pc, image, pick)
  }

  // The catalog swap, statement by statement.

  /** The first `i` rows are acceptable and written over the old catalog. */
  ghost predicate Upserted(base: Db, rows: seq<ProblemInput>, i: nat, image: Db) {
    && i <= |rows| && FirstBadRow(rows[..i]).None?
    && image == base.(problems := base.problems + Catalog(rows[..i]))
  }

  /** All rows are written, and of the ids no longer in `todo` exactly the kept ones are left. */
  ghost predicate Pruned(base: Db, rows: seq<ProblemInput>, todo: set<ProblemId>, image: Db) {
    && FirstBadRow(rows).None?
    && (var full := base.problems + Catalog(rows);
        && todo <= full.Keys
        && image == base.(problems := map p | p in full && (p in todo || p in Ids(rows)) :: full[p])
        && (forall p :: p in full && p !in todo && p !in Ids(rows) ==> !Referenced(base, p)))
  }

  lemma {:induction false} FirstBadRowOfPrefix(rows: seq<ProblemInput>, i: nat)
    requires i <= |rows| && FirstBadRow(rows[..i]).Some?
    ensures FirstBadRow(rows) == FirstBadRow(rows[..i])
  {
    var n := |rows| - 1;
    if i == |rows| {
      assert rows[..i] == rows;
    } else {
      assert rows[..n][..i] == rows[..i];
      FirstBadRowOfPrefix(rows[..n], i);
    }
  }

  /** The verdict on one more row. */
  lemma RowVerdict(rows: seq<ProblemInput>, i: nat)
    requires i < |rows| && FirstBadRow(rows[..i]).None?
    ensures FirstBadRow(rows[..i + 1])
         == if rows[i].updatedAt.None? then Some(CorruptRow(Problems))
            else if !DifficultyCheck(rows[i].difficulty) then Some(Database(CheckViolation)) else None
    ensures FirstBadRow(rows[..i + 1]).Some? ==> FirstBadRow(rows) == FirstBadRow(rows[..i + 1])
    ensures FirstBadRow(rows[..i + 1]).None? ==>
              Catalog(rows[..i + 1]) == Catalog(rows[..i])[rows[i].id := ProblemRow(rows[i])]
  {
    hide DifficultyCheck, ProblemRow;
    assert rows[..i + 1][..i] == rows[..i];
    if FirstBadRow(rows[..i + 1]).Some? {
      FirstBadRowOfPrefix(rows, i + 1);
    }
  }

  lemma AddThenSet<K, V>(a: map<K, V>, b: map<K, V>, k: K, v: V)
    ensures (a + b)[k := v] == a + b[k := v]
  {
  }

  lemma UpsertStep(base: Db, rows: seq<ProblemInput>, i: nat, image: Db)
    requires Upserted(base, rows, i, image) && i < |rows|
    ensures var r := rows[i];
      if r.updatedAt.None? then FirstBadRow(rows) == Some(CorruptRow(Problems))
      else match UpsertProblem(image, r.id, ProblemRow(r))
        case Err(e) => FirstBadRow(rows) == Some(Database(e))
        case Ok(t) => Upserted(base, rows, i + 1, t)
  {
    RowVerdict(rows, i);
    if rows[i].updatedAt.Some? {
      AddThenSet(base.problems, Catalog(rows[..i]), rows[i].id, ProblemRow(rows[i]));
    }
    hide DifficultyCheck, FirstBadRow, Catalog;
  }

  lemma UpsertsDone(base: Db, rows: seq<ProblemInput>, image: Db)
    requires Upserted(base, rows, |rows|, image)
    ensures Pruned(base, rows, image.problems.Keys, image)
  {
    assert rows[..|rows|] == rows;
    var full := base.problems + Catalog(rows);
    assert full == map p | p in full && (p in full.Keys || p in Ids(rows)) :: full[p];
  }

  lemma PruneStep(base: Db, rows: seq<ProblemInput>, todo: set<ProblemId>, image: Db, id: ProblemId)
    requires Pruned(base, rows, todo, image) && id in todo
    ensures if id in Ids(rows) then Pruned(base, rows, todo - {id}, image)
      else match DeleteProblem(image, id)
        case Err(e) => e == ForeignKeyViolation && Orphans(base, Ids(rows))
        case Ok(t) => Pruned(base, rows, todo - {id}, t)
  {
    hide KeepsReferences;
    CatalogKeys(rows);
    var full := base.problems + Catalog(rows);
    var left := map p | p in full && (p in todo - {id} || p in Ids(rows)) :: full[p];
    assert Referenced(image, id) <==> Referenced(base, id);
    if id in Ids(rows) {
      assert image.problems == left;
    } else {
      assert id in base.problems;
      assert image.problems - {id} == left;
    }
  }

  lemma PruneDone(base: Db, rows: seq<ProblemInput>, image: Db)
    requires Pruned(base, rows, {}, image)
    ensures Exec(base, ReplaceProblems(rows)) == Effect(image, Completed)
  {
    CatalogKeys(rows);
    assert image.problems == Catalog(rows);
    forall p | p in base.problems && p !in Ids(rows) ensures !Referenced(base, p) {
      assert p in base.problems + Catalog(rows);
    }
    assert !Orphans(base, Ids(rows));
  }

  // What a running transaction has done so far, and that it ends where the atomic operation ends.

  ghost predicate MoveAllowed(base: Db, id: SubmissionId, row: SubmissionRecord, next: Status) {
    MoveError(base, id, next).None? && row == base.submissions[id]
  }

  ghost predicate TxOk(base: Db, op: Op, pc: Pc, image: Db) {
    match pc
    case Opened => image == base
    case RowRead(row) => (op.SetStatus? || op.Finish?) && image == base && op.id in base.submissions && row == base.submissions[op.id]
    case Allowed(row) =>
      && image == base
      && ((op.SetStatus? && MoveAllowed(base, op.id, row, op.status)) || (op.Finish? && MoveAllowed(base, op.id, row, Done)))
    case Stamped(row) =>
      && op.Finish? && MoveAllowed(base, op.id, row, Done)
      && image == base.(submissions := base.submissions[op.id := Finished(row, op.verdict, op.now)])
    case Missed(row) =>
      && op.Finish? && MoveAllowed(base, op.id, row, Done) && op.verdict.Counts() && row.Key() !in base.progress
      && image == base.(submissions := base.submissions[op.id := Finished(row, op.verdict, op.now)])
    case Upserting(i) => op.ReplaceProblems? && Upserted(base, op.rows, i, image)
    case Pruning(todo) => op.ReplaceProblems? && Pruned(base, op.rows, todo, image)
    case Ready(reply) => Exec(base, op) == Effect(image, reply)
  }

  ghost predicate OutcomeOk(base: Db, op: Op, o: Outcome) {
    match o
    case Goto(pc, image) => TxOk(base, op, pc, image)
    case Abort(e) => Exec(base, op) == Refuse(base, e)
  }

  lemma AdvanceCreateUser(base: Db, op: Op, pick: ProblemId)
    requires op.CreateUser?
    ensures OutcomeOk(base, op, Advance(op, Opened, base, pick))
  {
    assert ParseRole(RoleText(op.user.role)) == Some(op.user.role);
    RoleCheckMatchesCodec(UserRow(op.user, op.now).role);
    hide RoleText, RoleCheck, ParseRole;
  }

  lemma AdvanceCreateSubmission(base: Db, op: Op, pick: ProblemId)
    requires op.CreateSubmission?
    ensures OutcomeOk(base, op, Advance(op, Opened, base, pick))
  {
    QueuedRowOk(op.submission, op.now);
    StatusCheckMatchesCodec(QueuedRow(op.submission, op.now).status);
    LanguageCheckMatchesCodec(QueuedRow(op.submission, op.now).language);
    hide StatusText, StatusCheck, ParseStatus, LanguageText, LanguageCheck, ParseLanguage;
  }

  lemma AdvanceRecordRun(base: Db, op: Op, pick: ProblemId)
    requires op.RecordRun?
    ensures OutcomeOk(base, op, Advance(op, Opened, base, pick))
  {
    RunRowOk(op.run, op.now);
    var row := RunRow(op.run, op.now);
    if row.verdict.Some? {
      VerdictCheckMatchesCodec(row.verdict.value);
    }
    assert (exists r :: r in base.runs && base.runs[r].submissionId == row.submissionId && base.runs[r].attempt == row.attempt)
      <==> AttemptTaken(base, op.run.submissionId, op.run.attempt);
    hide VerdictText, VerdictCheck, ParseVerdict, RunOk;
  }

  lemma AdvanceSetStatus(base: Db, op: Op, pc: Pc, image: Db, pick: ProblemId)
    requires op.SetStatus? && TxOk(base, op, pc, image)
    ensures OutcomeOk(base, op, Advance(op, pc, image, pick))
  {
    assert ParseStatus(StatusText(op.status)) == Some(op.status);
    StatusCheckMatchesCodec(StatusText(op.status));
    hide StatusText, StatusCheck, ParseStatus;
  }

  lemma AdvanceFinish(base: Db, op: Op, pc: Pc, image: Db, pick: ProblemId)
    requires op.Finish? && TxOk(base, op, pc, image)
    ensures OutcomeOk(base, op, Advance(op, pc, image, pick))
  {
    match pc
    case Allowed(row) => AdvanceStamp(base, op, row, pick);
    case Stamped(row) => AdvanceProgress(base, op, row, image, pick);
    case Missed(row) => AdvanceInsertProgress(base, op, row, image, pick);
    case _ => { hide ParseStatus; }
  }

  lemma AdvanceStamp(base: Db, op: Op, row: SubmissionRecord, pick: ProblemId)
    requires op.Finish? && TxOk(base, op, Allowed(row), base)
    ensures OutcomeOk(base, op, Advance(op, Allowed(row), base, pick))
  {
    assert StatusText(Done) == "DONE";
    assert ParseVerdict(VerdictText(op.verdict)) == Some(op.verdict);
    VerdictCheckMatchesCodec(VerdictText(op.verdict));
    hide StatusText, VerdictText, VerdictCheck, ParseVerdict, ParseStatus;
  }

  lemma AdvanceProgress(base: Db, op: Op, row: SubmissionRecord, image: Db, pick: ProblemId)
    requires op.Finish? && TxOk(base, op, Stamped(row), image)
    ensures OutcomeOk(base, op, Advance(op, Stamped(row), image, pick))
  {
    hide Finished, MoveError;
  }

  lemma AdvanceInsertProgress(base: Db, op: Op, row: SubmissionRecord, image: Db, pick: ProblemId)
    requires op.Finish? && TxOk(base, op, Missed(row), image)
    ensures OutcomeOk(base, op, Advance(op, Missed(row), image, pick))
  {
    hide Finished, MoveError;
  }

  lemma AdvanceUpserting(base: Db, op: Op, i: nat, image: Db, pick: ProblemId)
    requires op.ReplaceProblems? && TxOk(base, op, Upserting(i), image)
    ensures OutcomeOk(base, op, Advance(op, Upserting(i), image, pick))
  {
    if i < |op.rows| {
      UpsertStep(base, op.rows, i, image);
    } else {
      UpsertsDone(base, op.rows, image);
    }
    hide Upserted, Pruned, FirstBadRow, Catalog, UpsertProblem, DeleteProblem;
  }

  lemma AdvancePruning(base: Db, op: Op, todo: set<ProblemId>, image: Db, pick: ProblemId)
    requires op.ReplaceProblems? && TxOk(base, op, Pruning(todo), image)
    ensures OutcomeOk(base, op, Advance(op, Pruning(todo), image, pick))
  {
    assert FirstBadRow(op.rows).None?;
    if todo == {} {
      PruneDone(base, op.rows, image);
    } else if pick in todo {
      PruneStep(base, op.rows, todo, image, pick);
    }
    hide Pruned, FirstBadRow, Catalog, Orphans, DeleteProblem, Ids;
  }

  lemma AdvanceReplace(base: Db, op: Op, pc: Pc, image: Db, pick: ProblemId)
    requires op.ReplaceProblems? && TxOk(base, op, pc, image) && !pc.Ready?
    ensures OutcomeOk(base, op, Advance(op, pc, image, pick))
  {
    match pc
    case Opened => assert base.problems + Catalog(op.rows[..0]) == base.problems;
    case Upserting(i) => AdvanceUpserting(base, op, i, image, pick);
    case Pruning(todo) => AdvancePruning(base, op, todo, image, pick);
    case _ =>
  }

  /** Every statement keeps the transaction on course for the atomic outcome, success or refusal. */
  lemma AdvanceKeeps(base: Db, op: Op, pc: Pc, image: Db, pick: ProblemId)
    requires TxOk(base, op, pc, image) && !pc.Ready?
    ensures OutcomeOk(base, op, Advance(op, pc, image, pick))
  {
    hide Advance, Exec, OutcomeOk;
    match op
    case CreateUser(_, _, _) => AdvanceCreateUser(base, op, pick);
    case CreateSubmission(_, _, _) => AdvanceCreateSubmission(base, op, pick);
    case RecordRun(_, _, _) => AdvanceRecordRun(base, op, pick);
    case SetStatus(_, _, _) => AdvanceSetStatus(base, op, pc, image, pick);
    case Finish(_, _, _) => AdvanceFinish(base, op, pc, image, pick);
    case ReplaceProblems(_) => AdvanceReplace(base, op, pc, image, pick);
  }

  /** How many statements a transaction may still issue. */
  function Left(op: Op, pc: Pc, image: Db): nat {
    match pc
    case Opened => if op.ReplaceProblems? then |op.rows| + |image.problems| + |op.rows| + 4 else 6
    case RowRead(_) => 5
    case Allowed(_) => 4
    case Stamped(_) => 3
    case Missed(_) => 2
    case Upserting(i) =>
      if op.ReplaceProblems? && i <= |op.rows| then 2 * (|op.rows| - i) + |image.problems| + 3 else 0
    case Pruning(todo) => |todo| + 2
    case Ready(_) => 1
  }

  lemma SetGrowsByOne<K, V>(m: map<K, V>, k: K, v: V)
    ensures |m[k := v]| <= |m| + 1
  {
    assert m[k := v].Keys == m.Keys + {k};
    assert k in m ==> m.Keys + {k} == m.Keys;
  }

  lemma UpsertingProgresses(rows: seq<ProblemInput>, i: nat, image: Db, pick: ProblemId)
    requires i <= |rows|
    ensures var o := StepReplace(rows, Upserting(i), image, pick); var op := ReplaceProblems(rows);
      o.Abort? || Left(op, o.pc, o.image) < Left(op, Upserting(i), image)
  {
    if i < |rows| && rows[i].updatedAt.Some? {
      SetGrowsByOne(image.problems, rows[i].id, ProblemRow(rows[i]));
    }
    hide ProblemRow, DifficultyCheck, DeleteProblem, Ids;
  }

  lemma ReplaceProgresses(rows: seq<ProblemInput>, pc: Pc, image: Db, pick: ProblemId)
    requires (pc.Opened? || (pc.Upserting? && pc.next <= |rows|) || (pc.Pruning? && (pc.todo != {} ==> pick in pc.todo)))
    ensures var o := StepReplace(rows, pc, image, pick); var op := ReplaceProblems(rows);
      o.Abort? || Left(op, o.pc, o.image) < Left(op, pc, image)
  {
    hide UpsertProblem, ProblemRow, DeleteProblem, Ids;
    if pc.Upserting? {
      UpsertingProgresses(rows, pc.next, image, pick);
      hide StepReplace, Left;
    }
  }

  /** No transaction runs for ever: a statement that does not end it brings it nearer its COMMIT. */
  lemma AdvanceProgresses(base: Db, op: Op, pc: Pc, image: Db, pick: ProblemId)
    requires TxOk(base, op, pc, image) && !pc.Ready?
    requires pc.Pruning? && pc.todo != {} ==> pick in pc.todo
    ensures var o := Advance(op, pc, image, pick); o.Abort? || Left(op, o.pc, o.image) < Left(op, pc, image)
  {
    hide StatusText, ParseStatus, VerdictText, Pruned, Catalog, FirstBadRow, MoveAllowed, Exec, UserRow, QueuedRow, RunRow, Finished;
    if op.ReplaceProblems? {
      ReplaceProgresses(op.rows, pc, image, pick);
      hide StepReplace;
    } else {
      hide StepReplace, InsertUser, InsertSubmission, InsertRun, UpdateStatus, UpdateFinished, InsertProgress, Left, Upserted;
      OthersProgress(op, pc, image, pick);
    }
  }

  lemma OthersProgress(op: Op, pc: Pc, image: Db, pick: ProblemId)
    requires !op.ReplaceProblems? && !pc.Ready? && !pc.Upserting? && !pc.Pruning?
    requires op.SetStatus? ==> pc.Opened? || pc.RowRead? || pc.Allowed?
    ensures var o := Advance(op, pc, image, pick); o.Abort? || Left(op, o.pc, o.image) < Left(op, pc, image)
  {
    hide StatusText, ParseStatus, VerdictText, UserRow, QueuedRow, RunRow;
    hide InsertUser, InsertSubmission, InsertRun, UpdateStatus, UpdateFinished, InsertProgress;
  }
}
