/** `SqliteStore`: its operations, statement by statement, each inside one transaction that commits or rolls back. */
module Store {
  import opened Prelude
  import opened Codes
  import opened Tables
  import opened Operations
  import opened Invariant
  import opened History
  import opened Transactions

  class SqliteStore {
    /** The committed tables. */
    var db: Db

    /** The operations served so far, granted or refused. */
    ghost var log: seq<Op>

    ghost predicate Valid()
      reads this
    {
      db == Replay(log)
    }

    /** What a call leaves behind: the atomic effect of `op` on the tables it found. */
    twostate predicate Served(op: Op, reply: Reply)
      reads this
    {
      && Valid()
      && log == old(log) + [op]
      && Exec(old(db), op) == Effect(db, reply)
    }

    constructor ()
      ensures Valid() && db == EMPTY && log == []
    {
      db := EMPTY;
      log := [];
    }

    ghost method Note(before: Db, op: Op)
      requires before == Replay(log) && db == Exec(before, op).db
      modifies this`log
      ensures Valid() && log == old(log) + [op]
    {
      log := log + [op];
      assert log[..|log| - 1] == old(log);
    }

    method CreateUser(id: UserId, user: NewUser, now: Timestamp) returns (r: Result<User, StoreError>)
      requires Valid()
      modifies this
      ensures Served(Op.CreateUser(id, user, now), if r.Ok? then UserCreated(r.value) else Refused(r.error))
    {
      ghost var op := Op.CreateUser(id, user, now);
      ghost var before := db;
      AdvanceCreateUser(before, op, "");
      var result := InsertUser(db, id, UserRow(user, now));
      match result {
        case Ok(t) =>
          db := t;
          r := Ok(User(id, user.handle, user.email, user.passwordHash, user.role, now));
        case Err(e) =>
          r := Err(if e.UniqueViolation? then Conflict(Users) else Database(e));
      }
      hide InsertUser, Exec;
      Note(before, op);
    }

    method ReplaceProblems(rows: seq<ProblemInput>) returns (r: Result<(), StoreError>)
      requires Valid()
      modifies this
      ensures Served(Op.ReplaceProblems(rows), if r.Ok? then Completed else Refused(r.error))
    {
      ghost var op := Op.ReplaceProblems(rows);
      ghost var before := db;
      hide Upserted, Pruned, FirstBadRow, Catalog, Orphans, Replay, UpsertProblem, DeleteProblem;
      var tx := db;
      OpenReplace(before, rows);
      for i := 0 to |rows|
        invariant db == before && log == old(log)
        invariant Upserted(before, rows, i, tx)
      {
        UpsertStep(before, rows, i, tx);
        if rows[i].updatedAt.None? {
          Note(before, op);
          return Err(CorruptRow(Problems));
        }
        var result := UpsertProblem(tx, rows[i].id, ProblemRow(rows[i]));
        if result.Err? {
          Note(before, op);
          return Err(Database(result.error));
        }
        tx := result.value;
      }
      UpsertsDone(before, rows, tx);

      var keep := Ids(rows);
      var existing := tx.problems.Keys;
      while existing != {}
        invariant db == before && log == old(log)
        invariant Pruned(before, rows, existing, tx)
        decreases |existing|
      {
        var id :| id in existing;
        PruneStep(before, rows, existing, tx, id);
        if id !in keep {
          var result := DeleteProblem(tx, id);
          if result.Err? {
            RefusedForOrphans(before, rows, existing, tx);
            Note(before, op);
            return Err(Database(result.error));
          }
          tx := result.value;
        }
        existing := existing - {id};
      }
      PruneDone(before, rows, tx);
      db := tx;
      Note(before, op);
      r := Ok(());
    }

    method CreateSubmission(id: SubmissionId, submission: NewSubmission, now: Timestamp) returns (r: Result<Submission, StoreError>)
      requires Valid()
      modifies this
      ensures Served(Op.CreateSubmission(id, submission, now), if r.Ok? then SubmissionCreated(r.value) else Refused(r.error))
    {
      ghost var op := Op.CreateSubmission(id, submission, now);
      ghost var before := db;
      AdvanceCreateSubmission(before, op, "");
      var result := InsertSubmission(db, id, QueuedRow(submission, now));
      match result {
        case Ok(t) =>
          db := t;
          r := Ok(Submission(id, submission.userId, submission.problemId, submission.language, submission.sourceHash,
                             submission.sourceUri, Queued, None, now, None, None));
        case Err(e) =>
          r := Err(Database(e));
      }
      hide InsertSubmission, Exec;
      Note(before, op);
    }

    method SetSubmissionStatus(id: SubmissionId, status: Status, now: Timestamp) returns (r: Result<(), StoreError>)
      requires Valid()
      modifies this
      ensures Served(SetStatus(id, status, now), if r.Ok? then Completed else Refused(r.error))
    {
      ghost var op := SetStatus(id, status, now);
      ghost var before := db;
      hide Replay, StatusText, StatusCheck;
      var tx := db;
      if id !in tx.submissions {
        Note(before, op);
        return Err(NotFound(Submissions));
      }
      var row := tx.submissions[id];
      var current := ParseStatus(row.status);
      if current.None? {
        Note(before, op);
        return Err(CorruptRow(Submissions));
      }
      if !current.value.CanTransitionTo(status) {
        Note(before, op);
        return Err(IllegalTransition(id, current.value, status));
      }
      var startedAt := match row.startedAt case Some(existing) => existing case None => now;
      AdvanceSetStatus(before, op, Allowed(row), tx, "");
      hide UpdateStatus, Exec;
      match UpdateStatus(tx, id, StatusText(status), startedAt) {
        case Err(e) =>
          r := Err(Database(e));
        case Ok(t) =>
          db := t;
          r := Ok(());
      }
      Note(before, op);
    }

    method FinishSubmission(id: SubmissionId, verdict: Verdict, now: Timestamp) returns (r: Result<(), StoreError>)
      requires Valid()
      modifies this
      ensures Served(Finish(id, verdict, now), if r.Ok? then Completed else Refused(r.error))
    {
      ghost var op := Finish(id, verdict, now);
      ghost var before := db;
      hide Replay, StatusText, VerdictText, Exec, TxOk, UpdateFinished, InsertProgress, UpdateProgress, ParseStatus;
      FinishRefused(before, op);
      var tx := db;
      if id !in tx.submissions {
        Note(before, op);
        return Err(NotFound(Submissions));
      }
      var row := tx.submissions[id];
      var current := ParseStatus(row.status);
      if current.None? {
        Note(before, op);
        return Err(CorruptRow(Submissions));
      }
      if !current.value.CanTransitionTo(Done) {
        Note(before, op);
        return Err(IllegalTransition(id, current.value, Done));
      }
      FinishStamps(before, op, row);
      hide MoveError;
      var stamped := UpdateFinished(tx, id, VerdictText(verdict), now);
      if stamped.Err? {
        Note(before, op);
        return Err(Database(stamped.error));
      }
      tx := stamped.value;
      FinishCredits(before, op, row, tx);
      if verdict.CountsAgainstUser() || verdict.IsAccepted() {
        var solvedAt := if verdict.IsAccepted() then Some(now) else None;
        var (t, hits) := UpdateProgress(tx, row.Key(), solvedAt);
        tx := t;
        if hits == 0 {
          FinishInserts(before, op, row, tx);
          var inserted := InsertProgress(tx, row.Key(), ProgressRecord(solvedAt, 1));
          if inserted.Err? {
            Note(before, op);
            return Err(Database(inserted.error));
          }
          tx := inserted.value;
        }
      }
      db := tx;
      Note(before, op);
      r := Ok(());
    }

    method RecordRun(id: RunId, run: NewRun, now: Timestamp) returns (r: Result<Run, StoreError>)
      requires Valid()
      modifies this
      ensures Served(Op.RecordRun(id, run, now), if r.Ok? then RunRecorded(r.value) else Refused(r.error))
    {
      ghost var op := Op.RecordRun(id, run, now);
      ghost var before := db;
      AdvanceRecordRun(before, op, "");
      var result := InsertRun(db, id, RunRow(run, now));
      match result {
        case Ok(t) =>
          db := t;
          r := Ok(Run(id, run, now));
        case Err(e) =>
          r := Err(if e.UniqueViolation? then Conflict(Runs) else Database(e));
      }
      hide InsertRun, Exec;
      Note(before, op);
    }
  }

  // What each statement of a finish has achieved, in the words of the method.

  lemma FinishRefused(base: Db, op: Op)
    requires op.Finish?
    ensures var e := MoveError(base, op.id, Done); e.Some? ==> Exec(base, op) == Refuse(base, e.value)
  {
    hide MoveError;
  }

  lemma FinishStamps(base: Db, op: Op, row: SubmissionRecord)
    requires op.Finish? && MoveAllowed(base, op.id, row, Done)
    ensures match UpdateFinished(base, op.id, VerdictText(op.verdict), op.now)
      case Err(e) => Exec(base, op) == Refuse(base, Database(e))
      case Ok(image) => TxOk(base, op, Stamped(row), image)
  {
    hide UpdateFinished, Exec, StatusText, VerdictText, MoveAllowed, Finished;
    AdvanceStamp(base, op, row, "");
  }

  lemma FinishCredits(base: Db, op: Op, row: SubmissionRecord, image: Db)
    requires op.Finish? && TxOk(base, op, Stamped(row), image)
    ensures if op.verdict.Counts() then
      var (t, hits) := UpdateProgress(image, row.Key(), if op.verdict.IsAccepted() then Some(op.now) else None);
      if hits == 0 then TxOk(base, op, Missed(row), t) else Exec(base, op) == Effect(t, Completed)
    else Exec(base, op) == Effect(image, Completed)
  {
    hide UpdateProgress, Exec, MoveAllowed, Finished;
    AdvanceProgress(base, op, row, image, "");
  }

  lemma FinishInserts(base: Db, op: Op, row: SubmissionRecord, image: Db)
    requires op.Finish? && TxOk(base, op, Missed(row), image)
    ensures match InsertProgress(image, row.Key(), ProgressRecord(if op.verdict.IsAccepted() then Some(op.now) else None, 1))
      case Err(e) => Exec(base, op) == Refuse(base, Database(e))
      case Ok(t) => Exec(base, op) == Effect(t, Completed)
  {
    hide InsertProgress, Exec, MoveAllowed, Finished;
    AdvanceInsertProgress(base, op, row, image, "");
  }

  lemma OpenReplace(base: Db, rows: seq<ProblemInput>)
    ensures Upserted(base, rows, 0, base)
  {
    assert base.problems + Catalog(rows[..0]) == base.problems;
  }

  lemma RefusedForOrphans(base: Db, rows: seq<ProblemInput>, todo: set<ProblemId>, image: Db)
    requires Pruned(base, rows, todo, image) && Orphans(base, Ids(rows))
    ensures Exec(base, Op.ReplaceProblems(rows)) == Refuse(base, Database(ForeignKeyViolation))
  {
  }
}
