/** Every read, said by the log alone: which granted requests each column of an answer comes from. */
module Chronicle {
  import opened Prelude
  import opened Codes
  import opened Tables
  import opened Operations
  import opened Invariant
  import opened History
  import opened Queries

  // Submissions.

  ghost predicate IsBirth(db: Db, op: Op, id: SubmissionId) {
    op.CreateSubmission? && op.id == id && Exec(db, op).reply.SubmissionCreated?
  }

  ghost predicate IsEnding(db: Db, op: Op, id: SubmissionId) {
    op.Finish? && op.id == id && Exec(db, op).reply.Completed?
  }

  /** The granted request that created the submission. */
  ghost function Birth(ops: seq<Op>, id: SubmissionId): Option<Op> {
    if ops == [] then None
    else
      var n := |ops| - 1;
      var earlier := Birth(ops[..n], id);
      if earlier.None? && IsBirth(Replay(ops[..n]), ops[n], id) then Some(ops[n]) else earlier
  }

  /** The granted request that finished the submission. */
  ghost function Ending(ops: seq<Op>, id: SubmissionId): Option<Op> {
    if ops == [] then None
    else
      var n := |ops| - 1;
      var earlier := Ending(ops[..n], id);
      if earlier.None? && IsEnding(Replay(ops[..n]), ops[n], id) then Some(ops[n]) else earlier
  }

  /** The columns of a row that its birth and its ending decide. */
  ghost predicate RowTells(row: SubmissionRecord, birth: Op, ending: Option<Op>) {
    && birth.CreateSubmission? && (ending.Some? ==> ending.value.Finish?)
    && row.userId == birth.submission.userId && row.problemId == birth.submission.problemId
    && row.language == LanguageText(birth.submission.language)
    && row.sourceHash == birth.submission.sourceHash && row.sourceUri == birth.submission.sourceUri
    && row.createdAt == birth.now
    && row.verdict == (if ending.Some? then Some(VerdictText(ending.value.verdict)) else None)
    && row.finishedAt == (if ending.Some? then Some(ending.value.now) else None)
    && (ending.Some? ==> row.status == StatusText(Done))
  }

  ghost predicate Tells(db: Db, id: SubmissionId, birth: Option<Op>, ending: Option<Op>) {
    && (id in db.submissions <==> birth.Some?)
    && (birth.Some? ==> RowTells(db.submissions[id], birth.value, ending))
    && (ending.Some? ==> birth.Some?)
  }

  lemma MoveTells(db: Db, op: Op, birth: Option<Op>, ending: Option<Op>)
    requires op.SetStatus? && Tells(db, op.id, birth, ending)
    ensures Tells(Exec(db, op).db, op.id, birth, ending)
  {
    if ending.Some? {
      DoneRefusesAll(db, op);
    }
    hide StatusText, VerdictText, LanguageText, ParseStatus;
  }

  lemma FinishTells(db: Db, op: Op, birth: Option<Op>, ending: Option<Op>)
    requires op.Finish? && Tells(db, op.id, birth, ending)
    ensures Tells(Exec(db, op).db, op.id, birth, if ending.None? && IsEnding(db, op, op.id) then Some(op) else ending)
  {
    if ending.Some? {
      DoneRefusesAll(db, op);
    }
    hide StatusText, VerdictText, LanguageText, ParseStatus;
  }

  lemma StepTells(db: Db, op: Op, id: SubmissionId, birth: Option<Op>, ending: Option<Op>)
    requires Tells(db, id, birth, ending)
    ensures Tells(Exec(db, op).db, id,
                  if birth.None? && IsBirth(db, op, id) then Some(op) else birth,
                  if ending.None? && IsEnding(db, op, id) then Some(op) else ending)
  {
    hide StatusText, VerdictText, LanguageText, ParseStatus;
    if op.SetStatus? && op.id == id {
      MoveTells(db, op, birth, ending);
      hide Tells;
    } else if op.Finish? && op.id == id {
      FinishTells(db, op, birth, ending);
      hide Tells;
    }
  }

  lemma {:induction false} LogTells(ops: seq<Op>, id: SubmissionId)
    ensures Tells(Replay(ops), id, Birth(ops, id), Ending(ops, id))
  {
    hide Exec, IsBirth, IsEnding, RowTells;
    if ops != [] {
      var n := |ops| - 1;
      LogTells(ops[..n], id);
      ReplayStep(ops);
      StepTells(Replay(ops[..n]), ops[n], id, Birth(ops[..n], id), Ending(ops[..n], id));
      hide Tells, Replay;
    }
  }

  /** A birth and an ending are requests of the log, made and granted. */
  lemma {:induction false} BirthWasGranted(ops: seq<Op>, id: SubmissionId)
    ensures Birth(ops, id).Some? ==>
      exists i :: 0 <= i < |ops| && ops[i] == Birth(ops, id).value && ops[i].CreateSubmission? && ops[i].id == id
                  && ReplyAt(ops, i).SubmissionCreated?
  {
    if ops != [] {
      var n := |ops| - 1;
      BirthWasGranted(ops[..n], id);
      hide Exec, Replay;
      if Birth(ops[..n], id).Some? {
        var i :| 0 <= i < n && ops[..n][i] == Birth(ops[..n], id).value && ops[..n][i].CreateSubmission? && ops[..n][i].id == id
          && ReplyAt(ops[..n], i).SubmissionCreated?;
        ReplyOfPrefix(ops, n, i);
      }
    }
  }

  lemma {:induction false} EndingWasGranted(ops: seq<Op>, id: SubmissionId)
    ensures Ending(ops, id).Some? ==>
      exists i :: 0 <= i < |ops| && ops[i] == Ending(ops, id).value && ops[i].Finish? && ops[i].id == id
                  && ReplyAt(ops, i).Completed?
  {
    if ops != [] {
      var n := |ops| - 1;
      EndingWasGranted(ops[..n], id);
      hide Exec, Replay;
      if Ending(ops[..n], id).Some? {
        var i :| 0 <= i < n && ops[..n][i] == Ending(ops[..n], id).value && ops[..n][i].Finish? && ops[..n][i].id == id
          && ReplyAt(ops[..n], i).Completed?;
        ReplyOfPrefix(ops, n, i);
      }
    }
  }

  lemma RowReads(id: SubmissionId, row: SubmissionRecord, birth: Op, ending: Option<Op>, status: Status)
    requires RowTells(row, birth, ending) && row.status == StatusText(status)
    ensures var b := birth.submission;
      IntoSubmission(id, row) ==
        Ok(Submission(id, b.userId, b.problemId, b.language, b.sourceHash, b.sourceUri, status,
                      if ending.Some? then Some(ending.value.verdict) else None,
                      birth.now, row.startedAt, if ending.Some? then Some(ending.value.now) else None))
  {
    hide StatusText, VerdictText, LanguageText, ParseStatus, ParseVerdict, ParseLanguage;
    assert ParseStatus(StatusText(status)) == Some(status);
    assert ParseLanguage(LanguageText(birth.submission.language)) == Some(birth.submission.language);
    if ending.Some? {
      assert ParseVerdict(VerdictText(ending.value.verdict)) == Some(ending.value.verdict);
    }
  }

  /**
   Every column of a submission as it reads comes from the log: who, what and when from the request that created it,
   the start from its first granted move, the status from its last, verdict and end from the request that finished it.
   A submission nobody created is not found.
   */
  lemma SubmissionIsItsHistory(ops: seq<Op>, id: SubmissionId)
    ensures var birth, ending, trace := Birth(ops, id), Ending(ops, id), Trace(ops, id);
      if birth.None? then ReadSubmission(Replay(ops), id) == Err(NotFound(Submissions))
      else
        && birth.value.CreateSubmission? && (ending.Some? ==> ending.value.Finish?) && trace != []
        && (var b := birth.value.submission;
            ReadSubmission(Replay(ops), id) ==
              Ok(Submission(id, b.userId, b.problemId, b.language, b.sourceHash, b.sourceUri, trace[|trace| - 1],
                            if ending.Some? then Some(ending.value.verdict) else None,
                            birth.value.now, FirstMove(ops, id),
                            if ending.Some? then Some(ending.value.now) else None)))
  {
    LogTells(ops, id);
    TraceIsLegal(ops, id);
    StartedAtIsFirstMove(ops, id);
    var trace := Trace(ops, id);
    if Birth(ops, id).Some? {
      RowReads(id, Replay(ops).submissions[id], Birth(ops, id).value, Ending(ops, id), trace[|trace| - 1]);
    }
    hide Replay, IntoSubmission, StatusText, VerdictText, LanguageText, Birth, Ending, Trace, FirstMove;
  }

  /** What the dedupe lookup answers was created by one granted request and judged by another, and says what they said. */
  lemma DedupeAnswersFromLog(ops: seq<Op>, user: UserId, hash: string)
    requires var r := LatestVerdictForHash(Replay(ops), user, hash); r.Ok? && r.value.Some?
    ensures var s := LatestVerdictForHash(Replay(ops), user, hash).value.value;
      && (exists i :: 0 <= i < |ops| && ReplyAt(ops, i).SubmissionCreated? && ops[i].CreateSubmission? && ops[i].id == s.id
                      && ops[i].submission == NewSubmission(user, s.problemId, s.language, hash, s.sourceUri)
                      && ops[i].now == s.createdAt)
      && (exists j :: 0 <= j < |ops| && ReplyAt(ops, j).Completed? && ops[j].Finish? && ops[j].id == s.id
                      && s.verdict == Some(ops[j].verdict) && s.finishedAt == Some(ops[j].now))
  {
    var s := LatestVerdictForHash(Replay(ops), user, hash).value.value;
    DedupeIsExact(ops, user, hash);
    SubmissionIsItsHistory(ops, s.id);
    BirthWasGranted(ops, s.id);
    EndingWasGranted(ops, s.id);
    hide Replay, ReadSubmission, LatestVerdictForHash, Birth, Ending, Trace, FirstMove, ReplyAt, Judged;
  }

  // Runs and users.

  /** A stored run was recorded by a granted request, and says what it said. */
  lemma {:induction false} RunWasRecorded(ops: seq<Op>, r: RunId)
    requires r in Replay(ops).runs
    ensures exists i :: 0 <= i < |ops| && ReplyAt(ops, i).RunRecorded? && ops[i].RecordRun? && ops[i].runId == r
                        && Replay(ops).runs[r] == RunRow(ops[i].run, ops[i].now)
  {
    if ops != [] {
      var n := |ops| - 1;
      ReplayStep(ops);
      ReplyAtLast(ops);
      StepRuns(Replay(ops[..n]), ops[n], r);
      hide Exec, Replay, RunRow;
      if r in Replay(ops[..n]).runs && Replay(ops).runs[r] == Replay(ops[..n]).runs[r] {
        RunWasRecorded(ops[..n], r);
        var i :| 0 <= i < n && ReplyAt(ops[..n], i).RunRecorded? && ops[..n][i].RecordRun? && ops[..n][i].runId == r
          && Replay(ops[..n]).runs[r] == RunRow(ops[..n][i].run, ops[..n][i].now);
        ReplyOfPrefix(ops, n, i);
      }
    }
  }

  lemma StepRuns(db: Db, op: Op, r: RunId)
    requires r in Exec(db, op).db.runs
    ensures (r in db.runs && Exec(db, op).db.runs[r] == db.runs[r])
         || (op.RecordRun? && op.runId == r && Exec(db, op).reply.RunRecorded? && Exec(db, op).db.runs[r] == RunRow(op.run, op.now))
  {
    hide ParseStatus, StatusText, VerdictText, RunRow;
  }

  /** Request `i` recorded this run for this submission, and was granted. */
  ghost predicate RecordedAt(ops: seq<Op>, i: nat, id: SubmissionId, run: Run)
    requires i < |ops|
  {
    && ops[i].RecordRun? && ops[i].run.submissionId == id && ReplyAt(ops, i).RunRecorded?
    && run == Run(ops[i].runId, ops[i].run, ops[i].now)
  }

  /** The runs read for a submission are exactly those that granted requests recorded for it. */
  lemma RunsReadAreRecorded(ops: seq<Op>, id: SubmissionId, run: Run)
    ensures RunsForSubmission(Replay(ops), id).Ok?
    ensures run in RunsForSubmission(Replay(ops), id).value <==> exists i :: 0 <= i < |ops| && RecordedAt(ops, i, id, run)
  {
    var db := Replay(ops);
    ReachableInv(ops);
    RunsAreOrdered(db, id);
    hide Exec, RunFrom, IntoRun, RunOk, RunsForSubmission, RunRow;
    if run in RunsForSubmission(db, id).value {
      assert run.id in RunsOf(db.runs, id);
      RunWasRecorded(ops, run.id);
      var i :| 0 <= i < |ops| && ReplyAt(ops, i).RunRecorded? && ops[i].RecordRun? && ops[i].runId == run.id
        && db.runs[run.id] == RunRow(ops[i].run, ops[i].now);
      RunRoundTrip(run.id, ops[i].run, ops[i].now);
      RowNamesSubmission(ops[i].run, ops[i].now);
      assert RecordedAt(ops, i, id, run);
    }
    if i :| 0 <= i < |ops| && RecordedAt(ops, i, id, run) {
      RecordedRunIsRead(ops, i);
    }
  }

  /** Request `i` created this user, and was granted. */
  ghost predicate CreatedAt(ops: seq<Op>, i: nat, user: User)
    requires i < |ops|
  {
    && ops[i].CreateUser? && ReplyAt(ops, i).UserCreated?
    && (var u := ops[i].user; user == User(ops[i].userId, u.handle, u.email, u.passwordHash, u.role, ops[i].now))
  }

  lemma StepUsers(db: Db, op: Op, id: UserId)
    ensures ReadUser(Exec(db, op).db, id)
         == if op.CreateUser? && op.userId == id && Exec(db, op).reply.UserCreated?
            then Ok(User(id, op.user.handle, op.user.email, op.user.passwordHash, op.user.role, op.now))
            else ReadUser(db, id)
  {
    hide RoleText, ParseRole, StatusText, ParseStatus;
    if op.CreateUser? {
      assert ParseRole(RoleText(op.user.role)) == Some(op.user.role);
    }
  }

  /** A user reads back exactly as some granted request created it. */
  lemma UserWasCreated(ops: seq<Op>, user: User)
    ensures ReadUser(Replay(ops), user.id) == Ok(user) <==> exists i :: 0 <= i < |ops| && CreatedAt(ops, i, user)
  {
    hide Exec, RunFrom, ReadUser, CreatedAt;
    if i :| 0 <= i < |ops| && CreatedAt(ops, i, user) {
      CreatedIsRead(ops, i, user);
    }
    if ReadUser(Replay(ops), user.id) == Ok(user) {
      ReadWasCreated(ops, user);
    }
  }

  lemma CreatedIsRead(ops: seq<Op>, i: nat, user: User)
    requires i < |ops| && CreatedAt(ops, i, user)
    ensures ReadUser(Replay(ops), user.id) == Ok(user)
  {
    UserIsReadBack(ops, i);
    hide Exec, Replay, ReadUser;
  }

  lemma {:induction false} ReadWasCreated(ops: seq<Op>, user: User)
    requires ReadUser(Replay(ops), user.id) == Ok(user)
    ensures exists i :: 0 <= i < |ops| && CreatedAt(ops, i, user)
  {
    if ops != [] {
      var n := |ops| - 1;
      ReplayStep(ops);
      ReplyAtLast(ops);
      StepUsers(Replay(ops[..n]), ops[n], user.id);
      hide Exec, Replay, ReadUser;
      if ReadUser(Replay(ops[..n]), user.id) == Ok(user) {
        ReadWasCreated(ops[..n], user);
        var i :| 0 <= i < n && CreatedAt(ops[..n], i, user);
        ReplyOfPrefix(ops, n, i);
        assert CreatedAt(ops, i, user);
      } else {
        assert CreatedAt(ops, n, user);
      }
    }
  }

  // The catalog.

  /** The rows of the last granted swap. */
  ghost function LastSwap(ops: seq<Op>): seq<ProblemInput> {
    if ops == [] then []
    else
      var n := |ops| - 1;
      if ops[n].ReplaceProblems? && ReplyAt(ops, n).Completed? then ops[n].rows else LastSwap(ops[..n])
  }

  lemma StepProblems(db: Db, op: Op)
    ensures if op.ReplaceProblems? && Exec(db, op).reply.Completed?
            then FirstBadRow(op.rows).None? && Exec(db, op).db.problems == Catalog(op.rows)
            else Exec(db, op).db.problems == db.problems
  {
    hide StatusText, ParseStatus, Catalog, FirstBadRow;
  }

  lemma {:induction false} CatalogIsLastSwap(ops: seq<Op>)
    ensures FirstBadRow(LastSwap(ops)).None? && Replay(ops).problems == Catalog(LastSwap(ops))
  {
    if ops != [] {
      var n := |ops| - 1;
      CatalogIsLastSwap(ops[..n]);
      ReplayStep(ops);
      ReplyAtLast(ops);
      StepProblems(Replay(ops[..n]), ops[n]);
      hide Exec, Replay, Catalog, FirstBadRow;
    }
  }

  /** A problem reads as the last row that the last granted swap gave for it, and is not found if it gave none. */
  lemma ProblemIsLastRow(ops: seq<Op>, id: ProblemId)
    ensures var rows := LastSwap(ops);
      && ((forall i :: 0 <= i < |rows| ==> rows[i].id != id) ==> ReadProblem(Replay(ops), id) == Err(NotFound(Problems)))
      && forall i :: 0 <= i < |rows| && rows[i].id == id && (forall j :: i < j < |rows| ==> rows[j].id != id) ==>
           ReadProblem(Replay(ops), id) == Ok(rows[i])
  {
    hide *;
    CatalogIsLastSwap(ops);
    CatalogReads(Replay(ops), LastSwap(ops), id);
  }
}
