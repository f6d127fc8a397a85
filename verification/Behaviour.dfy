/**
 Each operation as its caller sees it: when it is granted, what it answers, and which reads change how.
 Everything is said through the reads and the request, nothing through the stored columns.
 */
module Behaviour {
  import opened Prelude
  import opened Codes
  import opened Tables
  import opened Operations
  import opened Invariant
  import opened History
  import opened Queries

  // Users.

  /** Some user already has this id, handle or email. */
  ghost predicate Taken(db: Db, id: UserId, u: NewUser) {
    || ReadUser(db, id).Ok?
    || exists o :: ReadUser(db, o).Ok? && (ReadUser(db, o).value.handle == u.handle || ReadUser(db, o).value.email == u.email)
  }

  lemma TakenByRow(db: Db, id: UserId, u: NewUser)
    requires UsersOk(db.users)
    ensures Taken(db, id, u) <==>
      id in db.users || exists o :: o in db.users && (db.users[o].handle == u.handle || db.users[o].email == u.email)
  {
    hide ParseRole;
    if o :| o in db.users && (db.users[o].handle == u.handle || db.users[o].email == u.email) {
      assert ReadUser(db, o).Ok?;
    }
  }

  lemma CreateUserOutcome(db: Db, id: UserId, u: NewUser, now: Timestamp)
    requires Inv(db)
    ensures var e, user := Exec(db, CreateUser(id, u, now)), User(id, u.handle, u.email, u.passwordHash, u.role, now);
      && e.reply == (if Taken(db, id, u) then Refused(Conflict(Users)) else UserCreated(user))
      && (forall o :: ReadUser(e.db, o) == if o == id && !Taken(db, id, u) then Ok(user) else ReadUser(db, o))
      && e.db == db.(users := e.db.users)
  {
    TakenByRow(db, id, u);
    hide Taken, RoleText, ParseRole;
    assert ParseRole(RoleText(u.role)) == Some(u.role);
  }

  // Submissions.

  lemma CreateSubmissionOutcome(db: Db, id: SubmissionId, s: NewSubmission, now: Timestamp)
    requires Inv(db)
    ensures var e := Exec(db, CreateSubmission(id, s, now));
      var made := Submission(id, s.userId, s.problemId, s.language, s.sourceHash, s.sourceUri, Queued, None, now, None, None);
      && e.reply == (if ReadSubmission(db, id).Ok? then Refused(Database(UniqueViolation))
                     else if ReadUser(db, s.userId).Err? || ReadProblem(db, s.problemId).Err? then Refused(Database(ForeignKeyViolation))
                     else SubmissionCreated(made))
      && (forall o :: ReadSubmission(e.db, o) == if o == id && !e.reply.Refused? then Ok(made) else ReadSubmission(db, o))
      && e.db == db.(submissions := e.db.submissions)
  {
    hide StatusText, LanguageText, ParseStatus, ParseLanguage, ParseRole, ParseVerdict;
    assert ParseStatus(StatusText(Queued)) == Some(Queued) && ParseLanguage(LanguageText(s.language)) == Some(s.language);
    if id in db.submissions {
      assert RowOk(db.submissions[id]);
    }
  }

  /** The refusal of a move, if the submission as it reads does not allow it. */
  function MoveRefused(db: Db, id: SubmissionId, next: Status): Option<StoreError> {
    match ReadSubmission(db, id)
    case Err(e) => Some(e)
    case Ok(s) => if (s.status, next) in EDGES then None else Some(IllegalTransition(id, s.status, next))
  }

  lemma MoveErrorIsRead(db: Db, id: SubmissionId, next: Status)
    requires Inv(db)
    ensures MoveError(db, id, next) == MoveRefused(db, id, next)
    ensures MoveRefused(db, id, next) == Some(NotFound(Submissions)) <==> id !in db.submissions
  {
    hide ParseStatus, StatusText, ParseLanguage, ParseVerdict, EDGES;
    if id in db.submissions {
      assert RowOk(db.submissions[id]);
      MovesAreEdges(ParseStatus(db.submissions[id].status).value, next);
    }
  }

  lemma MovedReads(id: SubmissionId, row: SubmissionRecord, next: Status, now: Timestamp)
    requires RowOk(row)
    ensures IntoSubmission(id, row).Ok?
    ensures var s := IntoSubmission(id, row).value;
      IntoSubmission(id, Moved(row, next, now))
        == Ok(s.(status := next, startedAt := if s.startedAt.Some? then s.startedAt else Some(now)))
  {
    hide StatusText, ParseStatus, ParseLanguage, ParseVerdict, VerdictText;
    assert ParseStatus(StatusText(next)) == Some(next);
  }

  lemma FinishedReads(id: SubmissionId, row: SubmissionRecord, v: Verdict, now: Timestamp)
    requires RowOk(row)
    ensures IntoSubmission(id, row).Ok?
    ensures IntoSubmission(id, Finished(row, v, now))
         == Ok(IntoSubmission(id, row).value.(status := Done, verdict := Some(v), finishedAt := Some(now)))
  {
    hide StatusText, ParseStatus, ParseLanguage, ParseVerdict, VerdictText;
    assert ParseStatus(StatusText(Done)) == Some(Done) && ParseVerdict(VerdictText(v)) == Some(v);
  }

  /** Replacing one row changes that row's read only. */
  lemma OneRowReads(db: Db, db': Db, id: SubmissionId, row: SubmissionRecord)
    requires id in db.submissions && db'.submissions == db.submissions[id := row]
    ensures ReadSubmission(db', id) == IntoSubmission(id, row)
    ensures forall o :: o != id ==> ReadSubmission(db', o) == ReadSubmission(db, o)
  {
    hide IntoSubmission;
  }

  lemma FinishEffect(db: Db, id: SubmissionId, v: Verdict, now: Timestamp)
    requires Inv(db)
    ensures var e, refusal := Exec(db, Finish(id, v, now)), MoveError(db, id, Done);
      if refusal.Some? then e == Refuse(db, refusal.value)
      else id in db.submissions && e == Effect(db.(submissions := db.submissions[id := Finished(db.submissions[id], v, now)], progress := e.db.progress), Completed)
  {
    hide MoveError, Finished, Credit;
    if MoveError(db, id, Done).None? {
      MoveErrorIsRead(db, id, Done);
      assert db.submissions[id].userId in db.users && db.submissions[id].problemId in db.problems;
    }
    hide MoveRefused, Inv;
  }

  lemma SetStatusEffect(db: Db, id: SubmissionId, next: Status, now: Timestamp)
    ensures var e, refusal := Exec(db, SetStatus(id, next, now)), MoveError(db, id, next);
      if refusal.Some? then e == Refuse(db, refusal.value)
      else id in db.submissions && e == Effect(db.(submissions := db.submissions[id := Moved(db.submissions[id], next, now)]), Completed)
  {
    hide ParseStatus, Moved;
  }

  lemma SetStatusOutcome(db: Db, id: SubmissionId, next: Status, now: Timestamp)
    requires Inv(db)
    ensures var e, refusal := Exec(db, SetStatus(id, next, now)), MoveRefused(db, id, next);
      && e.reply == (if refusal.Some? then Refused(refusal.value) else Completed)
      && (refusal.Some? ==> e.db == db)
      && (refusal.None? ==>
            var s := ReadSubmission(db, id).value;
            ReadSubmission(e.db, id) == Ok(s.(status := next, startedAt := if s.startedAt.Some? then s.startedAt else Some(now))))
      && (forall o :: o != id ==> ReadSubmission(e.db, o) == ReadSubmission(db, o))
      && e.db == db.(submissions := e.db.submissions)
  {
    MoveErrorIsRead(db, id, next);
    SetStatusEffect(db, id, next, now);
    if MoveRefused(db, id, next).None? {
      MovedReads(id, db.submissions[id], next, now);
      OneRowReads(db, Exec(db, SetStatus(id, next, now)).db, id, Moved(db.submissions[id], next, now));
    }
    hide Exec, MoveError, MoveRefused, Moved, IntoSubmission, Inv, EDGES;
  }

  lemma FinishOutcome(db: Db, id: SubmissionId, v: Verdict, now: Timestamp)
    requires Inv(db)
    ensures var e, refusal := Exec(db, Finish(id, v, now)), MoveRefused(db, id, Done);
      && e.reply == (if refusal.Some? then Refused(refusal.value) else Completed)
      && (refusal.Some? ==> e.db == db)
      && (refusal.None? ==>
            var s := ReadSubmission(db, id).value;
            ReadSubmission(e.db, id) == Ok(s.(status := Done, verdict := Some(v), finishedAt := Some(now))))
      && (forall o :: o != id ==> ReadSubmission(e.db, o) == ReadSubmission(db, o))
      && e.db == db.(submissions := e.db.submissions, progress := e.db.progress)
  {
    MoveErrorIsRead(db, id, Done);
    FinishEffect(db, id, v, now);
    if MoveRefused(db, id, Done).None? {
      FinishedReads(id, db.submissions[id], v, now);
      OneRowReads(db, Exec(db, Finish(id, v, now)).db, id, Finished(db.submissions[id], v, now));
    }
    hide Exec, MoveError, MoveRefused, Finished, IntoSubmission, Inv, EDGES;
  }

  /** The progress of the finished submission's own pair: one more attempt unless SE or IE, solved by its first AC; no other pair's. */
  lemma FinishProgress(db: Db, id: SubmissionId, v: Verdict, now: Timestamp, key: Pair)
    requires Inv(db) && MoveRefused(db, id, Done).None?
    ensures var s, before := ReadSubmission(db, id).value, Lookup(db.progress, key);
      Lookup(Exec(db, Finish(id, v, now)).db.progress, key) ==
        if (s.userId, s.problemId) != key || v == Se || v == Ie then before
        else Some(ProgressRecord(
          if before.Some? && before.value.solvedAt.Some? then before.value.solvedAt else if v == Ac then Some(now) else None,
          (if before.Some? then before.value.attempts else 0) + 1))
  {
    hide *;
    var op := Finish(id, v, now);
    FinishOutcome(db, id, v, now);
    StepProgress(db, op, key);
    FoundWhenAllowed(db, id, Done);
    SameKey(db, id);
    CountsForSays(db, op, key);
    CreditRowSays(Lookup(db.progress, key), v, now);
  }

  lemma FoundWhenAllowed(db: Db, id: SubmissionId, next: Status)
    requires MoveRefused(db, id, next).None?
    ensures ReadSubmission(db, id).Ok?
  {
    hide ReadSubmission, EDGES;
  }

  lemma CountsForSays(db: Db, op: Op, key: Pair)
    requires op.Finish? && op.id in db.submissions && Exec(db, op).reply.Completed?
    ensures CountsFor(db, op, key) <==> db.submissions[op.id].Key() == key && op.verdict != Se && op.verdict != Ie
  {
    hide Exec;
    WhatCounts(op.verdict);
  }

  lemma CreditRowSays(before: Option<ProgressRecord>, v: Verdict, now: Timestamp)
    ensures CreditRow(before, v, now) == ProgressRecord(
      if before.Some? && before.value.solvedAt.Some? then before.value.solvedAt else if v == Ac then Some(now) else None,
      (if before.Some? then before.value.attempts else 0) + 1)
  {
    WhatCounts(v);
  }

  lemma SameKey(db: Db, id: SubmissionId)
    requires ReadSubmission(db, id).Ok?
    ensures id in db.submissions
    ensures db.submissions[id].Key() == (ReadSubmission(db, id).value.userId, ReadSubmission(db, id).value.problemId)
  {
    hide ParseStatus, ParseLanguage, ParseVerdict;
  }

  // Runs.

  /** Some stored run of the submission has this attempt number. */
  ghost predicate AttemptRecorded(db: Db, submission: SubmissionId, attempt: u32) {
    exists o :: o in RunsOf(db.runs, submission) && db.runs[o].attempt == attempt as int
  }

  lemma RecordRunOutcome(db: Db, id: RunId, r: NewRun, now: Timestamp)
    requires Inv(db)
    ensures var e, run := Exec(db, RecordRun(id, r, now)), Run(id, r, now);
      var taken := id in db.runs || AttemptRecorded(db, r.submissionId, r.attempt);
      && e.reply == (if taken then Refused(Conflict(Runs))
                     else if ReadSubmission(db, r.submissionId).Err? then Refused(Database(ForeignKeyViolation))
                     else RunRecorded(run))
      && (e.reply.RunRecorded? ==> id in e.db.runs && IntoRun(id, e.db.runs[id]) == Ok(run))
      && (forall o :: o in db.runs ==> o in e.db.runs && e.db.runs[o] == db.runs[o])
      && (forall o :: o in e.db.runs && o !in db.runs ==> o == id)
      && e.db == db.(runs := e.db.runs)
  {
    hide *;
    RunRoundTrip(id, r, now);
    RunTaken(db, r);
    SubmissionFound(db, r.submissionId);
    RecordRunEffect(db, id, r, now);
  }

  lemma SubmissionFound(db: Db, id: SubmissionId)
    requires Inv(db)
    ensures ReadSubmission(db, id).Ok? <==> id in db.submissions
  {
    hide IntoSubmission, RowOk, StatusText;
    if id in db.submissions {
      assert RowOk(db.submissions[id]);
      RowDecodes(id, db.submissions[id]);
    }
  }

  lemma RecordRunEffect(db: Db, id: RunId, r: NewRun, now: Timestamp)
    ensures var e := Exec(db, RecordRun(id, r, now));
      if id in db.runs || AttemptTaken(db, r.submissionId, r.attempt) then e == Effect(db, Refused(Conflict(Runs)))
      else if r.submissionId !in db.submissions then e == Effect(db, Refused(Database(ForeignKeyViolation)))
      else e == Effect(db.(runs := db.runs[id := RunRow(r, now)]), RunRecorded(Run(id, r, now)))
  {
    hide RunRow, AttemptTaken;
  }

  lemma RunTaken(db: Db, r: NewRun)
    ensures AttemptTaken(db, r.submissionId, r.attempt)
       <==> AttemptRecorded(db, r.submissionId, r.attempt)
  {
    if AttemptTaken(db, r.submissionId, r.attempt) {
      var o :| o in db.runs && db.runs[o].submissionId == r.submissionId && db.runs[o].attempt == r.attempt as int;
      assert o in RunsOf(db.runs, r.submissionId);
    }
    if o :| o in RunsOf(db.runs, r.submissionId) && db.runs[o].attempt == r.attempt as int {
      assert o in db.runs && db.runs[o].submissionId == r.submissionId;
    }
  }

  // The catalog.

  /** Why this row cannot be written, if it cannot. */
  function RowRefused(row: ProblemInput): Option<StoreError> {
    if row.updatedAt.None? then Some(CorruptRow(Problems))
    else if row.difficulty !in {"easy", "medium", "hard"} then Some(Database(CheckViolation))
    else None
  }

  lemma OneMoreRow(rows: seq<ProblemInput>)
    requires rows != []
    ensures var earlier := FirstBadRow(rows[..|rows| - 1]);
      FirstBadRow(rows) == if earlier.Some? then earlier else RowRefused(rows[|rows| - 1])
  {
    var t := rows[|rows| - 1].difficulty;
    assert DifficultyCheck(t) <==> t in {"easy", "medium", "hard"};
    hide DifficultyCheck;
  }

  /** The first bad row decides the refusal; without one there is none. */
  lemma {:induction false} FirstBadRowDecides(rows: seq<ProblemInput>)
    ensures FirstBadRow(rows).None? <==> forall i :: 0 <= i < |rows| ==> RowRefused(rows[i]).None?
    ensures forall i :: 0 <= i < |rows| && RowRefused(rows[i]).Some? && (forall j :: 0 <= j < i ==> RowRefused(rows[j]).None?) ==>
              FirstBadRow(rows) == RowRefused(rows[i])
  {
    if rows != [] {
      var n := |rows| - 1;
      FirstBadRowDecides(rows[..n]);
      OneMoreRow(rows);
      hide FirstBadRow, RowRefused;
      assert forall j :: 0 <= j < n ==> rows[..n][j] == rows[j];
      forall i | 0 <= i < |rows| && RowRefused(rows[i]).Some? && (forall j :: 0 <= j < i ==> RowRefused(rows[j]).None?)
        ensures FirstBadRow(rows) == RowRefused(rows[i])
      {
        if i < n {
          assert RowRefused(rows[..n][i]).Some?;
        }
      }
    }
  }

  ghost predicate HasRow(rows: seq<ProblemInput>, id: ProblemId) {
    exists i :: 0 <= i < |rows| && rows[i].id == id
  }

  /** The swap as a whole: the first bad row refuses it, else a submitted problem without a row does, else it replaces the catalog. */
  lemma ReplaceOutcome(ops: seq<Op>, rows: seq<ProblemInput>)
    ensures var db, e := Replay(ops), Exec(Replay(ops), ReplaceProblems(rows));
      var kept := forall s :: ReadSubmission(db, s).Ok? ==> HasRow(rows, ReadSubmission(db, s).value.problemId);
      && (forall i :: 0 <= i < |rows| && RowRefused(rows[i]).Some? && (forall j :: 0 <= j < i ==> RowRefused(rows[j]).None?) ==>
            e == Refuse(db, RowRefused(rows[i]).value))
      && ((forall i :: 0 <= i < |rows| ==> RowRefused(rows[i]).None?) ==>
            if kept then e.reply == Completed && e.db == db.(problems := e.db.problems)
            else e == Refuse(db, Database(ForeignKeyViolation)))
  {
    var db := Replay(ops);
    FirstBadRowDecides(rows);
    if FirstBadRow(rows).None? {
      ReplaceIsFullSwap(ops, rows);
      ReachableInv(ops);
      hide Replay, Exec, RowRefused;
      KeptByRead(db, rows);
    }
    hide RowRefused, Replay, FirstBadRow, Catalog, Orphans;
  }

  lemma KeptByRead(db: Db, rows: seq<ProblemInput>)
    requires Inv(db)
    ensures (forall s :: ReadSubmission(db, s).Ok? ==> HasRow(rows, ReadSubmission(db, s).value.problemId))
       <==> forall s :: s in db.submissions ==> db.submissions[s].problemId in Ids(rows)
  {
    hide IntoSubmission;
    forall s | s in db.submissions
      ensures ReadSubmission(db, s).Ok? && ReadSubmission(db, s).value.problemId == db.submissions[s].problemId
    {
      assert RowOk(db.submissions[s]);
      RowDecodes(s, db.submissions[s]);
      SameKey(db, s);
    }
    forall id ensures HasRow(rows, id) <==> id in Ids(rows) {
    }
    hide ReadSubmission, Inv;
  }
}
