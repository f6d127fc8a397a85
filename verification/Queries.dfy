/** The read queries: selection, ordering and decoding of rows. */
module Queries {
  import opened Prelude
  import opened Ordering
  import opened Codes
  import opened Tables
  import opened Operations
  import opened Invariant
  import opened History

  // Decoding.

  function DecodeVerdict(text: Option<string>, e: Entity): Result<Option<Verdict>, StoreError> {
    match text
    case None => Ok(None)
    case Some(t) => var v := ParseVerdict(t); if v.None? then Err(CorruptRow(e)) else Ok(v)
  }

  /** `SubmissionRecord::into_submission` */
  function IntoSubmission(id: SubmissionId, r: SubmissionRecord): Result<Submission, StoreError> {
    var language := ParseLanguage(r.language);
    var status := ParseStatus(r.status);
    var verdict := DecodeVerdict(r.verdict, Submissions);
    if language.None? || status.None? || verdict.Err? then Err(CorruptRow(Submissions))
    else Ok(Submission(id, r.userId, r.problemId, language.value, r.sourceHash, r.sourceUri,
                       status.value, verdict.value, r.createdAt, r.startedAt, r.finishedAt))
  }

  /** `u32::try_from` and `i32::try_from` on a stored 64-bit column. */
  predicate FitsU32(x: Option<int>) { x.None? || 0 <= x.value < 0x1_0000_0000 }

  predicate FitsI32(x: Option<int>) { x.None? || -0x8000_0000 <= x.value < 0x8000_0000 }

  function NarrowU32(x: Option<int>): Option<u32>
    requires FitsU32(x)
  {
    if x.None? then None else Some(x.value as u32)
  }

  function NarrowI32(x: Option<int>): Option<i32>
    requires FitsI32(x)
  {
    if x.None? then None else Some(x.value as i32)
  }

  function IntoRun(id: RunId, r: RunRecord): Result<Run, StoreError> {
    var verdict := DecodeVerdict(r.verdict, Runs);
    if !FitsU32(Some(r.attempt)) || !FitsI32(r.exitCode) || verdict.Err?
       || !FitsU32(r.bootMs) || !FitsU32(r.buildMs) || !FitsU32(r.runMs)
    then Err(CorruptRow(Runs))
    else Ok(Run(id,
                NewRun(r.submissionId, r.attempt as u32, r.runnerId, r.fixture, NarrowI32(r.exitCode), verdict.value,
                       r.output, r.logUri, NarrowU32(r.bootMs), NarrowU32(r.buildMs), NarrowU32(r.runMs)),
                r.createdAt))
  }

  /** What `record_run` writes decodes to what it was given, through both integer conversions. */
  lemma RunRoundTrip(id: RunId, r: NewRun, now: Timestamp)
    ensures IntoRun(id, RunRow(r, now)) == Ok(Run(id, r, now))
  {
    hide VerdictText, ParseVerdict;
    if r.verdict.Some? {
      assert ParseVerdict(VerdictText(r.verdict.value)) == r.verdict;
    }
  }

  /** What `create_submission` writes decodes to what it returned. */
  lemma SubmissionRoundTrip(db: Db, op: Op)
    requires op.CreateSubmission? && Exec(db, op).reply.SubmissionCreated?
    ensures op.id in Exec(db, op).db.submissions
    ensures IntoSubmission(op.id, Exec(db, op).db.submissions[op.id]) == Ok(Exec(db, op).reply.submission)
  {
    hide StatusText, LanguageText, ParseStatus, ParseLanguage;
    assert ParseStatus(StatusText(Queued)) == Some(Queued);
    assert ParseLanguage(LanguageText(op.submission.language)) == Some(op.submission.language);
  }

  lemma RowDecodes(id: SubmissionId, row: SubmissionRecord)
    requires RowOk(row)
    ensures IntoSubmission(id, row).Ok?
    ensures var s := IntoSubmission(id, row).value;
      && s.id == id && s.userId == row.userId && s.sourceHash == row.sourceHash
      && (s.verdict.Some? <==> row.verdict.Some?)
      && StatusText(s.status) == row.status
  {
    hide StatusText, VerdictText, LanguageText, ParseStatus, ParseVerdict, ParseLanguage;
  }

  /** `collect()` into a `Result`: all the values, or the first error. */
  function Collect<T, E>(rs: seq<Result<T, E>>): (r: Result<seq<T>, E>)
    ensures r.Ok? ==> |r.value| == |rs| && forall i :: 0 <= i < |rs| ==> rs[i] == Ok(r.value[i])
    ensures r.Err? ==> exists i :: 0 <= i < |rs| && rs[i] == Err(r.error)
  {
    if rs == [] then Ok([])
    else match rs[0]
      case Err(e) => Err(e)
      case Ok(x) =>
        match Collect(rs[1..])
        case Err(e) => Err(e)
        case Ok(xs) => Ok([x] + xs)
  }

  function ReadAll(subs: SubmissionTable, ids: seq<SubmissionId>): Result<seq<Submission>, StoreError>
    requires forall i :: 0 <= i < |ids| ==> ids[i] in subs
  {
    Collect(seq(|ids|, i requires 0 <= i < |ids| => IntoSubmission(ids[i], subs[ids[i]])))
  }

  lemma ReadAllOk(subs: SubmissionTable, ids: seq<SubmissionId>)
    requires SubmissionsOk(subs)
    requires forall i :: 0 <= i < |ids| ==> ids[i] in subs
    ensures ReadAll(subs, ids).Ok? && |ReadAll(subs, ids).value| == |ids|
    ensures forall i :: 0 <= i < |ids| ==> IntoSubmission(ids[i], subs[ids[i]]) == Ok(ReadAll(subs, ids).value[i])
  {
    hide IntoSubmission, RowOk;
    var rs := seq(|ids|, i requires 0 <= i < |ids| => IntoSubmission(ids[i], subs[ids[i]]));
    forall i | 0 <= i < |ids| ensures rs[i].Ok? {
      RowDecodes(ids[i], subs[ids[i]]);
    }
  }

  // Selection and order. `ORDER BY id` is the increasing order of the ids.

  function Sorted(ids: set<int>): (r: seq<int>)
    ensures Increasing(Below, r) && (forall x :: x in r <==> x in ids) && |r| == |ids|
  {
    BelowIsTotal();
    Ascending(Below, ids)
  }

  function Reversed(s: seq<int>): (r: seq<int>)
    ensures |r| == |s| && forall i :: 0 <= i < |s| ==> r[i] == s[|s| - 1 - i]
  {
    seq(|s|, i requires 0 <= i < |s| => s[|s| - 1 - i])
  }

  function OfUser(subs: SubmissionTable, user: UserId): set<SubmissionId> {
    set s | s in subs && subs[s].userId == user
  }

  function Judged(subs: SubmissionTable, user: UserId, hash: string): set<SubmissionId> {
    set s | s in subs && subs[s].userId == user && subs[s].sourceHash == hash && subs[s].verdict.Some?
  }

  function Open(subs: SubmissionTable): set<SubmissionId> {
    set s | s in subs && subs[s].status != StatusText(Done)
  }

  function ReadSubmission(db: Db, id: SubmissionId): Result<Submission, StoreError> {
    if id !in db.submissions then Err(NotFound(Submissions)) else IntoSubmission(id, db.submissions[id])
  }

  /** ORDER BY id DESC LIMIT 1 over the judged submissions of this user and hash. */
  function LatestVerdictForHash(db: Db, user: UserId, hash: string): Result<Option<Submission>, StoreError> {
    var ids := Sorted(Judged(db.submissions, user, hash));
    if ids == [] then Ok(None)
    else
      var last := ids[|ids| - 1];
      assert last in ids;
      match IntoSubmission(last, db.submissions[last])
      case Err(e) => Err(e)
      case Ok(s) => Ok(Some(s))
  }

  lemma NewestAreOfUser(subs: SubmissionTable, user: UserId)
    ensures var newest := Reversed(Sorted(OfUser(subs, user)));
      forall i :: 0 <= i < |newest| ==> newest[i] in OfUser(subs, user)
  {
    var ids := Sorted(OfUser(subs, user));
    assert forall i :: 0 <= i < |ids| ==> ids[i] in ids;
  }

  /** ORDER BY id DESC LIMIT ? */
  function NewestIds(subs: SubmissionTable, user: UserId, limit: nat): (r: seq<SubmissionId>)
    ensures forall i :: 0 <= i < |r| ==> r[i] in subs
  {
    var newest := Reversed(Sorted(OfUser(subs, user)));
    var r := newest[..Min(limit, |newest|)];
    assert forall i :: 0 <= i < |r| ==> r[i] in OfUser(subs, user) by { NewestAreOfUser(subs, user); }
    r
  }

  function SubmissionsForUser(db: Db, user: UserId, limit: u32): Result<seq<Submission>, StoreError> {
    ReadAll(db.submissions, NewestIds(db.submissions, user, limit as nat))
  }

  function OpenIds(subs: SubmissionTable): (r: seq<SubmissionId>)
    ensures Increasing(Below, r) && forall x :: x in r <==> x in Open(subs)
    ensures forall i :: 0 <= i < |r| ==> r[i] in subs
  {
    var r := Sorted(Open(subs));
    assert forall i :: 0 <= i < |r| ==> r[i] in r;
    r
  }

  function InFlightSubmissions(db: Db): Result<seq<Submission>, StoreError> {
    ReadAll(db.submissions, OpenIds(db.submissions))
  }

  function RunsOf(runs: RunTable, id: SubmissionId): set<RunId> {
    set r | r in runs && runs[r].submissionId == id
  }

  function AttemptsOf(runs: RunTable, id: SubmissionId): set<int> {
    set r | r in RunsOf(runs, id) :: runs[r].attempt
  }

  /** The recorded attempt with this number; UNIQUE (submission_id, attempt) makes it the only one. */
  ghost function RunWithAttempt(runs: RunTable, id: SubmissionId, attempt: int): (r: RunId)
    requires attempt in AttemptsOf(runs, id)
    ensures r in RunsOf(runs, id) && runs[r].attempt == attempt
  {
    var r :| r in RunsOf(runs, id) && runs[r].attempt == attempt;
    r
  }

  /** The decoded rows of a submission in ORDER BY attempt. */
  ghost function RunRows(runs: RunTable, id: SubmissionId): seq<Result<Run, StoreError>> {
    var attempts := Sorted(AttemptsOf(runs, id));
    seq(|attempts|, i requires 0 <= i < |attempts| =>
      assert attempts[i] in attempts;
      var r := RunWithAttempt(runs, id, attempts[i]);
      IntoRun(r, runs[r]))
  }

  ghost function RunsForSubmission(db: Db, id: SubmissionId): Result<seq<Run>, StoreError> {
    Collect(RunRows(db.runs, id))
  }

  function ReadProgress(db: Db, user: UserId, problem: ProblemId): Result<Option<UserProgress>, StoreError> {
    match Lookup(db.progress, (user, problem))
    case None => Ok(None)
    case Some(row) =>
      if !FitsU32(Some(row.attempts)) then Err(CorruptRow(Progress))
      else Ok(Some(UserProgress(user, problem, row.solvedAt, row.attempts as u32)))
  }

  // What the reads return in every reachable state.

  /** No submission read ever meets a corrupt row. */
  lemma SubmissionReadsDecode(ops: seq<Op>, id: SubmissionId, user: UserId, hash: string, limit: u32)
    ensures var db := Replay(ops);
      && (id in db.submissions ==> ReadSubmission(db, id).Ok?)
      && LatestVerdictForHash(db, user, hash).Ok?
      && SubmissionsForUser(db, user, limit).Ok?
      && InFlightSubmissions(db).Ok?
  {
    var db := Replay(ops);
    ReachableInv(ops);
    hide RowOk, IntoSubmission, Replay;
    if id in db.submissions {
      RowDecodes(id, db.submissions[id]);
    }
    var judged := Sorted(Judged(db.submissions, user, hash));
    if judged != [] {
      assert judged[|judged| - 1] in judged;
      RowDecodes(judged[|judged| - 1], db.submissions[judged[|judged| - 1]]);
    }
    ReadAllOk(db.submissions, NewestIds(db.submissions, user, limit as nat));
    ReadAllOk(db.submissions, OpenIds(db.submissions));
  }

  lemma RunDecodes(id: RunId, row: RunRecord)
    requires RunOk(row)
    ensures IntoRun(id, row).Ok? && IntoRun(id, row).value.id == id
    ensures IntoRun(id, row).value.run.attempt as int == row.attempt
  {
    hide VerdictText, ParseVerdict;
  }

  lemma RunRowsDecode(runs: RunTable, id: SubmissionId)
    requires RunsOk(runs)
    ensures var attempts, rows := Sorted(AttemptsOf(runs, id)), RunRows(runs, id);
      && |rows| == |attempts|
      && forall i :: 0 <= i < |rows| ==>
           && rows[i].Ok? && rows[i].value.run.attempt as int == attempts[i]
           && rows[i].value.id in RunsOf(runs, id) && IntoRun(rows[i].value.id, runs[rows[i].value.id]) == rows[i]
  {
    hide IntoRun, RunOk;
    var attempts, rows := Sorted(AttemptsOf(runs, id)), RunRows(runs, id);
    forall i | 0 <= i < |rows|
      ensures rows[i].Ok? && rows[i].value.run.attempt as int == attempts[i]
      ensures rows[i].value.id in RunsOf(runs, id) && IntoRun(rows[i].value.id, runs[rows[i].value.id]) == rows[i]
    {
      assert attempts[i] in attempts;
      var r := RunWithAttempt(runs, id, attempts[i]);
      RunDecodes(r, runs[r]);
    }
  }

  /** The attempts of a submission, each decoded unchanged, in strictly increasing order. */
  lemma RunsAreOrdered(db: Db, id: SubmissionId)
    requires RunsOk(db.runs)
    ensures RunsForSubmission(db, id).Ok?
    ensures var rs := RunsForSubmission(db, id).value;
      && (forall i, j :: 0 <= i < j < |rs| ==> rs[i].run.attempt < rs[j].run.attempt)
      && (forall i :: 0 <= i < |rs| ==> rs[i].id in RunsOf(db.runs, id) && IntoRun(rs[i].id, db.runs[rs[i].id]) == Ok(rs[i]))
  {
    hide IntoRun, RunOk, RunsOf, AttemptsOf;
    RunRowsDecode(db.runs, id);
    var attempts, rows := Sorted(AttemptsOf(db.runs, id)), RunRows(db.runs, id);
    hide RunRows;
    var rs := RunsForSubmission(db, id).value;
    forall i, j | 0 <= i < j < |rs| ensures rs[i].run.attempt < rs[j].run.attempt {
      assert rows[i] == Ok(rs[i]) && rows[j] == Ok(rs[j]) && Below(attempts[i], attempts[j]);
    }
  }

  /** ... and none is missing. */
  lemma RunsAreComplete(db: Db, r: RunId)
    requires RunsOk(db.runs) && r in db.runs
    ensures var read := RunsForSubmission(db, db.runs[r].submissionId);
      read.Ok? && exists i :: 0 <= i < |read.value| && Ok(read.value[i]) == IntoRun(r, db.runs[r])
  {
    hide IntoRun;
    var id := db.runs[r].submissionId;
    RunRowsDecode(db.runs, id);
    RunsAreOrdered(db, id);
    var attempts, rows := Sorted(AttemptsOf(db.runs, id)), RunRows(db.runs, id);
    assert r in RunsOf(db.runs, id) && db.runs[r].attempt in AttemptsOf(db.runs, id);
    var i :| 0 <= i < |attempts| && attempts[i] == db.runs[r].attempt;
    hide RunRows, AttemptsOf, RunOk;
    RunDecodes(rows[i].value.id, db.runs[rows[i].value.id]);
    assert db.runs[rows[i].value.id].attempt == db.runs[r].attempt;
    assert rows[i].value.id == r;
    assert rows[i] == Ok(RunsForSubmission(db, id).value[i]);
  }

  /** A granted `record_run` writes the requested run and returns it, and no later request changes that row. */
  lemma RecordedRunStays(ops: seq<Op>, i: nat)
    requires i < |ops| && ReplyAt(ops, i).RunRecorded?
    ensures ops[i].RecordRun? && ReplyAt(ops, i).run == Run(ops[i].runId, ops[i].run, ops[i].now)
    ensures var run := ReplyAt(ops, i).run; var runs := Replay(ops).runs;
      run.id in runs && runs[run.id].submissionId == run.run.submissionId && IntoRun(run.id, runs[run.id]) == Ok(run)
  {
    hide Inv, RunFrom, IntoRun, RunRow;
    var run := ReplyAt(ops, i).run;
    PrefixStep(ops, i);
    RunRoundTrip(ops[i].runId, ops[i].run, ops[i].now);
    RowNamesSubmission(ops[i].run, ops[i].now);
    ReplayExtends(ops, i + 1, |ops|);
    assert ops[..|ops|] == ops;
    assert RunsExtend(Replay(ops[..i + 1]).runs, Replay(ops).runs);
  }

  lemma RowNamesSubmission(r: NewRun, now: Timestamp)
    ensures RunRow(r, now).submissionId == r.submissionId
  {
  }

  /** Every granted `record_run` is read back unchanged after any further requests. */
  lemma RecordedRunIsRead(ops: seq<Op>, i: nat)
    requires i < |ops| && ReplyAt(ops, i).RunRecorded?
    ensures ops[i].RecordRun? && ReplyAt(ops, i).run == Run(ops[i].runId, ops[i].run, ops[i].now)
    ensures var read := RunsForSubmission(Replay(ops), ops[i].run.submissionId);
      read.Ok? && Run(ops[i].runId, ops[i].run, ops[i].now) in read.value
  {
    RecordedRunStays(ops, i);
    ReachableInv(ops);
    hide Exec, RunFrom, IntoRun, RunOk, ReplyAt, Replay, RunsForSubmission;
    RunsAreComplete(Replay(ops), ReplyAt(ops, i).run.id);
  }

  lemma TakenAttemptConflicts(db: Db, op: Op, r: RunId)
    requires op.RecordRun? && r in RunsOf(db.runs, op.run.submissionId) && db.runs[r].attempt == op.run.attempt as int
    ensures Exec(db, op) == Refuse(db, Conflict(Runs))
  {
    assert AttemptTaken(db, op.run.submissionId, op.run.attempt);
  }

  /** An attempt number once recorded is taken for good: every later recording of it is a conflict and changes no table. */
  lemma AttemptIsRecordedOnce(ops: seq<Op>, i: nat, j: nat)
    requires i < j < |ops| && ops[i].RecordRun? && ops[j].RecordRun? && ReplyAt(ops, i).RunRecorded?
    requires ops[j].run.submissionId == ops[i].run.submissionId && ops[j].run.attempt == ops[i].run.attempt
    ensures ReplyAt(ops, j) == Refused(Conflict(Runs))
    ensures Replay(ops[..j + 1]) == Replay(ops[..j])
  {
    hide Inv, RunFrom;
    var r, after, before := ops[i].runId, Replay(ops[..i + 1]), Replay(ops[..j]);
    PrefixStep(ops, i);
    PrefixStep(ops, j);
    ReplayExtends(ops, i + 1, j);
    assert r in after.runs && RunsExtend(after.runs, before.runs);
    TakenAttemptConflicts(before, ops[j], r);
    hide Exec;
  }

  /** Progress reads fail exactly for a pair with 2^32 or more counted submissions; otherwise they report the history. */
  lemma ProgressReads(ops: seq<Op>, user: UserId, problem: ProblemId)
    ensures var db := Replay(ops); var n := CountedFinishes(ops, (user, problem));
      ReadProgress(db, user, problem)
        == if n == 0 then Ok(None)
           else if n >= 0x1_0000_0000 then Err(CorruptRow(Progress))
           else Ok(Some(UserProgress(user, problem, FirstAccept(ops, (user, problem)), n as u32)))
  {
    ProgressIsFold(ops, (user, problem));
  }

  /** A granted finish is read back with its verdict and its clock reading, whatever happens later. */
  lemma FinishIsReadBack(ops: seq<Op>, i: nat)
    requires i < |ops| && ops[i].Finish? && ReplyAt(ops, i).Completed?
    ensures var r := ReadSubmission(Replay(ops), ops[i].id);
      && r.Ok? && r.value.id == ops[i].id && r.value.status == Done
      && r.value.verdict == Some(ops[i].verdict) && r.value.finishedAt == Some(ops[i].now)
  {
    hide Inv, RunFrom, StatusText, VerdictText, LanguageText, ParseStatus, ParseVerdict, ParseLanguage;
    var id, before := ops[i].id, Replay(ops[..i]);
    PrefixStep(ops, i);
    ReplayExtends(ops, i + 1, |ops|);
    assert ops[..|ops|] == ops;
    var row := Replay(ops[..i + 1]).submissions[id];
    assert RowExtends(row, Replay(ops).submissions[id]);
    ReachableInv(ops);
    SubmissionReadsDecode(ops, id, 0, "", 0);
    assert ParseStatus(StatusText(Done)) == Some(Done) && ParseVerdict(VerdictText(ops[i].verdict)) == Some(ops[i].verdict);
  }

  // Users and problems, read back.

  function ReadUser(db: Db, id: UserId): Result<User, StoreError> {
    if id !in db.users then Err(NotFound(Users))
    else
      var r := db.users[id];
      match ParseRole(r.role)
      case None => Err(CorruptRow(Users))
      case Some(role) => Ok(User(id, r.handle, r.email, r.passwordHash, role, r.createdAt))
  }

  /** A created user reads back as it was returned, whatever happens later. */
  lemma UserIsReadBack(ops: seq<Op>, i: nat)
    requires i < |ops| && ReplyAt(ops, i).UserCreated?
    ensures ops[i].CreateUser?
    ensures var u := ops[i].user; var user := User(ops[i].userId, u.handle, u.email, u.passwordHash, u.role, ops[i].now);
      ReplyAt(ops, i).user == user && ReadUser(Replay(ops), user.id) == Ok(user)
  {
    hide Inv, RunFrom, RoleText, ParseRole;
    var user := ReplyAt(ops, i).user;
    PrefixStep(ops, i);
    assert ParseRole(RoleText(user.role)) == Some(user.role);
    ReplayExtends(ops, i + 1, |ops|);
    assert ops[..|ops|] == ops;
    assert UsersExtend(Replay(ops[..i + 1]).users, Replay(ops).users);
  }

  function ReadProblem(db: Db, id: ProblemId): Result<ProblemInput, StoreError> {
    if id !in db.problems then Err(NotFound(Problems))
    else
      var r := db.problems[id];
      Ok(ProblemInput(id, r.commitSha, r.title, r.category, r.difficulty, r.manifest, Some(r.updatedAt)))
  }

  /** After a completed swap every id reads as the last row given for it, and an id without a row as missing. */
  lemma CatalogIsReadBack(ops: seq<Op>, rows: seq<ProblemInput>, id: ProblemId)
    requires Exec(Replay(ops), ReplaceProblems(rows)).reply.Completed?
    ensures var db := Exec(Replay(ops), ReplaceProblems(rows)).db;
      && (id !in Ids(rows) ==> ReadProblem(db, id) == Err(NotFound(Problems)))
      && forall i :: 0 <= i < |rows| && rows[i].id == id && (forall j :: i < j < |rows| ==> rows[j].id != id) ==>
           ReadProblem(db, id) == Ok(rows[i])
  {
    hide RunFrom, Catalog, FirstBadRow, Orphans, DifficultyCheck, Ids, ReadProblem;
    CatalogReads(Exec(Replay(ops), ReplaceProblems(rows)).db, rows, id);
    assert id in Ids(rows) <==> exists i :: 0 <= i < |rows| && rows[i].id == id by {
      IdsAre(rows, id);
    }
  }

  lemma IdsAre(rows: seq<ProblemInput>, id: ProblemId)
    ensures id in Ids(rows) <==> exists i :: 0 <= i < |rows| && rows[i].id == id
  {
  }

  lemma CatalogReads(db: Db, rows: seq<ProblemInput>, id: ProblemId)
    requires FirstBadRow(rows).None? && db.problems == Catalog(rows)
    ensures (forall i :: 0 <= i < |rows| ==> rows[i].id != id) ==> ReadProblem(db, id) == Err(NotFound(Problems))
    ensures forall i :: 0 <= i < |rows| && rows[i].id == id && (forall j :: i < j < |rows| ==> rows[j].id != id) ==>
              ReadProblem(db, id) == Ok(rows[i])
  {
    CatalogKeys(rows);
    hide Catalog, FirstBadRow;
    forall i | 0 <= i < |rows| && rows[i].id == id && (forall j :: i < j < |rows| ==> rows[j].id != id)
      ensures ReadProblem(db, id) == Ok(rows[i])
    {
      CatalogLastWins(rows, i);
    }
  }

  // The dedupe lookup.

  lemma LastIsGreatest(ids: set<int>)
    requires ids != {}
    ensures Sorted(ids) != [] && Sorted(ids)[|Sorted(ids)| - 1] in ids
    ensures forall x :: x in ids ==> x <= Sorted(ids)[|Sorted(ids)| - 1]
  {
    var r := Sorted(ids);
    assert |r| == |ids| != 0;
    var last := r[|r| - 1];
    assert last in r;
    forall x | x in ids ensures x <= last {
      var i :| 0 <= i < |r| && r[i] == x;
      assert i == |r| - 1 || Below(r[i], r[|r| - 1]);
    }
  }

  /** The hit is the greatest-id judged submission of this user and hash, as it reads, and it is DONE. */
  lemma DedupeIsExact(ops: seq<Op>, user: UserId, hash: string)
    ensures var db := Replay(ops); var judged := Judged(db.submissions, user, hash);
      match LatestVerdictForHash(db, user, hash)
      case Err(_) => false
      case Ok(None) => judged == {}
      case Ok(Some(s)) =>
        && s.id in judged && (forall x :: x in judged ==> x <= s.id)
        && ReadSubmission(db, s.id) == Ok(s)
        && s.userId == user && s.sourceHash == hash && s.status == Done && s.verdict.Some?
  {
    var db := Replay(ops);
    ReachableInv(ops);
    var judged := Judged(db.submissions, user, hash);
    if judged != {} {
      LastIsGreatest(judged);
      var last := Sorted(judged)[|Sorted(judged)| - 1];
      var row := db.submissions[last];
      RowDecodes(last, row);
      assert RowOk(row);
      StatusTextInjective(IntoSubmission(last, row).value.status, Done);
      hide IntoSubmission, StatusText;
    }
  }

  /** A hit never goes away: after any further requests there is still one, with an id at least as large. */
  lemma DedupeIsMonotone(ops: seq<Op>, more: seq<Op>, user: UserId, hash: string)
    requires var r := LatestVerdictForHash(Replay(ops), user, hash); r.Ok? && r.value.Some?
    ensures var r := LatestVerdictForHash(Replay(ops + more), user, hash);
      r.Ok? && r.value.Some? && r.value.value.id >= LatestVerdictForHash(Replay(ops), user, hash).value.value.id
  {
    var db, db' := Replay(ops), Replay(ops + more);
    DedupeIsExact(ops, user, hash);
    DedupeIsExact(ops + more, user, hash);
    ReachableInv(ops);
    RunConcat(EMPTY, ops, more);
    RunKeeps(db, more);
    var id := LatestVerdictForHash(db, user, hash).value.value.id;
    assert db'.submissions[id] == db.submissions[id] by {
      assert RowOk(db.submissions[id]);
      assert RowExtends(db.submissions[id], db'.submissions[id]);
    }
    assert id in Judged(db'.submissions, user, hash);
    hide LatestVerdictForHash, Judged, Inv;
  }

  // The history query.

  lemma NewestAreDescending(subs: SubmissionTable, user: UserId, k: nat)
    ensures var all, ids := Sorted(OfUser(subs, user)), NewestIds(subs, user, k);
      && |ids| == Min(k, |OfUser(subs, user)|) <= |all|
      && forall i :: 0 <= i < |ids| ==> ids[i] == all[|all| - 1 - i]
  {
    hide OfUser;
  }

  /** With limit k the history is the k greatest ids of the user, newest first. */
  lemma HistoryIsNewest(subs: SubmissionTable, user: UserId, k: nat)
    ensures var ids := NewestIds(subs, user, k);
      && |ids| == Min(k, |OfUser(subs, user)|)
      && (forall i, j :: 0 <= i < j < |ids| ==> ids[i] > ids[j])
      && (forall i :: 0 <= i < |ids| ==> ids[i] in OfUser(subs, user))
      && (forall x, i :: x in OfUser(subs, user) && x !in ids && 0 <= i < |ids| ==> x < ids[i])
  {
    hide OfUser, NewestIds;
    var all := Sorted(OfUser(subs, user));
    var ids := NewestIds(subs, user, k);
    NewestAreDescending(subs, user, k);
    forall i, j | 0 <= i < j < |ids| ensures ids[i] > ids[j] {
      assert Below(all[|all| - 1 - j], all[|all| - 1 - i]);
    }
    forall i | 0 <= i < |ids| ensures ids[i] in OfUser(subs, user) {
      assert all[|all| - 1 - i] in all;
    }
    forall x, i | x in OfUser(subs, user) && x !in ids && 0 <= i < |ids| ensures x < ids[i] {
      OlderIsSmaller(all, ids, x, i);
    }
  }

  lemma OlderIsSmaller(all: seq<SubmissionId>, ids: seq<SubmissionId>, x: SubmissionId, i: nat)
    requires Increasing(Below, all) && |ids| <= |all| && i < |ids|
    requires forall j :: 0 <= j < |ids| ==> ids[j] == all[|all| - 1 - j]
    requires x in all && x !in ids
    ensures x < ids[i]
  {
    var p :| 0 <= p < |all| && all[p] == x;
    assert p < |all| - |ids| by {
      forall q | |all| - |ids| <= q < |all| ensures all[q] in ids {
        assert ids[|all| - 1 - q] == all[q];
      }
    }
    assert Below(all[p], all[|all| - 1 - i]);
  }

  lemma ReadAllPrefix(subs: SubmissionTable, ids: seq<SubmissionId>, k: nat)
    requires SubmissionsOk(subs) && k <= |ids|
    requires forall i :: 0 <= i < |ids| ==> ids[i] in subs
    ensures ReadAll(subs, ids).Ok? && ReadAll(subs, ids[..k]).Ok?
    ensures |ReadAll(subs, ids).value| == |ids| && ReadAll(subs, ids[..k]).value == ReadAll(subs, ids).value[..k]
  {
    hide RowOk, IntoSubmission;
    ReadAllOk(subs, ids);
    ReadAllOk(subs, ids[..k]);
    var small, large := ReadAll(subs, ids[..k]).value, ReadAll(subs, ids).value;
    forall i | 0 <= i < k ensures small[i] == large[i] {
      assert ids[..k][i] == ids[i];
    }
  }

  /** A smaller limit reads a prefix of what a larger limit reads. */
  lemma HistoryPrefix(ops: seq<Op>, user: UserId, k: u32, m: u32)
    requires k <= m
    ensures var small, large := SubmissionsForUser(Replay(ops), user, k), SubmissionsForUser(Replay(ops), user, m);
      small.Ok? && large.Ok? && |small.value| <= |large.value| && small.value == large.value[..|small.value|]
  {
    var subs := Replay(ops).submissions;
    ReachableInv(ops);
    hide SubmissionsOk, Replay, ReadAll;
    var a, b := NewestIds(subs, user, k as nat), NewestIds(subs, user, m as nat);
    assert a == b[..|a|];
    ReadAllPrefix(subs, b, |a|);
  }

  lemma ReadAllReads(db: Db, ids: seq<SubmissionId>)
    requires SubmissionsOk(db.submissions) && forall i :: 0 <= i < |ids| ==> ids[i] in db.submissions
    ensures var r := ReadAll(db.submissions, ids);
      && r.Ok? && |r.value| == |ids|
      && forall i :: 0 <= i < |ids| ==> r.value[i].id == ids[i] && ReadSubmission(db, ids[i]) == Ok(r.value[i])
  {
    hide IntoSubmission, RowOk;
    ReadAllOk(db.submissions, ids);
    forall i | 0 <= i < |ids| ensures ReadAll(db.submissions, ids).value[i].id == ids[i] {
      assert RowOk(db.submissions[ids[i]]);
      RowDecodes(ids[i], db.submissions[ids[i]]);
    }
  }

  lemma NewestRead(db: Db, user: UserId, ids: seq<SubmissionId>)
    requires SubmissionsOk(db.submissions)
    requires forall i :: 0 <= i < |ids| ==> ids[i] in db.submissions && ids[i] in OfUser(db.submissions, user)
    ensures var r := ReadAll(db.submissions, ids);
      && r.Ok? && |r.value| == |ids|
      && forall i :: 0 <= i < |ids| ==>
           r.value[i].id == ids[i] && r.value[i].userId == user && ReadSubmission(db, r.value[i].id) == Ok(r.value[i])
  {
    ReadAllReads(db, ids);
    var r := ReadAll(db.submissions, ids);
    hide IntoSubmission, RowOk, ReadAll;
    forall i | 0 <= i < |ids| ensures r.value[i].userId == user {
      assert RowOk(db.submissions[ids[i]]);
      RowDecodes(ids[i], db.submissions[ids[i]]);
    }
  }

  /** The history read itself: the user's newest submissions, as each of them reads, and only older ones are missing, for lack of room. */
  lemma HistoryReads(ops: seq<Op>, user: UserId, limit: u32)
    ensures var db := Replay(ops); var r := SubmissionsForUser(db, user, limit);
      && r.Ok? && |r.value| <= limit as nat
      && (forall i, j :: 0 <= i < j < |r.value| ==> r.value[i].id > r.value[j].id)
      && (forall i :: 0 <= i < |r.value| ==> r.value[i].userId == user && ReadSubmission(db, r.value[i].id) == Ok(r.value[i]))
      && (forall x :: x in db.submissions && db.submissions[x].userId == user && (forall i :: 0 <= i < |r.value| ==> r.value[i].id != x) ==>
            |r.value| == limit as nat && forall i :: 0 <= i < |r.value| ==> x < r.value[i].id)
  {
    hide *;
    var db, ids := Replay(ops), NewestIds(Replay(ops).submissions, user, limit as nat);
    ReachableInv(ops);
    SubmissionsOkInInv(db);
    HistoryIsNewest(db.submissions, user, limit as nat);
    HistoryIsReadAll(db, user, limit);
    NewestRead(db, user, ids);
    var r := SubmissionsForUser(db, user, limit);
    forall x | x in db.submissions && db.submissions[x].userId == user && (forall i :: 0 <= i < |r.value| ==> r.value[i].id != x)
      ensures |r.value| == limit as nat && forall i :: 0 <= i < |r.value| ==> x < r.value[i].id
    {
      forall i | 0 <= i < |ids| ensures ids[i] != x {
        assert r.value[i].id == ids[i];
      }
      MissingIsOlder(db.submissions, user, ids, limit as nat, x);
    }
  }

  lemma SubmissionsOkInInv(db: Db)
    requires Inv(db)
    ensures SubmissionsOk(db.submissions)
  {
  }

  lemma HistoryIsReadAll(db: Db, user: UserId, limit: u32)
    ensures SubmissionsForUser(db, user, limit) == ReadAll(db.submissions, NewestIds(db.submissions, user, limit as nat))
    ensures |NewestIds(db.submissions, user, limit as nat)| <= limit as nat
  {
    HistoryIsNewest(db.submissions, user, limit as nat);
    hide ReadAll, NewestIds;
  }

  lemma MissingIsOlder(subs: SubmissionTable, user: UserId, ids: seq<SubmissionId>, k: nat, x: SubmissionId)
    requires ids == NewestIds(subs, user, k)
    requires x in subs && subs[x].userId == user && forall i :: 0 <= i < |ids| ==> ids[i] != x
    ensures |ids| == k && forall i :: 0 <= i < |ids| ==> x < ids[i]
  {
    HistoryIsNewest(subs, user, k);
    hide NewestIds;
    assert x in OfUser(subs, user) && x !in ids;
    hide OfUser;
    AllFit(OfUser(subs, user), ids, x);
  }

  /** A list that has as many elements as the set has misses none of them. */
  lemma AllFit(all: set<int>, ids: seq<int>, x: int)
    requires (forall i, j :: 0 <= i < j < |ids| ==> ids[i] > ids[j]) && (forall i :: 0 <= i < |ids| ==> ids[i] in all)
    requires x in all && x !in ids
    ensures |ids| < |all|
  {
    DistinctCount(ids);
    var listed := set i | i in ids;
    assert listed <= all - {x};
    FewerElements(listed, all - {x});
  }

  lemma {:induction false} DistinctCount(ids: seq<int>)
    requires forall i, j :: 0 <= i < j < |ids| ==> ids[i] > ids[j]
    ensures |set i | i in ids| == |ids|
  {
    if ids != [] {
      var n := |ids| - 1;
      DistinctCount(ids[..n]);
      assert ids[n] !in ids[..n];
      assert (set i | i in ids) == (set i | i in ids[..n]) + {ids[n]};
    }
  }

  lemma FewerElements(a: set<int>, b: set<int>)
    requires a <= b
    ensures |a| <= |b|
  {
    assert b == a + (b - a) && a * (b - a) == {};
  }

  /** The recovery scan: in id order, every submission that is not DONE, and no other, each as it reads. */
  lemma InFlightIsExact(ops: seq<Op>)
    ensures var db := Replay(ops); var r := InFlightSubmissions(db);
      && r.Ok?
      && (forall i, j :: 0 <= i < j < |r.value| ==> r.value[i].id < r.value[j].id)
      && (forall i :: 0 <= i < |r.value| ==> r.value[i].status != Done && ReadSubmission(db, r.value[i].id) == Ok(r.value[i]))
      && (forall id :: ReadSubmission(db, id).Ok? && ReadSubmission(db, id).value.status != Done ==>
            exists i :: 0 <= i < |r.value| && r.value[i].id == id)
  {
    var db, ids := Replay(ops), OpenIds(Replay(ops).submissions);
    ReachableInv(ops);
    ReadAllReads(db, ids);
    var r := InFlightSubmissions(db);
    hide Replay, OpenIds, IntoSubmission, RowOk, StatusText;
    forall i, j | 0 <= i < j < |r.value| ensures r.value[i].id < r.value[j].id {
      assert Below(ids[i], ids[j]);
    }
    forall i | 0 <= i < |r.value| ensures r.value[i].status != Done && ReadSubmission(db, r.value[i].id) == Ok(r.value[i]) {
      assert ids[i] in ids && RowOk(db.submissions[ids[i]]);
      RowDecodes(ids[i], db.submissions[ids[i]]);
    }
    forall id | ReadSubmission(db, id).Ok? && ReadSubmission(db, id).value.status != Done
      ensures exists i :: 0 <= i < |r.value| && r.value[i].id == id
    {
      assert RowOk(db.submissions[id]);
      RowDecodes(id, db.submissions[id]);
      StatusTextInjective(ReadSubmission(db, id).value.status, Done);
      assert id in ids;
      var i :| 0 <= i < |ids| && ids[i] == id;
      assert r.value[i].id == id;
    }
  }
}
