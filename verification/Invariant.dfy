/** What every operation keeps, in one state and from one state to the next. */
module Invariant {
  import opened Prelude
  import opened Codes
  import opened Tables
  import opened Operations

  type UserTable = map<UserId, UserRecord>
  type ProblemTable = map<ProblemId, ProblemRecord>
  type SubmissionTable = map<SubmissionId, SubmissionRecord>
  type RunTable = map<RunId, RunRecord>
  type ProgressTable = map<Pair, ProgressRecord>

  /** The lifecycle columns of one row agree with each other, and every text column decodes. */
  ghost predicate RowOk(row: SubmissionRecord) {
    && ParseStatus(row.status).Some?
    && ParseLanguage(row.language).Some?
    && (row.verdict.Some? ==> ParseVerdict(row.verdict.value).Some?)
    && (row.startedAt.Some? <==> row.status != StatusText(Queued))
    && (row.verdict.Some? <==> row.finishedAt.Some?)
    && (row.verdict.Some? ==> row.status == StatusText(Done))
  }

  ghost predicate RunOk(row: RunRecord) {
    && 0 <= row.attempt < 0x1_0000_0000
    && (row.verdict.Some? ==> ParseVerdict(row.verdict.value).Some?)
    && (row.exitCode.Some? ==> -0x8000_0000 <= row.exitCode.value < 0x8000_0000)
    && (row.bootMs.Some? ==> 0 <= row.bootMs.value < 0x1_0000_0000)
    && (row.buildMs.Some? ==> 0 <= row.buildMs.value < 0x1_0000_0000)
    && (row.runMs.Some? ==> 0 <= row.runMs.value < 0x1_0000_0000)
  }

  ghost predicate UsersOk(users: UserTable) {
    && (forall u :: u in users ==> ParseRole(users[u].role).Some?)
    && (forall a, b :: a in users && b in users && a != b ==>
          users[a].handle != users[b].handle && users[a].email != users[b].email)
  }

  ghost predicate SubmissionsOk(subs: SubmissionTable) {
    forall s :: s in subs ==> RowOk(subs[s])
  }

  ghost predicate RunsOk(runs: RunTable) {
    && (forall r :: r in runs ==> RunOk(runs[r]))
    && (forall a, b :: a in runs && b in runs && a != b ==>
          runs[a].submissionId != runs[b].submissionId || runs[a].attempt != runs[b].attempt)
  }

  ghost predicate SubmissionKeys(subs: SubmissionTable, users: UserTable, problems: ProblemTable) {
    forall s :: s in subs ==> subs[s].userId in users && subs[s].problemId in problems
  }

  ghost predicate RunKeys(runs: RunTable, subs: SubmissionTable) {
    forall r :: r in runs ==> runs[r].submissionId in subs
  }

  ghost predicate ProgressKeys(progress: ProgressTable, users: UserTable, problems: ProblemTable) {
    forall k :: k in progress ==> k.0 in users && k.1 in problems
  }

  ghost predicate ForeignKeysOk(db: Db) {
    && SubmissionKeys(db.submissions, db.users, db.problems)
    && RunKeys(db.runs, db.submissions)
    && ProgressKeys(db.progress, db.users, db.problems)
  }

  ghost predicate HasVerdict(row: SubmissionRecord, v: Verdict) {
    row.verdict == Some(VerdictText(v))
  }

  /** The row carries a verdict that is not SE or IE. */
  ghost predicate CountsRow(row: SubmissionRecord) {
    exists v: Verdict :: HasVerdict(row, v) && v.Counts()
  }

  ghost function Counted(subs: SubmissionTable, key: Pair): set<SubmissionId> {
    set s | s in subs && subs[s].Key() == key && CountsRow(subs[s])
  }

  ghost function Accepted(subs: SubmissionTable, key: Pair): set<SubmissionId> {
    set s | s in subs && subs[s].Key() == key && HasVerdict(subs[s], Ac)
  }

  /** Some accepted submission of the pair finished at exactly this instant. */
  ghost predicate SolvedBy(subs: SubmissionTable, key: Pair, at: Option<Timestamp>) {
    exists s :: s in subs && s in Accepted(subs, key) && subs[s].finishedAt == at
  }

  /** A pair has a row exactly when it has a counted submission, and the row counts them. */
  ghost predicate RowAgrees(row: Option<ProgressRecord>, counted: set<SubmissionId>, accepted: set<SubmissionId>) {
    && (row.Some? <==> counted != {})
    && (row.Some? ==> row.value.attempts == |counted|)
    && (row.Some? ==> (row.value.solvedAt.None? <==> accepted == {}))
  }

  /** The progress row of a pair says about its submissions what the submissions table says. */
  ghost predicate PairAgrees(subs: SubmissionTable, progress: ProgressTable, key: Pair) {
    var row := Lookup(progress, key);
    && RowAgrees(row, Counted(subs, key), Accepted(subs, key))
    && (row.Some? && row.value.solvedAt.Some? ==> SolvedBy(subs, key, row.value.solvedAt))
  }

  ghost predicate ProgressAgrees(subs: SubmissionTable, progress: ProgressTable) {
    forall key :: PairAgrees(subs, progress, key)
  }

  ghost predicate Inv(db: Db) {
    && UsersOk(db.users) && SubmissionsOk(db.submissions) && RunsOk(db.runs)
    && ForeignKeysOk(db)
    && ProgressAgrees(db.submissions, db.progress)
  }

  // One state to the next.

  /** Identity and history of a row are fixed; its lifecycle columns only fill in. */
  ghost predicate RowExtends(a: SubmissionRecord, b: SubmissionRecord) {
    && b.Key() == a.Key() && b.language == a.language && b.sourceHash == a.sourceHash && b.sourceUri == a.sourceUri
    && b.createdAt == a.createdAt
    && (a.startedAt.Some? ==> b.startedAt == a.startedAt)
    && (a.status == StatusText(Done) ==> b == a)
    && (a.status != StatusText(Queued) ==> b.status != StatusText(Queued))
  }

  ghost predicate UsersExtend(a: UserTable, b: UserTable) {
    forall u :: u in a ==> u in b && b[u] == a[u]
  }

  ghost predicate SubmissionsExtend(a: SubmissionTable, b: SubmissionTable) {
    forall s :: s in a ==> s in b && RowExtends(a[s], b[s])
  }

  ghost predicate RunsExtend(a: RunTable, b: RunTable) {
    forall r :: r in a ==> r in b && b[r] == a[r]
  }

  /** Attempts never drop, and `solvedAt` never changes once set. */
  ghost predicate ProgressExtends(a: ProgressTable, b: ProgressTable) {
    forall k :: k in a ==> k in b && a[k].attempts <= b[k].attempts && (a[k].solvedAt.Some? ==> b[k].solvedAt == a[k].solvedAt)
  }

  ghost predicate Extends(a: Db, b: Db) {
    && UsersExtend(a.users, b.users) && SubmissionsExtend(a.submissions, b.submissions)
    && RunsExtend(a.runs, b.runs) && ProgressExtends(a.progress, b.progress)
  }

  lemma ExtendsReflexive(a: Db)
    ensures Extends(a, a)
  {
    hide StatusText;
  }

  lemma ExtendsTransitive(a: Db, b: Db, c: Db)
    requires Extends(a, b) && Extends(b, c)
    ensures Extends(a, c)
  {
    hide StatusText;
    forall s | s in a.submissions ensures s in c.submissions && RowExtends(a.submissions[s], c.submissions[s]) {
      assert s in b.submissions && RowExtends(a.submissions[s], b.submissions[s]);
      assert RowExtends(b.submissions[s], c.submissions[s]);
    }
  }

  // Each operation keeps the invariant.

  /** Rows without a verdict do not enter the aggregates. */
  lemma AggregateFrame(subs: SubmissionTable, subs': SubmissionTable, id: SubmissionId, key: Pair)
    requires subs'.Keys == subs.Keys + {id}
    requires forall s :: s in subs && s != id ==> subs'[s] == subs[s]
    requires id in subs ==> subs[id].verdict.None?
    requires subs'[id].verdict.None?
    ensures Counted(subs', key) == Counted(subs, key)
    ensures Accepted(subs', key) == Accepted(subs, key)
    ensures forall at :: SolvedBy(subs, key, at) ==> SolvedBy(subs', key, at)
  {
    hide VerdictText;
    assert !CountsRow(subs'[id]) && !HasVerdict(subs'[id], Ac);
    assert id in subs ==> !CountsRow(subs[id]) && !HasVerdict(subs[id], Ac);
    forall s ensures s in Counted(subs', key) <==> s in Counted(subs, key) {}
    forall s ensures s in Accepted(subs', key) <==> s in Accepted(subs, key) {}
    forall at | SolvedBy(subs, key, at) ensures SolvedBy(subs', key, at) {
      var s :| s in subs && s in Accepted(subs, key) && subs[s].finishedAt == at;
      assert s in subs' && s in Accepted(subs', key);
    }
  }

  lemma UnfinishedKeepsProgress(subs: SubmissionTable, subs': SubmissionTable, progress: ProgressTable, id: SubmissionId)
    requires ProgressAgrees(subs, progress)
    requires subs'.Keys == subs.Keys + {id}
    requires forall s :: s in subs && s != id ==> subs'[s] == subs[s]
    requires id in subs ==> subs[id].verdict.None?
    requires subs'[id].verdict.None?
    ensures ProgressAgrees(subs', progress)
  {
    forall key ensures PairAgrees(subs', progress, key) {
      assert PairAgrees(subs, progress, key);
      AggregateFrame(subs, subs', id, key);
      hide Counted, Accepted, SolvedBy;
    }
  }

  lemma InsertUserKeeps(users: UserTable, id: UserId, u: NewUser, now: Timestamp)
    requires UsersOk(users) && id !in users
    requires forall o :: o in users ==> users[o].handle != u.handle && users[o].email != u.email
    ensures UsersOk(users[id := UserRow(u, now)])
  {
    hide RoleText, ParseRole;
    assert ParseRole(RoleText(u.role)) == Some(u.role);
  }

  lemma CreateUserKeeps(db: Db, op: Op)
    requires Inv(db) && op.CreateUser?
    ensures Inv(Exec(db, op).db) && Extends(db, Exec(db, op).db)
  {
    hide UsersOk, SubmissionsOk, RunsOk, ProgressAgrees, SubmissionsExtend, RunsExtend, ProgressExtends, UserRow;
    ExtendsReflexive(db);
    if Exec(db, op).reply.UserCreated? {
      InsertUserKeeps(db.users, op.userId, op.user, op.now);
    }
  }

  lemma ReplaceProblemsKeeps(db: Db, op: Op)
    requires Inv(db) && op.ReplaceProblems?
    ensures Inv(Exec(db, op).db) && Extends(db, Exec(db, op).db)
  {
    hide StatusText, UsersOk, SubmissionsOk, RunsOk, ProgressAgrees;
    var db' := Exec(db, op).db;
    ExtendsReflexive(db);
    if Exec(db, op).reply.Completed? {
      CatalogKeys(op.rows);
      forall s | s in db.submissions ensures db.submissions[s].problemId in db'.problems {
        assert Referenced(db, db.submissions[s].problemId);
      }
      forall k | k in db.progress ensures k.1 in db'.problems {
        assert Referenced(db, k.1);
      }
    }
  }

  lemma QueuedRowOk(s: NewSubmission, now: Timestamp)
    ensures RowOk(QueuedRow(s, now)) && QueuedRow(s, now).verdict.None?
  {
    hide StatusText, LanguageText, ParseStatus, ParseLanguage, ParseVerdict;
    assert ParseStatus(StatusText(Queued)) == Some(Queued);
    assert ParseLanguage(LanguageText(s.language)) == Some(s.language);
  }

  lemma CreateSubmissionKeeps(db: Db, op: Op)
    requires Inv(db) && op.CreateSubmission?
    ensures Inv(Exec(db, op).db) && Extends(db, Exec(db, op).db)
  {
    hide StatusText, LanguageText, RowOk, UsersOk, RunsOk, ProgressKeys;
    ExtendsReflexive(db);
    if Exec(db, op).reply.SubmissionCreated? {
      QueuedRowOk(op.submission, op.now);
      UnfinishedKeepsProgress(db.submissions, Exec(db, op).db.submissions, db.progress, op.id);
      hide ProgressAgrees;
    }
  }

  lemma MovedRow(row: SubmissionRecord, next: Status, now: Timestamp)
    requires RowOk(row) && ParseStatus(row.status).value.CanTransitionTo(next)
    ensures row.verdict.None? && Moved(row, next, now).verdict.None?
    ensures RowOk(Moved(row, next, now)) && RowExtends(row, Moved(row, next, now)) && Moved(row, next, now).Key() == row.Key()
  {
    hide StatusText, VerdictText, LanguageText, ParseStatus, ParseVerdict, ParseLanguage;
    assert ParseStatus(StatusText(next)) == Some(next) && ParseStatus(StatusText(Done)) == Some(Done);
    assert next != Queued;
    StatusTextInjective(next, Queued);
  }

  lemma SetStatusKeeps(db: Db, op: Op)
    requires Inv(db) && op.SetStatus?
    ensures Inv(Exec(db, op).db) && Extends(db, Exec(db, op).db)
  {
    hide RowOk, RowExtends, ParseStatus, Moved, UsersOk, RunsOk, ProgressKeys;
    ExtendsReflexive(db);
    if Exec(db, op).reply.Completed? {
      var row := db.submissions[op.id];
      MovedRow(row, op.status, op.now);
      UnfinishedKeepsProgress(db.submissions, Exec(db, op).db.submissions, db.progress, op.id);
      hide ProgressAgrees;
    }
  }

  lemma RunRowOk(r: NewRun, now: Timestamp)
    ensures RunOk(RunRow(r, now))
  {
    hide VerdictText, ParseVerdict;
    if r.verdict.Some? {
      assert ParseVerdict(VerdictText(r.verdict.value)) == r.verdict;
    }
  }

  lemma RecordRunKeeps(db: Db, op: Op)
    requires Inv(db) && op.RecordRun?
    ensures Inv(Exec(db, op).db) && Extends(db, Exec(db, op).db)
  {
    hide StatusText, VerdictText, RunOk, UsersOk, SubmissionsOk, ProgressAgrees, ProgressKeys;
    ExtendsReflexive(db);
    RunRowOk(op.run, op.now);
  }

  /** Finishing one row adds it, and nothing else, to the aggregates of its own pair. */
  lemma FinishAggregates(subs: SubmissionTable, id: SubmissionId, v: Verdict, now: Timestamp, key: Pair)
    requires id in subs && subs[id].verdict.None?
    ensures var subs' := subs[id := Finished(subs[id], v, now)];
      var mine := subs[id].Key() == key;
      && id !in Counted(subs, key) && id !in Accepted(subs, key)
      && Counted(subs', key) == Counted(subs, key) + (if mine && v.Counts() then {id} else {})
      && Accepted(subs', key) == Accepted(subs, key) + (if mine && v.IsAccepted() then {id} else {})
  {
    hide StatusText, VerdictText;
    var subs' := subs[id := Finished(subs[id], v, now)];
    assert HasVerdict(subs'[id], v);
    forall w: Verdict | HasVerdict(subs'[id], w) ensures w == v {
      VerdictTextInjective(w, v);
    }
    assert CountsRow(subs'[id]) <==> v.Counts();
    assert HasVerdict(subs'[id], Ac) <==> v.IsAccepted();
    assert !CountsRow(subs[id]) && !HasVerdict(subs[id], Ac);
  }

  lemma AcceptedIsCounted(subs: SubmissionTable, key: Pair)
    ensures Accepted(subs, key) <= Counted(subs, key)
  {
    hide VerdictText;
    forall s | s in Accepted(subs, key) ensures s in Counted(subs, key) {
      assert HasVerdict(subs[s], Ac) && Ac.Counts();
    }
  }

  lemma CreditAgrees(row: Option<ProgressRecord>, c: set<SubmissionId>, a: set<SubmissionId>, id: SubmissionId, v: Verdict, now: Timestamp)
    requires RowAgrees(row, c, a) && a <= c && id !in c && v.Counts()
    ensures RowAgrees(Some(CreditRow(row, v, now)), c + {id}, a + if v.IsAccepted() then {id} else {})
  {
    assert |c + {id}| == |c| + 1;
    if v.IsAccepted() {
      assert id in a + {id};
    } else {
      assert a + {} == a;
    }
  }

  /** The value of `solvedAt` still comes from an accepted row after a finish. */
  lemma FinishKeepsSolved(subs: SubmissionTable, id: SubmissionId, v: Verdict, now: Timestamp, key: Pair)
    requires id in subs && subs[id].verdict.None?
    ensures var subs' := subs[id := Finished(subs[id], v, now)];
      && (forall at :: SolvedBy(subs, key, at) ==> SolvedBy(subs', key, at))
      && (subs[id].Key() == key && v.IsAccepted() ==> SolvedBy(subs', key, Some(now)))
  {
    hide StatusText, VerdictText;
    var subs' := subs[id := Finished(subs[id], v, now)];
    FinishAggregates(subs, id, v, now, key);
    hide Counted, Accepted;
    forall at | SolvedBy(subs, key, at) ensures SolvedBy(subs', key, at) {
      var s :| s in subs && s in Accepted(subs, key) && subs[s].finishedAt == at;
      assert s in subs' && s in Accepted(subs', key) && s != id && subs'[s] == subs[s];
    }
    if subs[id].Key() == key && v.IsAccepted() {
      assert id in subs' && id in Accepted(subs', key) && subs'[id].finishedAt == Some(now);
    }
  }

  lemma FinishKeepsPair(subs: SubmissionTable, progress: ProgressTable, id: SubmissionId, v: Verdict, now: Timestamp, key: Pair)
    requires id in subs && subs[id].verdict.None? && PairAgrees(subs, progress, key)
    ensures PairAgrees(subs[id := Finished(subs[id], v, now)], Credit(progress, subs[id].Key(), v, now), key)
  {
    FinishKeepsSolved(subs, id, v, now, key);
    FinishAggregates(subs, id, v, now, key);
    var c, a, row := Counted(subs, key), Accepted(subs, key), Lookup(progress, key);
    hide Counted, Accepted, SolvedBy, Finished, RowAgrees;
    if subs[id].Key() == key && v.Counts() {
      AcceptedIsCounted(subs, key);
      CreditAgrees(row, c, a, id, v, now);
      assert Lookup(Credit(progress, key, v, now), key) == Some(CreditRow(row, v, now));
    } else {
      assert Lookup(Credit(progress, subs[id].Key(), v, now), key) == row;
      assert c + {} == c && a + {} == a;
    }
  }

  lemma FinishedRow(row: SubmissionRecord, v: Verdict, now: Timestamp)
    requires RowOk(row) && ParseStatus(row.status).value.CanTransitionTo(Done)
    ensures row.verdict.None?
    ensures RowOk(Finished(row, v, now)) && RowExtends(row, Finished(row, v, now)) && Finished(row, v, now).Key() == row.Key()
  {
    hide StatusText, VerdictText, LanguageText, ParseStatus, ParseVerdict, ParseLanguage;
    assert ParseStatus(StatusText(Done)) == Some(Done) && ParseStatus(StatusText(Queued)) == Some(Queued);
    assert ParseVerdict(VerdictText(v)) == Some(v);
  }

  lemma FinishKeeps(db: Db, op: Op)
    requires Inv(db) && op.Finish?
    ensures Inv(Exec(db, op).db) && Extends(db, Exec(db, op).db)
  {
    hide RowOk, RowExtends, ParseStatus, UsersOk, RunsOk, PairAgrees, Finished;
    ExtendsReflexive(db);
    if Exec(db, op).reply.Completed? {
      var db', row := Exec(db, op).db, db.submissions[op.id];
      FinishedRow(row, op.verdict, op.now);
      forall key ensures PairAgrees(db'.submissions, db'.progress, key) {
        FinishKeepsPair(db.submissions, db.progress, op.id, op.verdict, op.now, key);
      }
      hide ProgressAgrees;
    }
  }

  /** Every operation, granted or refused, keeps the invariant and only extends what is recorded. */
  lemma ExecKeeps(db: Db, op: Op)
    requires Inv(db)
    ensures Inv(Exec(db, op).db) && Extends(db, Exec(db, op).db)
  {
    hide Inv, Extends, Exec;
    match op
    case CreateUser(_, _, _) => CreateUserKeeps(db, op);
    case ReplaceProblems(_) => ReplaceProblemsKeeps(db, op);
    case CreateSubmission(_, _, _) => CreateSubmissionKeeps(db, op);
    case SetStatus(_, _, _) => SetStatusKeeps(db, op);
    case Finish(_, _, _) => FinishKeeps(db, op);
    case RecordRun(_, _, _) => RecordRunKeeps(db, op);
  }

  lemma EmptyInv()
    ensures Inv(EMPTY)
  {
    forall key ensures PairAgrees(EMPTY.submissions, EMPTY.progress, key) {
      assert Counted(EMPTY.submissions, key) == {};
    }
  }
}
