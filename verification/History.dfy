/** Whole runs: what holds in every state any sequence of requests can reach, and what a run's log says about it. */
module History {
  import opened Prelude
  import opened Codes
  import opened Tables
  import opened Operations
  import opened Invariant
  import Lifecycle

  /** The state after serving the requests in order; refused requests leave no trace in it. */
  ghost function RunFrom(db: Db, ops: seq<Op>): Db {
    if ops == [] then db else Exec(RunFrom(db, ops[..|ops| - 1]), ops[|ops| - 1]).db
  }

  ghost function Replay(ops: seq<Op>): Db {
    RunFrom(EMPTY, ops)
  }

  ghost function ReplyAt(ops: seq<Op>, i: nat): Reply
    requires i < |ops|
  {
    Exec(Replay(ops[..i]), ops[i]).reply
  }

  lemma ReplayStep(ops: seq<Op>)
    requires ops != []
    ensures Replay(ops) == Exec(Replay(ops[..|ops| - 1]), ops[|ops| - 1]).db
  {
    hide Exec;
  }

  lemma PrefixStep(ops: seq<Op>, i: nat)
    requires i < |ops|
    ensures Replay(ops[..i + 1]) == Exec(Replay(ops[..i]), ops[i]).db
  {
    assert ops[..i + 1][..i] == ops[..i];
    ReplayStep(ops[..i + 1]);
  }

  lemma ReplyOfPrefix(ops: seq<Op>, n: nat, i: nat)
    requires i < n <= |ops|
    ensures ops[..n][i] == ops[i] && ReplyAt(ops[..n], i) == ReplyAt(ops, i)
  {
    assert ops[..n][..i] == ops[..i];
  }

  /** Any further requests keep the invariant and only extend what is recorded. */
  lemma {:induction false} RunKeeps(db: Db, ops: seq<Op>)
    requires Inv(db)
    ensures Inv(RunFrom(db, ops)) && Extends(db, RunFrom(db, ops))
  {
    hide Inv, Extends, Exec;
    if ops == [] {
      ExtendsReflexive(db);
    } else {
      var prefix := ops[..|ops| - 1];
      RunKeeps(db, prefix);
      ExecKeeps(RunFrom(db, prefix), ops[|ops| - 1]);
      ExtendsTransitive(db, RunFrom(db, prefix), RunFrom(db, ops));
    }
  }

  /** Every reachable state satisfies the invariant. */
  lemma ReachableInv(ops: seq<Op>)
    ensures Inv(Replay(ops))
  {
    EmptyInv();
    RunKeeps(EMPTY, ops);
  }

  lemma {:induction false} RunConcat(db: Db, a: seq<Op>, b: seq<Op>)
    ensures RunFrom(db, a + b) == RunFrom(RunFrom(db, a), b)
  {
    if b == [] {
      assert a + b == a;
    } else {
      var n := |b| - 1;
      assert (a + b)[..|a + b| - 1] == a + b[..n];
      RunConcat(db, a, b[..n]);
    }
  }

  lemma ReplayExtends(ops: seq<Op>, i: nat, j: nat)
    requires i <= j <= |ops|
    ensures Inv(Replay(ops[..i])) && Extends(Replay(ops[..i]), Replay(ops[..j]))
  {
    hide Inv, Extends, Exec;
    ReachableInv(ops[..i]);
    RunConcat(EMPTY, ops[..i], ops[i..j]);
    assert ops[..i] + ops[i..j] == ops[..j];
    RunKeeps(Replay(ops[..i]), ops[i..j]);
  }

  // Finishing.

  ghost predicate TargetsStatus(op: Op, id: SubmissionId) {
    (op.SetStatus? || op.Finish?) && op.id == id
  }

  ghost function Target(op: Op): Status
    requires op.SetStatus? || op.Finish?
  {
    if op.Finish? then Done else op.status
  }

  lemma CompletedMove(db: Db, op: Op)
    requires Inv(db) && (op.SetStatus? || op.Finish?) && Exec(db, op).reply.Completed?
    ensures op.id in db.submissions && op.id in Exec(db, op).db.submissions
    ensures ParseStatus(db.submissions[op.id].status).value.CanTransitionTo(Target(op))
    ensures Exec(db, op).db.submissions[op.id].status == StatusText(Target(op))
  {
    hide StatusText, ParseStatus, VerdictText;
  }

  lemma DoneRefusesAll(db: Db, op: Op)
    requires op.SetStatus? || op.Finish?
    requires op.id in db.submissions && db.submissions[op.id].status == StatusText(Done)
    ensures Exec(db, op) == Refuse(db, IllegalTransition(op.id, Done, Target(op)))
  {
    hide StatusText, ParseStatus;
    assert ParseStatus(StatusText(Done)) == Some(Done);
  }

  /** Of all the finishes of one submission at most one succeeds; every later move of it is refused and changes nothing. */
  lemma FinishOnce(ops: seq<Op>, i: nat, j: nat)
    requires i < j < |ops| && ops[i].Finish? && TargetsStatus(ops[j], ops[i].id)
    requires ReplyAt(ops, i).Completed?
    ensures ReplyAt(ops, j) == Refused(IllegalTransition(ops[i].id, Done, Target(ops[j])))
    ensures Replay(ops[..j + 1]) == Replay(ops[..j])
  {
    hide Exec, Inv, StatusText, RunFrom;
    ReachableInv(ops[..i]);
    CompletedMove(Replay(ops[..i]), ops[i]);
    PrefixStep(ops, i);
    PrefixStep(ops, j);
    ReplayExtends(ops, i + 1, j);
    assert RowExtends(Replay(ops[..i + 1]).submissions[ops[i].id], Replay(ops[..j]).submissions[ops[i].id]);
    DoneRefusesAll(Replay(ops[..j]), ops[j]);
  }

  // Progress as a fold over the log.

  /** The request is a granted finish that counts for this pair. */
  ghost predicate CountsFor(db: Db, op: Op, key: Pair) {
    && op.Finish? && Exec(db, op).reply.Completed?
    && op.id in db.submissions && db.submissions[op.id].Key() == key && op.verdict.Counts()
  }

  ghost function CountedFinishes(ops: seq<Op>, key: Pair): nat {
    if ops == [] then 0
    else
      var n := |ops| - 1;
      CountedFinishes(ops[..n], key) + if CountsFor(Replay(ops[..n]), ops[n], key) then 1 else 0
  }

  /** The clock reading of the first granted AC of the pair, in commit order. */
  ghost function FirstAccept(ops: seq<Op>, key: Pair): Option<Timestamp> {
    if ops == [] then None
    else
      var n := |ops| - 1;
      var earlier := FirstAccept(ops[..n], key);
      if earlier.Some? then earlier
      else if CountsFor(Replay(ops[..n]), ops[n], key) && ops[n].verdict.IsAccepted() then Some(ops[n].now)
      else None
  }

  lemma StepProgress(db: Db, op: Op, key: Pair)
    ensures Lookup(Exec(db, op).db.progress, key)
         == if CountsFor(db, op, key) then Some(CreditRow(Lookup(db.progress, key), op.verdict, op.now))
            else Lookup(db.progress, key)
  {
    hide StatusText, ParseStatus, VerdictText;
  }

  /** The cached progress row is exactly the fold of the log, whatever order the clock readings come in. */
  lemma {:induction false} ProgressIsFold(ops: seq<Op>, key: Pair)
    ensures var n := CountedFinishes(ops, key);
      Lookup(Replay(ops).progress, key) == if n == 0 then None else Some(ProgressRecord(FirstAccept(ops, key), n))
    ensures CountedFinishes(ops, key) == 0 ==> FirstAccept(ops, key).None?
  {
    hide Exec, CountsFor;
    if ops != [] {
      var n := |ops| - 1;
      ProgressIsFold(ops[..n], key);
      ReplayStep(ops);
      StepProgress(Replay(ops[..n]), ops[n], key);
      hide Replay, RunFrom;
    }
  }

  /** ... and the number of granted finishes is the number of submissions that carry a counting verdict. */
  lemma ProgressIsCount(ops: seq<Op>, key: Pair)
    ensures CountedFinishes(ops, key) == |Counted(Replay(ops).submissions, key)|
    ensures FirstAccept(ops, key).None? <==> Accepted(Replay(ops).submissions, key) == {}
  {
    ProgressIsFold(ops, key);
    ReachableInv(ops);
    var db := Replay(ops);
    assert PairAgrees(db.submissions, db.progress, key);
    AcceptedIsCounted(db.submissions, key);
    hide Counted, Accepted, Exec;
  }

  lemma CountsByText(row: SubmissionRecord)
    requires RowOk(row)
    ensures CountsRow(row) <==> row.verdict.Some? && row.verdict.value != "SE" && row.verdict.value != "IE"
    ensures HasVerdict(row, Ac) <==> row.verdict == Some("AC")
  {
    assert VerdictText(Se) == "SE" && VerdictText(Ie) == "IE" && VerdictText(Ac) == "AC";
    hide VerdictText, ParseVerdict, StatusText, ParseStatus, ParseLanguage;
    if row.verdict.Some? {
      var v := ParseVerdict(row.verdict.value).value;
      assert HasVerdict(row, v);
      WhatCounts(v);
      VerdictTextInjective(v, Se);
      VerdictTextInjective(v, Ie);
      if w: Verdict :| HasVerdict(row, w) && w.Counts() {
        VerdictTextInjective(v, w);
      }
    }
  }

  /** Attempts, in the words of the table: the pair's submissions with a verdict other than SE and IE. Solved means one of them says AC. */
  lemma AttemptsAreJudged(ops: seq<Op>, user: UserId, problem: ProblemId)
    ensures var db := Replay(ops); var row := Lookup(db.progress, (user, problem));
      var mine := set s | s in db.submissions && db.submissions[s].userId == user && db.submissions[s].problemId == problem;
      var judged := set s | s in mine && db.submissions[s].verdict.Some?
                      && db.submissions[s].verdict.value != "SE" && db.submissions[s].verdict.value != "IE";
      && (row.Some? <==> judged != {})
      && (row.Some? ==> row.value.attempts == |judged|)
      && (row.Some? ==> (row.value.solvedAt.Some? <==> exists s :: s in mine && db.submissions[s].verdict == Some("AC")))
      && (row.Some? && row.value.solvedAt.Some? ==>
            exists s :: s in mine && db.submissions[s].verdict == Some("AC") && db.submissions[s].finishedAt == row.value.solvedAt)
  {
    var db, key := Replay(ops), (user, problem);
    ReachableInv(ops);
    assert PairAgrees(db.submissions, db.progress, key);
    CountedByText(db.submissions, user, problem);
    hide Replay, Counted, Accepted, UsersOk, RunsOk, ForeignKeysOk, SubmissionsOk, ProgressAgrees;
    var mine := set s | s in db.submissions && db.submissions[s].userId == user && db.submissions[s].problemId == problem;
    assert forall s :: s in Accepted(db.submissions, key) <==> s in mine && db.submissions[s].verdict == Some("AC");
  }

  lemma CountedByText(subs: SubmissionTable, user: UserId, problem: ProblemId)
    requires SubmissionsOk(subs)
    ensures var mine := set s | s in subs && subs[s].userId == user && subs[s].problemId == problem;
      && Counted(subs, (user, problem))
           == (set s | s in mine && subs[s].verdict.Some? && subs[s].verdict.value != "SE" && subs[s].verdict.value != "IE")
      && forall s :: s in Accepted(subs, (user, problem)) <==> s in mine && subs[s].verdict == Some("AC")
  {
    hide RowOk, CountsRow, HasVerdict;
    forall s | s in subs
      ensures CountsRow(subs[s]) <==> subs[s].verdict.Some? && subs[s].verdict.value != "SE" && subs[s].verdict.value != "IE"
      ensures HasVerdict(subs[s], Ac) <==> subs[s].verdict == Some("AC")
    {
      CountsByText(subs[s]);
    }
    var mine := set s | s in subs && subs[s].userId == user && subs[s].problemId == problem;
    var judged := set s | s in mine && subs[s].verdict.Some? && subs[s].verdict.value != "SE" && subs[s].verdict.value != "IE";
    forall s ensures s in Counted(subs, (user, problem)) <==> s in judged {
    }
  }

  /** The judge's and the author's failures leave every progress row alone. */
  lemma InfrastructureFinishIsFree(db: Db, op: Op)
    requires op.Finish? && (op.verdict == Se || op.verdict == Ie)
    ensures Exec(db, op).db.progress == db.progress
  {
    hide ParseStatus, StatusText, VerdictText, Finished;
    WhatCounts(op.verdict);
  }

  /** Once `solvedAt` is set, no later requests change it. */
  lemma SolvedAtIsFinal(ops: seq<Op>, more: seq<Op>, key: Pair)
    requires FirstAccept(ops, key).Some?
    ensures key in Replay(ops + more).progress && Replay(ops + more).progress[key].solvedAt == FirstAccept(ops, key)
  {
    hide Inv, Exec;
    ProgressIsFold(ops, key);
    ReachableInv(ops);
    RunConcat(EMPTY, ops, more);
    RunKeeps(Replay(ops), more);
  }

  // When a submission started.

  function StartedAt(db: Db, id: SubmissionId): Option<Timestamp> {
    if id in db.submissions then db.submissions[id].startedAt else None
  }

  ghost predicate IsMove(db: Db, op: Op, id: SubmissionId) {
    op.SetStatus? && op.id == id && Exec(db, op).reply.Completed?
  }

  /** The clock reading of the first granted move of the submission, in commit order. */
  ghost function FirstMove(ops: seq<Op>, id: SubmissionId): Option<Timestamp> {
    if ops == [] then None
    else
      var n := |ops| - 1;
      var earlier := FirstMove(ops[..n], id);
      if earlier.Some? then earlier
      else if IsMove(Replay(ops[..n]), ops[n], id) then Some(ops[n].now)
      else None
  }

  lemma StepStarted(db: Db, op: Op, id: SubmissionId)
    ensures StartedAt(Exec(db, op).db, id)
         == if StartedAt(db, id).Some? then StartedAt(db, id)
            else if IsMove(db, op, id) then Some(op.now)
            else None
  {
    hide StatusText, ParseStatus, VerdictText, LanguageText;
  }

  /** `started_at` is the first granted move, and no retry, recovery or finish restamps it. */
  lemma {:induction false} StartedAtIsFirstMove(ops: seq<Op>, id: SubmissionId)
    ensures StartedAt(Replay(ops), id) == FirstMove(ops, id)
  {
    hide Exec, IsMove, StartedAt;
    if ops == [] {
      NothingStarted(id);
    } else {
      var n := |ops| - 1;
      StartedAtIsFirstMove(ops[..n], id);
      ReplayStep(ops);
      StepStarted(Replay(ops[..n]), ops[n], id);
      hide Replay, RunFrom;
    }
  }

  lemma NothingStarted(id: SubmissionId)
    ensures StartedAt(Replay([]), id).None?
  {
  }

  // DONE without a verdict.

  ghost predicate DoneWithoutVerdict(db: Db, id: SubmissionId) {
    id in db.submissions && db.submissions[id].status == StatusText(Done) && db.submissions[id].verdict.None?
  }

  ghost predicate IsForce(op: Op, id: SubmissionId) {
    op.SetStatus? && op.id == id && op.status.Done?
  }

  /** The submission exists and stands at PREPARING, BUILDING, BOOTING or RUNNING. */
  ghost predicate IsActive(db: Db, id: SubmissionId) {
    && id in db.submissions
    && exists s: Status :: s in [Preparing, Building, Booting, Running] && db.submissions[id].status == StatusText(s)
  }

  ghost predicate ForcedAt(ops: seq<Op>, i: nat, id: SubmissionId)
    requires i < |ops|
  {
    IsForce(ops[i], id) && IsActive(Replay(ops[..i]), id)
  }

  /** Somebody called `set_submission_status` with DONE while the submission was active. */
  ghost predicate ForcedDone(ops: seq<Op>, id: SubmissionId) {
    exists i :: 0 <= i < |ops| && ForcedAt(ops, i, id)
  }

  /** Active is the same as being allowed to move to DONE. */
  lemma ActiveMayFinish(db: Db, id: SubmissionId)
    ensures IsActive(db, id) <==> MoveError(db, id, Done).None?
  {
    var active := [Preparing, Building, Booting, Running];
    assert active[0] == Preparing && active[1] == Building && active[2] == Booting && active[3] == Running;
    hide StatusText, ParseStatus;
    if id in db.submissions {
      var status := db.submissions[id].status;
      if s: Status :| s in active && status == StatusText(s) {
        assert ParseStatus(status) == Some(s);
      }
      if s: Status :| ParseStatus(status) == Some(s) && s.CanTransitionTo(Done) {
        assert s in active && status == StatusText(s);
      }
    }
  }

  /** Such a call is granted exactly on an active submission. */
  lemma ForceIsGrantedIffActive(db: Db, op: Op, id: SubmissionId)
    requires IsForce(op, id)
    ensures Exec(db, op).reply.Completed? <==> IsActive(db, id)
  {
    ActiveMayFinish(db, id);
    hide IsActive, MoveError;
  }

  lemma StepDone(db: Db, op: Op, id: SubmissionId)
    requires Inv(db)
    ensures DoneWithoutVerdict(Exec(db, op).db, id) <==> DoneWithoutVerdict(db, id) || (IsForce(op, id) && IsActive(db, id))
  {
    hide StatusText, ParseStatus, VerdictText, LanguageText, IsActive;
    if IsForce(op, id) {
      ForceIsGrantedIffActive(db, op, id);
    }
    if TargetsStatus(op, id) {
      MoveDone(db, op);
    } else {
      StatusTextInjective(Queued, Done);
    }
  }

  lemma MoveDone(db: Db, op: Op)
    requires Inv(db) && (op.SetStatus? || op.Finish?)
    ensures DoneWithoutVerdict(Exec(db, op).db, op.id)
       <==> DoneWithoutVerdict(db, op.id) || (IsForce(op, op.id) && Exec(db, op).reply.Completed?)
  {
    hide StatusText, ParseStatus, VerdictText, LanguageText;
    if DoneWithoutVerdict(db, op.id) {
      DoneRefusesAll(db, op);
    } else if Exec(db, op).reply.Completed? {
      CompletedMove(db, op);
      StatusTextInjective(Target(op), Done);
      if op.SetStatus? {
        MovedRow(db.submissions[op.id], op.status, op.now);
      }
    }
  }

  lemma ForcedAtPrefix(ops: seq<Op>, n: nat, i: nat, id: SubmissionId)
    requires i < n <= |ops|
    ensures ForcedAt(ops[..n], i, id) == ForcedAt(ops, i, id)
  {
    assert ops[..n][..i] == ops[..i];
  }

  /** DONE means judged, except exactly for the submissions that were forced to DONE while active. */
  lemma {:induction false} DoneMeansJudgedUnlessForced(ops: seq<Op>, id: SubmissionId)
    ensures DoneWithoutVerdict(Replay(ops), id) <==> ForcedDone(ops, id)
  {
    hide Exec, DoneWithoutVerdict, Inv, IsForce, IsActive;
    if ops == [] {
      NothingInEmpty(id);
    } else {
      var n := |ops| - 1;
      DoneMeansJudgedUnlessForced(ops[..n], id);
      ReachableInv(ops[..n]);
      ReplayStep(ops);
      StepDone(Replay(ops[..n]), ops[n], id);
      assert ForcedAt(ops, n, id) <==> IsForce(ops[n], id) && IsActive(Replay(ops[..n]), id);
      hide Replay, RunFrom, ForcedAt;
      if ForcedDone(ops[..n], id) {
        var i :| 0 <= i < n && ForcedAt(ops[..n], i, id);
        ForcedAtPrefix(ops, n, i, id);
      }
      if ForcedDone(ops, id) {
        var i :| 0 <= i < |ops| && ForcedAt(ops, i, id);
        if i < n {
          ForcedAtPrefix(ops, n, i, id);
        }
      }
    }
  }

  lemma ReplyAtLast(ops: seq<Op>)
    requires ops != []
    ensures ReplyAt(ops, |ops| - 1) == Exec(Replay(ops[..|ops| - 1]), ops[|ops| - 1]).reply
  {
  }

  lemma NothingInEmpty(id: SubmissionId)
    ensures !DoneWithoutVerdict(Replay([]), id)
  {
  }

  // The lifecycle of one submission along a run.

  /** The statuses a submission has had, oldest first. */
  ghost function Trace(ops: seq<Op>, id: SubmissionId): seq<Status> {
    if ops == [] then []
    else
      var n := |ops| - 1;
      var granted := !ReplyAt(ops, n).Refused?;
      if ops[n].CreateSubmission? && ops[n].id == id && granted then [Queued]
      else if TargetsStatus(ops[n], id) && granted then Trace(ops[..n], id) + [Target(ops[n])]
      else Trace(ops[..n], id)
  }

  ghost predicate TraceFits(trace: seq<Status>, db: Db, id: SubmissionId) {
    if id in db.submissions then
      Lifecycle.LegalPath(trace) && db.submissions[id].status == StatusText(trace[|trace| - 1])
    else trace == []
  }

  lemma StepTrace(db: Db, op: Op, id: SubmissionId, trace: seq<Status>)
    requires Inv(db) && TraceFits(trace, db, id)
    ensures var e := Exec(db, op);
      if op.CreateSubmission? && op.id == id && !e.reply.Refused? then TraceFits([Queued], e.db, id)
      else if TargetsStatus(op, id) && !e.reply.Refused? then TraceFits(trace + [Target(op)], e.db, id)
      else TraceFits(trace, e.db, id)
  {
    var e := Exec(db, op);
    if e.reply.Completed? && TargetsStatus(op, id) {
      CompletedMove(db, op);
      var last := trace[|trace| - 1];
      assert ParseStatus(StatusText(last)) == Some(last);
      Lifecycle.Prolong(trace, Target(op));
    }
    hide StatusText, ParseStatus, VerdictText, LanguageText;
  }

  lemma {:induction false} TraceIsLegal(ops: seq<Op>, id: SubmissionId)
    ensures TraceFits(Trace(ops, id), Replay(ops), id)
  {
    if ops != [] {
      var n := |ops| - 1;
      TraceIsLegal(ops[..n], id);
      ReachableInv(ops[..n]);
      StepTrace(Replay(ops[..n]), ops[n], id, Trace(ops[..n], id));
      assert ops[..n] == ops[..|ops| - 1];
      hide Exec, Inv;
    }
  }

  /** No run moves one submission more than 4r + 5 times, r being its re-entries into PREPARING. */
  lemma RunLifecycleBound(ops: seq<Op>, id: SubmissionId)
    requires id in Replay(ops).submissions
    ensures var trace := Trace(ops, id);
      Lifecycle.LegalPath(trace) && |trace| - 1 <= 4 * Lifecycle.Reentries(trace) + 5 && Done !in trace[..|trace| - 1]
  {
    TraceIsLegal(ops, id);
    Lifecycle.LifecycleBound(Trace(ops, id));
  }

  const SEED_USER: NewUser := NewUser("u", "u@x", "h", Learner)
  const SEED_PROBLEM: ProblemInput := ProblemInput("p", "c", "t", "g", "easy", "{}", Some(0))
  const SEED_SUBMISSION: NewSubmission := NewSubmission(0, "p", Rust, "h", "s")
  const SEED: seq<Op> := [CreateUser(0, SEED_USER, 0), ReplaceProblems([SEED_PROBLEM]), CreateSubmission(0, SEED_SUBMISSION, 0)]

  /** One user, one problem, one queued submission. */
  lemma SeedIsQueued()
    ensures Trace(SEED, 0) == [Queued]
  {
    hide StatusText, LanguageText, RoleText;
    PrefixStep(SEED, 0);
    PrefixStep(SEED, 1);
    var rows := [SEED_PROBLEM];
    assert rows[..0] == [] && FirstBadRow(rows).None?;
    CatalogKeys(rows);
    assert rows[0].id in Ids(rows);
    assert 0 in Replay(SEED[..1]).users && Replay(SEED[..1]).submissions == map[] && Replay(SEED[..1]).progress == map[];
    assert 0 in Replay(SEED[..2]).users && "p" in Replay(SEED[..2]).problems;
    assert !ReplyAt(SEED, 2).Refused?;
  }

  /** A legal next status of a submission is one request away. */
  lemma OneMoveMore(before: seq<Op>, next: Status)
    requires var trace := Trace(before, 0); trace != [] && trace[|trace| - 1].CanTransitionTo(next)
    ensures var ops := before + [SetStatus(0, next, 0)];
      Trace(ops, 0) == Trace(before, 0) + [next] && (next.Done? ==> ForcedDone(ops, 0))
  {
    hide Exec, RunFrom, StatusText, IsActive;
    var ops := before + [SetStatus(0, next, 0)];
    assert ops[..|ops| - 1] == before;
    TraceIsLegal(before, 0);
    StatusIs(Replay(before), Trace(before, 0)[|Trace(before, 0)| - 1]);
    MoveIsGranted(Replay(before), 0, next);
    ReplyAtLast(ops);
    if next.Done? {
      ForceIsGrantedIffActive(Replay(before), ops[|ops| - 1], 0);
      assert ForcedAt(ops, |ops| - 1, 0);
    }
  }

  /** Conversely every legal path is the trace of some run: the bound is about the store, not only about the enum. */
  lemma {:induction false} EveryLegalPathHappens(path: seq<Status>) returns (ops: seq<Op>)
    requires Lifecycle.LegalPath(path)
    ensures Trace(ops, 0) == path
    ensures path[|path| - 1].Done? ==> ForcedDone(ops, 0)
    decreases |path|
  {
    hide Trace, ForcedDone;
    var n := |path| - 1;
    if n == 0 {
      SeedIsQueued();
      ops := SEED;
      assert path == [Queued];
    } else {
      var before := EveryLegalPathHappens(path[..n]);
      OneMoveMore(before, path[n]);
      ops := before + [SetStatus(0, path[n], 0)];
      assert path == path[..n] + [path[n]];
    }
  }

  lemma StatusIs(db: Db, s: Status)
    requires 0 in db.submissions && db.submissions[0].status == StatusText(s)
    ensures ParseStatus(db.submissions[0].status) == Some(s)
  {
  }

  lemma MoveIsGranted(db: Db, id: SubmissionId, next: Status)
    requires id in db.submissions && ParseStatus(db.submissions[id].status).Some?
    requires ParseStatus(db.submissions[id].status).value.CanTransitionTo(next)
    ensures Exec(db, SetStatus(id, next, 0)).reply.Completed?
  {
  }

  /** A forced submission exists in some run, and then has no verdict however that run goes on. */
  lemma ForcedDoneHappens() returns (ops: seq<Op>)
    ensures DoneWithoutVerdict(Replay(ops), 0)
    ensures forall more: seq<Op> :: DoneWithoutVerdict(Replay(ops + more), 0)
  {
    hide Replay, Trace;
    ops := EveryLegalPathHappens([Queued, Preparing, Done]);
    DoneMeansJudgedUnlessForced(ops, 0);
    forall more: seq<Op> ensures DoneWithoutVerdict(Replay(ops + more), 0) {
      ForcedStays(ops, more, 0);
    }
  }

  lemma ForcedStays(ops: seq<Op>, more: seq<Op>, id: SubmissionId)
    requires ForcedDone(ops, id)
    ensures DoneWithoutVerdict(Replay(ops + more), id)
  {
    hide DoneWithoutVerdict, ForcedAt;
    var i :| 0 <= i < |ops| && ForcedAt(ops, i, id);
    var all := ops + more;
    assert all[..|ops|] == ops;
    ForcedAtPrefix(all, |ops|, i, id);
    assert ForcedDone(all, id);
    DoneMeansJudgedUnlessForced(all, id);
  }

  // The catalog swap.

  lemma NobodyCounted(subs: SubmissionTable, key: Pair)
    requires forall s :: s in subs ==> subs[s].Key() != key
    ensures Counted(subs, key) == {}
  {
    assert Counted(subs, key) == {} by {
      forall s ensures s !in Counted(subs, key) {
        if s in subs {
          assert subs[s].Key() != key;
        }
      }
      assert Counted(subs, key) <= subs.Keys;
    }
  }

  /** Every problem with a progress row also has a submission, so the submissions alone decide what must be kept. */
  lemma ProgressWithinSubmissions(db: Db, key: Pair)
    requires Inv(db) && key in db.progress
    ensures exists s :: s in db.submissions && db.submissions[s].Key() == key
  {
    assert PairAgrees(db.submissions, db.progress, key);
    if forall s :: s in db.submissions ==> db.submissions[s].Key() != key {
      NobodyCounted(db.submissions, key);
    }
  }

  /** In a catalog the last row for an id wins, and there is nothing else in it. */
  lemma {:induction false} CatalogLastWins(rows: seq<ProblemInput>, i: nat)
    requires FirstBadRow(rows).None? && i < |rows|
    requires forall j :: i < j < |rows| ==> rows[j].id != rows[i].id
    ensures rows[i].updatedAt.Some? && rows[i].id in Catalog(rows) && Catalog(rows)[rows[i].id] == ProblemRow(rows[i])
  {
    var n := |rows| - 1;
    if i < n {
      CatalogLastWins(rows[..n], i);
    }
  }

  /** For acceptable rows the swap succeeds exactly when every problem with a submission is kept; then the table is the catalog. */
  lemma ReplaceIsFullSwap(ops: seq<Op>, rows: seq<ProblemInput>)
    requires FirstBadRow(rows).None?
    ensures var db, e := Replay(ops), Exec(Replay(ops), ReplaceProblems(rows));
      && (e.reply.Completed? <==> forall s :: s in db.submissions ==> db.submissions[s].problemId in Ids(rows))
      && (e.reply.Completed? ==> e.db == db.(problems := Catalog(rows)))
      && (!e.reply.Completed? ==> e == Refuse(db, Database(ForeignKeyViolation)))
  {
    var db := Replay(ops);
    ReachableInv(ops);
    if s :| s in db.submissions && db.submissions[s].problemId !in Ids(rows) {
      assert Referenced(db, db.submissions[s].problemId);
      assert Orphans(db, Ids(rows));
    }
    if Orphans(db, Ids(rows)) {
      var p :| p in db.problems && p !in Ids(rows) && Referenced(db, p);
      if k :| k in db.progress && k.1 == p {
        ProgressWithinSubmissions(db, k);
      }
    }
  }
}
