/** The boot-time recovery pass: everything the in-flight scan returns is restarted and finished. */
module Recovery {
  import opened Prelude
  import opened Ordering
  import opened Codes
  import opened Tables
  import opened Operations
  import opened Invariant
  import opened History
  import opened Queries

  /** How one scanned submission ends: the verdict, and the clock at its two writes. */
  datatype Drain = Drain(verdict: Verdict, restartedAt: Timestamp, finishedAt: Timestamp)

  function DrainOps(id: SubmissionId, d: Drain): seq<Op> {
    [SetStatus(id, Preparing, d.restartedAt), Finish(id, d.verdict, d.finishedAt)]
  }

  /** One pass over scanned ids, oldest first. */
  ghost function Pass(db: Db, ids: seq<SubmissionId>, plan: seq<Drain>): Db
    requires |ids| == |plan|
  {
    if ids == [] then db
    else
      var n := |ids| - 1;
      RunFrom(Pass(db, ids[..n], plan[..n]), DrainOps(ids[n], plan[n]))
  }

  /** How many of the drained rows of this pair got a verdict that counts. */
  ghost function DrainedCount(db: Db, ids: seq<SubmissionId>, plan: seq<Drain>, key: Pair): nat
    requires |ids| == |plan| && forall i :: 0 <= i < |ids| ==> ids[i] in db.submissions
  {
    if ids == [] then 0
    else
      var n := |ids| - 1;
      DrainedCount(db, ids[..n], plan[..n], key)
        + if db.submissions[ids[n]].Key() == key && plan[n].verdict.Counts() then 1 else 0
  }

  lemma RunTwo(db: Db, a: Op, b: Op)
    ensures RunFrom(db, [a, b]) == Exec(Exec(db, a).db, b).db
  {
    hide Exec;
    var ops := [a, b];
    assert ops[..1] == [a] && [a][..0] == [];
    assert RunFrom(db, [a]) == Exec(db, a).db;
    assert RunFrom(db, ops) == Exec(RunFrom(db, ops[..1]), ops[1]).db;
  }

  /** The row after its restart and its finish. */
  ghost function DrainedRow(row: SubmissionRecord, d: Drain): SubmissionRecord {
    Finished(Moved(row, Preparing, d.restartedAt), d.verdict, d.finishedAt)
  }

  /** An open row of a consistent table accepts PREPARING, and then accepts DONE. */
  lemma OpenRowMoves(row: SubmissionRecord, now: Timestamp)
    requires RowOk(row) && row.status != StatusText(Done)
    ensures ParseStatus(row.status).value.CanTransitionTo(Preparing)
    ensures ParseStatus(Moved(row, Preparing, now).status) == Some(Preparing)
    ensures row.verdict.None? && Moved(row, Preparing, now).verdict.None? && Moved(row, Preparing, now).Key() == row.Key()
  {
    hide StatusText, ParseVerdict, ParseLanguage;
    assert ParseStatus(StatusText(Preparing)) == Some(Preparing);
    hide ParseStatus;
  }

  lemma GrantedMove(db: Db, id: SubmissionId, next: Status, now: Timestamp)
    requires id in db.submissions && ParseStatus(db.submissions[id].status).Some?
    requires ParseStatus(db.submissions[id].status).value.CanTransitionTo(next)
    ensures Exec(db, SetStatus(id, next, now))
         == Effect(db.(submissions := db.submissions[id := Moved(db.submissions[id], next, now)]), Completed)
  {
    hide ParseStatus, Moved;
  }

  lemma GrantedFinish(db: Db, id: SubmissionId, v: Verdict, now: Timestamp)
    requires id in db.submissions && ParseStatus(db.submissions[id].status) == Some(Preparing)
    requires db.submissions[id].userId in db.users && db.submissions[id].problemId in db.problems
    ensures Exec(db, Finish(id, v, now)).reply.Completed?
    ensures Exec(db, Finish(id, v, now)).db.submissions == db.submissions[id := Finished(db.submissions[id], v, now)]
  {
    hide ParseStatus, Finished;
  }

  lemma Overwrite<K, V>(m: map<K, V>, k: K, a: V, b: V)
    ensures m[k := a][k := b] == m[k := b]
  {
  }

  /** Draining one open row: both requests are granted, and of the submissions only that row changes. */
  lemma DrainOne(db: Db, id: SubmissionId, d: Drain)
    requires Inv(db) && id in db.submissions && db.submissions[id].status != StatusText(Done)
    ensures var a, b := DrainOps(id, d)[0], DrainOps(id, d)[1];
      && Exec(db, a).reply.Completed? && Exec(Exec(db, a).db, b).reply.Completed?
    ensures var db' := RunFrom(db, DrainOps(id, d));
      Inv(db') && db'.submissions == db.submissions[id := DrainedRow(db.submissions[id], d)]
  {
    var row := db.submissions[id];
    assert row.userId in db.users && row.problemId in db.problems && RowOk(row);
    OpenRowMoves(row, d.restartedAt);
    RunKeeps(db, DrainOps(id, d));
    RunTwo(db, DrainOps(id, d)[0], DrainOps(id, d)[1]);
    assert ParseStatus(row.status).Some?;
    hide RowOk, ParseStatus, StatusText, Moved, Finished, Inv, Exec, RunFrom;
    GrantedMove(db, id, Preparing, d.restartedAt);
    var mid := db.(submissions := db.submissions[id := Moved(row, Preparing, d.restartedAt)]);
    GrantedFinish(mid, id, d.verdict, d.finishedAt);
    Overwrite(db.submissions, id, Moved(row, Preparing, d.restartedAt), DrainedRow(row, d));
  }

  lemma DrainCounts(subs: SubmissionTable, id: SubmissionId, d: Drain, key: Pair)
    requires id in subs && RowOk(subs[id]) && subs[id].status != StatusText(Done)
    ensures |Counted(subs[id := DrainedRow(subs[id], d)], key)|
         == |Counted(subs, key)| + if subs[id].Key() == key && d.verdict.Counts() then 1 else 0
  {
    var row := subs[id];
    OpenRowMoves(row, d.restartedAt);
    hide RowOk, Moved, Finished, Counted, Accepted, StatusText;
    var mid := subs[id := Moved(row, Preparing, d.restartedAt)];
    AggregateFrame(subs, mid, id, key);
    FinishAggregates(mid, id, d.verdict, d.finishedAt, key);
    Overwrite(subs, id, Moved(row, Preparing, d.restartedAt), DrainedRow(row, d));
    var c := Counted(mid, key);
    assert |c + {id}| == |c| + 1 && c + {} == c;
  }

  ghost predicate Distinct(ids: seq<SubmissionId>) {
    forall i, j :: 0 <= i < j < |ids| ==> ids[i] != ids[j]
  }

  /** Open submissions, each once, in any order. */
  ghost predicate OpenRows(subs: SubmissionTable, ids: seq<SubmissionId>) {
    && Distinct(ids)
    && forall i :: 0 <= i < |ids| ==> ids[i] in subs && subs[ids[i]].status != StatusText(Done)
  }

  ghost predicate PassRows(subs: SubmissionTable, subs': SubmissionTable, ids: seq<SubmissionId>, plan: seq<Drain>)
    requires |ids| == |plan|
  {
    && subs'.Keys == subs.Keys
    && (forall s :: s in subs && s !in ids ==> subs'[s] == subs[s])
    && (forall i :: 0 <= i < |ids| && ids[i] in subs ==> subs'[ids[i]] == DrainedRow(subs[ids[i]], plan[i]))
  }

  lemma LastIsNew(ids: seq<SubmissionId>)
    requires ids != [] && Distinct(ids)
    ensures ids[|ids| - 1] !in ids[..|ids| - 1] && Distinct(ids[..|ids| - 1])
  {
  }

  lemma ExtendPassRows(subs: SubmissionTable, mid: SubmissionTable, ids: seq<SubmissionId>, plan: seq<Drain>)
    requires |ids| == |plan| && ids != [] && OpenRows(subs, ids)
    requires PassRows(subs, mid, ids[..|ids| - 1], plan[..|ids| - 1])
    ensures var id, d := ids[|ids| - 1], plan[|ids| - 1];
      && mid[id] == subs[id]
      && PassRows(subs, mid[id := DrainedRow(mid[id], d)], ids, plan)
  {
    hide DrainedRow, StatusText;
    LastIsNew(ids);
    var n := |ids| - 1;
    assert forall i :: 0 <= i < n ==> ids[..n][i] == ids[i] && plan[..n][i] == plan[i] && ids[i] in ids[..n];
  }

  /** A pass over any distinct open rows finishes exactly those rows. */
  lemma {:induction false} PassDrains(db: Db, ids: seq<SubmissionId>, plan: seq<Drain>)
    requires Inv(db) && |ids| == |plan| && OpenRows(db.submissions, ids)
    ensures Inv(Pass(db, ids, plan)) && PassRows(db.submissions, Pass(db, ids, plan).submissions, ids, plan)
  {
    hide Inv, RunFrom, DrainedRow, StatusText;
    if ids != [] {
      var n := |ids| - 1;
      LastIsNew(ids);
      PassDrains(db, ids[..n], plan[..n]);
      ExtendPassRows(db.submissions, Pass(db, ids[..n], plan[..n]).submissions, ids, plan);
      DrainOne(Pass(db, ids[..n], plan[..n]), ids[n], plan[n]);
      hide PassRows;
    }
  }

  /** ... and counts them, pair by pair. */
  lemma {:induction false} PassCounts(db: Db, ids: seq<SubmissionId>, plan: seq<Drain>, key: Pair)
    requires Inv(db) && |ids| == |plan| && OpenRows(db.submissions, ids)
    ensures |Counted(Pass(db, ids, plan).submissions, key)| == |Counted(db.submissions, key)| + DrainedCount(db, ids, plan, key)
  {
    hide RunFrom, DrainedRow, StatusText, Counted, RowOk;
    if ids != [] {
      var n := |ids| - 1;
      LastIsNew(ids);
      PassCounts(db, ids[..n], plan[..n], key);
      PassDrains(db, ids[..n], plan[..n]);
      var mid := Pass(db, ids[..n], plan[..n]);
      ExtendPassRows(db.submissions, mid.submissions, ids, plan);
      hide PassRows;
      DrainOne(mid, ids[n], plan[n]);
      assert RowOk(mid.submissions[ids[n]]);
      DrainCounts(mid.submissions, ids[n], plan[n], key);
    }
  }

  lemma ScanIsOpen(subs: SubmissionTable)
    ensures OpenRows(subs, OpenIds(subs))
  {
    hide StatusText;
    var ids := OpenIds(subs);
    forall i, j | 0 <= i < j < |ids| ensures ids[i] != ids[j] {
      assert Below(ids[i], ids[j]);
    }
    forall i | 0 <= i < |ids| ensures ids[i] in subs && subs[ids[i]].status != StatusText(Done) {
      assert ids[i] in ids;
    }
  }

  lemma NothingOpen(subs: SubmissionTable)
    requires forall s :: s in subs ==> subs[s].status == StatusText(Done)
    ensures OpenIds(subs) == []
  {
    hide StatusText;
    HasMember(OpenIds(subs));
  }

  lemma ScanEmpties(subs: SubmissionTable, subs': SubmissionTable, plan: seq<Drain>)
    requires |plan| == |OpenIds(subs)| && PassRows(subs, subs', OpenIds(subs), plan)
    ensures OpenIds(subs') == []
  {
    hide StatusText, VerdictText;
    var ids := OpenIds(subs);
    forall s | s in subs' ensures subs'[s].status == StatusText(Done) {
      if s in ids {
        var i :| 0 <= i < |ids| && ids[i] == s;
        assert subs'[ids[i]] == DrainedRow(subs[ids[i]], plan[i]);
      } else {
        assert s !in Open(subs) && subs'[s] == subs[s];
      }
    }
    NothingOpen(subs');
  }

  /** The attempts a progress read reports, 0 without a row. */
  function Attempts(db: Db, key: Pair): int {
    match Lookup(db.progress, key) case None => 0 case Some(row) => row.attempts
  }

  lemma AttemptsAreCounted(db: Db, key: Pair)
    requires Inv(db)
    ensures Attempts(db, key) == |Counted(db.submissions, key)|
  {
    assert PairAgrees(db.submissions, db.progress, key);
    hide Counted, Accepted;
  }

  lemma RecoveryCounts(db: Db, plan: seq<Drain>, key: Pair)
    requires Inv(db) && |plan| == |OpenIds(db.submissions)| && OpenRows(db.submissions, OpenIds(db.submissions))
    ensures Attempts(Pass(db, OpenIds(db.submissions), plan), key)
         == Attempts(db, key) + DrainedCount(db, OpenIds(db.submissions), plan, key)
  {
    hide Inv, Pass, Attempts, Counted, OpenRows, DrainedCount;
    AttemptsAreCounted(db, key);
    PassDrains(db, OpenIds(db.submissions), plan);
    AttemptsAreCounted(Pass(db, OpenIds(db.submissions), plan), key);
    PassCounts(db, OpenIds(db.submissions), plan, key);
  }

  // The pass as a caller sees it, through reads.

  /** What the in-flight read returns. */
  function Scan(db: Db): seq<Submission> {
    match InFlightSubmissions(db) case Ok(found) => found case Err(_) => []
  }

  function ScannedIds(found: seq<Submission>): seq<SubmissionId> {
    seq(|found|, i requires 0 <= i < |found| => found[i].id)
  }

  lemma ScanIsOpenIds(db: Db)
    requires SubmissionsOk(db.submissions)
    ensures InFlightSubmissions(db) == Ok(Scan(db)) && ScannedIds(Scan(db)) == OpenIds(db.submissions)
    ensures forall i :: 0 <= i < |Scan(db)| ==> ReadSubmission(db, Scan(db)[i].id) == Ok(Scan(db)[i])
  {
    ReadAllReads(db, OpenIds(db.submissions));
    hide OpenIds, ReadSubmission, ReadAll;
  }

  /** A submission judged on recovery: restarted if it never started, and finished. */
  function Recovered(s: Submission, d: Drain): Submission {
    s.(status := Done, verdict := Some(d.verdict), finishedAt := Some(d.finishedAt),
       startedAt := if s.startedAt.Some? then s.startedAt else Some(d.restartedAt))
  }

  lemma DrainedReads(id: SubmissionId, row: SubmissionRecord, d: Drain)
    requires RowOk(row) && row.status != StatusText(Done)
    ensures IntoSubmission(id, row).Ok? && IntoSubmission(id, DrainedRow(row, d)) == Ok(Recovered(IntoSubmission(id, row).value, d))
  {
    hide StatusText, VerdictText, ParseStatus, ParseVerdict, ParseLanguage;
    assert ParseStatus(StatusText(Done)) == Some(Done) && ParseVerdict(VerdictText(d.verdict)) == Some(d.verdict);
  }

  lemma PassReads(db: Db, db': Db, plan: seq<Drain>)
    requires SubmissionsOk(db.submissions) && |plan| == |Scan(db)| && |plan| == |OpenIds(db.submissions)|
    requires PassRows(db.submissions, db'.submissions, OpenIds(db.submissions), plan)
    ensures forall i :: 0 <= i < |plan| ==> ReadSubmission(db', Scan(db)[i].id) == Ok(Recovered(Scan(db)[i], plan[i]))
    ensures forall id :: id !in ScannedIds(Scan(db)) ==> ReadSubmission(db', id) == ReadSubmission(db, id)
  {
    ScanIsOpenIds(db);
    ScanIsOpen(db.submissions);
    var ids, found := OpenIds(db.submissions), Scan(db);
    hide RowOk, IntoSubmission, DrainedRow, OpenIds, Scan, StatusText, Recovered, InFlightSubmissions;
    forall i | 0 <= i < |plan| ensures ReadSubmission(db', found[i].id) == Ok(Recovered(found[i], plan[i])) {
      assert ids[i] == ScannedIds(found)[i] == found[i].id;
      assert RowOk(db.submissions[ids[i]]);
      DrainedReads(ids[i], db.submissions[ids[i]], plan[i]);
    }
  }

  /**
   In every reachable state one recovery pass over what the in-flight read returns, whatever the verdicts and the
   clock, leaves that read empty; each scanned submission then reads as judged and every other one as before; and
   each pair's attempts rise by its submissions drained with a counting verdict.
   */
  lemma RecoveryDrains(ops: seq<Op>, plan: seq<Drain>)
    requires |plan| == |Scan(Replay(ops))|
    ensures var db := Replay(ops); var found := Scan(db);
      && InFlightSubmissions(db) == Ok(found)
      && (forall i :: 0 <= i < |found| ==> found[i].id in db.submissions)
      && (var db' := Pass(db, ScannedIds(found), plan);
          && InFlightSubmissions(db') == Ok([])
          && (forall i :: 0 <= i < |found| ==> ReadSubmission(db', found[i].id) == Ok(Recovered(found[i], plan[i])))
          && (forall id :: id !in ScannedIds(found) ==> ReadSubmission(db', id) == ReadSubmission(db, id))
          && (forall key :: Attempts(db', key) == Attempts(db, key) + DrainedCount(db, ScannedIds(found), plan, key)))
  {
    hide *;
    ReachableInv(ops);
    ScanIsRead(Replay(ops));
    PassEmptiesScan(Replay(ops), plan);
    PassRaisesAttempts(Replay(ops), plan);
  }

  lemma ScanIsRead(db: Db)
    requires Inv(db)
    ensures InFlightSubmissions(db) == Ok(Scan(db)) && |ScannedIds(Scan(db))| == |Scan(db)|
    ensures forall i :: 0 <= i < |Scan(db)| ==> ScannedIds(Scan(db))[i] == Scan(db)[i].id
  {
    ScanIsOpenIds(db);
  }

  lemma PassRaisesAttempts(db: Db, plan: seq<Drain>)
    requires Inv(db) && |plan| == |Scan(db)| && |ScannedIds(Scan(db))| == |plan|
    requires forall i :: 0 <= i < |plan| ==> ScannedIds(Scan(db))[i] in db.submissions
    ensures forall key :: Attempts(Pass(db, ScannedIds(Scan(db)), plan), key)
                       == Attempts(db, key) + DrainedCount(db, ScannedIds(Scan(db)), plan, key)
  {
    hide *;
    SubmissionsOkInInv(db);
    ScanIsOpenIds(db);
    ScanIsOpen(db.submissions);
    forall key ensures Attempts(Pass(db, ScannedIds(Scan(db)), plan), key)
        == Attempts(db, key) + DrainedCount(db, ScannedIds(Scan(db)), plan, key)
    {
      RecoveryCounts(db, plan, key);
    }
  }

  lemma PassEmptiesScan(db: Db, plan: seq<Drain>)
    requires Inv(db) && |plan| == |Scan(db)|
    ensures forall i :: 0 <= i < |plan| ==> Scan(db)[i].id in db.submissions
    ensures var found := Scan(db); var db' := Pass(db, ScannedIds(found), plan);
      && InFlightSubmissions(db') == Ok([])
      && (forall i :: 0 <= i < |found| ==> ReadSubmission(db', found[i].id) == Ok(Recovered(found[i], plan[i])))
      && (forall id :: id !in ScannedIds(found) ==> ReadSubmission(db', id) == ReadSubmission(db, id))
  {
    var ids := OpenIds(db.submissions);
    ScanIsOpenIds(db);
    ScanIsOpen(db.submissions);
    assert |ids| == |plan|;
    PassDrains(db, ids, plan);
    var db' := Pass(db, ids, plan);
    ScanEmpties(db.submissions, db'.submissions, plan);
    PassReads(db, db', plan);
    NothingInFlight(db');
    hide Pass, Scan, OpenIds, PassRows, Inv, InFlightSubmissions, ReadSubmission, Recovered;
    forall i | 0 <= i < |plan| ensures Scan(db)[i].id in db.submissions {
      assert ids[i] == ScannedIds(Scan(db))[i];
    }
  }

  lemma NothingInFlight(db: Db)
    requires OpenIds(db.submissions) == []
    ensures InFlightSubmissions(db) == Ok([])
  {
    hide OpenIds;
  }
}
