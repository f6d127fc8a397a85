/**
 Any number of clients sharing the database: each runs its transactions one SQL statement at a time,
 interleaved with everybody else's, under the single write lock that BEGIN IMMEDIATE takes.
 */
module Clients {
  import opened Prelude
  import opened Codes
  import opened Tables
  import opened Operations
  import opened Invariant
  import opened History
  import opened Queries
  import opened Transactions

  datatype Client =
    | Idle
    | Waiting(op: Op)                    // requested, lock not taken yet
    | InTx(op: Op, pc: Pc, image: Db)    // holds the lock and a private image

  /** A request that was answered, at the moment it was answered. */
  datatype Answer = Answer(client: nat, op: Op, reply: Reply)

  datatype System = System(db: Db, lock: Option<nat>, clients: map<nat, Client>, log: seq<Answer>)

  /** One step of one client, in whatever order the scheduler likes. */
  datatype Step =
    | Request(client: nat, op: Op)
    | Begin(client: nat)
    | GiveUp(client: nat)                       // busy_timeout expired
    | Execute(client: nat, pick: ProblemId)     // one statement
    | Commit(client: nat)
    | Crash(client: nat)                        // the transaction is dropped

  const START: System := System(EMPTY, None, map[], [])

  function ClientOf(s: System, c: nat): Client {
    if c in s.clients then s.clients[c] else Idle
  }

  function Release(s: System, c: nat): System {
    s.(lock := None, clients := s.clients[c := Idle])
  }

  /** A step that is not enabled does nothing. */
  function Next(s: System, step: Step): System {
    var c := step.client;
    match (step, ClientOf(s, c))
    case (Request(_, op), Idle) => s.(clients := s.clients[c := Waiting(op)])
    case (Begin(_), Waiting(op)) =>
      if s.lock.None? then s.(lock := Some(c), clients := s.clients[c := InTx(op, Opened, s.db)]) else s
    case (GiveUp(_), Waiting(_)) => s.(clients := s.clients[c := Idle])
    case (Execute(_, pick), InTx(op, pc, image)) =>
      if pc.Ready? then s
      else (match Advance(op, pc, image, pick)
            case Goto(pc', image') => s.(clients := s.clients[c := InTx(op, pc', image')])
            case Abort(e) => Release(s, c).(log := s.log + [Answer(c, op, Refused(e))]))
    case (Commit(_), InTx(op, pc, image)) =>
      if pc.Ready? then Release(s, c).(db := image, log := s.log + [Answer(c, op, pc.reply)]) else s
    case (Crash(_), InTx(_, _, _)) => Release(s, c)
    case _ => s
  }

  function Execution(steps: seq<Step>): System {
    if steps == [] then START else Next(Execution(steps[..|steps| - 1]), steps[|steps| - 1])
  }

  function OpsOf(log: seq<Answer>): (r: seq<Op>)
    ensures |r| == |log| && forall i :: 0 <= i < |log| ==> r[i] == log[i].op
  {
    seq(|log|, i requires 0 <= i < |log| => log[i].op)
  }

  /** The committed tables, and every answer given, are those of serving the answered requests one after another. */
  ghost predicate Serial(db: Db, log: seq<Answer>) {
    && db == Replay(OpsOf(log))
    && forall i :: 0 <= i < |log| ==> log[i].reply == ReplyAt(OpsOf(log), i)
  }

  /** Only the lock holder is inside a transaction, and its transaction started from the tables as they still are. */
  ghost predicate Isolated(s: System) {
    && (forall c :: c in s.clients && s.clients[c].InTx? ==> s.lock == Some(c))
    && (s.lock.Some? ==>
          && ClientOf(s, s.lock.value).InTx?
          && (var t := ClientOf(s, s.lock.value); TxOk(s.db, t.op, t.pc, t.image)))
  }

  lemma SerialExtends(db: Db, log: seq<Answer>, db': Db, a: Answer)
    requires Serial(db, log) && Exec(db, a.op) == Effect(db', a.reply)
    ensures Serial(db', log + [a])
  {
    hide Exec, RunFrom;
    var ops, ops' := OpsOf(log), OpsOf(log + [a]);
    assert ops'[..|log|] == ops;
    ReplayStep(ops');
    ReplyAtLast(ops');
    forall i | 0 <= i < |log| ensures log[i].reply == ReplyAt(ops', i) {
      ReplyOfPrefix(ops', |log|, i);
    }
  }

  lemma StepIsolated(s: System, step: Step)
    requires Serial(s.db, s.log) && Isolated(s)
    ensures Serial(Next(s, step).db, Next(s, step).log) && Isolated(Next(s, step))
  {
    hide Serial, TxOk, Advance, Exec;
    var c := step.client;
    match (step, ClientOf(s, c))
    case (Begin(_), Waiting(op)) => OpenedIsOk(s.db, op);
    case (Execute(_, pick), InTx(op, pc, image)) =>
      if !pc.Ready? {
        AdvanceKeeps(s.db, op, pc, image, pick);
        var o := Advance(op, pc, image, pick);
        if o.Abort? {
          SerialExtends(s.db, s.log, s.db, Answer(c, op, Refused(o.error)));
        }
      }
    case (Commit(_), InTx(op, pc, image)) =>
      if pc.Ready? {
        ReadyIsExec(s.db, op, pc, image);
        SerialExtends(s.db, s.log, image, Answer(c, op, pc.reply));
      }
    case _ =>
  }

  lemma OpenedIsOk(base: Db, op: Op)
    ensures TxOk(base, op, Opened, base)
  {
  }

  lemma ReadyIsExec(base: Db, op: Op, pc: Pc, image: Db)
    requires TxOk(base, op, pc, image) && pc.Ready?
    ensures Exec(base, op) == Effect(image, pc.reply)
  {
  }

  /** Serialisability: under every interleaving, with every crash, the committed state is the atomic run in commit order. */
  lemma {:induction false} Serialisable(steps: seq<Step>)
    ensures var s := Execution(steps); Serial(s.db, s.log) && Isolated(s)
  {
    if steps != [] {
      Serialisable(steps[..|steps| - 1]);
      StepIsolated(Execution(steps[..|steps| - 1]), steps[|steps| - 1]);
      hide Next, Serial, Isolated;
    }
  }

  /** So of concurrent finishes of one submission at most one is granted, and the others changed nothing. */
  lemma OneFinishWins(steps: seq<Step>, i: nat, j: nat)
    requires var log := Execution(steps).log;
      i < j < |log| && log[i].op.Finish? && log[j].op.Finish? && log[i].op.id == log[j].op.id
    requires Execution(steps).log[i].reply.Completed?
    ensures var log := Execution(steps).log;
      && log[j].reply == Refused(IllegalTransition(log[i].op.id, Done, Done))
      && Replay(OpsOf(log[..j + 1])) == Replay(OpsOf(log[..j]))
  {
    hide Exec, RunFrom, Next;
    Serialisable(steps);
    var log := Execution(steps).log;
    FinishOnce(OpsOf(log), i, j);
    assert OpsOf(log)[..j + 1] == OpsOf(log[..j + 1]) && OpsOf(log)[..j] == OpsOf(log[..j]);
  }

  /** ... and every state any interleaving commits satisfies the invariant. */
  lemma CommittedInv(steps: seq<Step>)
    ensures Inv(Execution(steps).db)
  {
    Serialisable(steps);
    ReachableInv(OpsOf(Execution(steps).log));
  }

  /** While one client is in its transaction no step of another changes the tables or that transaction. */
  lemma NoInterference(steps: seq<Step>, c: nat, step: Step)
    requires var s := Execution(steps); ClientOf(s, c).InTx? && step.client != c
    ensures var s := Execution(steps); var s' := Next(s, step); s'.db == s.db && s'.lock == s.lock && ClientOf(s', c) == ClientOf(s, c)
  {
    Serialisable(steps);
    hide Serial, TxOk, Advance, Execution;
  }

  // Nothing is answered that was not asked.

  /** How often this client requested this operation. */
  function Asked(steps: seq<Step>, c: nat, op: Op): nat {
    if steps == [] then 0
    else Asked(steps[..|steps| - 1], c, op) + if steps[|steps| - 1] == Request(c, op) then 1 else 0
  }

  function Answered(log: seq<Answer>, c: nat, op: Op): nat {
    if log == [] then 0
    else
      var last := log[|log| - 1];
      Answered(log[..|log| - 1], c, op) + if last.client == c && last.op == op then 1 else 0
  }

  predicate Pending(client: Client, op: Op) {
    !client.Idle? && client.op == op
  }

  /** Requests of this operation by this client that are answered or still open. */
  function Served(s: System, c: nat, op: Op): nat {
    Answered(s.log, c, op) + if Pending(ClientOf(s, c), op) then 1 else 0
  }

  lemma OneMoreAnswer(log: seq<Answer>, a: Answer, c: nat, op: Op)
    ensures Answered(log + [a], c, op) == Answered(log, c, op) + if a.client == c && a.op == op then 1 else 0
  {
    assert (log + [a])[..|log|] == log;
  }

  lemma StepServes(s: System, step: Step, c: nat, op: Op)
    ensures Served(Next(s, step), c, op) <= Served(s, c, op) + if step == Request(c, op) then 1 else 0
  {
    hide Advance, Answered;
    var s' := Next(s, step);
    if s'.log != s.log {
      assert ClientOf(s, step.client).InTx?;
      var a := s'.log[|s.log|];
      assert s'.log == s.log + [a] && a.client == step.client && a.op == ClientOf(s, step.client).op;
      OneMoreAnswer(s.log, a, c, op);
    }
  }

  /** No request is answered twice: a client's answers to an operation, with the open one, are at most its requests of it. */
  lemma {:induction false} AnswersWithinRequests(steps: seq<Step>, c: nat, op: Op)
    ensures Served(Execution(steps), c, op) <= Asked(steps, c, op)
  {
    if steps != [] {
      var n := |steps| - 1;
      AnswersWithinRequests(steps[..n], c, op);
      StepServes(Execution(steps[..n]), steps[n], c, op);
      hide Next, Served;
    }
  }

  lemma {:induction false} AskedMeansRequested(steps: seq<Step>, c: nat, op: Op)
    requires Asked(steps, c, op) > 0
    ensures Request(c, op) in steps
  {
    var n := |steps| - 1;
    if steps[n] != Request(c, op) {
      AskedMeansRequested(steps[..n], c, op);
    }
  }

  lemma {:induction false} AnswerIsAnswered(log: seq<Answer>, i: nat)
    requires i < |log|
    ensures Answered(log, log[i].client, log[i].op) > 0
  {
    if i < |log| - 1 {
      AnswerIsAnswered(log[..|log| - 1], i);
    }
  }

  /** Every answer, and every operation a client is at work on, goes back to a request of that client. */
  lemma EveryAnswerWasRequested(steps: seq<Step>)
    ensures var s := Execution(steps);
      && (forall i :: 0 <= i < |s.log| ==> Request(s.log[i].client, s.log[i].op) in steps)
      && (forall c: nat :: !ClientOf(s, c).Idle? ==> Request(c, ClientOf(s, c).op) in steps)
  {
    hide Execution, Answered, Asked;
    var s := Execution(steps);
    forall i | 0 <= i < |s.log| ensures Request(s.log[i].client, s.log[i].op) in steps {
      AnswerIsAnswered(s.log, i);
      AnswersWithinRequests(steps, s.log[i].client, s.log[i].op);
      AskedMeansRequested(steps, s.log[i].client, s.log[i].op);
    }
    forall c: nat | !ClientOf(s, c).Idle? ensures Request(c, ClientOf(s, c).op) in steps {
      AnswersWithinRequests(steps, c, ClientOf(s, c).op);
      AskedMeansRequested(steps, c, ClientOf(s, c).op);
    }
  }

  /** A read of the committed tables decodes, at any point of any interleaving, whoever is inside a transaction. */
  lemma CommittedReadsDecode(steps: seq<Step>, id: SubmissionId, user: UserId, hash: string, limit: u32)
    ensures var db := Execution(steps).db;
      && (id in db.submissions ==> ReadSubmission(db, id).Ok?)
      && LatestVerdictForHash(db, user, hash).Ok?
      && SubmissionsForUser(db, user, limit).Ok?
      && InFlightSubmissions(db).Ok?
      && RunsForSubmission(db, id).Ok?
  {
    var db := Execution(steps).db;
    Serialisable(steps);
    CommittedInv(steps);
    SubmissionReadsDecode(OpsOf(Execution(steps).log), id, user, hash, limit);
    RunsAreOrdered(db, id);
    hide Execution, Replay, ReadSubmission, LatestVerdictForHash, SubmissionsForUser, InFlightSubmissions, RunsForSubmission;
  }

  // What is asked gets done.

  /** `op`, served for `c` on the tables of `s`: its whole effect is committed and its answer given, and `c` and the lock are free again. */
  ghost predicate Completes(s: System, c: nat, op: Op, s': System) {
    && s'.db == Exec(s.db, op).db
    && s'.log == s.log + [Answer(c, op, Exec(s.db, op).reply)]
    && s'.lock == None
    && ClientOf(s', c) == Idle
    && forall d :: d != c ==> ClientOf(s', d) == ClientOf(s, d)
  }

  lemma CommitIsDone(s: System, c: nat)
    requires Isolated(s) && ClientOf(s, c).InTx? && ClientOf(s, c).pc.Ready?
    ensures Completes(s, c, ClientOf(s, c).op, Next(s, Commit(c)))
  {
    var t := ClientOf(s, c);
    ReadyIsExec(s.db, t.op, t.pc, t.image);
    hide TxOk, Exec;
  }

  /** COMMIT writes the transaction's whole image and gives its answer, and both are the atomic operation's. */
  lemma CommitTakesEffect(steps: seq<Step>, c: nat)
    requires var t := ClientOf(Execution(steps), c); t.InTx? && t.pc.Ready?
    ensures Completes(Execution(steps), c, ClientOf(Execution(steps), c).op, Execution(steps + [Commit(c)]))
  {
    Serialisable(steps);
    CommitIsDone(Execution(steps), c);
    OneMoreStep(steps, Commit(c));
    hide Execution, Next, Completes, Isolated, Serial;
  }

  lemma OneMoreStep(steps: seq<Step>, step: Step)
    ensures Execution(steps + [step]) == Next(Execution(steps), step)
  {
    hide Next;
    assert (steps + [step])[..|steps|] == steps;
  }

  /** A crash or a give-up leaves no trace: the tables and the log stay, the client is idle, and a held lock is free. */
  lemma DroppedWithoutTrace(steps: seq<Step>, c: nat)
    ensures var s := Execution(steps); var s' := Execution(steps + [Crash(c)]);
      ClientOf(s, c).InTx? ==> s'.db == s.db && s'.log == s.log && s'.lock == None && ClientOf(s', c) == Idle
    ensures var s := Execution(steps); var s' := Execution(steps + [GiveUp(c)]);
      ClientOf(s, c).Waiting? ==> s'.db == s.db && s'.log == s.log && s'.lock == s.lock && ClientOf(s', c) == Idle
  {
    OneMoreStep(steps, Crash(c));
    OneMoreStep(steps, GiveUp(c));
    hide Execution, Advance;
  }

  ghost predicate By(c: nat, steps: seq<Step>) {
    forall step :: step in steps ==> step.client == c
  }

  /** `c` is inside its transaction on the tables of `base`, which nobody has touched. */
  ghost predicate Inside(base: System, s: System, c: nat, op: Op) {
    && s.db == base.db && s.log == base.log && s.lock == Some(c)
    && ClientOf(s, c).InTx? && ClientOf(s, c).op == op
    && TxOk(s.db, op, ClientOf(s, c).pc, ClientOf(s, c).image)
    && forall d :: d != c ==> ClientOf(s, d) == ClientOf(base, d)
  }

  function LeftOf(client: Client): nat {
    if client.InTx? then Left(client.op, client.pc, client.image) else 0
  }

  /** One statement ends the operation, refused, or brings it nearer its COMMIT. */
  lemma StatementAdvances(base: System, s: System, c: nat, op: Op) returns (step: Step)
    requires Inside(base, s, c, op) && !ClientOf(s, c).pc.Ready?
    ensures step.client == c
    ensures Completes(base, c, op, Next(s, step)) ||
            (Inside(base, Next(s, step), c, op) && LeftOf(ClientOf(Next(s, step), c)) < LeftOf(ClientOf(s, c)))
  {
    var t := ClientOf(s, c);
    var pick := "";
    if t.pc.Pruning? && t.pc.todo != {} {
      pick :| pick in t.pc.todo;
    }
    step := Execute(c, pick);
    StatementStays(base, s, c, op, pick);
    hide *;
  }

  lemma StatementStays(base: System, s: System, c: nat, op: Op, pick: ProblemId)
    requires Inside(base, s, c, op) && !ClientOf(s, c).pc.Ready?
    requires var pc := ClientOf(s, c).pc; pc.Pruning? && pc.todo != {} ==> pick in pc.todo
    ensures var s' := Next(s, Execute(c, pick));
      Completes(base, c, op, s') || (Inside(base, s', c, op) && LeftOf(ClientOf(s', c)) < LeftOf(ClientOf(s, c)))
  {
    hide Advance, Exec, TxOk, Left, OutcomeOk;
    var t := ClientOf(s, c);
    AdvanceKeeps(s.db, op, t.pc, t.image, pick);
    AdvanceProgresses(s.db, op, t.pc, t.image, pick);
    OutcomeSays(s.db, op, Advance(op, t.pc, t.image, pick));
  }

  lemma OutcomeSays(base: Db, op: Op, o: Outcome)
    requires OutcomeOk(base, op, o)
    ensures match o
      case Goto(pc, image) => TxOk(base, op, pc, image)
      case Abort(e) => Exec(base, op).db == base && Exec(base, op).reply == Refused(e)
  {
    hide Exec, TxOk;
  }

  lemma {:induction false} FinishesFrom(base: System, steps: seq<Step>, c: nat, op: Op) returns (more: seq<Step>)
    requires Inside(base, Execution(steps), c, op)
    ensures By(c, more) && Completes(base, c, op, Execution(steps + more))
    decreases LeftOf(ClientOf(Execution(steps), c))
  {
    hide *;
    var s := Execution(steps);
    InsideIsInTx(base, s, c, op);
    if ClientOf(s, c).pc.Ready? {
      more := [Commit(c)];
      InsideCommits(base, s, c, op);
      OneMoreStep(steps, Commit(c));
      OneBy(c, Commit(c), []);
      assert [Commit(c)] + [] == more;
    } else {
      var step := StatementAdvances(base, s, c, op);
      OneMoreStep(steps, step);
      var rest := [];
      if !Completes(base, c, op, Next(s, step)) {
        rest := FinishesFrom(base, steps + [step], c, op);
      } else {
        assert steps + [step] + rest == steps + [step];
      }
      more := [step] + rest;
      assert steps + [step] + rest == steps + more;
      OneBy(c, step, rest);
    }
  }

  lemma InsideCommits(base: System, s: System, c: nat, op: Op)
    requires Inside(base, s, c, op) && ClientOf(s, c).pc.Ready?
    ensures Completes(base, c, op, Next(s, Commit(c)))
  {
    ReadyIsExec(s.db, op, ClientOf(s, c).pc, ClientOf(s, c).image);
    hide TxOk, Exec;
  }

  lemma EntersTransaction(s: System, c: nat, op: Op)
    requires s.lock.None? && ClientOf(s, c).Idle?
    ensures Inside(s, Next(Next(s, Request(c, op)), Begin(c)), c, op)
  {
    OpenedIsOk(s.db, op);
    hide TxOk;
  }

  /** From every reachable state with a free lock, any idle client can have any operation served, by steps of its own alone. */
  lemma EveryCallCompletes(steps: seq<Step>, c: nat, op: Op) returns (more: seq<Step>)
    requires Execution(steps).lock.None? && ClientOf(Execution(steps), c).Idle?
    ensures By(c, more) && Completes(Execution(steps), c, op, Execution(steps + more))
  {
    hide *;
    var asked := steps + [Request(c, op)];
    EntersTransaction(Execution(steps), c, op);
    OneMoreStep(steps, Request(c, op));
    OneMoreStep(asked, Begin(c));
    var rest := FinishesFrom(Execution(steps), asked + [Begin(c)], c, op);
    more := [Request(c, op), Begin(c)] + rest;
    assert asked + [Begin(c)] + rest == steps + more;
    OneBy(c, Begin(c), rest);
    OneBy(c, Request(c, op), [Begin(c)] + rest);
    assert [Request(c, op)] + ([Begin(c)] + rest) == more;
  }

  lemma InsideIsInTx(base: System, s: System, c: nat, op: Op)
    requires Inside(base, s, c, op)
    ensures ClientOf(s, c).InTx?
  {
  }

  lemma OneBy(c: nat, step: Step, rest: seq<Step>)
    requires step.client == c && (rest == [] || By(c, rest))
    ensures By(c, [step] + rest)
  {
  }
}
