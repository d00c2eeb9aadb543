/** What the steps other than a commit leave alone: terminal executions, logs, tables and links. */
module ProtocolSteps {
  import opened Wrappers
  import opened EventCatalog
  import opened Decisions
  import opened DecisionChain
  import opened ReviewCorrection
  import opened Protocol
  import opened ProtocolBasics
  import opened ProtocolSafety

  /** No execution is linked to another version. */
  ghost predicate LinksStay(s: State, n: State) {
    forall k :: k in s.execs ==> k in n.execs && n.execs[k].decision == s.execs[k].decision
  }

  /** A calm change of rows that writes no decision, links no execution and moves no worker. */
  ghost predicate Quiet(s: State, n: State) {
    Calm(s, n) && LinksStay(s, n) && n.table == s.table && n.workers == s.workers
  }

  // ----- the functions the steps are made of -----

  lemma NoChangeIsCalm(s: State, n: State)
    requires n.table == s.table && n.execs == s.execs && n.logs == s.logs
    ensures Calm(s, n) && LinksStay(s, n)
  {
    SameTableGrows(s.table);
  }

  lemma ExecUpdateIsCalm(s: State, n: State, k: Key)
    requires n.table == s.table && n.logs == s.logs && k in n.execs
    requires n.execs == s.execs[k := n.execs[k]]
    requires if k in s.execs && Terminal(s.execs[k].status) then SameCore(s.execs[k], n.execs[k])
             else !Terminal(n.execs[k].status) && n.execs[k].hasLog == (k in s.execs && s.execs[k].hasLog)
    ensures Calm(s, n)
    ensures k in s.execs && n.execs[k].decision == s.execs[k].decision ==> LinksStay(s, n)
  {
    SameTableGrows(s.table);
  }

  lemma CalmTransitive(s: State, m: State, n: State)
    requires Calm(s, m) && Calm(m, n)
    ensures Calm(s, n)
  {
    forall k, v | HasVersion(s.table, k, v)
      ensures HasVersion(n.table, k, v) && DecisionAt(n.table, k, v) == DecisionAt(s.table, k, v)
      ensures n.table[k][v - 1] == s.table[k][v - 1]
    {
      assert HasVersion(m.table, k, v);
    }
    forall k | k in s.logs ensures SameContent(s.logs[k], n.logs[k]) {
      assert k in m.logs.Keys && SameContent(m.logs[k], n.logs[k]);
    }
  }

  lemma CalmCompose(s: State, m: State, n: State)
    requires Calm(s, m) && n.table == m.table && n.execs == m.execs && n.logs == m.logs
    ensures Calm(s, n)
    ensures LinksStay(s, m) ==> LinksStay(s, n)
  {
  }

  lemma PersistExecutionIsCalm(s: State, k: Key, v: nat, disposition: Disposition)
    requires HasVersion(s.table, k, v)
    ensures var n := PersistExecution(s, k, v, disposition);
            Calm(s, n) && n.workers == s.workers && n.table == s.table
  {
    var n := PersistExecution(s, k, v, disposition);
    if n.execs == s.execs {
      NoChangeIsCalm(s, n);
    } else {
      ExecUpdateIsCalm(s, n, k);
    }
  }

  lemma PersistReviewIsCalm(s: State, k: Key, v: nat)
    requires HasVersion(s.table, k, v)
    ensures Quiet(s, PersistReview(s, k, v))
  {
    NoChangeIsCalm(s, PersistReview(s, k, v));
  }

  lemma OrchestrateIsCalm(s: State, k: Key, v: nat, disposition: Disposition, recordIgnored: bool)
    requires HasVersion(s.table, k, v)
    ensures var n := Orchestrate(s, k, v, disposition, recordIgnored);
            Calm(s, n) && n.workers == s.workers && n.table == s.table
  {
    NoChangeIsCalm(s, s);
    PersistReviewIsCalm(s, k, v);
    PersistExecutionIsCalm(s, k, v, disposition);
  }

  lemma CountAttemptIsQuiet(s: State, k: Key)
    requires k in s.execs
    ensures Quiet(s, CountAttempt(s, k))
  {
    ExecUpdateIsCalm(s, CountAttempt(s, k), k);
  }

  lemma RecordFailureIsQuiet(s: State, k: Key, f: Failure)
    ensures Quiet(s, RecordFailure(s, k, f))
  {
    if RecordFailure(s, k, f) == s {
      NoChangeIsCalm(s, s);
    } else {
      ExecUpdateIsCalm(s, RecordFailure(s, k, f), k);
    }
  }

  lemma BlockIsQuiet(s: State, n: State, k: Key)
    requires k in s.execs && !Terminal(s.execs[k].status)
    requires n == s.(reviews := n.reviews, execs := s.execs[k := s.execs[k].(status := ExBlocked)])
    ensures Quiet(s, n)
  {
    ExecUpdateIsCalm(s, n, k);
  }

  lemma RejectIsQuiet(s: State, k: Key)
    ensures Quiet(s, Reject(s, k))
  {
    var n := Reject(s, k);
    if n.execs == s.execs {
      NoChangeIsCalm(s, n);
    } else {
      BlockIsQuiet(s, n, k);
    }
  }

  lemma DeliverToExecutionIsQuiet(s: State, k: Key, o: SendOutcome)
    ensures Quiet(s, DeliverToExecution(s, k, o))
  {
    if DeliverToExecution(s, k, o) == s {
      NoChangeIsCalm(s, s);
    } else {
      ExecUpdateIsCalm(s, DeliverToExecution(s, k, o), k);
    }
  }

  lemma LogStatusIsQuiet(s: State, n: State, k: Key)
    requires k in s.logs && k in n.logs && SameContent(s.logs[k], n.logs[k])
    requires n == s.(logs := s.logs[k := n.logs[k]])
    ensures Quiet(s, n)
  {
    SameTableGrows(s.table);
    assert n.logs.Keys == s.logs.Keys;
  }

  lemma DeliverIsQuiet(s: State, k: Key, o: SendOutcome)
    ensures Quiet(s, Deliver(s, k, o))
  {
    var n := Deliver(s, k, o);
    if n == s {
      NoChangeIsCalm(s, s);
    } else {
      var s1 := s.(logs := s.logs[k := s.logs[k].(status := if o.SendOk? then LogSent else LogFailed)]);
      var s2 := DeliverToExecution(s1, k, o);
      LogStatusIsQuiet(s, s1, k);
      DeliverToExecutionIsQuiet(s1, k, o);
      CalmTransitive(s, s1, s2);
      CalmCompose(s, s2, n);
    }
  }

  lemma ReuseOrAppendGrows(t: Table, p: Approver, delivery: string)
    requires ValidTable(t) && p.WithLatest? && HasVersion(t, p.key, p.latest)
    ensures TableGrows(t, ReuseOrAppend(t, p, delivery).0)
  {
    SameTableGrows(t);
    if !p.own && p.corrected.Ok? {
      TransactionGrows(t, ApprovalRequest(p.key, p.review, p.corrected.value, p.latest, delivery));
    }
  }

  lemma OrchestrateApprovalIsCalm(s: State, a: nat)
    requires ApproverAt(s, a).Persisted? && HasVersion(s.table, ApproverAt(s, a).key, ApproverAt(s, a).version)
    ensures var n := OrchestrateApproval(s, a);
            Calm(s, n) && n.workers == s.workers && n.table == s.table
  {
    var p := ApproverAt(s, a);
    var m := Orchestrate(s, p.key, p.version, MakeEligible, false);
    OrchestrateIsCalm(s, p.key, p.version, MakeEligible, false);
    CalmCompose(s, m, OrchestrateApproval(s, a));
  }

  // ----- the steps -----

  predicate IsWorkerStep(step: Step) {
    || step.Load? || step.Attempt? || step.FailBeforeLock? || step.TakeLock? || step.Reread? || step.QueryDuplicate?
    || step.Commit? || step.Enqueue? || step.Abort? || step.HandleExecution? || step.HandleReview? || step.Crash?
  }

  predicate WritesDecision(step: Step) {
    step.Freeze? || step.ApprovalAppend?
  }

  predicate LinksExecution(step: Step) {
    step.OrchestrateStep? || step.ApprovalOrchestrate?
  }

  /**
   * The step is calm; only freezing and appending write decisions, only orchestrating links executions, and
   * only the steps of a worker move it.
   */
  ghost predicate CalmStep(lock: Lock, s: State, step: Step) {
    var n := Next(lock, s, step);
    && Calm(s, n)
    && (WritesDecision(step) || n.table == s.table)
    && (LinksExecution(step) || LinksStay(s, n))
    && (IsWorkerStep(step) || n.workers == s.workers)
  }

  lemma TableWriteIsCalm(lock: Lock, s: State, step: Step, n: State)
    requires Next(lock, s, step) == n && WritesDecision(step) && TableGrows(s.table, n.table)
    requires n.execs == s.execs && n.logs == s.logs && n.workers == s.workers
    ensures CalmStep(lock, s, step)
  {
  }

  lemma AppendStepIsCalm(lock: Lock, s: State, step: Step)
    requires Basic(lock, s) && Enabled(lock, s, step) && WritesDecision(step)
    ensures CalmStep(lock, s, step)
  {
    if step.Freeze? {
      TransactionGrows(s.table, step.request);
      TableWriteIsCalm(lock, s, step, s.(table := Transaction(s.table, step.request).0));
    } else {
      ReuseOrAppendGrows(s.table, ApproverAt(s, step.approver), step.delivery);
      TableWriteIsCalm(lock, s, step, AppendApproval(s, step.approver, step.delivery));
    }
  }

  lemma LinkStepIsCalm(lock: Lock, s: State, step: Step)
    requires Enabled(lock, s, step) && LinksExecution(step)
    ensures CalmStep(lock, s, step)
  {
    match step
    case OrchestrateStep(k, v, disposition, recordIgnored) => OrchestrateIsCalm(s, k, v, disposition, recordIgnored);
    case ApprovalOrchestrate(a) => OrchestrateApprovalIsCalm(s, a);
  }

  lemma QuietStepIsCalm(lock: Lock, s: State, step: Step, n: State)
    requires Next(lock, s, step) == n && Quiet(s, n)
    ensures CalmStep(lock, s, step)
  {
  }

  lemma RowStepIsCalm(lock: Lock, s: State, step: Step)
    requires step.DeliverStep? || step.UpdateItemsStep? || step.RejectStep?
    ensures CalmStep(lock, s, step)
  {
    match step
    case DeliverStep(k, o) =>
      DeliverIsQuiet(s, k, o);
      QuietStepIsCalm(lock, s, step, Deliver(s, k, o));
    case UpdateItemsStep(k, catalog, input) =>
      NoChangeIsCalm(s, UpdateItems(s, k, catalog, input));
      QuietStepIsCalm(lock, s, step, UpdateItems(s, k, catalog, input));
    case RejectStep(k) =>
      RejectIsQuiet(s, k);
      QuietStepIsCalm(lock, s, step, Reject(s, k));
  }

  lemma ClaimIsQuiet(s: State, a: nat)
    requires ApproverAt(s, a).Orchestrated? && ApproverAt(s, a).key in s.reviews
    ensures Quiet(s, ClaimReview(s, a))
  {
    NoChangeIsCalm(s, ClaimReview(s, a));
  }

  lemma SetApproverIsQuiet(s: State, a: nat, p: Approver)
    ensures Quiet(s, SetApprover(s, a, p))
  {
    NoChangeIsCalm(s, SetApprover(s, a, p));
  }

  lemma ApproverStepIsCalm(lock: Lock, s: State, step: Step)
    requires Enabled(lock, s, step)
    requires step.ApprovalRead? || step.ApprovalFindLatest? || step.ApprovalClaim? || step.ApprovalRecheck?
    ensures CalmStep(lock, s, step)
  {
    match step
    case ApprovalRead(a, k, ctx) => SetApproverIsQuiet(s, a, ReadReview(s, k, ctx));
    case ApprovalFindLatest(a) =>
      var p := ApproverAt(s, a);
      SetApproverIsQuiet(s, a, AfterFindLatest(s.table, p.key, p.review, p.ctx));
    case ApprovalClaim(a) =>
      ClaimIsQuiet(s, a);
      QuietStepIsCalm(lock, s, step, ClaimReview(s, a));
    case ApprovalRecheck(a) =>
      SetApproverIsQuiet(s, a, Granted(ApproverAt(s, a).key));
      SetApproverIsQuiet(s, a, Refused);
  }

  /** A worker's step whose writes are quiet is calm. */
  lemma WorkerMoveIsCalm(lock: Lock, s: State, step: Step, m: State, worker: Worker)
    requires IsWorkerStep(step) && Quiet(s, m)
    requires Next(lock, s, step) == SetWorker(m, step.worker, worker)
    ensures CalmStep(lock, s, step)
  {
    CalmCompose(s, m, SetWorker(m, step.worker, worker));
  }

  lemma WorkerStepIsCalm(lock: Lock, s: State, step: Step)
    requires Enabled(lock, s, step) && IsWorkerStep(step) && !step.Commit?
    ensures CalmStep(lock, s, step)
  {
    NoChangeIsCalm(s, s);
    match step
    case Load(w, k) => WorkerMoveIsCalm(lock, s, step, s, AfterLoad(s, k));
    case Attempt(w) =>
      var job := WorkerAt(s, w).job;
      CountAttemptIsQuiet(s, job.key);
      WorkerMoveIsCalm(lock, s, step, CountAttempt(s, job.key), Attempted(job));
    case FailBeforeLock(w, f) => WorkerMoveIsCalm(lock, s, step, s, Failing(WorkerAt(s, w).job.key, f));
    case Enqueue(w, accepted) =>
      WorkerMoveIsCalm(lock, s, step, s, if accepted then Idle else Failing(WorkerAt(s, w).key, Unexpected));
    case TakeLock(w) => WorkerMoveIsCalm(lock, s, step, s, Locked(WorkerAt(s, w).job));
    case Reread(w) => WorkerMoveIsCalm(lock, s, step, s, AfterReread(s, WorkerAt(s, w).job));
    case QueryDuplicate(w, answer) => WorkerMoveIsCalm(lock, s, step, s, Checked(WorkerAt(s, w).job, answer));
    case Abort(w) => WorkerMoveIsCalm(lock, s, step, s, Failing(WorkerAt(s, w).job.key, Unexpected));
    case HandleExecution(w) =>
      var p := WorkerAt(s, w);
      RecordFailureIsQuiet(s, p.key, p.failure);
      WorkerMoveIsCalm(lock, s, step, RecordFailure(s, p.key, p.failure), FailingReview(p.key, p.failure));
    case HandleReview(w) =>
      var k := WorkerAt(s, w).key;
      NoChangeIsCalm(s, RecordReviewFailure(s, k));
      WorkerMoveIsCalm(lock, s, step, RecordReviewFailure(s, k), Idle);
    case Crash(w) => WorkerMoveIsCalm(lock, s, step, s, Idle);
  }

  /** Every step but a commit leaves terminal executions and the content of logs alone. */
  lemma StepIsCalm(lock: Lock, s: State, step: Step)
    requires Basic(lock, s) && !step.Commit?
    ensures CalmStep(lock, s, step)
  {
    if !Enabled(lock, s, step) {
      NoChangeIsCalm(s, s);
    } else if IsWorkerStep(step) {
      WorkerStepIsCalm(lock, s, step);
    } else if WritesDecision(step) {
      AppendStepIsCalm(lock, s, step);
    } else if LinksExecution(step) {
      LinkStepIsCalm(lock, s, step);
    } else if step.DeliverStep? || step.UpdateItemsStep? || step.RejectStep? {
      RowStepIsCalm(lock, s, step);
    } else {
      ApproverStepIsCalm(lock, s, step);
    }
  }

  /** Where a worker stands after one of its steps. */
  function WorkerAfter(s: State, step: Step): Worker
    requires IsWorkerStep(step)
  {
    var worker := WorkerAt(s, step.worker);
    match step
    case Load(_, k) => AfterLoad(s, k)
    case Attempt(_) => if JobOf(worker).Some? then Attempted(worker.job) else Idle
    case FailBeforeLock(_, f) => if JobOf(worker).Some? then Failing(worker.job.key, f) else Idle
    case TakeLock(_) => if JobOf(worker).Some? then Locked(worker.job) else Idle
    case Reread(_) => if JobOf(worker).Some? then AfterReread(s, worker.job) else Idle
    case QueryDuplicate(_, answer) => if JobOf(worker).Some? then Checked(worker.job, answer) else Idle
    case Commit(_) =>
      if worker.Checked? && HasVersion(s.table, worker.job.key, worker.job.version) && worker.job.key in s.execs
      then AfterCommit(Committed(s, worker), worker) else Idle
    case Enqueue(_, accepted) => if worker.Enqueuing? && !accepted then Failing(worker.key, Unexpected) else Idle
    case Abort(_) => if JobOf(worker).Some? then Failing(worker.job.key, Unexpected) else Idle
    case HandleExecution(_) => if worker.Failing? then FailingReview(worker.key, worker.failure) else Idle
    case _ => Idle
  }

  lemma CommitMoves(s: State, w: nat)
    requires WorkerAt(s, w).Checked? && HasVersion(s.table, WorkerAt(s, w).job.key, WorkerAt(s, w).job.version)
    requires WorkerAt(s, w).job.key in s.execs
    ensures CommitStep(s, w).workers == s.workers[w := AfterCommit(Committed(s, WorkerAt(s, w)), WorkerAt(s, w))]
  {
  }

  lemma UncommittedMoves(lock: Lock, s: State, step: Step)
    requires Enabled(lock, s, step) && IsWorkerStep(step) && !step.Commit?
    ensures Next(lock, s, step).workers == s.workers[step.worker := WorkerAfter(s, step)]
  {
  }

  lemma OneWorkerMoves(lock: Lock, s: State, step: Step)
    requires Enabled(lock, s, step) && IsWorkerStep(step)
    ensures Next(lock, s, step).workers == s.workers[step.worker := WorkerAfter(s, step)]
  {
    if step.Commit? {
      CommitMoves(s, step.worker);
    } else {
      UncommittedMoves(lock, s, step);
    }
  }

  // ----- versions that agree -----

  /** A decision to be frozen agrees with the versions of its chain. */
  ghost predicate StableStep(timed: bool, s: State, step: Step) {
    step.Freeze? ==>
      forall v :: HasVersion(s.table, KeyOf(step.request.decision), v) ==>
        Agree(timed, step.request.decision, DecisionAt(s.table, KeyOf(step.request.decision), v))
  }

  ghost predicate StableRun(timed: bool, lock: Lock, s: State, steps: seq<Step>)
    decreases |steps|
  {
    steps != [] ==> StableStep(timed, s, steps[0]) && StableRun(timed, lock, Next(lock, s, steps[0]), steps[1..])
  }

  lemma AgreeSymmetric(timed: bool, d: Decision, e: Decision)
    ensures Agree(timed, d, e) <==> Agree(timed, e, d)
    ensures Agree(timed, d, d)
    ensures Agree(true, d, e) ==> Agree(timed, d, e)
  {
  }

  lemma AppendKeepsStable(timed: bool, t: Table, r: Request)
    requires ValidTable(t) && Stable(timed, t)
    requires forall v :: HasVersion(t, KeyOf(r.decision), v) ==>
               Agree(timed, r.decision, DecisionAt(t, KeyOf(r.decision), v))
    ensures Stable(timed, Transaction(t, r).0)
  {
    TransactionGrows(t, r);
    var u := Transaction(t, r).0;
    forall k, v, w | HasVersion(u, k, v) && HasVersion(u, k, w)
      ensures Agree(timed, DecisionAt(u, k, v), DecisionAt(u, k, w))
    {
      AgreeSymmetric(timed, DecisionAt(u, k, v), DecisionAt(u, k, w));
      if !HasVersion(t, k, v) {
        TransactionAdds(t, r, k, v);
      }
      if !HasVersion(t, k, w) {
        TransactionAdds(t, r, k, w);
      }
    }
  }

  /** A correction deduplicates like the version it corrects. */
  lemma ApprovalKeepsStable(timed: bool, s: State, p: Approver, delivery: string)
    requires TableOk(s) && Stable(timed, s.table) && p.WithLatest? && ApproverOk(s, p)
    ensures Stable(timed, ReuseOrAppend(s.table, p, delivery).0)
  {
    if !p.own && p.corrected.Ok? {
      AppendKeepsStable(timed, s.table, ApprovalRequest(p.key, p.review, p.corrected.value, p.latest, delivery));
    }
  }

  /** Approvals never change what deduplication looks at; only a re-evaluation could. */
  lemma StepKeepsStable(timed: bool, lock: Lock, s: State, step: Step)
    requires Basic(lock, s) && Stable(timed, s.table) && StableStep(timed, s, step)
    ensures Stable(timed, Next(lock, s, step).table)
  {
    if Enabled(lock, s, step) {
      if step.Freeze? {
        AppendKeepsStable(timed, s.table, step.request);
      } else if step.ApprovalAppend? {
        var p := ApproverAt(s, step.approver);
        assert ApproverOk(s, p);
        ApprovalKeepsStable(timed, s, p, step.delivery);
      } else if !step.Commit? {
        StepIsCalm(lock, s, step);
      }
    }
  }

  /** Agreement on the time is more than agreement on the scope. */
  lemma {:induction false} TimedIsStable(lock: Lock, s: State, steps: seq<Step>)
    requires StableRun(true, lock, s, steps)
    ensures StableRun(false, lock, s, steps)
    decreases |steps|
  {
    if steps != [] {
      TimedIsStable(lock, Next(lock, s, steps[0]), steps[1..]);
    }
  }
}
