/** Invariants that hold along every run of the protocol, whatever is re-evaluated and when. */
module ProtocolBasics {
  import opened Wrappers
  import opened EventCatalog
  import opened Decisions
  import opened DecisionChain
  import opened ReviewCorrection
  import opened Protocol

  type Lock = (string, EventName) -> int

  // ----- invariants -----

  /** Every stored decision was issued by the engine or a correction, in this workspace. */
  ghost predicate TableOk(s: State) {
    && ValidTable(s.table)
    && forall k, v :: HasVersion(s.table, k, v) ==>
         Issued(DecisionAt(s.table, k, v)) && DecisionAt(s.table, k, v).occurrence.workspaceId == s.workspaceId
  }

  /** A row that is linked is linked to a version of its own chain and carries its timestamp. */
  ghost predicate LinksOk(s: State) {
    forall k :: k in s.execs && s.execs[k].decision.Some? ==> LinkOk(s, k)
  }

  ghost predicate LinkOk(s: State, k: Key)
    requires k in s.execs && s.execs[k].decision.Some?
  {
    var v := s.execs[k].decision.value;
    HasVersion(s.table, k, v) && s.execs[k].occurredAt == DecisionAt(s.table, k, v).occurrence.occurredAt
  }

  ghost predicate JobOk(s: State, job: Job) {
    && HasVersion(s.table, job.key, job.version)
    && job.key in s.execs && s.execs[job.key].decision.Some?
  }

  ghost predicate JobsOk(s: State) {
    forall w :: w in s.workers && JobOf(s.workers[w]).Some? ==>
      && JobOk(s, s.workers[w].job)
      && (InTransaction(s.workers[w]) ==> Materializable(s.table, s.workers[w].job))
  }

  /** Two transactions never hold the same lock. */
  ghost predicate LocksOk(lock: Lock, s: State) {
    forall w, u :: w in s.workers && u in s.workers && w != u && InTransaction(s.workers[w])
        && InTransaction(s.workers[u])
      && JobOk(s, s.workers[w].job) && JobOk(s, s.workers[u].job)
      ==> LockOf(lock, s.table, s.workers[w].job) != LockOf(lock, s.table, s.workers[u].job)
  }

  /** Until an event exists for it, the value of a review is the sum of its lines. */
  predicate ReviewValueOk(r: Review) {
    !r.hasLog && r.effective.Some? ==> r.effective.value == SubtotalSum(r.lines)
  }

  ghost predicate ReviewsOk(s: State) {
    forall k :: k in s.reviews ==> ReviewValueOk(s.reviews[k]) && (s.reviews[k].linked ==> k in s.execs)
  }

  /** Version `v` was written for the approval of this review version. */
  ghost predicate OwnVersion(t: Table, k: Key, v: nat, reviewVersion: nat) {
    HasVersion(t, k, v) && t[k][v - 1].evaluationKey == ApprovalEvaluationKey(k, reviewVersion)
  }

  ghost predicate ApprovedVersion(t: Table, k: Key, v: nat, reviewVersion: nat) {
    OwnVersion(t, k, v, reviewVersion) && DecisionAt(t, k, v).code.Eligible?
  }

  /** A correction is a decision of the same chain and deduplicates like the version it corrects. */
  ghost predicate CorrectionOk(s: State, k: Key, latest: nat, d: Decision)
    requires HasVersion(s.table, k, latest)
  {
    && Issued(d) && d.code.Eligible? && KeyOf(d) == k && d.occurrence.workspaceId == s.workspaceId
    && KeyForDedupe(d) == KeyForDedupe(DecisionAt(s.table, k, latest))
  }

  /** What an approver knows at each point of `prepareApproval`. */
  ghost predicate ApproverOk(s: State, p: Approver) {
    match p
    case Reading(k, review, ctx) =>
      && ReviewValueOk(review) && !review.hasLog && LinesApprovable(ctx.rule, review.lines, review.effective)
      && ctx.rule.providerRuleId == k.rule
    case WithLatest(k, review, latest, own, corrected) =>
      && HasVersion(s.table, k, latest)
      && (own ==> OwnVersion(s.table, k, latest, review.version))
      && (corrected.Ok? ==> CorrectionOk(s, k, latest, corrected.value))
    case Persisted(k, review, v) => ApprovedVersion(s.table, k, v, review.version)
    case Orchestrated(k, review, v) => ApprovedVersion(s.table, k, v, review.version) && k in s.execs
    case ClaimLost(k, _) => k in s.execs
    case Granted(k) => k in s.execs
    case _ => true
  }

  ghost predicate ApproversOk(s: State) {
    forall a :: a in s.approvers ==> ApproverOk(s, s.approvers[a])
  }

  ghost predicate Backed(t: Table, k: Key, reviewVersion: nat) {
    exists v :: ApprovedVersion(t, k, v, reviewVersion)
  }

  /**
   * Each review version is claimed at most once, only after it is left behind, and with an eligible decision
   * written for it.
   */
  ghost predicate ApprovalsOk(s: State) {
    && (forall i, j :: 0 <= i < j < |s.approvals| ==> s.approvals[i] != s.approvals[j])
    && (forall i :: 0 <= i < |s.approvals| ==>
          && s.approvals[i].0 in s.reviews && s.approvals[i].1 < s.reviews[s.approvals[i].0].version
          && Backed(s.table, s.approvals[i].0, s.approvals[i].1))
  }

  ghost predicate Basic(lock: Lock, s: State) {
    && TableOk(s) && LinksOk(s) && JobsOk(s) && LocksOk(lock, s)
    && ReviewsOk(s) && ApproversOk(s) && ApprovalsOk(s)
  }

  // ----- what a step leaves in place -----

  ghost predicate TableGrows(t: Table, u: Table) {
    forall k, v :: HasVersion(t, k, v) ==>
      HasVersion(u, k, v) && DecisionAt(u, k, v) == DecisionAt(t, k, v) && u[k][v - 1] == t[k][v - 1]
  }

  ghost predicate ExecsPersist(s: State, n: State) {
    forall k :: k in s.execs ==> k in n.execs && (s.execs[k].decision.Some? ==> n.execs[k].decision.Some?)
  }

  ghost predicate ReviewsAdvance(s: State, n: State) {
    forall k :: k in s.reviews ==> k in n.reviews && s.reviews[k].version <= n.reviews[k].version
  }

  lemma TransactionGrows(t: Table, r: Request)
    requires ValidTable(t)
    ensures TableGrows(t, Transaction(t, r).0)
    ensures ValidTable(Transaction(t, r).0)
  {
    TransactionKeepsTable(t, r);
    var u := Transaction(t, r).0;
    forall k, v | HasVersion(t, k, v)
      ensures HasVersion(u, k, v) && DecisionAt(u, k, v) == DecisionAt(t, k, v) && u[k][v - 1] == t[k][v - 1]
    {
      assert ChainIn(t, k) <= ChainIn(u, k);
    }
  }

  /** A new version of the table holds only decisions it held before and the one of the request. */
  lemma TransactionAdds(t: Table, r: Request, k: Key, v: nat)
    requires ValidTable(t) && HasVersion(Transaction(t, r).0, k, v) && !HasVersion(t, k, v)
    ensures DecisionAt(Transaction(t, r).0, k, v) == r.decision && k == KeyOf(r.decision)
  {
    TransactionKeepsTable(t, r);
    var u := Transaction(t, r).0;
    assert ChainIn(u, k) == u[k];
    if k == KeyOf(r.decision) {
      var chain := ChainIn(t, k);
      assert |u[k]| <= |chain| + 1 by { PersistKeepsChainValid(k, chain, r); }
      assert v == |chain| + 1;
    }
  }

  /** An accepted request is answered with the stored version that carries its key and decision. */
  lemma TransactionAnswers(t: Table, r: Request)
    requires ValidTable(t) && Transaction(t, r).1.Ok?
    ensures var (u, answer) := Transaction(t, r);
            var k, v := KeyOf(r.decision), answer.value.audit.version;
            && HasVersion(u, k, v) && u[k][v - 1].evaluationKey == EvaluationKeyOf(r)
            && DecisionAt(u, k, v) == r.decision
  {
    var chain := ChainIn(t, KeyOf(r.decision));
    assert ValidChain(KeyOf(r.decision), chain);
    var found := FindByEvaluation(chain, EvaluationKeyOf(r));
    if found.Some? {
      assert chain[found.value].version == found.value + 1;
    }
  }

  lemma FreezeKeepsTable(s: State, r: Request)
    requires TableOk(s) && Issued(r.decision) && r.decision.occurrence.workspaceId == s.workspaceId
    ensures TableOk(s.(table := Transaction(s.table, r).0))
    ensures TableGrows(s.table, Transaction(s.table, r).0)
  {
    var u := Transaction(s.table, r).0;
    TransactionGrows(s.table, r);
    forall k, v | HasVersion(u, k, v)
      ensures Issued(DecisionAt(u, k, v)) && DecisionAt(u, k, v).occurrence.workspaceId == s.workspaceId
    {
      if !HasVersion(s.table, k, v) {
        TransactionAdds(s.table, r, k, v);
      }
    }
  }

  // ----- steps on the tables -----

  /** A change of the tables alone that keeps their invariants. */
  ghost predicate DataStep(s: State, n: State) {
    && n.workspaceId == s.workspaceId && n.workers == s.workers
    && n.approvers == s.approvers && n.approvals == s.approvals
    && TableOk(n) && TableGrows(s.table, n.table)
    && LinksOk(n) && ExecsPersist(s, n)
    && ReviewsOk(n) && ReviewsAdvance(s, n)
  }

  lemma DataStepKeepsJobs(lock: Lock, s: State, n: State)
    requires Basic(lock, s) && DataStep(s, n)
    ensures JobsOk(n)
  {
    forall w | w in n.workers && JobOf(n.workers[w]).Some?
      ensures JobOk(n, n.workers[w].job)
      ensures InTransaction(n.workers[w]) ==> Materializable(n.table, n.workers[w].job)
    {
      assert JobOk(s, s.workers[w].job);
    }
  }

  lemma DataStepKeepsLocks(lock: Lock, s: State, n: State)
    requires Basic(lock, s) && DataStep(s, n)
    ensures LocksOk(lock, n)
  {
    forall w, u | w in n.workers && u in n.workers && w != u && InTransaction(n.workers[w])
        && InTransaction(n.workers[u])
      && JobOk(n, n.workers[w].job) && JobOk(n, n.workers[u].job)
      ensures LockOf(lock, n.table, n.workers[w].job) != LockOf(lock, n.table, n.workers[u].job)
    {
      assert JobOk(s, s.workers[w].job) && JobOk(s, s.workers[u].job);
    }
  }

  lemma ApprovedStaysApproved(t: Table, u: Table, k: Key, v: nat, reviewVersion: nat)
    requires TableGrows(t, u)
    ensures OwnVersion(t, k, v, reviewVersion) ==> OwnVersion(u, k, v, reviewVersion)
    ensures ApprovedVersion(t, k, v, reviewVersion) ==> ApprovedVersion(u, k, v, reviewVersion)
  {
  }

  lemma ApproverStaysOk(s: State, n: State, p: Approver)
    requires TableGrows(s.table, n.table) && n.workspaceId == s.workspaceId
    requires forall k :: k in s.execs ==> k in n.execs
    requires ApproverOk(s, p)
    ensures ApproverOk(n, p)
  {
    if p.WithLatest? {
      ApprovedStaysApproved(s.table, n.table, p.key, p.latest, p.review.version);
    } else if p.Persisted? || p.Orchestrated? {
      ApprovedStaysApproved(s.table, n.table, p.key, p.version, p.review.version);
    }
  }

  lemma BackedStaysBacked(t: Table, u: Table, k: Key, reviewVersion: nat)
    requires TableGrows(t, u) && Backed(t, k, reviewVersion)
    ensures Backed(u, k, reviewVersion)
  {
    var v :| ApprovedVersion(t, k, v, reviewVersion);
    ApprovedStaysApproved(t, u, k, v, reviewVersion);
  }

  lemma DataStepKeepsApprovals(s: State, n: State)
    requires DataStep(s, n) && ApproversOk(s) && ApprovalsOk(s)
    ensures ApproversOk(n) && ApprovalsOk(n)
  {
    forall a | a in n.approvers ensures ApproverOk(n, n.approvers[a]) {
      ApproverStaysOk(s, n, s.approvers[a]);
    }
    forall i | 0 <= i < |n.approvals|
      ensures n.approvals[i].0 in n.reviews && n.approvals[i].1 < n.reviews[n.approvals[i].0].version
      ensures Backed(n.table, n.approvals[i].0, n.approvals[i].1)
    {
      assert s.approvals[i].0 in s.reviews;
      BackedStaysBacked(s.table, n.table, s.approvals[i].0, s.approvals[i].1);
    }
  }

  lemma DataStepKeepsBasic(lock: Lock, s: State, n: State)
    requires Basic(lock, s) && DataStep(s, n)
    ensures Basic(lock, n)
  {
    DataStepKeepsJobs(lock, s, n);
    DataStepKeepsLocks(lock, s, n);
    DataStepKeepsApprovals(s, n);
  }

  lemma SameTableGrows(t: Table)
    ensures TableGrows(t, t)
  {
  }

  /** Replacing one execution row by a correctly linked one. */
  lemma ExecUpdateIsDataStep(s: State, n: State, k: Key, row: Execution)
    requires TableOk(s) && LinksOk(s) && ReviewsOk(s)
    requires n == s.(execs := s.execs[k := row])
    requires row.decision.Some? ==>
               HasVersion(s.table, k, row.decision.value) &&
               row.occurredAt == DecisionAt(s.table, k, row.decision.value).occurrence.occurredAt
    requires k in s.execs && s.execs[k].decision.Some? ==> row.decision.Some?
    ensures DataStep(s, n)
  {
    SameTableGrows(s.table);
    forall q | q in n.execs && n.execs[q].decision.Some?
      ensures LinkOk(n, q)
    {
      if q != k {
        assert LinkOk(s, q);
      }
    }
  }

  /** Replacing one review by a consistent one of a later version. */
  lemma ReviewUpdateIsDataStep(s: State, n: State, k: Key, row: Review)
    requires TableOk(s) && LinksOk(s) && ReviewsOk(s)
    requires n == s.(reviews := s.reviews[k := row])
    requires ReviewValueOk(row) && (row.linked ==> k in s.execs)
    requires k in s.reviews ==> s.reviews[k].version <= row.version
    ensures DataStep(s, n)
  {
    SameTableGrows(s.table);
    forall q | q in n.execs && n.execs[q].decision.Some?
      ensures LinkOk(n, q)
    {
      assert LinkOk(s, q);
    }
  }

  lemma NoChangeIsDataStep(s: State)
    requires TableOk(s) && LinksOk(s) && ReviewsOk(s)
    ensures DataStep(s, s)
  {
    SameTableGrows(s.table);
  }

  lemma DataStepsCompose(s: State, m: State, n: State)
    requires DataStep(s, m) && DataStep(m, n)
    ensures DataStep(s, n)
  {
    forall k, v | HasVersion(s.table, k, v)
      ensures HasVersion(n.table, k, v) && DecisionAt(n.table, k, v) == DecisionAt(s.table, k, v)
      ensures n.table[k][v - 1] == s.table[k][v - 1]
    {
      assert HasVersion(m.table, k, v);
    }
    forall k | k in s.reviews
      ensures k in n.reviews && s.reviews[k].version <= n.reviews[k].version
    {
      assert k in m.reviews;
    }
    forall k | k in s.execs
      ensures k in n.execs && (s.execs[k].decision.Some? ==> n.execs[k].decision.Some?)
    {
      assert k in m.execs;
    }
  }

  lemma OrchestrateIsDataStep(s: State, k: Key, v: nat, disposition: Disposition, recordIgnored: bool)
    requires TableOk(s) && LinksOk(s) && ReviewsOk(s) && HasVersion(s.table, k, v)
    ensures DataStep(s, Orchestrate(s, k, v, disposition, recordIgnored))
  {
    var n := Orchestrate(s, k, v, disposition, recordIgnored);
    var d := DecisionAt(s.table, k, v);
    assert Issued(d);
    if n == s {
      NoChangeIsDataStep(s);
    } else if d.code.ReviewRequired? {
      assert d.conversion.valueCents.None?;
      ReviewUpdateIsDataStep(s, n, k, n.reviews[k]);
    } else {
      ExecUpdateIsDataStep(s, n, k, n.execs[k]);
    }
  }

  lemma CommitIsDataStep(s: State, job: Job, n: State)
    requires TableOk(s) && LinksOk(s) && ReviewsOk(s) && JobOk(s, job)
    requires n == CommitDuplicate(s, job) || n == CommitMaterialized(s, job)
    ensures DataStep(s, n)
  {
    var k := job.key;
    assert LinkOk(s, k);
    var m := s.(execs := n.execs);
    assert m == s.(execs := s.execs[k := n.execs[k]]);
    ExecUpdateIsDataStep(s, m, k, n.execs[k]);
    var p := m.(reviews := n.reviews);
    if n.reviews != s.reviews {
      assert p == m.(reviews := m.reviews[k := n.reviews[k]]);
      ReviewUpdateIsDataStep(m, p, k, n.reviews[k]);
    } else {
      assert p == m;
      NoChangeIsDataStep(m);
    }
    DataStepsCompose(s, m, p);
    LogsAreNotConstrained(s, p, n);
  }

  /** The basic invariants do not look at the event logs. */
  lemma LogsAreNotConstrained(s: State, p: State, n: State)
    requires DataStep(s, p) && n == p.(logs := n.logs)
    ensures DataStep(s, n)
  {
    forall q | q in n.execs && n.execs[q].decision.Some?
      ensures LinkOk(n, q)
    {
      assert LinkOk(p, q);
    }
  }

  lemma CountAttemptIsDataStep(s: State, k: Key)
    requires TableOk(s) && LinksOk(s) && ReviewsOk(s) && k in s.execs
    ensures DataStep(s, CountAttempt(s, k))
  {
    assert s.execs[k].decision.Some? ==> LinkOk(s, k);
    ExecUpdateIsDataStep(s, CountAttempt(s, k), k, CountAttempt(s, k).execs[k]);
  }

  lemma RecordFailureIsDataStep(s: State, k: Key, f: Failure)
    requires TableOk(s) && LinksOk(s) && ReviewsOk(s)
    ensures DataStep(s, RecordFailure(s, k, f))
  {
    if RecordFailure(s, k, f) == s {
      NoChangeIsDataStep(s);
    } else {
      assert s.execs[k].decision.Some? ==> LinkOk(s, k);
      ExecUpdateIsDataStep(s, RecordFailure(s, k, f), k, RecordFailure(s, k, f).execs[k]);
    }
  }

  lemma RecordReviewFailureIsDataStep(s: State, k: Key)
    requires TableOk(s) && LinksOk(s) && ReviewsOk(s)
    ensures DataStep(s, RecordReviewFailure(s, k))
  {
    if RecordReviewFailure(s, k) == s {
      NoChangeIsDataStep(s);
    } else {
      ReviewUpdateIsDataStep(s, RecordReviewFailure(s, k), k, RecordReviewFailure(s, k).reviews[k]);
    }
  }

  lemma DeliverToExecutionIsDataStep(s: State, k: Key, o: SendOutcome)
    requires TableOk(s) && LinksOk(s) && ReviewsOk(s)
    ensures DataStep(s, DeliverToExecution(s, k, o))
  {
    if DeliverToExecution(s, k, o) == s {
      NoChangeIsDataStep(s);
    } else {
      assert s.execs[k].decision.Some? ==> LinkOk(s, k);
      ExecUpdateIsDataStep(s, DeliverToExecution(s, k, o), k, DeliverToExecution(s, k, o).execs[k]);
    }
  }

  lemma DeliverToReviewIsDataStep(s: State, k: Key, o: SendOutcome)
    requires TableOk(s) && LinksOk(s) && ReviewsOk(s)
    ensures DataStep(s, DeliverToReview(s, k, o))
  {
    if DeliverToReview(s, k, o) == s {
      NoChangeIsDataStep(s);
    } else {
      ReviewUpdateIsDataStep(s, DeliverToReview(s, k, o), k, DeliverToReview(s, k, o).reviews[k]);
    }
  }

  lemma DeliverIsDataStep(s: State, k: Key, o: SendOutcome)
    requires TableOk(s) && LinksOk(s) && ReviewsOk(s)
    ensures DataStep(s, Deliver(s, k, o))
  {
    NoChangeIsDataStep(s);
    if Deliver(s, k, o) != s {
      var s1 := s.(logs := s.logs[k := s.logs[k].(status := if o.SendOk? then LogSent else LogFailed)]);
      LogsAreNotConstrained(s, s, s1);
      var s2 := DeliverToExecution(s1, k, o);
      DeliverToExecutionIsDataStep(s1, k, o);
      DataStepsCompose(s, s1, s2);
      DeliverToReviewIsDataStep(s2, k, o);
      DataStepsCompose(s, s2, Deliver(s, k, o));
    }
  }

  lemma UpdateItemsIsDataStep(s: State, k: Key, catalog: Option<Catalog>, input: seq<ItemInput>)
    requires TableOk(s) && LinksOk(s) && ReviewsOk(s)
    ensures DataStep(s, UpdateItems(s, k, catalog, input))
  {
    var n := UpdateItems(s, k, catalog, input);
    if n == s {
      NoChangeIsDataStep(s);
    } else {
      ReviewUpdateIsDataStep(s, n, k, n.reviews[k]);
    }
  }

  lemma BlockIsDataStep(m: State, k: Key, n: State)
    requires TableOk(m) && LinksOk(m) && ReviewsOk(m) && k in m.execs
    requires n == m.(execs := m.execs[k := m.execs[k].(status := ExBlocked)])
    ensures DataStep(m, n)
  {
    assert m.execs[k].decision.Some? ==> LinkOk(m, k);
    ExecUpdateIsDataStep(m, n, k, n.execs[k]);
  }

  lemma RejectIsDataStep(s: State, k: Key)
    requires TableOk(s) && LinksOk(s) && ReviewsOk(s)
    ensures DataStep(s, Reject(s, k))
  {
    if k !in s.reviews || s.reviews[k].hasLog || !Actionable(s.reviews[k].status) {
      NoChangeIsDataStep(s);
    } else {
      RejectedIsDataStep(s, k);
    }
  }

  lemma RejectedIsDataStep(s: State, k: Key)
    requires TableOk(s) && LinksOk(s) && ReviewsOk(s)
    requires k in s.reviews && !s.reviews[k].hasLog && Actionable(s.reviews[k].status)
    ensures DataStep(s, Reject(s, k))
  {
    var row := s.reviews[k].(status := Rejected, version := s.reviews[k].version + 1);
    var m := s.(reviews := s.reviews[k := row]);
    assert ReviewValueOk(s.reviews[k]);
    ReviewUpdateIsDataStep(s, m, k, row);
    if Reject(s, k) != m {
      BlockIsDataStep(m, k, Reject(s, k));
      DataStepsCompose(s, m, Reject(s, k));
    }
  }

  lemma FreezeIsDataStep(s: State, r: Request)
    requires TableOk(s) && LinksOk(s) && ReviewsOk(s)
    requires Issued(r.decision) && r.decision.occurrence.workspaceId == s.workspaceId
    ensures DataStep(s, s.(table := Transaction(s.table, r).0))
  {
    var n := s.(table := Transaction(s.table, r).0);
    FreezeKeepsTable(s, r);
    forall k | k in n.execs && n.execs[k].decision.Some?
      ensures LinkOk(n, k)
    {
      assert LinkOk(s, k);
    }
  }

  // ----- steps of one process -----

  /** The invariants a worker must meet in state `s`, besides holding a lock of its own. */
  ghost predicate WorkerOk(s: State, worker: Worker) {
    JobOf(worker).Some? ==>
      JobOk(s, worker.job) && (InTransaction(worker) ==> Materializable(s.table, worker.job))
  }

  ghost predicate LockIsOwn(lock: Lock, s: State, w: nat, worker: Worker) {
    InTransaction(worker) && JobOk(s, worker.job) ==>
      forall u :: u in s.workers && u != w && InTransaction(s.workers[u]) && JobOk(s, s.workers[u].job)
        ==> LockOf(lock, s.table, s.workers[u].job) != LockOf(lock, s.table, worker.job)
  }

  lemma LinksIgnoreProcesses(s: State, n: State)
    requires LinksOk(s) && n.table == s.table && n.execs == s.execs
    ensures LinksOk(n)
  {
    forall k | k in n.execs && n.execs[k].decision.Some? ensures LinkOk(n, k) {
      assert LinkOk(s, k);
    }
  }

  lemma SetWorkerKeepsJobs(s: State, w: nat, worker: Worker)
    requires JobsOk(s) && WorkerOk(s, worker)
    ensures JobsOk(SetWorker(s, w, worker))
  {
    var n := SetWorker(s, w, worker);
    forall u | u in n.workers && JobOf(n.workers[u]).Some?
      ensures JobOk(n, n.workers[u].job)
      ensures InTransaction(n.workers[u]) ==> Materializable(n.table, n.workers[u].job)
    {
      assert JobOk(s, n.workers[u].job);
    }
  }

  lemma SetWorkerKeepsLocks(lock: Lock, s: State, w: nat, worker: Worker)
    requires LocksOk(lock, s) && LockIsOwn(lock, s, w, worker)
    ensures LocksOk(lock, SetWorker(s, w, worker))
  {
    var n := SetWorker(s, w, worker);
    forall x, u | x in n.workers && u in n.workers && x != u && InTransaction(n.workers[x])
        && InTransaction(n.workers[u])
      && JobOk(n, n.workers[x].job) && JobOk(n, n.workers[u].job)
      ensures LockOf(lock, n.table, n.workers[x].job) != LockOf(lock, n.table, n.workers[u].job)
    {
      assert JobOk(s, n.workers[x].job) && JobOk(s, n.workers[u].job);
    }
  }

  lemma ApproversIgnoreWorkers(s: State, n: State)
    requires ApproversOk(s) && ApprovalsOk(s)
    requires n == s.(workers := n.workers)
    ensures ApproversOk(n) && ApprovalsOk(n)
  {
    SameTableGrows(s.table);
    forall a | a in n.approvers ensures ApproverOk(n, n.approvers[a]) {
      ApproverStaysOk(s, n, s.approvers[a]);
    }
  }

  lemma SetWorkerKeepsBasic(lock: Lock, s: State, w: nat, worker: Worker)
    requires Basic(lock, s) && WorkerOk(s, worker) && LockIsOwn(lock, s, w, worker)
    ensures Basic(lock, SetWorker(s, w, worker))
  {
    var n := SetWorker(s, w, worker);
    LinksIgnoreProcesses(s, n);
    SetWorkerKeepsJobs(s, w, worker);
    SetWorkerKeepsLocks(lock, s, w, worker);
    ApproversIgnoreWorkers(s, n);
  }

  lemma WorkersIgnoreApprovers(lock: Lock, s: State, n: State)
    requires JobsOk(s) && LocksOk(lock, s)
    requires n == s.(approvers := n.approvers, approvals := n.approvals)
    ensures JobsOk(n) && LocksOk(lock, n)
  {
    forall u | u in n.workers && JobOf(n.workers[u]).Some? ensures JobOk(n, n.workers[u].job) {
      assert JobOk(s, n.workers[u].job);
    }
    forall x, u | x in n.workers && u in n.workers && x != u && InTransaction(n.workers[x])
        && InTransaction(n.workers[u])
      && JobOk(n, n.workers[x].job) && JobOk(n, n.workers[u].job)
      ensures LockOf(lock, n.table, n.workers[x].job) != LockOf(lock, n.table, n.workers[u].job)
    {
      assert JobOk(s, n.workers[x].job) && JobOk(s, n.workers[u].job);
    }
  }

  lemma SetApproverKeepsApprovals(s: State, a: nat, p: Approver)
    requires ApproversOk(s) && ApprovalsOk(s) && ApproverOk(s, p)
    ensures ApproversOk(SetApprover(s, a, p)) && ApprovalsOk(SetApprover(s, a, p))
  {
    var n := SetApprover(s, a, p);
    SameTableGrows(s.table);
    forall b | b in n.approvers ensures ApproverOk(n, n.approvers[b]) {
      ApproverStaysOk(s, n, n.approvers[b]);
    }
  }

  lemma SetApproverKeepsBasic(lock: Lock, s: State, a: nat, p: Approver)
    requires Basic(lock, s) && ApproverOk(s, p)
    ensures Basic(lock, SetApprover(s, a, p))
  {
    var n := SetApprover(s, a, p);
    LinksIgnoreProcesses(s, n);
    WorkersIgnoreApprovers(lock, s, n);
    SetApproverKeepsApprovals(s, a, p);
  }

  // ----- one step at a time -----

  lemma WorkerHasJob(lock: Lock, s: State, w: nat)
    requires Basic(lock, s) && JobOf(WorkerAt(s, w)).Some?
    ensures JobOk(s, WorkerAt(s, w).job)
    ensures InTransaction(WorkerAt(s, w)) ==> Materializable(s.table, WorkerAt(s, w).job)
    ensures LockIsOwn(lock, s, w, WorkerAt(s, w))
  {
  }

  /** A data change of a worker's step, after which the worker moves on with the same job or none. */
  lemma DataThenWorker(lock: Lock, s: State, m: State, w: nat, worker: Worker)
    requires Basic(lock, s) && DataStep(s, m)
    requires JobOf(worker).Some? ==>
             JobOf(WorkerAt(s, w)).Some? && worker.job == WorkerAt(s, w).job && !InTransaction(worker)
    ensures Basic(lock, SetWorker(m, w, worker))
  {
    DataStepKeepsBasic(lock, s, m);
    if JobOf(worker).Some? {
      WorkerHasJob(lock, m, w);
    }
    SetWorkerKeepsBasic(lock, m, w, worker);
  }

  lemma TakeLockKeepsBasic(lock: Lock, s: State, w: nat)
    requires Basic(lock, s) && Enabled(lock, s, TakeLock(w))
    ensures Basic(lock, SetWorker(s, w, Locked(WorkerAt(s, w).job)))
  {
    WorkerHasJob(lock, s, w);
    SetWorkerKeepsBasic(lock, s, w, Locked(WorkerAt(s, w).job));
  }

  lemma InsideTransactionKeepsBasic(lock: Lock, s: State, w: nat, worker: Worker)
    requires Basic(lock, s) && InTransaction(WorkerAt(s, w))
    requires JobOf(worker).Some? ==> worker.job == WorkerAt(s, w).job
    ensures Basic(lock, SetWorker(s, w, worker))
  {
    WorkerHasJob(lock, s, w);
    SetWorkerKeepsBasic(lock, s, w, worker);
  }

  lemma CommitIsNext(lock: Lock, s: State, w: nat)
    requires Enabled(lock, s, Commit(w))
    ensures WorkerAt(s, w).Checked? && Next(lock, s, Commit(w)) == CommitStep(s, w)
  {
  }

  lemma CommitStepKeepsBasic(lock: Lock, s: State, w: nat)
    requires Basic(lock, s) && WorkerAt(s, w).Checked?
    requires var job := WorkerAt(s, w).job; HasVersion(s.table, job.key, job.version) && job.key in s.execs
    ensures Basic(lock, CommitStep(s, w))
  {
    var m := Committed(s, WorkerAt(s, w));
    WorkerHasJob(lock, s, w);
    CommitIsDataStep(s, WorkerAt(s, w).job, m);
    DataThenWorker(lock, s, m, w, AfterCommit(m, WorkerAt(s, w)));
  }

  lemma CommitKeepsBasic(lock: Lock, s: State, w: nat)
    requires Basic(lock, s) && Enabled(lock, s, Commit(w))
    ensures Basic(lock, Next(lock, s, Commit(w)))
  {
    CommitIsNext(lock, s, w);
    CommitStepKeepsBasic(lock, s, w);
  }

  lemma ReuseOrAppendIsDataStep(s: State, p: Approver, delivery: string)
    requires TableOk(s) && LinksOk(s) && ReviewsOk(s) && ApproverOk(s, p)
    requires p.WithLatest?
    ensures DataStep(s, s.(table := ReuseOrAppend(s.table, p, delivery).0))
  {
    if !p.own && p.corrected.Ok? {
      FreezeIsDataStep(s, ApprovalRequest(p.key, p.review, p.corrected.value, p.latest, delivery));
    } else {
      NoChangeIsDataStep(s);
    }
  }

  lemma ReuseOrAppendIsOwn(s: State, p: Approver, delivery: string)
    requires TableOk(s) && ApproverOk(s, p) && p.WithLatest?
    ensures var (table, version) := ReuseOrAppend(s.table, p, delivery);
            version.Some? ==> ApprovedVersion(table, p.key, version.value, p.review.version)
  {
    if !p.own && ReuseOrAppend(s.table, p, delivery).1.Some? {
      TransactionAnswers(s.table, ApprovalRequest(p.key, p.review, p.corrected.value, p.latest, delivery));
    }
  }

  lemma AppendApprovalKeepsBasic(lock: Lock, s: State, a: nat, delivery: string)
    requires ApproverAt(s, a).WithLatest? && HasVersion(s.table, ApproverAt(s, a).key, ApproverAt(s, a).latest)
    requires Basic(lock, s)
    ensures Basic(lock, AppendApproval(s, a, delivery))
  {
    var p := ApproverAt(s, a);
    assert ApproverOk(s, p);
    ReuseOrAppendIsDataStep(s, p, delivery);
    ReuseOrAppendIsOwn(s, p, delivery);
    var (table, version) := ReuseOrAppend(s.table, p, delivery);
    var m := s.(table := table);
    DataStepKeepsBasic(lock, s, m);
    SetApproverKeepsBasic(lock, m, a, if version.Some? then Persisted(p.key, p.review, version.value) else Refused);
  }

  lemma AfterFindLatestOk(s: State, p: Approver)
    requires TableOk(s) && p.Reading? && ApproverOk(s, p)
    ensures ApproverOk(s, AfterFindLatest(s.table, p.key, p.review, p.ctx))
  {
    var q := AfterFindLatest(s.table, p.key, p.review, p.ctx);
    if q.WithLatest? {
      assert HasVersion(s.table, p.key, q.latest);
      if q.corrected.Ok? {
        var latest := DecisionAt(s.table, p.key, q.latest);
        CorrectionForIsOk(s, p, q.latest, latest);
      }
    }
  }

  lemma CorrectionForIsOk(s: State, p: Approver, v: nat, latest: Decision)
    requires TableOk(s) && p.Reading? && ApproverOk(s, p)
    requires HasVersion(s.table, p.key, v) && latest == DecisionAt(s.table, p.key, v)
    requires CorrectionFor(p.ctx, p.review, latest).Ok?
    ensures CorrectionOk(s, p.key, v, CorrectionFor(p.ctx, p.review, latest).value)
  {
    assert Issued(latest);
    assert KeyOf(latest) == p.key;
    CorrectionIsIssued(p.ctx, latest, p.review.lines, p.review.effective,
                       p.review.observed, p.review.currency, p.review.phrase);
  }

  lemma OrchestrateApprovalKeepsBasic(lock: Lock, s: State, a: nat)
    requires ApproverAt(s, a).Persisted? && HasVersion(s.table, ApproverAt(s, a).key, ApproverAt(s, a).version)
    requires Basic(lock, s)
    ensures Basic(lock, OrchestrateApproval(s, a))
  {
    var p := ApproverAt(s, a);
    assert ApproverOk(s, p);
    OrchestrateIsDataStep(s, p.key, p.version, MakeEligible, false);
    var m := Orchestrate(s, p.key, p.version, MakeEligible, false);
    DataStepKeepsBasic(lock, s, m);
    ApproverStaysOk(s, m, p);
    SetApproverKeepsBasic(lock, m, a, Refused);
    if p.key in m.execs {
      SetApproverKeepsBasic(lock, m, a, Orchestrated(p.key, p.review, p.version));
    }
  }

  /** The claim is new: every earlier claim of the review was of a smaller version. */
  lemma ClaimIsNew(s: State, k: Key, row: Review)
    requires ApprovalsOk(s) && k in s.reviews && row.version == s.reviews[k].version + 1
    requires Backed(s.table, k, s.reviews[k].version)
    ensures ApprovalsOk(s.(reviews := s.reviews[k := row], approvals := s.approvals + [(k, s.reviews[k].version)]))
  {
  }

  lemma ClaimedReviewKeepsBasic(lock: Lock, s: State, k: Key, row: Review)
    requires Basic(lock, s) && k in s.reviews && row.version == s.reviews[k].version + 1 && ReviewValueOk(row)
    requires Backed(s.table, k, s.reviews[k].version) && k in s.execs
    ensures Basic(lock, s.(reviews := s.reviews[k := row], approvals := s.approvals + [(k, s.reviews[k].version)]))
  {
    var m := s.(reviews := s.reviews[k := row]);
    ReviewUpdateIsDataStep(s, m, k, row);
    DataStepKeepsBasic(lock, s, m);
    ClaimIsNew(s, k, row);
    BasicIgnoresApprovals(lock, m, m.(approvals := s.approvals + [(k, s.reviews[k].version)]));
  }

  lemma RecordClaimKeepsBasic(lock: Lock, s: State, k: Key, reviewVersion: nat, v: nat)
    requires Basic(lock, s) && k in s.execs && ApprovedVersion(s.table, k, v, reviewVersion)
    requires k in s.reviews && s.reviews[k].version == reviewVersion
    ensures Basic(lock, RecordClaim(s, k, reviewVersion, v))
  {
    assert ReviewValueOk(s.reviews[k]);
    assert Backed(s.table, k, reviewVersion);
    ClaimedReviewKeepsBasic(lock, s, k, RecordClaim(s, k, reviewVersion, v).reviews[k]);
  }

  lemma ClaimKeepsBasic(lock: Lock, s: State, a: nat)
    requires ApproverAt(s, a).Orchestrated? && ApproverAt(s, a).key in s.reviews
    requires Basic(lock, s)
    ensures Basic(lock, ClaimReview(s, a))
  {
    var p := ApproverAt(s, a);
    assert ApproverOk(s, p);
    if s.reviews[p.key].version != p.review.version {
      SetApproverKeepsBasic(lock, s, a, ClaimLost(p.key, p.version));
    } else {
      RecordClaimKeepsBasic(lock, s, p.key, p.review.version, p.version);
      SetApproverKeepsBasic(lock, RecordClaim(s, p.key, p.review.version, p.version), a, Granted(p.key));
    }
  }

  lemma BasicIgnoresApprovals(lock: Lock, m: State, n: State)
    requires Basic(lock, m) && n == m.(approvals := n.approvals) && ApprovalsOk(n)
    ensures Basic(lock, n)
  {
    LinksIgnoreProcesses(m, n);
    WorkersIgnoreApprovers(lock, m, n);
    SameTableGrows(m.table);
    forall a | a in n.approvers ensures ApproverOk(n, n.approvers[a]) {
      ApproverStaysOk(m, n, n.approvers[a]);
    }
  }

  lemma DataStepKeepsBasicOf(lock: Lock, s: State, step: Step)
    requires Basic(lock, s) && Enabled(lock, s, step)
    requires step.Freeze? || step.OrchestrateStep? || step.DeliverStep? || step.UpdateItemsStep? || step.RejectStep?
    ensures Basic(lock, Next(lock, s, step))
  {
    match step
    case Freeze(r) =>
      FreezeIsDataStep(s, r);
      DataStepKeepsBasic(lock, s, s.(table := Transaction(s.table, r).0));
    case OrchestrateStep(k, v, disposition, recordIgnored) =>
      OrchestrateIsDataStep(s, k, v, disposition, recordIgnored);
      DataStepKeepsBasic(lock, s, Orchestrate(s, k, v, disposition, recordIgnored));
    case DeliverStep(k, o) =>
      DeliverIsDataStep(s, k, o);
      DataStepKeepsBasic(lock, s, Deliver(s, k, o));
    case UpdateItemsStep(k, catalog, input) =>
      UpdateItemsIsDataStep(s, k, catalog, input);
      DataStepKeepsBasic(lock, s, UpdateItems(s, k, catalog, input));
    case RejectStep(k) =>
      RejectIsDataStep(s, k);
      DataStepKeepsBasic(lock, s, Reject(s, k));
  }

  lemma AttemptKeepsBasic(lock: Lock, s: State, w: nat)
    requires Basic(lock, s) && Enabled(lock, s, Attempt(w))
    ensures Basic(lock, Next(lock, s, Attempt(w)))
  {
    var job := WorkerAt(s, w).job;
    CountAttemptIsDataStep(s, job.key);
    DataThenWorker(lock, s, CountAttempt(s, job.key), w, Attempted(job));
  }

  lemma HandleExecutionKeepsBasic(lock: Lock, s: State, w: nat)
    requires Basic(lock, s) && Enabled(lock, s, HandleExecution(w))
    ensures Basic(lock, Next(lock, s, HandleExecution(w)))
  {
    var p := WorkerAt(s, w);
    RecordFailureIsDataStep(s, p.key, p.failure);
    DataThenWorker(lock, s, RecordFailure(s, p.key, p.failure), w, FailingReview(p.key, p.failure));
  }

  lemma QuietStepKeepsBasic(lock: Lock, s: State, step: Step)
    requires Basic(lock, s) && Enabled(lock, s, step)
    requires step.FailBeforeLock? || step.Enqueue? || step.Crash?
    ensures Basic(lock, Next(lock, s, step))
  {
    NoChangeIsDataStep(s);
    match step
    case FailBeforeLock(w, f) => DataThenWorker(lock, s, s, w, Failing(WorkerAt(s, w).job.key, f));
    case Enqueue(w, accepted) =>
      DataThenWorker(lock, s, s, w, if accepted then Idle else Failing(WorkerAt(s, w).key, Unexpected));
    case Crash(w) => DataThenWorker(lock, s, s, w, Idle);
  }

  lemma LoadKeepsBasic(lock: Lock, s: State, w: nat, k: Key)
    requires Basic(lock, s) && Enabled(lock, s, Load(w, k))
    ensures Basic(lock, Next(lock, s, Load(w, k)))
  {
    SetWorkerKeepsBasic(lock, s, w, AfterLoad(s, k));
  }

  lemma HandleReviewKeepsBasic(lock: Lock, s: State, w: nat)
    requires Basic(lock, s) && Enabled(lock, s, HandleReview(w))
    ensures Basic(lock, Next(lock, s, HandleReview(w)))
  {
    var k := WorkerAt(s, w).key;
    RecordReviewFailureIsDataStep(s, k);
    DataThenWorker(lock, s, RecordReviewFailure(s, k), w, Idle);
  }

  lemma WorkerStepKeepsBasic(lock: Lock, s: State, step: Step)
    requires Basic(lock, s) && Enabled(lock, s, step)
    requires step.Load? || step.Attempt? || step.FailBeforeLock? || step.Enqueue? || step.HandleExecution?
             || step.HandleReview? || step.Crash?
    ensures Basic(lock, Next(lock, s, step))
  {
    match step
    case Load(w, k) => LoadKeepsBasic(lock, s, w, k);
    case Attempt(w) => AttemptKeepsBasic(lock, s, w);
    case HandleExecution(w) => HandleExecutionKeepsBasic(lock, s, w);
    case HandleReview(w) => HandleReviewKeepsBasic(lock, s, w);
    case _ => QuietStepKeepsBasic(lock, s, step);
  }

  lemma InsideStepKeepsBasic(lock: Lock, s: State, step: Step)
    requires Basic(lock, s) && Enabled(lock, s, step) && (step.Reread? || step.QueryDuplicate? || step.Abort?)
    ensures Basic(lock, Next(lock, s, step))
  {
    match step
    case Reread(w) => InsideTransactionKeepsBasic(lock, s, w, AfterReread(s, WorkerAt(s, w).job));
    case QueryDuplicate(w, answer) => InsideTransactionKeepsBasic(lock, s, w, Checked(WorkerAt(s, w).job, answer));
    case Abort(w) => InsideTransactionKeepsBasic(lock, s, w, Failing(WorkerAt(s, w).job.key, Unexpected));
  }

  lemma TransactionStepKeepsBasic(lock: Lock, s: State, step: Step)
    requires Basic(lock, s) && Enabled(lock, s, step)
    requires step.TakeLock? || step.Reread? || step.QueryDuplicate? || step.Commit? || step.Abort?
    ensures Basic(lock, Next(lock, s, step))
  {
    match step
    case TakeLock(w) => TakeLockKeepsBasic(lock, s, w);
    case Commit(w) => CommitKeepsBasic(lock, s, w);
    case _ => InsideStepKeepsBasic(lock, s, step);
  }

  lemma FindLatestKeepsBasic(lock: Lock, s: State, a: nat)
    requires Basic(lock, s) && Enabled(lock, s, ApprovalFindLatest(a))
    ensures Basic(lock, Next(lock, s, ApprovalFindLatest(a)))
  {
    var p := ApproverAt(s, a);
    assert ApproverOk(s, p);
    AfterFindLatestOk(s, p);
    SetApproverKeepsBasic(lock, s, a, AfterFindLatest(s.table, p.key, p.review, p.ctx));
  }

  lemma RecheckKeepsBasic(lock: Lock, s: State, a: nat)
    requires Basic(lock, s) && Enabled(lock, s, ApprovalRecheck(a))
    ensures Basic(lock, Next(lock, s, ApprovalRecheck(a)))
  {
    assert ApproverOk(s, ApproverAt(s, a));
    SetApproverKeepsBasic(lock, s, a, Granted(ApproverAt(s, a).key));
    SetApproverKeepsBasic(lock, s, a, Refused);
  }

  lemma ApprovalStepKeepsBasic(lock: Lock, s: State, step: Step)
    requires Basic(lock, s) && Enabled(lock, s, step)
    requires step.ApprovalRead? || step.ApprovalFindLatest? || step.ApprovalAppend? || step.ApprovalOrchestrate?
             || step.ApprovalClaim? || step.ApprovalRecheck?
    ensures Basic(lock, Next(lock, s, step))
  {
    match step
    case ApprovalRead(a, k, ctx) => SetApproverKeepsBasic(lock, s, a, ReadReview(s, k, ctx));
    case ApprovalFindLatest(a) => FindLatestKeepsBasic(lock, s, a);
    case ApprovalAppend(a, delivery) => AppendApprovalKeepsBasic(lock, s, a, delivery);
    case ApprovalOrchestrate(a) => OrchestrateApprovalKeepsBasic(lock, s, a);
    case ApprovalClaim(a) => ClaimKeepsBasic(lock, s, a);
    case ApprovalRecheck(a) => RecheckKeepsBasic(lock, s, a);
  }

  /** The basic invariants survive every step. */
  lemma StepKeepsBasic(lock: Lock, s: State, step: Step)
    requires Basic(lock, s)
    ensures Basic(lock, Next(lock, s, step))
  {
    if Enabled(lock, s, step) {
      match step
      case Freeze(_) | OrchestrateStep(_, _, _, _) | DeliverStep(_, _) | UpdateItemsStep(_, _, _) | RejectStep(_) =>
        DataStepKeepsBasicOf(lock, s, step);
      case Load(_, _) | Attempt(_) | FailBeforeLock(_, _) | Enqueue(_, _) | HandleExecution(_) | HandleReview(_)
        | Crash(_) =>
        WorkerStepKeepsBasic(lock, s, step);
      case TakeLock(_) | Reread(_) | QueryDuplicate(_, _) | Commit(_) | Abort(_) =>
        TransactionStepKeepsBasic(lock, s, step);
      case _ => ApprovalStepKeepsBasic(lock, s, step);
    }
  }
}
