/**
 * How far apart the events of one deduplication scope are. A run keeps its *slots* when re-evaluations keep the
 * scope and the time of their occurrence and no execution that has a scope is linked to a decision without one.
 */
module ProtocolSeparation {
  import opened Wrappers
  import opened EventCatalog
  import opened Decisions
  import opened DecisionChain
  import opened Protocol
  import opened ProtocolBasics
  import opened ProtocolSafety
  import opened ProtocolSteps
  import opened ProtocolCommit
  import opened ProtocolTheorems

  // ----- two events that should not both exist -----

  predicate SameScope(d: Decision, e: Decision) {
    d.occurrence.policy.Some? && e.occurrence.policy.Some?
        && d.occurrence.policy.value.scopeKey == e.occurrence.policy.value.scopeKey
  }

  const WINDOW: nat := PURCHASE_DEDUPE_WINDOW_SECONDS * 1000

  datatype Rule = WindowRule | LifetimeRule

  /**
   * Two events of one scope break the window rule, which both engines promise, when they are less than a window
   * apart or of a qualified lead, and the lifetime rule when one of them was to be the only one of its scope.
   */
  predicate Clash(rule: Rule, d: Decision, e: Decision) {
    && SameScope(d, e)
    && match rule
       case WindowRule =>
         || d.occurrence.eventName == QualifiedLead
         || d.occurrence.occurredAt - WINDOW < e.occurrence.occurredAt < d.occurrence.occurredAt + WINDOW
       case LifetimeRule => d.occurrence.policy.value.Lifetime? || e.occurrence.policy.value.Lifetime?
  }

  lemma ClashSymmetric(rule: Rule, d: Decision, e: Decision)
    requires Issued(d) && Issued(e) && d.occurrence.workspaceId == e.occurrence.workspaceId
    ensures Clash(rule, d, e) <==> Clash(rule, e, d)
  {
    if SameScope(d, e) {
      SameScopeSameEvent(d, e);
    }
  }

  /** A rule holds of all pairs of event logs. */
  ghost predicate Apart(rule: Rule, s: State) {
    forall a, b :: a != b && Logged(s, a) && Logged(s, b) ==> !Clash(rule, LoggedDecision(s, a), LoggedDecision(s, b))
  }

  /** The log a commit writes, if any, breaks the rule with no log there is. */
  ghost predicate ClearCommit(rule: Rule, lock: Lock, s: State, step: Step) {
    step.Commit? && Enabled(lock, s, step) && WritesLog(s, WorkerAt(s, step.worker)) ==>
      var job := WorkerAt(s, step.worker).job;
      forall r :: Logged(s, r) ==> !Clash(rule, DecisionAt(s.table, job.key, job.version), LoggedDecision(s, r))
  }

  ghost predicate ClearRun(rule: Rule, lock: Lock, s: State, steps: seq<Step>)
    decreases |steps|
  {
    steps != [] ==> ClearCommit(rule, lock, s, steps[0]) && ClearRun(rule, lock, Next(lock, s, steps[0]), steps[1..])
  }

  lemma LoggedAfterCommit(s: State, n: State, w: nat, worker: Worker, r: Key)
    requires Commits(s, n, w, worker)
    ensures if WritesLog(s, worker) && r == worker.job.key
            then Logged(n, r) && LoggedDecision(n, r) == DecisionAt(s.table, r, worker.job.version) && !Logged(s, r)
            else (Logged(n, r) <==> Logged(s, r)) && (Logged(s, r) ==> LoggedDecision(n, r) == LoggedDecision(s, r))
  {
  }

  lemma CommitApart(rule: Rule, s: State, n: State, w: nat, worker: Worker)
    requires TableOk(s) && Commits(s, n, w, worker) && WritesLog(s, worker) && Apart(rule, s)
    requires forall r :: Logged(s, r) ==>
               !Clash(rule, DecisionAt(s.table, worker.job.key, worker.job.version), LoggedDecision(s, r))
    ensures Apart(rule, n)
  {
    forall a, b | a != b && Logged(n, a) && Logged(n, b)
      ensures !Clash(rule, LoggedDecision(n, a), LoggedDecision(n, b))
    {
      LoggedAfterCommit(s, n, w, worker, a);
      LoggedAfterCommit(s, n, w, worker, b);
      ClashSymmetric(rule, LoggedDecision(n, a), LoggedDecision(n, b));
    }
  }

  lemma ApartCommitWasClear(rule: Rule, s: State, n: State, w: nat, worker: Worker)
    requires Commits(s, n, w, worker) && Apart(rule, n)
    ensures Apart(rule, s)
    ensures WritesLog(s, worker) ==>
              forall r :: Logged(s, r) ==>
                !Clash(rule, DecisionAt(s.table, worker.job.key, worker.job.version), LoggedDecision(s, r))
  {
    LoggedAfterCommit(s, n, w, worker, worker.job.key);
    forall r ensures Logged(s, r) ==> Logged(n, r) && LoggedDecision(n, r) == LoggedDecision(s, r) {
      LoggedAfterCommit(s, n, w, worker, r);
    }
  }

  lemma CommitApartExactly(rule: Rule, s: State, n: State, w: nat, worker: Worker)
    requires TableOk(s) && Commits(s, n, w, worker)
    ensures Apart(rule, n) <==>
            && Apart(rule, s)
            && (WritesLog(s, worker) ==>
                  forall r :: Logged(s, r) ==>
                    !Clash(rule, DecisionAt(s.table, worker.job.key, worker.job.version), LoggedDecision(s, r)))
  {
    if Apart(rule, n) {
      ApartCommitWasClear(rule, s, n, w, worker);
    } else if !WritesLog(s, worker) {
      NoNewLogIsApart(rule, s, n, w, worker);
    } else if Apart(rule, s) && forall r :: Logged(s, r) ==>
                !Clash(rule, DecisionAt(s.table, worker.job.key, worker.job.version), LoggedDecision(s, r)) {
      CommitApart(rule, s, n, w, worker);
    }
  }

  lemma NoNewLogIsApart(rule: Rule, s: State, n: State, w: nat, worker: Worker)
    requires Commits(s, n, w, worker) && !WritesLog(s, worker)
    ensures Apart(rule, s) ==> Apart(rule, n)
  {
    forall r
      ensures (Logged(n, r) <==> Logged(s, r)) && (Logged(s, r) ==> LoggedDecision(n, r) == LoggedDecision(s, r))
    {
      LoggedAfterCommit(s, n, w, worker, r);
    }
  }

  lemma StepApartExactly(rule: Rule, lock: Lock, s: State, step: Step)
    requires Basic(lock, s) && LogsRecorded(s)
    ensures Apart(rule, Next(lock, s, step)) <==> Apart(rule, s) && ClearCommit(rule, lock, s, step)
  {
    var n := Next(lock, s, step);
    if !step.Commit? {
      StepIsCalm(lock, s, step);
      CalmKeepsRecorded(s, n);
    } else if Enabled(lock, s, step) {
      CommitEffect(lock, s, step.worker, n);
      CommitApartExactly(rule, s, n, step.worker, s.workers[step.worker]);
    }
  }

  /** Along every run, a rule holds in the end if and only if every commit that wrote a log found it clear. */
  lemma {:induction false} RunApartExactly(rule: Rule, lock: Lock, s: State, steps: seq<Step>)
    requires Basic(lock, s) && LogsRecorded(s)
    ensures Apart(rule, After(lock, s, steps)) <==> Apart(rule, s) && ClearRun(rule, lock, s, steps)
    decreases |steps|
  {
    if steps != [] {
      StepKeepsBasic(lock, s, steps[0]);
      StepKeepsRecorded(lock, s, steps[0]);
      StepApartExactly(rule, lock, s, steps[0]);
      RunApartExactly(rule, lock, Next(lock, s, steps[0]), steps[1..]);
    }
  }

  // ----- runs that keep their slots -----

  /** The execution is linked to a version that has a deduplication scope. */
  ghost predicate Scoped(s: State, k: Key) {
    Linked(s, k) && LinkedDecision(s, k).occurrence.policy.Some?
  }

  /** Orchestrating a version writes the execution row. */
  predicate Persists(d: Decision, disposition: Disposition, recordIgnored: bool) {
    d.code.Eligible?
        || (d.code.IgnoredUntrackedLead? && recordIgnored && d.rule.mode.Observation? && disposition.Block?)
  }

  /** Orchestrating version `v` would link an open execution that has a scope to a decision that has none. */
  ghost predicate DropsScope(s: State, k: Key, v: nat, disposition: Disposition, recordIgnored: bool)
    requires HasVersion(s.table, k, v)
  {
    && Scoped(s, k) && !Terminal(s.execs[k].status)
    && Persists(DecisionAt(s.table, k, v), disposition, recordIgnored)
    && DecisionAt(s.table, k, v).occurrence.policy.None?
  }

  ghost predicate SlotStep(lock: Lock, s: State, step: Step) {
    && StableStep(true, s, step)
    && (match step
        case OrchestrateStep(k, v, disposition, recordIgnored) =>
          Enabled(lock, s, step) ==> !DropsScope(s, k, v, disposition, recordIgnored)
        case ApprovalOrchestrate(a) =>
          Enabled(lock, s, step) ==> !DropsScope(s, ApproverAt(s, a).key, ApproverAt(s, a).version, MakeEligible, false)
        case _ => true)
  }

  ghost predicate SlotRun(lock: Lock, s: State, steps: seq<Step>)
    decreases |steps|
  {
    steps != [] ==> SlotStep(lock, s, steps[0]) && SlotRun(lock, Next(lock, s, steps[0]), steps[1..])
  }

  /** While a worker is busy with a decision that has a scope, its execution stays linked to one that has. */
  ghost predicate JobScoped(s: State, worker: Worker) {
    JobOf(worker).Some? && HasVersion(s.table, worker.job.key, worker.job.version) ==>
      DecisionAt(s.table, worker.job.key, worker.job.version).occurrence.policy.Some? ==> Scoped(s, worker.job.key)
  }

  ghost predicate JobsScoped(s: State) {
    forall w :: w in s.workers ==> JobScoped(s, s.workers[w])
  }

  /** What has an event log is linked to a decision that has a scope, like the one the log was written for. */
  ghost predicate LogsScoped(s: State) {
    forall k :: Logged(s, k) ==> Scoped(s, k)
  }

  ghost predicate Slotted(s: State) {
    Safe(s) && LogsRecorded(s) && Stable(true, s.table) && JobsScoped(s) && LogsScoped(s)
  }

  ghost predicate ScopesStay(s: State, n: State) {
    forall k :: Scoped(s, k) ==> Scoped(n, k)
  }

  lemma LinksKeepScopes(s: State, n: State)
    requires LinksStay(s, n) && TableGrows(s.table, n.table)
    ensures ScopesStay(s, n)
  {
  }

  lemma LinkKeepsScopes(s: State, n: State, k: Key, v: nat, row: Execution)
    requires HasVersion(s.table, k, v) && n.table == s.table && n.execs == s.execs[k := row] && row.decision == Some(v)
    requires Scoped(s, k) ==> DecisionAt(s.table, k, v).occurrence.policy.Some?
    ensures ScopesStay(s, n)
  {
  }

  lemma PersistedRow(s: State, k: Key, v: nat, disposition: Disposition)
    requires HasVersion(s.table, k, v)
    ensures var n := PersistExecution(s, k, v, disposition);
            n.execs != s.execs ==>
              && (k in s.execs ==> !Terminal(s.execs[k].status))
              && k in n.execs && n.execs == s.execs[k := n.execs[k]] && n.execs[k].decision == Some(v)
  {
  }

  lemma OrchestrateKeepsScopes(s: State, n: State, k: Key, v: nat, disposition: Disposition, recordIgnored: bool)
    requires HasVersion(s.table, k, v) && !DropsScope(s, k, v, disposition, recordIgnored)
    requires var m := Orchestrate(s, k, v, disposition, recordIgnored); n.execs == m.execs && n.table == s.table
    ensures ScopesStay(s, n)
  {
    if Persists(DecisionAt(s.table, k, v), disposition, recordIgnored) && n.execs != s.execs {
      PersistedRow(s, k, v, disposition);
      LinkKeepsScopes(s, n, k, v, n.execs[k]);
    }
  }

  lemma ApprovalKeepsScopes(s: State, a: nat)
    requires ApproverAt(s, a).Persisted? && HasVersion(s.table, ApproverAt(s, a).key, ApproverAt(s, a).version)
    requires !DropsScope(s, ApproverAt(s, a).key, ApproverAt(s, a).version, MakeEligible, false)
    ensures ScopesStay(s, OrchestrateApproval(s, a))
  {
    var p := ApproverAt(s, a);
    OrchestrateApprovalIsCalm(s, a);
    OrchestrateKeepsScopes(s, OrchestrateApproval(s, a), p.key, p.version, MakeEligible, false);
  }

  lemma LinkStepKeepsScopes(lock: Lock, s: State, step: Step, n: State)
    requires Enabled(lock, s, step) && SlotStep(lock, s, step) && LinksExecution(step) && n == Next(lock, s, step)
    ensures ScopesStay(s, n)
  {
    if step.ApprovalOrchestrate? {
      ApprovalKeepsScopes(s, step.approver);
    } else {
      OrchestrateIsCalm(s, step.key, step.version, step.disposition, step.recordIgnored);
      OrchestrateKeepsScopes(s, n, step.key, step.version, step.disposition, step.recordIgnored);
    }
  }

  lemma CommitGrows(lock: Lock, s: State, w: nat)
    requires Enabled(lock, s, Commit(w))
    ensures LinksStay(s, Next(lock, s, Commit(w))) && TableGrows(s.table, Next(lock, s, Commit(w)).table)
  {
    CommitEffect(lock, s, w, Next(lock, s, Commit(w)));
    SameTableGrows(s.table);
  }

  lemma StepKeepsScopes(lock: Lock, s: State, step: Step)
    requires Basic(lock, s) && Enabled(lock, s, step) && SlotStep(lock, s, step)
    ensures ScopesStay(s, Next(lock, s, step)) && TableGrows(s.table, Next(lock, s, step).table)
    ensures IsWorkerStep(step) || Next(lock, s, step).workers == s.workers
  {
    if step.Commit? {
      CommitGrows(lock, s, step.worker);
      LinksKeepScopes(s, Next(lock, s, step));
    } else {
      StepIsCalm(lock, s, step);
      if LinksExecution(step) {
        LinkStepKeepsScopes(lock, s, step, Next(lock, s, step));
      } else {
        LinksKeepScopes(s, Next(lock, s, step));
      }
    }
  }

  lemma WorkerStaysScoped(s: State, n: State, worker: Worker)
    requires ScopesStay(s, n) && TableGrows(s.table, n.table)
    requires JobOf(worker).Some? ==> HasVersion(s.table, worker.job.key, worker.job.version)
    requires JobScoped(s, worker)
    ensures JobScoped(n, worker)
  {
  }

  lemma MovedWorkerIsScoped(s: State, step: Step)
    requires IsWorkerStep(step) && JobScoped(s, WorkerAt(s, step.worker))
    ensures JobScoped(s, WorkerAfter(s, step))
  {
  }

  lemma MovedWorkerHasVersion(s: State, step: Step)
    requires IsWorkerStep(step)
    requires var worker := WorkerAt(s, step.worker);
             JobOf(worker).Some? ==> HasVersion(s.table, worker.job.key, worker.job.version)
    ensures var worker := WorkerAfter(s, step);
            JobOf(worker).Some? ==> HasVersion(s.table, worker.job.key, worker.job.version)
  {
  }

  lemma WorkerHasVersion(lock: Lock, s: State, w: nat)
    requires Basic(lock, s)
    ensures var worker := WorkerAt(s, w); JobOf(worker).Some? ==> JobOk(s, worker.job)
  {
  }

  /** Jobs stay scoped when at most one worker moves, to a scoped job. */
  lemma ScopesKeepJobs(lock: Lock, s: State, n: State, w: nat, worker: Worker)
    requires Basic(lock, s) && JobsScoped(s) && ScopesStay(s, n) && TableGrows(s.table, n.table)
    requires n.workers == s.workers || n.workers == s.workers[w := worker]
    requires JobScoped(s, worker) && (JobOf(worker).Some? ==> HasVersion(s.table, worker.job.key, worker.job.version))
    ensures JobsScoped(n)
  {
    forall u | u in n.workers ensures JobScoped(n, n.workers[u]) {
      WorkerHasVersion(lock, s, u);
      WorkerStaysScoped(s, n, n.workers[u]);
    }
  }

  lemma StepKeepsJobsScoped(lock: Lock, s: State, step: Step)
    requires Basic(lock, s) && JobsScoped(s) && Enabled(lock, s, step) && SlotStep(lock, s, step)
    ensures JobsScoped(Next(lock, s, step))
  {
    StepKeepsScopes(lock, s, step);
    if IsWorkerStep(step) {
      OneWorkerMoves(lock, s, step);
      WorkerHasVersion(lock, s, step.worker);
      MovedWorkerIsScoped(s, step);
      MovedWorkerHasVersion(s, step);
      ScopesKeepJobs(lock, s, Next(lock, s, step), step.worker, WorkerAfter(s, step));
    } else {
      ScopesKeepJobs(lock, s, Next(lock, s, step), 0, Idle);
    }
  }

  lemma StepKeepsLogsScoped(lock: Lock, s: State, step: Step)
    requires Basic(lock, s) && Slotted(s) && Enabled(lock, s, step) && SlotStep(lock, s, step)
    ensures LogsScoped(Next(lock, s, step))
  {
    var n := Next(lock, s, step);
    StepKeepsScopes(lock, s, step);
    if step.Commit? {
      var worker := s.workers[step.worker];
      CommitEffect(lock, s, step.worker, n);
      assert JobScoped(s, worker) && JobOk(s, worker.job) && Materializable(s.table, worker.job);
      forall k | Logged(n, k) ensures Scoped(n, k) {
        LoggedAfterCommit(s, n, step.worker, worker, k);
      }
    } else {
      StepIsCalm(lock, s, step);
      CalmKeepsRecorded(s, n);
    }
  }

  lemma SlotStepIsStable(s: State, step: Step)
    requires StableStep(true, s, step)
    ensures StableStep(false, s, step)
  {
  }

  lemma StepKeepsSlotted(lock: Lock, s: State, step: Step)
    requires Basic(lock, s) && Slotted(s) && SlotStep(lock, s, step)
    ensures Slotted(Next(lock, s, step))
  {
    if Enabled(lock, s, step) {
      SlotStepIsStable(s, step);
      StepKeepsSafe(lock, s, step);
      StepKeepsRecorded(lock, s, step);
      StepKeepsStable(true, lock, s, step);
      StepKeepsJobsScoped(lock, s, step);
      StepKeepsLogsScoped(lock, s, step);
    }
  }

  // ----- separation -----

  /** A row linked to the slot of `e` that does not answer the query for `d` does not clash with it. */
  lemma UnansweredIsApart(s: State, k: Key, d: Decision, r: Key, l: Decision, e: Decision)
    requires Issued(d) && Issued(l) && Issued(e) && Agree(true, l, e) && l.occurrence.policy.Some?
    requires d.occurrence.workspaceId == l.occurrence.workspaceId == e.occurrence.workspaceId
    requires r != k && Linked(s, r) && LinkedDecision(s, r) == l && s.execs[r].status.ExMaterialized?
    requires s.execs[r].occurredAt == l.occurrence.occurredAt
    requires SameScope(d, e) && !Conflicts(s, k, d, r)
    ensures !Clash(WindowRule, d, e) && d.occurrence.policy.value.RollingWindow?
  {
    SameScopeSameEvent(d, e);
    SameScopeSameEvent(l, e);
    assert !WithinWindow(d.occurrence.policy.value, d.occurrence.occurredAt, l.occurrence.occurredAt);
  }

  /** In a run that keeps its slots, the duplicate query would have found any log that breaks the window rule. */
  lemma UnseenIsApart(lock: Lock, s: State, w: nat, r: Key)
    requires AboutToCommit(lock, s, w) && Slotted(s) && s.workers[w].found.None? && Logged(s, r)
    ensures var d := DecisionAt(s.table, s.workers[w].job.key, s.workers[w].job.version);
            && !Clash(WindowRule, d, LoggedDecision(s, r))
            && (SameScope(d, LoggedDecision(s, r)) ==> d.occurrence.policy.value.RollingWindow?)
  {
    var job := s.workers[w].job;
    var d, e := DecisionAt(s.table, job.key, job.version), LoggedDecision(s, r);
    CommitIsFresh(lock, s, w);
    assert Recorded(s, r) && Scoped(s, r) && LinkOk(s, r);
    if SameScope(d, e) {
      var l := LinkedDecision(s, r);
      assert Agree(true, l, e);
      assert r in s.logs && s.execs[r].status.ExMaterialized?;
      UnansweredIsApart(s, job.key, d, r, l, e);
    }
  }

  lemma SlottedCommitIsClear(lock: Lock, s: State, step: Step)
    requires Basic(lock, s) && Slotted(s)
    ensures ClearCommit(WindowRule, lock, s, step)
  {
    if step.Commit? && Enabled(lock, s, step) && WritesLog(s, WorkerAt(s, step.worker)) {
      forall r | Logged(s, r)
        ensures var job := WorkerAt(s, step.worker).job;
                !Clash(WindowRule, DecisionAt(s.table, job.key, job.version), LoggedDecision(s, r))
      {
        UnseenIsApart(lock, s, step.worker, r);
      }
    }
  }

  lemma InitIsSlotted(lock: Lock, s: State)
    requires Init(s)
    ensures Basic(lock, s) && Slotted(s) && Apart(WindowRule, s) && Apart(LifetimeRule, s)
  {
    InitIsSafe(lock, s);
  }

  lemma {:induction false} RunKeepsSlotted(lock: Lock, s: State, steps: seq<Step>)
    requires Basic(lock, s) && Slotted(s) && Apart(WindowRule, s) && SlotRun(lock, s, steps)
    ensures Basic(lock, After(lock, s, steps)) && Slotted(After(lock, s, steps))
            && Apart(WindowRule, After(lock, s, steps))
    decreases |steps|
  {
    if steps != [] {
      StepKeepsBasic(lock, s, steps[0]);
      StepKeepsSlotted(lock, s, steps[0]);
      SlottedCommitIsClear(lock, s, steps[0]);
      StepApartExactly(WindowRule, lock, s, steps[0]);
      RunKeepsSlotted(lock, Next(lock, s, steps[0]), steps[1..]);
    }
  }

  lemma LoggedInSlot(lock: Lock, s: State, k: Key)
    requires Basic(lock, s) && Slotted(s) && Scoped(s, k) && s.execs[k].status.ExMaterialized?
    ensures Logged(s, k) && SameScope(LinkedDecision(s, k), LoggedDecision(s, k))
    ensures s.logs[k].eventName == LinkedDecision(s, k).occurrence.eventName
    ensures s.logs[k].eventName == LoggedDecision(s, k).occurrence.eventName
    ensures s.logs[k].occurredAt == LoggedDecision(s, k).occurrence.occurredAt
    ensures s.logs[k].eventName != QualifiedLead ==> s.execs[k].occurredAt == s.logs[k].occurredAt
  {
    assert Recorded(s, k) && LinkOk(s, k);
    assert Agree(true, LinkedDecision(s, k), LoggedDecision(s, k));
    SameScopeSameEvent(LinkedDecision(s, k), LoggedDecision(s, k));
  }

  lemma ApartInSlots(lock: Lock, s: State, a: Key, b: Key)
    requires Basic(lock, s) && Slotted(s) && Apart(WindowRule, s) && a != b
    requires Scoped(s, a) && Scoped(s, b) && SameScope(LinkedDecision(s, a), LinkedDecision(s, b))
    requires s.execs[a].status.ExMaterialized? && s.execs[b].status.ExMaterialized?
    ensures a in s.logs && b in s.logs && s.logs[a].eventName == s.logs[b].eventName != QualifiedLead
    ensures s.execs[a].occurredAt == s.logs[a].occurredAt && s.execs[b].occurredAt == s.logs[b].occurredAt
    ensures s.logs[a].occurredAt + WINDOW <= s.logs[b].occurredAt
            || s.logs[b].occurredAt + WINDOW <= s.logs[a].occurredAt
  {
    LoggedInSlot(lock, s, a);
    LoggedInSlot(lock, s, b);
    assert !Clash(WindowRule, LoggedDecision(s, a), LoggedDecision(s, b));
    SameScopeSameEvent(LinkedDecision(s, a), LinkedDecision(s, b));
  }

  /**
   * Along every run that keeps its slots, whichever engine froze their decisions, two materialized executions
   * of one scope are at least a window apart, and a lead is qualified only once.
   */
  lemma MaterializedAreSeparated(lock: Lock, init: State, steps: seq<Step>, a: Key, b: Key)
    requires Init(init) && SlotRun(lock, init, steps)
    requires var s := After(lock, init, steps);
             && a != b && Scoped(s, a) && Scoped(s, b) && SameScope(LinkedDecision(s, a), LinkedDecision(s, b))
             && s.execs[a].status.ExMaterialized? && s.execs[b].status.ExMaterialized?
    ensures var s := After(lock, init, steps);
            && a in s.logs && b in s.logs
            && s.logs[a].eventName == s.logs[b].eventName != QualifiedLead
            && s.execs[a].occurredAt == s.logs[a].occurredAt && s.execs[b].occurredAt == s.logs[b].occurredAt
            && (s.logs[a].occurredAt + WINDOW <= s.logs[b].occurredAt
                || s.logs[b].occurredAt + WINDOW <= s.logs[a].occurredAt)
  {
    InitIsSlotted(lock, init);
    RunKeepsSlotted(lock, init, steps);
    ApartInSlots(lock, After(lock, init, steps), a, b);
  }

  // ----- events older than frozen decisions -----

  /** No log was written while the duplicate query found an execution older than frozen decisions. */
  ghost predicate ApartFromOlder(s: State) {
    forall a, b :: Logged(s, a) && b in s.execs && s.execs[b].decision.None? ==>
      !Conflicts(s, a, LoggedDecision(s, a), b)
  }

  lemma CommitKeepsOlderPair(lock: Lock, s: State, w: nat, n: State, a: Key, b: Key)
    requires AboutToCommit(lock, s, w) && ApartFromOlder(s) && Commits(s, n, w, s.workers[w])
    requires Logged(n, a) && b in n.execs && n.execs[b].decision.None?
    ensures !Conflicts(n, a, LoggedDecision(n, a), b)
  {
    CommitIsFresh(lock, s, w);
    LoggedAfterCommit(s, n, w, s.workers[w], a);
    ConflictsElsewhere(s, n, w, s.workers[w].job.key, a, LoggedDecision(n, a), b);
  }

  lemma CommitKeepsOlder(lock: Lock, s: State, w: nat, n: State)
    requires AboutToCommit(lock, s, w) && ApartFromOlder(s) && n == Next(lock, s, Commit(w))
    ensures ApartFromOlder(n)
  {
    CommitEffect(lock, s, w, n);
    forall a, b | Logged(n, a) && b in n.execs && n.execs[b].decision.None?
      ensures !Conflicts(n, a, LoggedDecision(n, a), b)
    {
      CommitKeepsOlderPair(lock, s, w, n, a, b);
    }
  }

  lemma CalmKeepsOlder(lock: Lock, s: State, n: State)
    requires Basic(lock, s) && LogsRecorded(s) && ApartFromOlder(s) && Calm(s, n)
    ensures ApartFromOlder(n)
  {
    CalmKeepsRecorded(s, n);
    forall a, b | Logged(n, a) && b in n.execs && n.execs[b].decision.None?
      ensures !Conflicts(n, a, LoggedDecision(n, a), b)
    {
      CalmConflicts(lock, s, n, a, LoggedDecision(n, a), b);
    }
  }

  lemma StepKeepsOlder(lock: Lock, s: State, step: Step)
    requires Basic(lock, s) && Safe(s) && LogsRecorded(s) && ApartFromOlder(s)
    ensures ApartFromOlder(Next(lock, s, step))
  {
    var n := Next(lock, s, step);
    if !step.Commit? {
      StepIsCalm(lock, s, step);
      CalmKeepsOlder(lock, s, n);
    } else if Enabled(lock, s, step) {
      CommitKeepsOlder(lock, s, step.worker, n);
    }
  }

  lemma {:induction false} RunKeepsOlder(lock: Lock, s: State, steps: seq<Step>)
    requires Basic(lock, s) && Safe(s) && LogsRecorded(s) && ApartFromOlder(s) && StableRun(false, lock, s, steps)
    ensures ApartFromOlder(After(lock, s, steps))
    decreases |steps|
  {
    if steps != [] {
      StepKeepsBasic(lock, s, steps[0]);
      StepKeepsSafe(lock, s, steps[0]);
      StepKeepsRecorded(lock, s, steps[0]);
      StepKeepsOlder(lock, s, steps[0]);
      RunKeepsOlder(lock, Next(lock, s, steps[0]), steps[1..]);
    }
  }

  /**
   * Along every run that keeps its scopes, no event is in the window of an older one of the same phone and
   * event, nor after or before one at all when it was to be the only one.
   */
  lemma OlderAreSeparated(lock: Lock, init: State, steps: seq<Step>, a: Key, b: Key)
    requires Init(init) && StableRun(false, lock, init, steps)
    requires var s := After(lock, init, steps);
             && Logged(s, a) && b in s.execs && s.execs[b].status.ExMaterialized? && s.execs[b].decision.None?
             && LoggedDecision(s, a).leadResolution.Resolved?
             && s.execs[b].contactHash == Some(LoggedDecision(s, a).leadResolution.lead.phoneHash)
             && s.execs[b].eventName == s.logs[a].eventName
    ensures var s := After(lock, init, steps);
            && LoggedDecision(s, a).occurrence.policy.Some?
            && LoggedDecision(s, a).occurrence.policy.value.RollingWindow?
            && (s.logs[a].occurredAt + WINDOW <= s.execs[b].occurredAt
                || s.execs[b].occurredAt + WINDOW <= s.logs[a].occurredAt)
  {
    var s := After(lock, init, steps);
    InitIsSafe(lock, init);
    RunKeepsBasic(lock, init, steps);
    RunKeepsOlder(lock, init, steps);
    assert Recorded(s, a) && Issued(LoggedDecision(s, a));
    assert !Conflicts(s, a, LoggedDecision(s, a), b);
  }

  // ----- lifetime policies -----

  /** A commit under a window policy finds no log in its scope that was to be the only one. */
  ghost predicate NotAfterLifetime(lock: Lock, s: State, step: Step) {
    step.Commit? && Enabled(lock, s, step) && WritesLog(s, WorkerAt(s, step.worker)) ==>
      var job := WorkerAt(s, step.worker).job;
      var d := DecisionAt(s.table, job.key, job.version);
      d.occurrence.policy.Some? && d.occurrence.policy.value.RollingWindow? ==>
        forall r :: Logged(s, r) && SameScope(d, LoggedDecision(s, r)) ==>
          LoggedDecision(s, r).occurrence.policy.value.RollingWindow?
  }

  ghost predicate NeverAfterLifetime(lock: Lock, s: State, steps: seq<Step>)
    decreases |steps|
  {
    steps != [] ==> NotAfterLifetime(lock, s, steps[0]) && NeverAfterLifetime(lock, Next(lock, s, steps[0]), steps[1..])
  }

  lemma LifetimeCommitExactly(lock: Lock, s: State, step: Step)
    requires Basic(lock, s) && Slotted(s)
    ensures ClearCommit(LifetimeRule, lock, s, step) <==> NotAfterLifetime(lock, s, step)
  {
    if step.Commit? && Enabled(lock, s, step) && WritesLog(s, WorkerAt(s, step.worker)) {
      forall r | Logged(s, r)
        ensures var d := DecisionAt(s.table, s.workers[step.worker].job.key, s.workers[step.worker].job.version);
                SameScope(d, LoggedDecision(s, r)) ==> d.occurrence.policy.value.RollingWindow?
      {
        UnseenIsApart(lock, s, step.worker, r);
      }
    }
  }

  lemma {:induction false} RunLifetimeExactly(lock: Lock, s: State, steps: seq<Step>)
    requires Basic(lock, s) && Slotted(s) && Apart(WindowRule, s) && SlotRun(lock, s, steps)
    ensures Apart(LifetimeRule, After(lock, s, steps)) <==> Apart(LifetimeRule, s) && NeverAfterLifetime(lock, s, steps)
    decreases |steps|
  {
    if steps != [] {
      StepKeepsBasic(lock, s, steps[0]);
      StepKeepsSlotted(lock, s, steps[0]);
      SlottedCommitIsClear(lock, s, steps[0]);
      StepApartExactly(WindowRule, lock, s, steps[0]);
      StepApartExactly(LifetimeRule, lock, s, steps[0]);
      LifetimeCommitExactly(lock, s, steps[0]);
      RunLifetimeExactly(lock, Next(lock, s, steps[0]), steps[1..]);
    }
  }

  /**
   * Along a run that keeps its slots, an event that was to be the only one of its scope is the only one, if and
   * only if no commit under a window policy ever came after one under a lifetime policy in the same scope.
   */
  lemma LifetimeIsAloneExactly(lock: Lock, init: State, steps: seq<Step>)
    requires Init(init) && SlotRun(lock, init, steps)
    ensures Apart(LifetimeRule, After(lock, init, steps)) <==> NeverAfterLifetime(lock, init, steps)
  {
    InitIsSlotted(lock, init);
    RunLifetimeExactly(lock, init, steps);
  }

  /** Every submitted lead was frozen under the lifetime policy of the canonical engine. */
  ghost predicate Canonical(t: Table) {
    forall k, v :: HasVersion(t, k, v) ==> CanonicalDecision(DecisionAt(t, k, v))
  }

  predicate CanonicalDecision(d: Decision) {
    d.occurrence.eventName == LeadSubmitted && d.occurrence.policy.Some? ==> d.occurrence.policy.value.Lifetime?
  }

  ghost predicate CanonicalRun(lock: Lock, s: State, steps: seq<Step>)
    decreases |steps|
  {
    steps != [] ==>
      && (steps[0].Freeze? ==> CanonicalDecision(steps[0].request.decision))
      && CanonicalRun(lock, Next(lock, s, steps[0]), steps[1..])
  }

  lemma AppendKeepsCanonical(t: Table, r: Request)
    requires ValidTable(t) && Canonical(t) && CanonicalDecision(r.decision)
    ensures Canonical(Transaction(t, r).0)
  {
    TransactionGrows(t, r);
    var u := Transaction(t, r).0;
    forall k, v | HasVersion(u, k, v) ensures CanonicalDecision(DecisionAt(u, k, v)) {
      if !HasVersion(t, k, v) {
        TransactionAdds(t, r, k, v);
      }
    }
  }

  lemma ApprovalKeepsCanonical(s: State, p: Approver, delivery: string)
    requires TableOk(s) && Canonical(s.table) && p.WithLatest? && ApproverOk(s, p)
    ensures Canonical(ReuseOrAppend(s.table, p, delivery).0)
  {
    if !p.own && p.corrected.Ok? {
      assert CanonicalDecision(DecisionAt(s.table, p.key, p.latest));
      AppendKeepsCanonical(s.table, ApprovalRequest(p.key, p.review, p.corrected.value, p.latest, delivery));
    }
  }

  lemma StepKeepsCanonical(lock: Lock, s: State, step: Step)
    requires Basic(lock, s) && Canonical(s.table) && (step.Freeze? ==> CanonicalDecision(step.request.decision))
    ensures Canonical(Next(lock, s, step).table)
  {
    if Enabled(lock, s, step) {
      if step.Freeze? {
        AppendKeepsCanonical(s.table, step.request);
      } else if step.ApprovalAppend? {
        var p := ApproverAt(s, step.approver);
        assert ApproverOk(s, p);
        ApprovalKeepsCanonical(s, p, step.delivery);
      } else if !step.Commit? {
        StepIsCalm(lock, s, step);
      }
    }
  }

  lemma CanonicalCommitIsInTime(lock: Lock, s: State, step: Step)
    requires Basic(lock, s) && LogsRecorded(s) && Canonical(s.table)
    ensures NotAfterLifetime(lock, s, step)
  {
    if step.Commit? && Enabled(lock, s, step) {
      var job := s.workers[step.worker].job;
      var d := DecisionAt(s.table, job.key, job.version);
      forall r | Logged(s, r) && SameScope(d, LoggedDecision(s, r)) && d.occurrence.policy.value.RollingWindow?
        ensures LoggedDecision(s, r).occurrence.policy.value.RollingWindow?
      {
        SameScopeSameEvent(d, LoggedDecision(s, r));
        assert CanonicalDecision(d);
      }
    }
  }

  lemma {:induction false} CanonicalRunsAreInTime(lock: Lock, s: State, steps: seq<Step>)
    requires Basic(lock, s) && LogsRecorded(s) && Canonical(s.table) && CanonicalRun(lock, s, steps)
    ensures NeverAfterLifetime(lock, s, steps)
    decreases |steps|
  {
    if steps != [] {
      StepKeepsBasic(lock, s, steps[0]);
      StepKeepsRecorded(lock, s, steps[0]);
      StepKeepsCanonical(lock, s, steps[0]);
      CanonicalCommitIsInTime(lock, s, steps[0]);
      CanonicalRunsAreInTime(lock, Next(lock, s, steps[0]), steps[1..]);
    }
  }

  /** Where no submitted lead is frozen by the legacy engine, a lead is submitted and qualified only once. */
  lemma LifetimeIsAlone(lock: Lock, init: State, steps: seq<Step>)
    requires Init(init) && SlotRun(lock, init, steps) && CanonicalRun(lock, init, steps)
    ensures Apart(LifetimeRule, After(lock, init, steps))
  {
    InitIsSafe(lock, init);
    CanonicalRunsAreInTime(lock, init, steps);
    LifetimeIsAloneExactly(lock, init, steps);
  }
}
