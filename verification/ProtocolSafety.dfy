/**
 * What deduplication relies on: the invariants of every run, those of runs whose re-evaluations keep an
 * occurrence in its scope, and the steps that cannot disturb either.
 */
module ProtocolSafety {
  import opened Wrappers
  import opened EventCatalog
  import opened Decisions
  import opened DecisionChain
  import opened ReviewCorrection
  import opened Protocol
  import opened ProtocolBasics

  // ----- links and logs -----

  /** The execution is linked to a version of its chain. */
  ghost predicate Linked(s: State, k: Key) {
    k in s.execs && s.execs[k].decision.Some? && HasVersion(s.table, k, s.execs[k].decision.value)
  }

  function LinkedDecision(s: State, k: Key): Decision
    requires Linked(s, k)
  {
    DecisionAt(s.table, k, s.execs[k].decision.value)
  }

  /** The event log of the execution was written for a version of its chain. */
  ghost predicate Logged(s: State, k: Key) {
    k in s.logs && s.logs[k].decisionVersion.Some? && HasVersion(s.table, k, s.logs[k].decisionVersion.value)
  }

  function LoggedDecision(s: State, k: Key): Decision
    requires Logged(s, k)
  {
    DecisionAt(s.table, k, s.logs[k].decisionVersion.value)
  }

  // ----- invariants of every run -----

  /** The log carries the value and currency of `d`. */
  predicate WrittenAs(l: EventLog, d: Decision) {
    l.valueCents == LoggedValue(d) && l.currency == LoggedCurrency(d)
  }

  /** `d` supplies a column that is null in the log. */
  predicate Fills(l: EventLog, d: Decision) {
    (l.valueCents.None? && LoggedValue(d).Some?) || (l.currency.None? && LoggedCurrency(d).Some?)
  }

  /** Each column that is not null is supplied by some eligible version of the chain. */
  ghost predicate Supplied(t: Table, k: Key, l: EventLog) {
    && (l.valueCents.Some? ==>
          exists u :: HasVersion(t, k, u) && DecisionAt(t, k, u).code.Eligible?
                      && LoggedValue(DecisionAt(t, k, u)) == l.valueCents)
    && (l.currency.Some? ==>
          exists u :: HasVersion(t, k, u) && DecisionAt(t, k, u).code.Eligible?
                      && LoggedCurrency(DecisionAt(t, k, u)) == l.currency)
  }

  /**
   * A log belongs to a terminal execution. Unless both are older than frozen decisions, it carries the event and
   * time of an eligible version with a deduplication scope, and that version's value and currency, or where those
   * are null what another eligible version supplies.
   */
  ghost predicate Recorded(s: State, k: Key)
    requires k in s.logs
  {
    && k in s.execs && Terminal(s.execs[k].status)
    && (s.logs[k].decisionVersion.None? <==> s.execs[k].decision.None?)
    && (s.logs[k].decisionVersion.Some? ==>
          && Logged(s, k)
          && var d := LoggedDecision(s, k);
             && d.code.Eligible? && d.occurrence.policy.Some? && d.leadResolution.Resolved?
             && s.logs[k].eventName == d.occurrence.eventName && s.logs[k].occurredAt == d.occurrence.occurredAt
             && (LoggedValue(d).Some? ==> s.logs[k].valueCents == LoggedValue(d))
             && (LoggedCurrency(d).Some? ==> s.logs[k].currency == LoggedCurrency(d))
             && (RequiresValue(s.logs[k].eventName) ==> Truthy(s.logs[k].valueCents) && s.logs[k].currency.Some?)
             && Supplied(s.table, k, s.logs[k]))
  }

  ghost predicate LogsRecorded(s: State) {
    forall k :: k in s.logs ==> Recorded(s, k)
  }

  // ----- invariants of runs that keep the scope of an occurrence -----

  /**
   * Two versions of one chain agree when, unless one of them has no policy, they share the scope key and, if
   * `timed`, the time of the occurrence as well. Qualified leads have one lifetime policy in both engines, so
   * their time does not matter.
   */
  predicate Agree(timed: bool, d: Decision, e: Decision) {
    d.occurrence.policy.Some? && e.occurrence.policy.Some? ==>
      && d.occurrence.policy.value.scopeKey == e.occurrence.policy.value.scopeKey
      && (timed ==> || d.occurrence.occurredAt == e.occurrence.occurredAt
                    || (d.occurrence.eventName == QualifiedLead && e.occurrence.eventName == QualifiedLead))
  }

  /** All versions of a chain agree. */
  ghost predicate Stable(timed: bool, t: Table) {
    forall k, v, u :: HasVersion(t, k, v) && HasVersion(t, k, u) ==>
      Agree(timed, DecisionAt(t, k, v), DecisionAt(t, k, u))
  }

  /** A transaction past its re-read works on an execution that is not terminal. */
  ghost predicate FreshWorker(s: State, worker: Worker) {
    (worker.Cleared? || worker.Checked?) && worker.job.key in s.execs ==> !Terminal(s.execs[worker.job.key].status)
  }

  /** The answer of the duplicate query is still right. */
  ghost predicate AnswerStands(s: State, worker: Worker) {
    worker.Checked? && HasVersion(s.table, worker.job.key, worker.job.version) ==>
        QueryAnswer(s, worker.job, worker.found)
  }

  ghost predicate WorkersFresh(s: State) {
    forall w :: w in s.workers ==> FreshWorker(s, s.workers[w]) && AnswerStands(s, s.workers[w])
  }

  /** Some materialized execution is in the scope and window of a version of `k`. */
  ghost predicate HasWitness(s: State, k: Key) {
    exists v, b :: HasVersion(s.table, k, v) && DecisionAt(s.table, k, v).code.Eligible?
        && Conflicts(s, k, DecisionAt(s.table, k, v), b)
  }

  ghost predicate Witnessed(s: State) {
    forall k :: Linked(s, k) && s.execs[k].status.ExDuplicate? ==> HasWitness(s, k)
  }

  /** Materialized executions and event logs are in bijection. */
  ghost predicate LogsMatch(s: State) {
    && (forall k :: k in s.logs <==> k in s.execs && s.execs[k].status.ExMaterialized?)
    && (forall k :: k in s.execs ==> (s.execs[k].hasLog <==> s.execs[k].status.ExMaterialized?))
  }

  ghost predicate Safe(s: State) {
    Stable(false, s.table) && Witnessed(s) && WorkersFresh(s) && LogsMatch(s)
  }

  // ----- scopes and locks -----

  /** Two jobs in the same scope contend for the same lock. */
  lemma SameScopeSameLock(lock: Lock, s: State, j: Job, i: Job)
    requires TableOk(s) && HasVersion(s.table, j.key, j.version) && HasVersion(s.table, i.key, i.version)
    requires DecisionAt(s.table, j.key, j.version).occurrence.policy.Some?
    requires DecisionAt(s.table, i.key, i.version).occurrence.policy.Some?
    requires DecisionAt(s.table, j.key, j.version).occurrence.policy.value.scopeKey
             == DecisionAt(s.table, i.key, i.version).occurrence.policy.value.scopeKey
    ensures LockOf(lock, s.table, j) == LockOf(lock, s.table, i)
  {
    SameScopeSameEvent(DecisionAt(s.table, j.key, j.version), DecisionAt(s.table, i.key, i.version));
  }

  /** Two transactions never work in one scope, nor on one execution of a chain whose versions agree. */
  lemma OthersUseOtherScopes(lock: Lock, s: State, w: nat, u: nat)
    requires Basic(lock, s) && w in s.workers && u in s.workers && u != w
    requires InTransaction(s.workers[w]) && InTransaction(s.workers[u])
    ensures var job, other := s.workers[w].job, s.workers[u].job;
            && JobOk(s, job) && JobOk(s, other)
            && DecisionAt(s.table, job.key, job.version).occurrence.policy.Some?
            && DecisionAt(s.table, other.key, other.version).occurrence.policy.Some?
            && DecisionAt(s.table, job.key, job.version).occurrence.policy.value.scopeKey
               != DecisionAt(s.table, other.key, other.version).occurrence.policy.value.scopeKey
    ensures Stable(false, s.table) ==> s.workers[w].job.key != s.workers[u].job.key
  {
    var job, other := s.workers[w].job, s.workers[u].job;
    assert JobOk(s, job) && JobOk(s, other);
    if DecisionAt(s.table, job.key, job.version).occurrence.policy.value.scopeKey
       == DecisionAt(s.table, other.key, other.version).occurrence.policy.value.scopeKey {
      SameScopeSameLock(lock, s, job, other);
    }
  }

  // ----- steps that neither materialize nor mark a duplicate -----

  /** Everything but the state of the delivery. */
  predicate SameCore(a: Execution, b: Execution) {
    a.(technical := TechNone) == b.(technical := TechNone)
  }

  predicate SameContent(a: EventLog, b: EventLog) {
    a.(status := LogReady) == b.(status := LogReady)
  }

  /** No column but the delivery status is overwritten; null ones may be filled. */
  predicate KeepsColumns(a: EventLog, b: EventLog) {
    && a.decisionVersion == b.decisionVersion && a.eventName == b.eventName && a.occurredAt == b.occurredAt
    && (a.valueCents.Some? ==> b.valueCents == a.valueCents) && (a.currency.Some? ==> b.currency == a.currency)
  }

  /** Terminal executions and the content of logs stay, and no execution becomes terminal. */
  ghost predicate Calm(s: State, n: State) {
    && TableGrows(s.table, n.table)
    && (forall k :: k in s.execs ==> k in n.execs)
    && (forall k :: k in s.execs && Terminal(s.execs[k].status) ==> k in n.execs && SameCore(s.execs[k], n.execs[k]))
    && (forall k :: k in n.execs && Terminal(n.execs[k].status) ==> k in s.execs && Terminal(s.execs[k].status))
    && (forall k :: k in n.execs && n.execs[k].hasLog ==> k in s.execs && s.execs[k].hasLog)
    && n.logs.Keys == s.logs.Keys
    && (forall k :: k in s.logs ==> SameContent(s.logs[k], n.logs[k]))
  }

  lemma CalmConflicts(lock: Lock, s: State, n: State, k: Key, d: Decision, r: Key)
    requires Basic(lock, s) && Calm(s, n)
    ensures Conflicts(n, k, d, r) <==> Conflicts(s, k, d, r)
  {
    if r in s.execs && s.execs[r].decision.Some? {
      assert LinkOk(s, r);
    }
  }

  lemma CalmLinks(lock: Lock, s: State, n: State, k: Key)
    requires Basic(lock, s) && Calm(s, n)
    requires k in s.execs && Terminal(s.execs[k].status)
    ensures Linked(n, k) <==> Linked(s, k)
    ensures Linked(s, k) ==> LinkedDecision(n, k) == LinkedDecision(s, k)
  {
    if s.execs[k].decision.Some? {
      assert LinkOk(s, k);
    }
  }

  lemma CalmKeepsRecorded(s: State, n: State)
    requires Calm(s, n) && LogsRecorded(s)
    ensures LogsRecorded(n)
    ensures forall k :: Logged(n, k) <==> Logged(s, k)
    ensures forall k :: Logged(s, k) ==> LoggedDecision(n, k) == LoggedDecision(s, k)
  {
    forall k | k in n.logs ensures k in s.logs && Recorded(n, k) {
      assert k in s.logs.Keys && Recorded(s, k);
      assert SameContent(s.logs[k], n.logs[k]);
    }
  }

  lemma CalmKeepsWitnessed(lock: Lock, s: State, n: State)
    requires Basic(lock, s) && Calm(s, n) && Witnessed(s)
    ensures Witnessed(n)
  {
    forall k | Linked(n, k) && n.execs[k].status.ExDuplicate? ensures HasWitness(n, k) {
      CalmLinks(lock, s, n, k);
      assert HasWitness(s, k);
      var v, b :| HasVersion(s.table, k, v) && DecisionAt(s.table, k, v).code.Eligible?
                  && Conflicts(s, k, DecisionAt(s.table, k, v), b);
      CalmConflicts(lock, s, n, k, DecisionAt(s.table, k, v), b);
      assert HasVersion(n.table, k, v);
    }
  }

  lemma CalmKeepsWorker(lock: Lock, s: State, n: State, worker: Worker)
    requires Basic(lock, s) && Calm(s, n)
    requires JobOf(worker).Some? ==> JobOk(s, worker.job)
    requires FreshWorker(s, worker) && AnswerStands(s, worker)
    ensures FreshWorker(n, worker) && AnswerStands(n, worker)
  {
    if worker.Checked? {
      var k := worker.job.key;
      var d := DecisionAt(s.table, k, worker.job.version);
      forall r ensures Conflicts(n, k, d, r) <==> Conflicts(s, k, d, r) {
        CalmConflicts(lock, s, n, k, d, r);
      }
    }
  }

  lemma CalmKeepsLogs(s: State, n: State)
    requires Calm(s, n) && LogsMatch(s)
    ensures LogsMatch(n)
  {
    forall k ensures k in n.logs <==> k in n.execs && n.execs[k].status.ExMaterialized? {
      assert k in n.logs.Keys <==> k in s.logs.Keys;
    }
  }

  lemma CalmKeepsSafe(lock: Lock, s: State, n: State)
    requires Basic(lock, s) && Safe(s) && Calm(s, n) && n.workers == s.workers && Stable(false, n.table)
    ensures Safe(n)
  {
    CalmKeepsWitnessed(lock, s, n);
    CalmKeepsLogs(s, n);
    forall w | w in n.workers
      ensures FreshWorker(n, n.workers[w]) && AnswerStands(n, n.workers[w])
    {
      CalmKeepsWorker(lock, s, n, s.workers[w]);
    }
  }
}
