/** Pieces that runs are put together from, for arbitrary decisions and from arbitrary states. */
module ProtocolRuns {
  import opened Wrappers
  import opened EventCatalog
  import opened Decisions
  import opened DecisionChain
  import opened ReviewCorrection
  import opened Protocol
  import opened ProtocolBasics
  import opened ProtocolSafety
  import opened ProtocolCommit
  import opened ProtocolSeparation
  import Text

  ghost predicate Reaches(lock: Lock, s: State, n: State) {
    exists steps :: After(lock, s, steps) == n
  }

  lemma {:induction false} AfterConcat(lock: Lock, s: State, before: seq<Step>, later: seq<Step>)
    ensures After(lock, s, before + later) == After(lock, After(lock, s, before), later)
    decreases |before|
  {
    if before == [] {
      assert before + later == later;
    } else {
      assert (before + later)[1..] == before[1..] + later;
      AfterConcat(lock, Next(lock, s, before[0]), before[1..], later);
    }
  }

  lemma ReachesTransitive(lock: Lock, s: State, m: State, n: State)
    requires Reaches(lock, s, m) && Reaches(lock, m, n)
    ensures Reaches(lock, s, n)
  {
    var before :| After(lock, s, before) == m;
    var later :| After(lock, m, later) == n;
    AfterConcat(lock, s, before, later);
  }

  lemma ReachesBy(lock: Lock, s: State, m: State, step: Step, n: State)
    requires Reaches(lock, s, m) && Next(lock, m, step) == n
    ensures Reaches(lock, s, n)
  {
    assert [step][1..] == [];
    assert After(lock, m, [step]) == n;
    ReachesTransitive(lock, s, m, n);
  }

  lemma ReachesItself(lock: Lock, s: State)
    ensures Reaches(lock, s, s)
  {
    assert After(lock, s, []) == s;
  }

  // ----- freezing and linking -----

  /** A decision that a worker can materialize. */
  predicate Materializes(d: Decision) {
    && d.code.Eligible? && d.leadResolution.Resolved? && d.occurrence.policy.Some?
    && (RequiresValue(d.occurrence.eventName) ==> Truthy(d.conversion.valueCents) && d.conversion.currency.Some?)
  }

  predicate IsText(x: string) {
    x != "" && Text.Trim(x) == x
  }

  function FirstAudit(d: Decision, delivery: string): Audit {
    Audit(1, Initial, None, d, delivery)
  }

  function NextVersion(k: Key, chain: seq<Audit>, d: Decision, delivery: string, request: string): Audit {
    Audit(|chain| + 1, Reevaluation(request), Some(AuditId(k, |chain|)), d, delivery)
  }

  lemma FreezesFirst(lock: Lock, s: State, d: Decision, delivery: string)
    requires Issued(d) && d.occurrence.workspaceId == s.workspaceId && KeyOf(d) !in s.table && IsText(delivery)
    ensures Next(lock, s, Freeze(RecordInitial(d, delivery)))
            == s.(table := s.table[KeyOf(d) := [FirstAudit(d, delivery)]])
  {
    assert Persist([], RecordInitial(d, delivery)).0 == [FirstAudit(d, delivery)];
  }

  lemma FreezesNext(lock: Lock, s: State, d: Decision, delivery: string, request: string)
    requires Issued(d) && d.occurrence.workspaceId == s.workspaceId && IsText(delivery) && IsText(request)
    requires KeyOf(d) in s.table && s.table[KeyOf(d)] != []
    requires var chain := s.table[KeyOf(d)];
             && chain[|chain| - 1].version == |chain|
             && forall i :: 0 <= i < |chain| ==> chain[i].evaluationKey != Reevaluation(request)
    ensures var k := KeyOf(d);
            Next(lock, s, Freeze(AppendReevaluation(d, delivery, AuditId(k, |s.table[k]|), request)))
            == s.(table := s.table[k := s.table[k] + [NextVersion(k, s.table[k], d, delivery, request)]])
  {
    var k := KeyOf(d);
    var r := AppendReevaluation(d, delivery, AuditId(k, |s.table[k]|), request);
    assert FindByEvaluation(s.table[k], EvaluationKeyOf(r)).None?;
    assert Persist(s.table[k], r).0 == s.table[k] + [NextVersion(k, s.table[k], d, delivery, request)];
  }

  /** The row that orchestrating version `v` writes. */
  function LinkedRow(s: State, k: Key, v: nat, d: Decision, disposition: Disposition): Execution {
    Execution(StatusOf(disposition), Some(v), if k in s.execs then s.execs[k].eventName else d.rule.eventName,
              d.occurrence.occurredAt, d.occurrence.contactIdentityHash, LeadIdOf(d),
              k in s.execs && s.execs[k].hasLog, TechNone)
  }

  lemma Links(lock: Lock, s: State, k: Key, v: nat, disposition: Disposition, recordIgnored: bool)
    requires HasVersion(s.table, k, v) && Persists(DecisionAt(s.table, k, v), disposition, recordIgnored)
    requires k in s.execs ==> !Terminal(s.execs[k].status) && s.execs[k].decision != Some(v)
    ensures Next(lock, s, OrchestrateStep(k, v, disposition, recordIgnored))
            == s.(execs := s.execs[k := LinkedRow(s, k, v, DecisionAt(s.table, k, v), disposition)])
  {
  }

  // ----- entering the transaction -----

  /** The execution is due for a worker under version `v`, which it can materialize, and has no review or log. */
  ghost predicate Due(s: State, k: Key, v: nat, d: Decision) {
    && HasVersion(s.table, k, v) && DecisionAt(s.table, k, v) == d && Materializes(d)
    && k in s.execs && s.execs[k].status.ExEligible? && s.execs[k].decision == Some(v)
    && s.execs[k].leadId == LeadIdOf(d)
    && !s.execs[k].hasLog && k !in s.logs && k !in s.reviews
  }

  function JobFor(k: Key, v: nat, d: Decision): Job {
    Job(k, v, LeadIdOf(d), false)
  }

  lemma TakesLock(lock: Lock, m: State, w: nat, k: Key, v: nat, d: Decision)
    requires Due(m, k, v, d) && LockFree(lock, SetWorker(m, w, Attempted(JobFor(k, v, d))), JobFor(k, v, d))
    ensures Next(lock, SetWorker(m, w, Attempted(JobFor(k, v, d))), TakeLock(w))
            == SetWorker(m, w, Locked(JobFor(k, v, d)))
  {
  }

  lemma Rereads(lock: Lock, m: State, w: nat, k: Key, v: nat, d: Decision)
    requires Due(m, k, v, d)
    ensures Next(lock, SetWorker(m, w, Locked(JobFor(k, v, d))), Reread(w)) == SetWorker(m, w, Cleared(JobFor(k, v, d)))
  {
  }

  lemma Queries(lock: Lock, m: State, w: nat, k: Key, v: nat, d: Decision, found: Option<Key>)
    requires Due(m, k, v, d) && QueryAnswer(m, JobFor(k, v, d), found)
    ensures Next(lock, SetWorker(m, w, Cleared(JobFor(k, v, d))), QueryDuplicate(w, found))
            == SetWorker(m, w, Checked(JobFor(k, v, d), found))
  {
    var n := SetWorker(m, w, Cleared(JobFor(k, v, d)));
    forall r ensures Conflicts(n, k, d, r) <==> Conflicts(m, k, d, r) {
    }
  }

  lemma LoadsAndAttempts(lock: Lock, s: State, w: nat, k: Key, v: nat, d: Decision)
    requires Due(s, k, v, d) && WorkerAt(s, w).Idle?
    ensures Reaches(lock, s, SetWorker(CountAttempt(s, k), w, Attempted(JobFor(k, v, d))))
  {
    var job := JobFor(k, v, d);
    ReachesItself(lock, s);
    assert Next(lock, s, Load(w, k)) == SetWorker(s, w, Loaded(job));
    ReachesBy(lock, s, s, Load(w, k), SetWorker(s, w, Loaded(job)));
    assert Next(lock, SetWorker(s, w, Loaded(job)), Attempt(w)) == SetWorker(CountAttempt(s, k), w, Attempted(job));
    ReachesBy(lock, s, SetWorker(s, w, Loaded(job)), Attempt(w), SetWorker(CountAttempt(s, k), w, Attempted(job)));
  }

  lemma CountingKeepsQuery(s: State, k: Key, v: nat, d: Decision, found: Option<Key>)
    requires Due(s, k, v, d) && QueryAnswer(s, JobFor(k, v, d), found)
    ensures Due(CountAttempt(s, k), k, v, d) && QueryAnswer(CountAttempt(s, k), JobFor(k, v, d), found)
  {
    var m := CountAttempt(s, k);
    forall r ensures Conflicts(m, k, d, r) <==> Conflicts(s, k, d, r) {
    }
  }

  /** No other worker holds the lock of the scope of `d`. */
  ghost predicate LockIsFree(lock: Lock, s: State, w: nat, d: Decision)
    requires d.occurrence.policy.Some?
  {
    forall u :: u in s.workers && u != w && InTransaction(s.workers[u])
      && HasVersion(s.table, s.workers[u].job.key, s.workers[u].job.version)
      ==> LockOf(lock, s.table, s.workers[u].job) != lock(d.occurrence.policy.value.scopeKey, d.occurrence.eventName)
  }

  lemma LockIsFreeFor(lock: Lock, s: State, w: nat, k: Key, v: nat, d: Decision)
    requires Due(s, k, v, d) && LockIsFree(lock, s, w, d)
    ensures LockFree(lock, SetWorker(CountAttempt(s, k), w, Attempted(JobFor(k, v, d))), JobFor(k, v, d))
  {
  }

  /** A worker takes a due execution up to the point before its commit. */
  lemma Enters(lock: Lock, s: State, w: nat, k: Key, v: nat, d: Decision, found: Option<Key>)
    requires Due(s, k, v, d) && WorkerAt(s, w).Idle? && LockIsFree(lock, s, w, d)
             && QueryAnswer(s, JobFor(k, v, d), found)
    ensures Reaches(lock, s, SetWorker(CountAttempt(s, k), w, Checked(JobFor(k, v, d), found)))
  {
    var m, job := CountAttempt(s, k), JobFor(k, v, d);
    LoadsAndAttempts(lock, s, w, k, v, d);
    CountingKeepsQuery(s, k, v, d, found);
    LockIsFreeFor(lock, s, w, k, v, d);
    TakesLock(lock, m, w, k, v, d);
    ReachesBy(lock, s, SetWorker(m, w, Attempted(job)), TakeLock(w), SetWorker(m, w, Locked(job)));
    Rereads(lock, m, w, k, v, d);
    ReachesBy(lock, s, SetWorker(m, w, Locked(job)), Reread(w), SetWorker(m, w, Cleared(job)));
    Queries(lock, m, w, k, v, d, found);
    ReachesBy(lock, s, SetWorker(m, w, Cleared(job)), QueryDuplicate(w, found), SetWorker(m, w, Checked(job, found)));
  }

  // ----- whole lives of an occurrence -----

  /** Nothing is stored yet under the key of `d`. */
  ghost predicate Unknown(s: State, d: Decision) {
    KeyOf(d) !in s.table && KeyOf(d) !in s.execs && KeyOf(d) !in s.logs && KeyOf(d) !in s.reviews
  }

  /** The state once `d` is frozen and its execution due. */
  function Opened(s: State, d: Decision, delivery: string): State {
    var k := KeyOf(d);
    var row := Execution(ExEligible, Some(1), d.rule.eventName, d.occurrence.occurredAt,
                         d.occurrence.contactIdentityHash,
                         LeadIdOf(d), false, TechNone);
    s.(table := s.table[k := [FirstAudit(d, delivery)]], execs := s.execs[k := row])
  }

  lemma Opens(lock: Lock, s: State, d: Decision, delivery: string)
    requires Issued(d) && d.occurrence.workspaceId == s.workspaceId && Materializes(d) && IsText(delivery)
             && Unknown(s, d)
    ensures Reaches(lock, s, Opened(s, d, delivery)) && Due(Opened(s, d, delivery), KeyOf(d), 1, d)
  {
    var k := KeyOf(d);
    var m := s.(table := s.table[k := [FirstAudit(d, delivery)]]);
    ReachesItself(lock, s);
    FreezesFirst(lock, s, d, delivery);
    ReachesBy(lock, s, s, Freeze(RecordInitial(d, delivery)), m);
    Links(lock, m, k, 1, MakeEligible, false);
    ReachesBy(lock, s, m, OrchestrateStep(k, 1, MakeEligible, false), Opened(s, d, delivery));
  }

  /** What the other occurrences of `s` look like is the same in `n`. */
  ghost predicate OnlyTouches(s: State, n: State, k: Key) {
    && n.workspaceId == s.workspaceId && n.reviews == s.reviews
    && (forall q :: q != k ==> (q in n.table <==> q in s.table) && (q in s.table ==> n.table[q] == s.table[q]))
    && (forall q :: q != k ==> (q in n.execs <==> q in s.execs) && (q in s.execs ==> n.execs[q] == s.execs[q]))
    && (forall q :: q != k ==> (q in n.logs <==> q in s.logs) && (q in s.logs ==> n.logs[q] == s.logs[q]))
  }

  /** The execution of `k` ended with the answer of the duplicate query, on version `v`. */
  ghost predicate Ended(n: State, k: Key, chain: seq<Audit>, link: nat, v: nat, found: Option<Key>)
    requires 1 <= v <= |chain|
  {
    && k in n.table && n.table[k] == chain && k in n.execs && n.execs[k].decision == Some(link)
    && n.execs[k].leadId == LeadIdOf(chain[v - 1].decision)
    && if found.Some? then n.execs[k].status.ExDuplicate?
       else n.execs[k].status.ExMaterialized? && Logged(n, k) && n.logs[k].decisionVersion == Some(v)
  }

  /** The worker's transaction commits, and what it has to deliver is queued. */
  lemma CommitsAndQueues(lock: Lock, s: State, w: nat, n: State)
    requires Enabled(lock, s, Commit(w)) && n == SetWorker(Committed(s, WorkerAt(s, w)), w, Idle)
    ensures Reaches(lock, s, n)
  {
    var m := CommitStep(s, w);
    ReachesItself(lock, s);
    ReachesBy(lock, s, s, Commit(w), m);
    if WorkerAt(m, w).Enqueuing? {
      assert SetWorker(m, w, Idle) == n;
      ReachesBy(lock, s, m, Enqueue(w, true), n);
    } else {
      assert m == n;
    }
  }

  /** What a commit on version `v` leaves of execution and log. */
  lemma CommittedRows(s: State, w: nat, k: Key, v: nat, d: Decision, found: Option<Key>, n: State)
    requires k in s.execs && HasVersion(s.table, k, v) && DecisionAt(s.table, k, v) == d
    requires n == SetWorker(Committed(s, Checked(JobFor(k, v, d), found)), w, Idle)
    ensures OnlyTouches(s, n, k) && n.table == s.table && n.workers == s.workers[w := Idle]
    ensures k in n.execs && n.execs[k].status == (if found.Some? then ExDuplicate else ExMaterialized)
    ensures n.execs[k].decision == s.execs[k].decision && n.execs[k].leadId == LeadIdOf(d)
    ensures n.execs[k].occurredAt == s.execs[k].occurredAt
    ensures n.logs == LogsAfter(s, Checked(JobFor(k, v, d), found))
  {
  }

  /** A worker whose re-read and query are done commits, whatever its execution is linked to by now. */
  lemma CommitsNow(lock: Lock, s: State, w: nat, k: Key, v: nat, d: Decision, found: Option<Key>) returns (n: State)
    requires WorkerAt(s, w) == Checked(JobFor(k, v, d), found)
    requires k in s.execs && s.execs[k].decision.Some? && HasVersion(s.table, k, v) && DecisionAt(s.table, k, v) == d
    requires found.None? ==> k !in s.logs
    ensures Reaches(lock, s, n) && OnlyTouches(s, n, k)
    ensures Ended(n, k, s.table[k], s.execs[k].decision.value, v, found)
    ensures n.execs[k].occurredAt == s.execs[k].occurredAt && n.table == s.table && n.workers == s.workers[w := Idle]
    ensures k in n.logs <==> k in s.logs || found.None?
    ensures found.None? ==> n.logs[k] == LogOf(s.table, JobFor(k, v, d))
  {
    n := SetWorker(Committed(s, WorkerAt(s, w)), w, Idle);
    CommitsAndQueues(lock, s, w, n);
    CommittedRows(s, w, k, v, d, found, n);
  }

  /** It commits on an execution that already has a log. */
  lemma MergesNow(lock: Lock, s: State, w: nat, k: Key, v: nat, d: Decision) returns (n: State)
    requires WorkerAt(s, w) == Checked(JobFor(k, v, d), None)
    requires k in s.execs && HasVersion(s.table, k, v) && DecisionAt(s.table, k, v) == d && k in s.logs
    ensures Reaches(lock, s, n) && n.table == s.table && k in n.execs
    ensures k in n.logs && n.logs[k] == MergedLog(s.logs[k], LogOf(s.table, JobFor(k, v, d)))
  {
    n := SetWorker(Committed(s, WorkerAt(s, w)), w, Idle);
    CommitsAndQueues(lock, s, w, n);
    CommittedRows(s, w, k, v, d, None, n);
  }

  lemma TouchesOnwards(s: State, m: State, n: State, k: Key)
    requires OnlyTouches(s, m, k) && OnlyTouches(m, n, k)
    ensures OnlyTouches(s, n, k)
  {
  }

  /** The state in which a worker has entered the transaction of an occurrence just opened. */
  function Entered(s: State, w: nat, d: Decision, delivery: string, found: Option<Key>): State {
    SetWorker(CountAttempt(Opened(s, d, delivery), KeyOf(d)), w, Checked(JobFor(KeyOf(d), 1, d), found))
  }

  lemma EnteringTouches(s: State, w: nat, d: Decision, delivery: string, found: Option<Key>)
    requires Unknown(s, d)
    ensures var p, k := Entered(s, w, d, delivery, found), KeyOf(d);
            && OnlyTouches(s, p, k) && k in p.table && p.table[k] == [FirstAudit(d, delivery)]
            && k in p.execs && p.execs[k].decision == Some(1) && p.execs[k].occurredAt == d.occurrence.occurredAt
            && k !in p.logs && WorkerAt(p, w) == Checked(JobFor(k, 1, d), found)
            && p.workers[w := Idle] == s.workers[w := Idle]
  {
  }

  /** From unknown to materialized or duplicate in one go. */
  lemma Lives(lock: Lock, s: State, w: nat, d: Decision, delivery: string, found: Option<Key>) returns (n: State)
    requires Issued(d) && d.occurrence.workspaceId == s.workspaceId && Materializes(d) && IsText(delivery)
             && Unknown(s, d)
    requires WorkerAt(s, w).Idle? && LockIsFree(lock, Opened(s, d, delivery), w, d)
    requires QueryAnswer(Opened(s, d, delivery), JobFor(KeyOf(d), 1, d), found)
    ensures Reaches(lock, s, n) && OnlyTouches(s, n, KeyOf(d))
    ensures Ended(n, KeyOf(d), [FirstAudit(d, delivery)], 1, 1, found)
    ensures n.execs[KeyOf(d)].occurredAt == d.occurrence.occurredAt && n.workers == s.workers[w := Idle]
  {
    var k, m, p := KeyOf(d), Opened(s, d, delivery), Entered(s, w, d, delivery, found);
    Opens(lock, s, d, delivery);
    Enters(lock, m, w, k, 1, d, found);
    EnteringTouches(s, w, d, delivery, found);
    n := CommitsNow(lock, p, w, k, 1, d, found);
    ReachesTransitive(lock, s, m, p);
    ReachesTransitive(lock, s, p, n);
    TouchesOnwards(s, p, n, k);
  }
}
