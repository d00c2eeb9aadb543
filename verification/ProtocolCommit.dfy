/** The two commits of a worker's transaction. */
module ProtocolCommit {
  import opened Wrappers
  import opened EventCatalog
  import opened Decisions
  import opened DecisionChain
  import opened Protocol
  import opened ProtocolBasics
  import opened ProtocolSafety
  import opened ProtocolSteps
  import Recordings

  /** The committed execution is the only row that changes, and only in its status, lead, log and delivery. */
  ghost predicate Finishes(s: State, n: State, w: nat, k: Key) {
    && k in s.execs && k in n.execs
    && n.table == s.table && w in n.workers && n.workers == s.workers[w := n.workers[w]] && JobOf(n.workers[w]).None?
    && n.execs == s.execs[k := n.execs[k]]
    && n.execs[k].decision == s.execs[k].decision && n.execs[k].eventName == s.execs[k].eventName
    && n.execs[k].occurredAt == s.execs[k].occurredAt && n.execs[k].contactHash == s.execs[k].contactHash
    && Terminal(n.execs[k].status)
  }

  /** The commit writes a new event log. */
  predicate WritesLog(s: State, worker: Worker) {
    worker.Checked? && worker.found.None? && worker.job.key !in s.logs
  }

  /** The logs after the commit: unless there was a duplicate, one is created or merged into. */
  function LogsAfter(s: State, worker: Worker): map<Key, EventLog>
    requires worker.Checked? && HasVersion(s.table, worker.job.key, worker.job.version)
  {
    var k, log := worker.job.key, LogOf(s.table, worker.job);
    if worker.found.Some? then s.logs
    else s.logs[k := if k in s.logs then MergedLog(s.logs[k], log) else log]
  }

  /** The columns of a log that the merge fills in, as the recording of external conversions sees them. */
  function ColumnsOf(l: EventLog): Recordings.Columns {
    (if l.valueCents.Some? then map[Recordings.ValueCents := Recordings.Cents(l.valueCents.value)] else map[])
    + (if l.currency.Some? then map[Recordings.Currency := Recordings.Words(l.currency.value)] else map[])
  }

  /** A commit merges into an existing log as any recording does. */
  lemma MergesAsRecorded(existing: EventLog, added: EventLog)
    ensures ColumnsOf(MergedLog(existing, added)) == Recordings.Merged(ColumnsOf(existing), ColumnsOf(added))
  {
  }

  /** All that the lemmas below need to know of a commit of `worker`. */
  ghost predicate Commits(s: State, n: State, w: nat, worker: Worker) {
    && worker.Checked? && HasVersion(s.table, worker.job.key, worker.job.version)
    && Finishes(s, n, w, worker.job.key)
    && n.execs[worker.job.key].status == (if worker.found.Some? then ExDuplicate else ExMaterialized)
    && n.execs[worker.job.key].hasLog == (worker.found.None? || s.execs[worker.job.key].hasLog)
    && n.logs == LogsAfter(s, worker)
  }

  lemma CommittedCommits(s: State, w: nat, worker: Worker, n: State)
    requires worker.Checked? && HasVersion(s.table, worker.job.key, worker.job.version) && worker.job.key in s.execs
    requires n == SetWorker(Committed(s, worker), w, AfterCommit(Committed(s, worker), worker))
    ensures Commits(s, n, w, worker)
  {
  }

  lemma CommitEffect(lock: Lock, s: State, w: nat, n: State)
    requires Enabled(lock, s, Commit(w)) && n == Next(lock, s, Commit(w))
    ensures w in s.workers && Commits(s, n, w, s.workers[w])
  {
    CommittedCommits(s, w, s.workers[w], n);
  }

  // ----- every run -----

  lemma CommitSupplies(s: State, n: State, w: nat, worker: Worker)
    requires Commits(s, n, w, worker) && Materializable(s.table, worker.job) && worker.found.None?
    requires worker.job.key in s.logs ==> Supplied(s.table, worker.job.key, s.logs[worker.job.key])
    ensures Supplied(n.table, worker.job.key, n.logs[worker.job.key])
  {
    assert DecisionAt(s.table, worker.job.key, worker.job.version).code.Eligible?;
  }

  lemma CommitRecords(s: State, n: State, w: nat, worker: Worker, k: Key)
    requires Commits(s, n, w, worker) && JobOk(s, worker.job) && Materializable(s.table, worker.job)
    requires k in n.logs && (k in s.logs ==> Recorded(s, k))
    ensures Recorded(n, k)
  {
    if worker.found.None? {
      if k == worker.job.key {
        CommitSupplies(s, n, w, worker);
      }
    }
  }

  /** Any commit, whatever happened since the worker loaded its job, writes or fills a log from an eligible version. */
  lemma CommitKeepsRecorded(lock: Lock, s: State, w: nat, n: State)
    requires Basic(lock, s) && LogsRecorded(s) && w in s.workers && Commits(s, n, w, s.workers[w])
    ensures LogsRecorded(n)
  {
    var worker := s.workers[w];
    assert JobOk(s, worker.job) && Materializable(s.table, worker.job);
    forall k | k in n.logs ensures Recorded(n, k) {
      CommitRecords(s, n, w, worker, k);
    }
  }

  lemma StepKeepsRecorded(lock: Lock, s: State, step: Step)
    requires Basic(lock, s) && LogsRecorded(s)
    ensures LogsRecorded(Next(lock, s, step))
  {
    if step.Commit? {
      if Enabled(lock, s, step) {
        CommitEffect(lock, s, step.worker, Next(lock, s, step));
        CommitKeepsRecorded(lock, s, step.worker, Next(lock, s, step));
      }
    } else {
      StepIsCalm(lock, s, step);
      CalmKeepsRecorded(s, Next(lock, s, step));
    }
  }

  /** The step is a commit that finds the log of its execution and supplies a column that is null there. */
  ghost predicate FillsLog(lock: Lock, s: State, step: Step, k: Key) {
    && step.Commit? && Enabled(lock, s, step) && k in s.logs
    && var worker := WorkerAt(s, step.worker);
       && worker.job.key == k && worker.found.None?
       && Fills(s.logs[k], DecisionAt(s.table, k, worker.job.version))
  }

  lemma CommitMergesExactly(s: State, n: State, w: nat, worker: Worker, k: Key)
    requires Commits(s, n, w, worker) && k in s.logs
    ensures k in n.logs && KeepsColumns(s.logs[k], n.logs[k])
    ensures SameContent(s.logs[k], n.logs[k]) <==>
            !(worker.job.key == k && worker.found.None?
              && Fills(s.logs[k], DecisionAt(s.table, worker.job.key, worker.job.version)))
  {
  }

  lemma CalmKeepsLog(s: State, n: State, k: Key)
    requires Calm(s, n) && k in s.logs
    ensures k in n.logs && SameContent(s.logs[k], n.logs[k])
  {
    assert k in n.logs.Keys;
  }

  lemma CommitKeepsLogExactly(lock: Lock, s: State, w: nat, k: Key)
    requires Enabled(lock, s, Commit(w)) && k in s.logs
    ensures k in Next(lock, s, Commit(w)).logs && KeepsColumns(s.logs[k], Next(lock, s, Commit(w)).logs[k])
    ensures SameContent(s.logs[k], Next(lock, s, Commit(w)).logs[k]) <==> !FillsLog(lock, s, Commit(w), k)
  {
    CommitEffect(lock, s, w, Next(lock, s, Commit(w)));
    CommitMergesExactly(s, Next(lock, s, Commit(w)), w, s.workers[w], k);
  }

  /**
   * No step drops a log or overwrites a column of it but the delivery status, and its content changes exactly when a
   * commit supplies a value or currency it did not have.
   */
  lemma StepKeepsLogExactly(lock: Lock, s: State, step: Step, k: Key)
    requires Basic(lock, s) && k in s.logs
    ensures k in Next(lock, s, step).logs && KeepsColumns(s.logs[k], Next(lock, s, step).logs[k])
    ensures SameContent(s.logs[k], Next(lock, s, step).logs[k]) <==> !FillsLog(lock, s, step, k)
  {
    if !step.Commit? {
      StepIsCalm(lock, s, step);
      CalmKeepsLog(s, Next(lock, s, step), k);
    } else if Enabled(lock, s, step) {
      CommitKeepsLogExactly(lock, s, step.worker, k);
    }
  }

  // ----- runs that keep the scope of an occurrence -----

  /** A worker about to commit, its re-read and duplicate query behind it. */
  ghost predicate AboutToCommit(lock: Lock, s: State, w: nat) {
    Basic(lock, s) && Safe(s) && Enabled(lock, s, Commit(w))
  }

  lemma CommitIsFresh(lock: Lock, s: State, w: nat)
    requires AboutToCommit(lock, s, w)
    ensures var job := s.workers[w].job;
            && w in s.workers && JobOk(s, job) && Materializable(s.table, job) && !Terminal(s.execs[job.key].status)
            && job.key !in s.logs && !s.execs[job.key].hasLog && LinkOk(s, job.key)
            && QueryAnswer(s, job, s.workers[w].found)
  {
    assert FreshWorker(s, s.workers[w]) && AnswerStands(s, s.workers[w]);
    assert LinkOk(s, s.workers[w].job.key);
  }

  /** The duplicate query sees the same answer at every row but the committed one. */
  lemma ConflictsElsewhere(s: State, n: State, w: nat, k: Key, self: Key, d: Decision, r: Key)
    requires Finishes(s, n, w, k) && r != k
    ensures Conflicts(n, self, d, r) <==> Conflicts(s, self, d, r)
  {
  }

  /** A query that does not see the committed row before or after keeps its answer. */
  lemma AnswerStandsElsewhere(s: State, n: State, w: nat, k: Key, other: Worker)
    requires Finishes(s, n, w, k) && other.Checked? && HasVersion(s.table, other.job.key, other.job.version)
    requires AnswerStands(s, other)
    requires var d := DecisionAt(s.table, other.job.key, other.job.version);
             !Conflicts(s, other.job.key, d, k) && !Conflicts(n, other.job.key, d, k)
    ensures AnswerStands(n, other)
  {
    var d := DecisionAt(s.table, other.job.key, other.job.version);
    forall r ensures Conflicts(n, other.job.key, d, r) <==> Conflicts(s, other.job.key, d, r) {
      if r != k {
        ConflictsElsewhere(s, n, w, k, other.job.key, d, r);
      }
    }
  }

  /** What the committed execution is linked to has the scope of the job, or none. */
  lemma LinkHasItsScope(lock: Lock, s: State, w: nat)
    requires AboutToCommit(lock, s, w)
    ensures var job := s.workers[w].job;
            && w in s.workers && JobOk(s, job) && LinkOk(s, job.key) && !Terminal(s.execs[job.key].status)
            && Agree(false, DecisionAt(s.table, job.key, s.execs[job.key].decision.value),
                     DecisionAt(s.table, job.key, job.version))
  {
    CommitIsFresh(lock, s, w);
  }

  /** The query of a decision in another scope does not see the committed execution, neither before nor after. */
  lemma CommittedIsUnseen(s: State, n: State, w: nat, job: Job, self: Key, d: Decision)
    requires JobOk(s, job) && LinkOk(s, job.key) && !Terminal(s.execs[job.key].status) && Finishes(s, n, w, job.key)
    requires var e := DecisionAt(s.table, job.key, job.version);
             && Agree(false, DecisionAt(s.table, job.key, s.execs[job.key].decision.value), e)
             && d.occurrence.policy.Some? && e.occurrence.policy.Some?
             && d.occurrence.policy.value.scopeKey != e.occurrence.policy.value.scopeKey
    ensures !Conflicts(n, self, d, job.key) && !Conflicts(s, self, d, job.key)
  {
  }

  lemma CommitKeepsAnswer(lock: Lock, s: State, w: nat, n: State, u: nat)
    requires AboutToCommit(lock, s, w) && Finishes(s, n, w, s.workers[w].job.key)
    requires u in s.workers && u != w && s.workers[u].Checked?
    ensures AnswerStands(n, s.workers[u])
  {
    var k, job, other := s.workers[w].job.key, s.workers[w].job, s.workers[u].job;
    LinkHasItsScope(lock, s, w);
    OthersUseOtherScopes(lock, s, w, u);
    assert AnswerStands(s, s.workers[u]);
    CommittedIsUnseen(s, n, w, job, other.key, DecisionAt(s.table, other.key, other.version));
    AnswerStandsElsewhere(s, n, w, k, s.workers[u]);
  }

  lemma CommitKeepsFresh(lock: Lock, s: State, w: nat, n: State, u: nat)
    requires Basic(lock, s) && Stable(false, s.table) && w in s.workers && InTransaction(s.workers[w])
    requires Finishes(s, n, w, s.workers[w].job.key)
    requires u in s.workers && u != w && FreshWorker(s, s.workers[u])
    ensures FreshWorker(n, s.workers[u])
  {
    if s.workers[u].Cleared? || s.workers[u].Checked? {
      OthersUseOtherScopes(lock, s, w, u);
    }
  }

  lemma CommitKeepsWorker(lock: Lock, s: State, w: nat, n: State, u: nat)
    requires AboutToCommit(lock, s, w) && Finishes(s, n, w, s.workers[w].job.key)
    requires u in s.workers && u != w
    ensures FreshWorker(n, s.workers[u]) && AnswerStands(n, s.workers[u])
  {
    assert FreshWorker(s, s.workers[u]);
    CommitKeepsFresh(lock, s, w, n, u);
    if s.workers[u].Checked? {
      CommitKeepsAnswer(lock, s, w, n, u);
    }
  }

  lemma CommitKeepsWorkers(lock: Lock, s: State, w: nat, n: State)
    requires AboutToCommit(lock, s, w) && Finishes(s, n, w, s.workers[w].job.key)
    ensures WorkersFresh(n)
  {
    forall u | u in n.workers ensures FreshWorker(n, n.workers[u]) && AnswerStands(n, n.workers[u]) {
      if u != w {
        CommitKeepsWorker(lock, s, w, n, u);
      }
    }
  }

  /** A duplicate keeps its witness, which is materialized already; the committed one has the row just found. */
  lemma WitnessSurvives(s: State, n: State, w: nat, k: Key, a: Key, v: nat, b: Key)
    requires Finishes(s, n, w, k) && !Terminal(s.execs[k].status)
    requires HasVersion(s.table, a, v) && DecisionAt(s.table, a, v).code.Eligible?
    requires Conflicts(s, a, DecisionAt(s.table, a, v), b)
    ensures HasWitness(n, a)
  {
    ConflictsElsewhere(s, n, w, k, a, DecisionAt(s.table, a, v), b);
  }

  lemma CommitKeepsWitnessed(lock: Lock, s: State, w: nat, n: State)
    requires AboutToCommit(lock, s, w) && n == Next(lock, s, Commit(w))
    ensures Witnessed(n)
  {
    CommitEffect(lock, s, w, n);
    CommitIsFresh(lock, s, w);
    var job, found := s.workers[w].job, s.workers[w].found;
    forall a | Linked(n, a) && n.execs[a].status.ExDuplicate? ensures HasWitness(n, a) {
      if a == job.key {
        WitnessSurvives(s, n, w, a, a, job.version, found.value);
      } else {
        assert Linked(s, a) && HasWitness(s, a);
        var v, b :| HasVersion(s.table, a, v) && DecisionAt(s.table, a, v).code.Eligible?
                    && Conflicts(s, a, DecisionAt(s.table, a, v), b);
        WitnessSurvives(s, n, w, job.key, a, v, b);
      }
    }
  }

  lemma CommitKeepsLogs(s: State, n: State, w: nat, worker: Worker)
    requires LogsMatch(s) && Commits(s, n, w, worker) && !Terminal(s.execs[worker.job.key].status)
    ensures LogsMatch(n)
  {
  }

  /** Where the versions of each chain share their scope, a commit keeps deduplication safe. */
  lemma CommitKeepsSafe(lock: Lock, s: State, w: nat, n: State)
    requires AboutToCommit(lock, s, w) && n == Next(lock, s, Commit(w))
    ensures Safe(n)
  {
    CommitEffect(lock, s, w, n);
    CommitIsFresh(lock, s, w);
    CommitKeepsWorkers(lock, s, w, n);
    CommitKeepsWitnessed(lock, s, w, n);
    CommitKeepsLogs(s, n, w, s.workers[w]);
  }

  // ----- the other steps -----

  lemma RereadIsFresh(s: State, n: State, worker: Worker)
    requires JobOf(worker).Some? && n.table == s.table && n.execs == s.execs
    ensures FreshWorker(n, AfterReread(s, worker.job)) && AnswerStands(n, AfterReread(s, worker.job))
  {
  }

  lemma QueryIsFresh(s: State, n: State, worker: Worker, answer: Option<Key>)
    requires FreshWorker(s, worker) && worker.Cleared? && n.table == s.table && n.execs == s.execs
    requires HasVersion(s.table, worker.job.key, worker.job.version) && QueryAnswer(s, worker.job, answer)
    ensures FreshWorker(n, Checked(worker.job, answer)) && AnswerStands(n, Checked(worker.job, answer))
  {
    var d := DecisionAt(s.table, worker.job.key, worker.job.version);
    forall r ensures Conflicts(n, worker.job.key, d, r) <==> Conflicts(s, worker.job.key, d, r) {
    }
  }

  lemma MovedWorkerIsFresh(lock: Lock, s: State, step: Step)
    requires WorkersFresh(s) && Enabled(lock, s, step) && IsWorkerStep(step) && !step.Commit?
    ensures FreshWorker(Next(lock, s, step), WorkerAfter(s, step))
            && AnswerStands(Next(lock, s, step), WorkerAfter(s, step))
  {
    var n := Next(lock, s, step);
    if step.Reread? {
      RereadIsFresh(s, n, WorkerAt(s, step.worker));
    } else if step.QueryDuplicate? {
      assert FreshWorker(s, s.workers[step.worker]);
      QueryIsFresh(s, n, s.workers[step.worker], step.answer);
    }
  }

  lemma WorkerStepKeepsSafe(lock: Lock, s: State, step: Step)
    requires Basic(lock, s) && Safe(s) && Enabled(lock, s, step) && IsWorkerStep(step) && !step.Commit?
    ensures Safe(Next(lock, s, step))
  {
    var n := Next(lock, s, step);
    StepIsCalm(lock, s, step);
    OneWorkerMoves(lock, s, step);
    MovedWorkerIsFresh(lock, s, step);
    CalmKeepsWitnessed(lock, s, n);
    CalmKeepsLogs(s, n);
    forall u | u in n.workers ensures FreshWorker(n, n.workers[u]) && AnswerStands(n, n.workers[u]) {
      if u != step.worker {
        CalmKeepsWorker(lock, s, n, s.workers[u]);
      }
    }
  }

  /** Every step keeps deduplication safe, if a re-evaluation keeps its occurrence in its scope. */
  lemma StepKeepsSafe(lock: Lock, s: State, step: Step)
    requires Basic(lock, s) && Safe(s) && StableStep(false, s, step)
    ensures Safe(Next(lock, s, step))
  {
    StepKeepsStable(false, lock, s, step);
    if !Enabled(lock, s, step) {
      return;
    }
    if step.Commit? {
      CommitKeepsSafe(lock, s, step.worker, Next(lock, s, step));
    } else if IsWorkerStep(step) {
      WorkerStepKeepsSafe(lock, s, step);
    } else {
      StepIsCalm(lock, s, step);
      CalmKeepsSafe(lock, s, Next(lock, s, step));
    }
  }
}
