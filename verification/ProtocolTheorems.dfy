/**
 * Deduplication over whole runs. The first theorems hold of every run; the others of every run in which a
 * re-evaluation keeps its occurrence in its scope, a condition on the decisions that are frozen.
 */
module ProtocolTheorems {
  import opened Wrappers
  import opened EventCatalog
  import opened Decisions
  import opened DecisionChain
  import opened Protocol
  import opened ProtocolBasics
  import opened ProtocolSafety
  import opened ProtocolSteps
  import opened ProtocolCommit

  /**
   * A workspace before its first frozen decision: rows written by the older path may exist, with a log of no
   * version exactly for the materialized ones; no process is running.
   */
  ghost predicate Init(s: State) {
    && s.table == map[] && s.workers == map[] && s.approvers == map[] && s.approvals == []
    && (forall k :: k in s.execs ==> s.execs[k].decision.None?)
    && (forall k :: k in s.execs ==> (s.execs[k].hasLog <==> s.execs[k].status.ExMaterialized?))
    && (forall k :: k in s.logs <==> k in s.execs && s.execs[k].status.ExMaterialized?)
    && (forall k :: k in s.logs ==> s.logs[k].decisionVersion.None?)
    && (forall k :: k in s.reviews ==> ReviewValueOk(s.reviews[k]) && (s.reviews[k].linked ==> k in s.execs))
  }

  lemma InitIsSafe(lock: Lock, s: State)
    requires Init(s)
    ensures Basic(lock, s) && LogsRecorded(s) && Safe(s) && Stable(true, s.table)
  {
  }

  // ----- every run -----

  /** Every run keeps the basic invariants, and each log was written for an eligible version. */
  lemma {:induction false} RunKeepsBasic(lock: Lock, s: State, steps: seq<Step>)
    requires Basic(lock, s) && LogsRecorded(s)
    ensures Basic(lock, After(lock, s, steps)) && LogsRecorded(After(lock, s, steps))
    decreases |steps|
  {
    if steps != [] {
      StepKeepsBasic(lock, s, steps[0]);
      StepKeepsRecorded(lock, s, steps[0]);
      RunKeepsBasic(lock, Next(lock, s, steps[0]), steps[1..]);
    }
  }

  /** No commit of the run fills a column that is null in the log of `k`. */
  ghost predicate NeverFilled(lock: Lock, s: State, steps: seq<Step>, k: Key)
    decreases |steps|
  {
    steps != [] ==> !FillsLog(lock, s, steps[0], k) && NeverFilled(lock, Next(lock, s, steps[0]), steps[1..], k)
  }

  /**
   * Along every run a log is never dropped, and no column of it but the delivery status is ever overwritten. Its
   * content stays the same if and only if no commit fills a null column.
   */
  lemma {:induction false} LogsAreFinal(lock: Lock, s: State, steps: seq<Step>, k: Key)
    requires Basic(lock, s) && k in s.logs
    ensures k in After(lock, s, steps).logs && KeepsColumns(s.logs[k], After(lock, s, steps).logs[k])
    ensures SameContent(s.logs[k], After(lock, s, steps).logs[k]) <==> NeverFilled(lock, s, steps, k)
    decreases |steps|
  {
    if steps != [] {
      StepKeepsBasic(lock, s, steps[0]);
      StepKeepsLogExactly(lock, s, steps[0], k);
      LogsAreFinal(lock, Next(lock, s, steps[0]), steps[1..], k);
    }
  }

  /** The log of `k`, if it was written for a version, carries that version's value and currency. */
  ghost predicate AsFrozen(s: State, k: Key) {
    Logged(s, k) ==> WrittenAs(s.logs[k], LoggedDecision(s, k))
  }

  lemma CommitAsFrozen(s: State, n: State, w: nat, worker: Worker, k: Key)
    requires Commits(s, n, w, worker) && JobOk(s, worker.job) && (k in s.logs ==> Recorded(s, k))
    ensures AsFrozen(n, k) <==>
            AsFrozen(s, k) && !(worker.job.key == k && worker.found.None? && k in s.logs
                                && Fills(s.logs[k], DecisionAt(s.table, worker.job.key, worker.job.version)))
  {
  }

  lemma CalmAsFrozen(s: State, n: State, k: Key)
    requires Calm(s, n) && LogsRecorded(s)
    ensures AsFrozen(n, k) <==> AsFrozen(s, k)
  {
    CalmKeepsRecorded(s, n);
    assert k in s.logs.Keys <==> k in n.logs.Keys;
    assert k in s.logs ==> SameContent(s.logs[k], n.logs[k]);
  }

  lemma StepAsFrozen(lock: Lock, s: State, step: Step, k: Key)
    requires Basic(lock, s) && LogsRecorded(s)
    ensures AsFrozen(Next(lock, s, step), k) <==> AsFrozen(s, k) && !FillsLog(lock, s, step, k)
  {
    var n := Next(lock, s, step);
    if !step.Commit? {
      StepIsCalm(lock, s, step);
      CalmAsFrozen(s, n, k);
    } else if Enabled(lock, s, step) {
      var worker := s.workers[step.worker];
      CommitEffect(lock, s, step.worker, n);
      assert JobOk(s, worker.job);
      CommitAsFrozen(s, n, step.worker, worker, k);
    }
  }

  lemma {:induction false} RunAsFrozen(lock: Lock, s: State, steps: seq<Step>, k: Key)
    requires Basic(lock, s) && LogsRecorded(s)
    ensures AsFrozen(After(lock, s, steps), k) <==> AsFrozen(s, k) && NeverFilled(lock, s, steps, k)
    decreases |steps|
  {
    if steps != [] {
      StepKeepsBasic(lock, s, steps[0]);
      StepKeepsRecorded(lock, s, steps[0]);
      StepAsFrozen(lock, s, steps[0], k);
      RunAsFrozen(lock, Next(lock, s, steps[0]), steps[1..], k);
    }
  }

  /**
   * Along every run, the log of a frozen execution names an eligible version of its own chain and has its event and
   * time. A value or currency of that version is on the log, for a catalog decision the sum of quantity times unit
   * price; any other is that of another eligible version. The log is exactly as that version has it if and only if no
   * commit ever filled a null column.
   */
  lemma LoggedValueExactly(lock: Lock, init: State, steps: seq<Step>, k: Key)
    requires Init(init)
    requires var s := After(lock, init, steps); k in s.logs && Linked(s, k)
    ensures var s := After(lock, init, steps);
            && Supplied(s.table, k, s.logs[k])
            && exists v :: s.logs[k].decisionVersion == Some(v) && HasVersion(s.table, k, v) &&
                 var d := DecisionAt(s.table, k, v);
                 && d.code.Eligible?
                 && d.occurrence.eventName == s.logs[k].eventName && d.occurrence.occurredAt == s.logs[k].occurredAt
                 && (LoggedValue(d).Some? ==> s.logs[k].valueCents == LoggedValue(d))
                 && (LoggedCurrency(d).Some? ==> s.logs[k].currency == LoggedCurrency(d))
                 && (CarriesValue(s.logs[k].eventName) && d.rule.triggerType.StructuredCatalog? ==>
                       && d.conversion.items != [] && Priced(d.conversion.items)
                       && s.logs[k].valueCents == Some(Total(d.conversion.items)))
                 && (WrittenAs(s.logs[k], d) <==> NeverFilled(lock, init, steps, k))
  {
    InitIsSafe(lock, init);
    RunKeepsBasic(lock, init, steps);
    RunAsFrozen(lock, init, steps, k);
    var s := After(lock, init, steps);
    assert Recorded(s, k) && Logged(s, k);
    var v := s.logs[k].decisionVersion.value;
    assert Issued(DecisionAt(s.table, k, v));
  }

  /** Along every run a purchase or a checkout of a frozen execution is logged with a positive value and a currency. */
  lemma RequiredValueIsLogged(lock: Lock, init: State, steps: seq<Step>, k: Key)
    requires Init(init)
    requires var s := After(lock, init, steps); k in s.logs && Linked(s, k)
    ensures var l := After(lock, init, steps).logs[k];
            l.eventName == Purchase || l.eventName == InitiateCheckout ==>
              l.valueCents.Some? && l.valueCents.value > 0 && l.currency.Some?
  {
    InitIsSafe(lock, init);
    RunKeepsBasic(lock, init, steps);
    assert Recorded(After(lock, init, steps), k);
  }

  /** A row keeps everything but the state of its delivery, and its log, if any, but for the delivery status. */
  ghost predicate Kept(s: State, n: State, k: Key) {
    && k in s.execs && k in n.execs && SameCore(s.execs[k], n.execs[k])
    && (k in s.logs <==> k in n.logs)
    && (k in s.logs ==> SameContent(s.logs[k], n.logs[k]))
  }

  /**
   * Whatever happened before, a commit leaves the terminal execution it finds alone if and only if the answer
   * of its duplicate query agrees with the status and the log it overwrites, its decision names the same lead and it
   * fills no null column of the log.
   */
  lemma CommitKeepsTerminalExactly(lock: Lock, s: State, w: nat)
    requires Enabled(lock, s, Commit(w)) && Terminal(s.execs[WorkerAt(s, w).job.key].status)
    ensures var job, found := WorkerAt(s, w).job, WorkerAt(s, w).found;
            var row := s.execs[job.key];
            Kept(s, Next(lock, s, Commit(w)), job.key) <==>
              && row.leadId == LeadIdOf(DecisionAt(s.table, job.key, job.version))
              && if found.Some? then row.status.ExDuplicate?
                 else && row.status.ExMaterialized? && row.hasLog && job.key in s.logs
                      && !Fills(s.logs[job.key], DecisionAt(s.table, job.key, job.version))
  {
  }

  /** Another execution than `k` is a witness for `a`. */
  ghost predicate HasWitnessBut(s: State, a: Key, k: Key) {
    exists v, b :: HasVersion(s.table, a, v) && DecisionAt(s.table, a, v).code.Eligible?
                   && b != k && Conflicts(s, a, DecisionAt(s.table, a, v), b)
  }

  /** Whatever happened before, marking `k` a duplicate leaves `a` a witness if and only if it has another one. */
  lemma DuplicateCommitWitnessesExactly(lock: Lock, s: State, w: nat, a: Key)
    requires Enabled(lock, s, Commit(w)) && WorkerAt(s, w).found.Some?
    ensures HasWitness(Next(lock, s, Commit(w)), a) <==> HasWitnessBut(s, a, WorkerAt(s, w).job.key)
  {
    var n, k := Next(lock, s, Commit(w)), WorkerAt(s, w).job.key;
    CommitEffect(lock, s, w, n);
    forall v, b | HasVersion(s.table, a, v)
      ensures Conflicts(n, a, DecisionAt(s.table, a, v), b) <==> b != k && Conflicts(s, a, DecisionAt(s.table, a, v), b)
    {
      if b != k {
        ConflictsElsewhere(s, n, w, k, a, DecisionAt(s.table, a, v), b);
      }
    }
  }

  // ----- runs that keep the scope of an occurrence -----

  /** Every run in which re-evaluations stay in the scope of their occurrence keeps deduplication safe. */
  lemma {:induction false} RunKeepsSafe(lock: Lock, s: State, steps: seq<Step>)
    requires Basic(lock, s) && Safe(s) && StableRun(false, lock, s, steps)
    ensures Basic(lock, After(lock, s, steps)) && Safe(After(lock, s, steps))
    decreases |steps|
  {
    if steps != [] {
      StepKeepsBasic(lock, s, steps[0]);
      StepKeepsSafe(lock, s, steps[0]);
      RunKeepsSafe(lock, Next(lock, s, steps[0]), steps[1..]);
    }
  }

  /** Each duplicate still has a materialized execution in the scope and window of an eligible version of it. */
  lemma DuplicatesAreWitnessed(lock: Lock, init: State, steps: seq<Step>, k: Key)
    requires Init(init) && StableRun(false, lock, init, steps)
    requires var s := After(lock, init, steps); Linked(s, k) && s.execs[k].status.ExDuplicate?
    ensures HasWitness(After(lock, init, steps), k)
  {
    InitIsSafe(lock, init);
    RunKeepsSafe(lock, init, steps);
  }

  /** An execution is materialized exactly when the event log with its key exists. */
  lemma LogsMatchMaterialized(lock: Lock, init: State, steps: seq<Step>, k: Key)
    requires Init(init) && StableRun(false, lock, init, steps)
    ensures var s := After(lock, init, steps);
            && (k in s.logs <==> k in s.execs && s.execs[k].status.ExMaterialized?)
            && (k in s.execs ==> (s.execs[k].hasLog <==> k in s.logs))
  {
    InitIsSafe(lock, init);
    RunKeepsSafe(lock, init, steps);
  }

  /** A commit never meets a log of its own execution. */
  lemma {:induction false} LogsAreNeverFilled(lock: Lock, s: State, steps: seq<Step>, k: Key)
    requires Basic(lock, s) && Safe(s) && StableRun(false, lock, s, steps)
    ensures NeverFilled(lock, s, steps, k)
    decreases |steps|
  {
    if steps != [] {
      if steps[0].Commit? && Enabled(lock, s, steps[0]) {
        CommitIsFresh(lock, s, steps[0].worker);
      }
      StepKeepsBasic(lock, s, steps[0]);
      StepKeepsSafe(lock, s, steps[0]);
      LogsAreNeverFilled(lock, Next(lock, s, steps[0]), steps[1..], k);
    }
  }

  /**
   * The value on the log of a frozen execution is that of an eligible decision of its own chain, for a catalog
   * decision the sum of quantity times unit price over its items, and absent for an event without value.
   */
  lemma LoggedValueIsConserved(lock: Lock, init: State, steps: seq<Step>, k: Key)
    requires Init(init) && StableRun(false, lock, init, steps)
    requires var s := After(lock, init, steps); k in s.logs && Linked(s, k)
    ensures var s := After(lock, init, steps);
            exists v :: s.logs[k].decisionVersion == Some(v) && HasVersion(s.table, k, v) &&
              var d := DecisionAt(s.table, k, v);
              && d.code.Eligible?
              && d.occurrence.eventName == s.logs[k].eventName && d.occurrence.occurredAt == s.logs[k].occurredAt
              && (CarriesValue(s.logs[k].eventName) ==> s.logs[k].valueCents == d.conversion.valueCents)
              && (CarriesValue(s.logs[k].eventName) && d.rule.triggerType.StructuredCatalog? ==>
                    && d.conversion.items != [] && Priced(d.conversion.items)
                    && s.logs[k].valueCents == Some(Total(d.conversion.items)))
              && (!CarriesValue(s.logs[k].eventName) ==> s.logs[k].valueCents == None && s.logs[k].currency == None)
  {
    InitIsSafe(lock, init);
    LogsAreNeverFilled(lock, init, steps, k);
    LoggedValueExactly(lock, init, steps, k);
  }

  lemma CommitKeepsOthers(lock: Lock, s: State, w: nat, k: Key)
    requires AboutToCommit(lock, s, w) && k in s.execs && Terminal(s.execs[k].status)
    ensures Kept(s, Next(lock, s, Commit(w)), k)
  {
    CommitEffect(lock, s, w, Next(lock, s, Commit(w)));
    CommitIsFresh(lock, s, w);
  }

  lemma StepKeepsTerminal(lock: Lock, s: State, step: Step, k: Key)
    requires Basic(lock, s) && Safe(s)
    requires k in s.execs && Terminal(s.execs[k].status)
    ensures Kept(s, Next(lock, s, step), k)
  {
    if step.Commit? {
      if Enabled(lock, s, step) {
        CommitKeepsOthers(lock, s, step.worker, k);
      }
    } else {
      StepIsCalm(lock, s, step);
      assert Next(lock, s, step).logs.Keys == s.logs.Keys;
    }
  }

  /** Once materialized or duplicate, an execution keeps its status, link, lead and log for ever. */
  lemma {:induction false} TerminalIsFinal(lock: Lock, s: State, steps: seq<Step>, k: Key)
    requires Basic(lock, s) && Safe(s) && StableRun(false, lock, s, steps)
    requires k in s.execs && Terminal(s.execs[k].status)
    ensures Kept(s, After(lock, s, steps), k)
    decreases |steps|
  {
    if steps != [] {
      StepKeepsBasic(lock, s, steps[0]);
      StepKeepsSafe(lock, s, steps[0]);
      StepKeepsTerminal(lock, s, steps[0], k);
      TerminalIsFinal(lock, Next(lock, s, steps[0]), steps[1..], k);
    }
  }
}
