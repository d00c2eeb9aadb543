/**
 * The same steps as the services write them: one method per transaction, updating rows in place. Each method
 * is proved to have exactly the effect of its step of the protocol.
 */
module ProductionStore {
  import opened Wrappers
  import opened EventCatalog
  import opened Decisions
  import opened DecisionChain
  import opened ReviewCorrection
  import opened Protocol
  import opened ProtocolSafety
  import Money

  datatype Materialization =
    | Unchanged | BecameDuplicate | BecameMaterialized(queueRequired: bool) | Failed(failure: Failure)

  /** The failures of `frozenDecision` and of the value test; without one the job may enter the transaction. */
  function FrozenFailure(t: Table, job: Job): (failure: Option<Failure>)
    requires HasVersion(t, job.key, job.version)
    ensures failure.None? <==> Materializable(t, job)
    ensures failure.Some? ==> DispositionOf(failure.value) == (ExFailed, TechPermanent)
  {
    var d := DecisionAt(t, job.key, job.version);
    if !d.code.Eligible? || !d.leadResolution.Resolved? || (job.leadId.Some? && job.leadId != LeadIdOf(d))
    then Some(FrozenMismatch)
    else if RequiresValue(d.occurrence.eventName) && (!Truthy(d.conversion.valueCents) || d.conversion.currency.None?)
    then Some(FrozenInvalid)
    else if d.occurrence.policy.None? then Some(FrozenInvalid)
    else None
  }

  /**
   * A row conflicts with a decision of a known lead that has a policy if and only if it is another materialized
   * execution, of the same scope if a frozen decision with one is linked to it, of the same phone and event if none is
   * linked, and, unless the event is to be the only one, less than the window before or after it.
   */
  lemma ConflictsExactly(s: State, k: Key, d: Decision, r: Key)
    requires d.occurrence.policy.Some? && d.leadResolution.Resolved?
    ensures Conflicts(s, k, d, r) <==>
              && r != k && r in s.execs && s.execs[r].status.ExMaterialized?
              && (if s.execs[r].decision.None? then
                    && s.execs[r].eventName == d.occurrence.eventName
                    && s.execs[r].contactHash == Some(d.leadResolution.lead.phoneHash)
                  else
                    && HasVersion(s.table, r, s.execs[r].decision.value)
                    && var linked := DecisionAt(s.table, r, s.execs[r].decision.value).occurrence.policy;
                       linked.Some? && linked.value.scopeKey == d.occurrence.policy.value.scopeKey)
              && match d.occurrence.policy.value
                 case Lifetime(_) => true
                 case RollingWindow(_, seconds) =>
                   var apart := s.execs[r].occurredAt - d.occurrence.occurredAt;
                   -(1000 * seconds) < apart < 1000 * seconds
  {
  }

  /** Only the row of `k` can have changed, and not if it was terminal. */
  ghost predicate OpenOnly(before: map<Key, Execution>, after: map<Key, Execution>, k: Key) {
    forall q :: q in before && (q != k || Terminal(before[q].status)) ==> q in after && after[q] == before[q]
  }

  /**
   * A billing or an unexpected failure leaves an execution failed and retryable, an invalid context or route leaves it
   * blocked, and any other failed for good.
   */
  predicate LeftFailed(e: Execution, f: Failure) {
    match f
    case BillingDenied | Unexpected => e.status.ExFailed? && e.technical.TechRetryable?
    case ContextInvalid | RouteUnresolved => e.status.ExBlocked? && e.technical.TechBlocked?
    case _ => e.status.ExFailed? && e.technical.TechPermanent?
  }

  /** The failure handler changes eligible and failed executions only. */
  lemma FailureLeaves(s: State, k: Key, f: Failure)
    requires k in s.execs
    ensures var n := RecordFailure(s, k, f);
            && k in n.execs && n.logs == s.logs && n.reviews == s.reviews
            && if s.execs[k].status.ExEligible? || s.execs[k].status.ExFailed?
               then LeftFailed(n.execs[k], f) else n.execs[k] == s.execs[k]
  {
  }

  /** Its second update fails a linked review that was recognized, approved or failed before. */
  lemma ReviewFailureLeaves(s: State, k: Key)
    ensures var n := RecordReviewFailure(s, k);
            && n.execs == s.execs && n.logs == s.logs
            && (k in s.reviews ==>
                  && k in n.reviews
                  && n.reviews[k].status
                     == if s.reviews[k].linked
                           && (|| s.reviews[k].status.Recognized? || s.reviews[k].status.Approved?
                               || s.reviews[k].status.FailedReview?)
                        then FailedReview else s.reviews[k].status)
  {
  }

  /** After a failure the execution is tried again if and only if the failure was of billing or unexpected. */
  lemma RetriedExactly(s: State, k: Key, f: Failure)
    requires k in s.execs && s.execs[k].decision.Some? && HasVersion(s.table, k, s.execs[k].decision.value)
    requires s.execs[k].status.ExEligible? || s.execs[k].status.ExFailed?
    ensures AfterLoad(RecordReviewFailure(RecordFailure(s, k, f), k), k).Loaded? <==> f.BillingDenied? || f.Unexpected?
  {
  }

  /** Linked to a stored version, and eligible or failed with a delivery that can be retried. */
  predicate IsDue(t: Table, execs: map<Key, Execution>, k: Key) {
    && k in execs && execs[k].decision.Some? && HasVersion(t, k, execs[k].decision.value)
    && (execs[k].status.ExEligible? || (execs[k].status.ExFailed? && execs[k].technical.TechRetryable?))
  }

  /** An eligible decision of a known lead, the one on the execution if that has one, in a scope and with its value. */
  predicate MayBeSent(d: Decision, leadId: Option<string>) {
    && d.code.Eligible? && d.leadResolution.Resolved? && (leadId.None? || leadId.value == d.leadResolution.lead.id)
    && d.occurrence.policy.Some?
    && (d.occurrence.eventName == Purchase || d.occurrence.eventName == InitiateCheckout ==>
          d.conversion.valueCents.Some? && d.conversion.valueCents.value > 0 && d.conversion.currency.Some?)
  }

  lemma DueIsLoaded(s: State, k: Key)
    ensures AfterLoad(s, k).Loaded? <==> IsDue(s.table, s.execs, k)
    ensures IsDue(s.table, s.execs, k) ==>
              && (FrozenFailure(s.table, AfterLoad(s, k).job).None? <==>
                  MayBeSent(DecisionAt(s.table, k, s.execs[k].decision.value), s.execs[k].leadId))
              && AfterReread(CountAttempt(s, k), AfterLoad(s, k).job).Cleared?
              && AfterLoad(s, k).job.reviewLinked == (k in s.reviews && s.reviews[k].linked)
              && forall d, r :: Conflicts(CountAttempt(s, k), k, d, r) <==> Conflicts(s, k, d, r)
  {
  }

  /**
   * Under the lock a worker goes on with an execution that is still eligible or failed, is done with one that is
   * materialized with its log or duplicate, and fails with any other.
   */
  lemma RereadExactly(s: State, job: Job)
    ensures var after := AfterReread(s, job);
            if job.key !in s.execs then after == Failing(job.key, StateChanged)
            else
              var e := s.execs[job.key];
              if e.status.ExEligible? || e.status.ExFailed? then after == Cleared(job)
              else if e.status.ExDuplicate? || (e.status.ExMaterialized? && e.hasLog) then after.Idle?
              else after == Failing(job.key, if e.status.ExMaterialized? then EventMissing else StateChanged)
  {
  }

  /** The log that a commit leaves: the one it found, with null columns filled, or a new one for version `v`. */
  predicate LeavesLog(before: map<Key, EventLog>, after: map<Key, EventLog>, k: Key, v: nat, d: Decision) {
    && k in after
    && if k in before then KeepsColumns(before[k], after[k])
       else && after[k].status.LogReady? && after[k].decisionVersion == Some(v) && WrittenAs(after[k], d)
            && after[k].eventName == d.occurrence.eventName && after[k].occurredAt == d.occurrence.occurredAt
  }

  lemma CommitLeaves(s: State, job: Job)
    requires HasVersion(s.table, job.key, job.version) && job.key in s.execs
    ensures var n := CommitMaterialized(s, job);
            && n.execs[job.key].status.ExMaterialized? && n.execs[job.key].hasLog
            && LeavesLog(s.logs, n.logs, job.key, job.version, DecisionAt(s.table, job.key, job.version))
            && RecordFailure(n, job.key, Unexpected) == n
            && (job.key in s.reviews ==>
                  if job.reviewLinked then
                    && n.reviews[job.key].status.Approved? && n.reviews[job.key].hasLog
                    && n.reviews[job.key].effective == LoggedValue(DecisionAt(s.table, job.key, job.version))
                    && n.reviews[job.key].version == s.reviews[job.key].version + 1
                  else n.reviews[job.key] == s.reviews[job.key])
  {
  }

  lemma DuplicateLeaves(s: State, job: Job)
    requires HasVersion(s.table, job.key, job.version) && job.key in s.execs
    ensures var n := CommitDuplicate(s, job);
            && n.execs[job.key].status.ExDuplicate? && n.logs == s.logs
            && (job.key in s.reviews ==>
                  if job.reviewLinked then
                    && n.reviews[job.key].status.DuplicateReview?
                    && n.reviews[job.key].version == s.reviews[job.key].version + 1
                  else n.reviews[job.key] == s.reviews[job.key])
  {
  }

  class Store {
    const workspaceId: string
    const table: Table
    var execs: map<Key, Execution>
    var logs: map<Key, EventLog>
    var reviews: map<Key, Review>

    /** The rows as a protocol state, with no process running. */
    function View(): State
      reads this
    {
      State(workspaceId, table, execs, logs, reviews, map[], map[], [])
    }

    constructor (workspaceId: string, table: Table)
      ensures this.workspaceId == workspaceId && this.table == table
      ensures execs == map[] && logs == map[] && reviews == map[]
    {
      this.workspaceId, this.table := workspaceId, table;
      execs, logs, reviews := map[], map[], map[];
    }

    /** `persistExecution`; the answer tells whether a row was written. */
    method PersistExecution(k: Key, v: nat, disposition: Disposition) returns (written: bool)
      requires HasVersion(table, k, v)
      modifies this`execs
      ensures View() == Protocol.PersistExecution(old(View()), k, v, disposition)
      ensures !written ==> execs == old(execs)
      ensures OpenOnly(old(execs), execs, k)
      ensures written <==>
                k in old(execs) ==>
                  && !old(execs)[k].status.ExMaterialized? && !old(execs)[k].status.ExDuplicate?
                  && !(old(execs)[k].decision == Some(v) && old(execs)[k].status == StatusOf(disposition))
      ensures written ==>
                var d := DecisionAt(table, k, v);
                && k in execs && execs[k].decision == Some(v) && execs[k].occurredAt == d.occurrence.occurredAt
                && (match disposition
                    case Observe => execs[k].status.ExObserved?
                    case MakeEligible => execs[k].status.ExEligible?
                    case Block => execs[k].status.ExBlocked?)
                && execs[k].leadId == (if d.leadResolution.Resolved? then Some(d.leadResolution.lead.id) else None)
                && execs[k].contactHash == d.occurrence.contactIdentityHash && execs[k].technical.TechNone?
                && execs[k].eventName == (if k in old(execs) then old(execs)[k].eventName else d.rule.eventName)
                && execs[k].hasLog == (k in old(execs) && old(execs)[k].hasLog)
    {
      var d := DecisionAt(table, k, v);
      if k in execs {
        var existing := execs[k];
        if Terminal(existing.status) {
          return false;
        }
        if existing.decision == Some(v) && existing.status == StatusOf(disposition) {
          return false;
        }
        execs := execs[k := existing.(status := StatusOf(disposition), decision := Some(v),
                                      occurredAt := d.occurrence.occurredAt,
                                      contactHash := d.occurrence.contactIdentityHash,
                                      leadId := LeadIdOf(d), technical := TechNone)];
      } else {
        execs := execs[k := Execution(StatusOf(disposition), Some(v), d.rule.eventName, d.occurrence.occurredAt,
                                      d.occurrence.contactIdentityHash, LeadIdOf(d), false, TechNone)];
      }
      written := true;
    }

    /** `persistReview`. */
    method PersistReview(k: Key, v: nat)
      requires HasVersion(table, k, v)
      modifies this`reviews
      ensures View() == Protocol.PersistReview(old(View()), k, v)
      ensures forall q :: q in old(reviews) && (q != k || Preserved(old(reviews)[q].status)) ==>
                q in reviews && reviews[q] == old(reviews)[q]
      ensures k in old(reviews)
                && (|| old(reviews)[k].status.Approved? || old(reviews)[k].status.SentReview?
                    || old(reviews)[k].status.DuplicateReview? || old(reviews)[k].status.Rejected?
                    || old(reviews)[k].status.CorrectedAfterSend?) ==>
                reviews == old(reviews)
      ensures k !in old(reviews) || !Preserved(old(reviews)[k].status) ==>
                var d := DecisionAt(table, k, v);
                && k in reviews && reviews[k].status.NeedsReview? && reviews[k].decision == Some(v)
                && reviews[k].version == (if k in old(reviews) then old(reviews)[k].version + 1 else 1)
                && reviews[k].lines == LinesOf(d.conversion.items) && reviews[k].effective == d.conversion.valueCents
                && reviews[k].observed == d.conversion.observedPaymentValueCents
                && reviews[k].currency == (if d.conversion.currency.Some? then d.conversion.currency.value else "BRL")
                && reviews[k].linked == (k in old(reviews) && old(reviews)[k].linked)
                && reviews[k].hasLog == (k in old(reviews) && old(reviews)[k].hasLog)
    {
      var d := DecisionAt(table, k, v);
      var row := Review(NeedsReview, 1, Some(v), false, false, LinesOf(d.conversion.items), d.conversion.valueCents,
                        d.conversion.observedPaymentValueCents,
                        if d.conversion.currency.Some? then d.conversion.currency.value else "BRL",
                        d.conversion.matchedTriggerPhrase);
      if k in reviews {
        var existing := reviews[k];
        if Preserved(existing.status) {
          return;
        }
        row := row.(version := existing.version + 1, linked := existing.linked, hasLog := existing.hasLog);
      }
      reviews := reviews[k := row];
    }

    /** `orchestrate`. */
    method Orchestrate(k: Key, v: nat, disposition: Disposition, recordIgnored: bool)
      requires HasVersion(table, k, v)
      modifies this`execs, this`reviews
      ensures View() == Protocol.Orchestrate(old(View()), k, v, disposition, recordIgnored)
      ensures var d := DecisionAt(table, k, v);
              && (d.code.Eligible? && (k in old(execs) ==> !Terminal(old(execs)[k].status)) ==>
                    k in execs && execs[k].decision == Some(v) && execs[k].status == StatusOf(disposition))
              && (d.code.ReviewRequired? && (k in old(reviews) ==> !Preserved(old(reviews)[k].status)) ==>
                    k in reviews && reviews[k].decision == Some(v) && reviews[k].status.NeedsReview?)
              && (!d.code.ReviewRequired? ==> reviews == old(reviews))
              && (d.code.ReviewRequired? || d.code.Duplicate? || d.code.IgnoredEmptyTemplate? ==> execs == old(execs))
              && (d.code.IgnoredUntrackedLead? ==>
                    if recordIgnored && d.rule.mode.Observation? && disposition.Block?
                       && (k in old(execs) ==> !Terminal(old(execs)[k].status))
                    then k in execs && execs[k].decision == Some(v) && execs[k].status.ExBlocked?
                    else execs == old(execs))
    {
      var d := DecisionAt(table, k, v);
      match d.code {
        case IgnoredUntrackedLead =>
          if recordIgnored && d.rule.mode.Observation? && disposition.Block? {
            var _ := PersistExecution(k, v, disposition);
          }
        case IgnoredEmptyTemplate =>
        case Duplicate =>
        case ReviewRequired => PersistReview(k, v);
        case Eligible =>
          var _ := PersistExecution(k, v, disposition);
      }
    }

    /** The duplicate query: any row that answers it, found by looking at one row after the other. */
    method FindDuplicate(k: Key, d: Decision) returns (found: Option<Key>)
      ensures found.Some? ==> Conflicts(View(), k, d, found.value)
      ensures found.None? ==> forall r :: !Conflicts(View(), k, d, r)
    {
      var todo := execs.Keys;
      while todo != {}
        invariant todo <= execs.Keys
        invariant forall r :: r in execs.Keys - todo ==> !Conflicts(View(), k, d, r)
        decreases todo
      {
        var r :| r in todo;
        if Conflicts(View(), k, d, r) {
          return Some(r);
        }
        todo := todo - {r};
      }
      found := None;
    }

    /** The writes when a duplicate was found. */
    method MarkDuplicate(job: Job)
      requires HasVersion(table, job.key, job.version) && job.key in execs
      modifies this`execs, this`reviews
      ensures View() == CommitDuplicate(old(View()), job)
      ensures execs[job.key].status.ExDuplicate? && execs[job.key].technical.TechSent?
      ensures job.key in old(reviews) ==>
                reviews[job.key].status == if job.reviewLinked then DuplicateReview else old(reviews)[job.key].status
    {
      var d := DecisionAt(table, job.key, job.version);
      execs := execs[job.key := execs[job.key].(status := ExDuplicate, leadId := LeadIdOf(d), technical := TechSent)];
      if job.reviewLinked && job.key in reviews {
        var review := reviews[job.key];
        reviews := reviews[job.key := review.(status := DuplicateReview, version := review.version + 1)];
      }
    }

    /** The writes when none was found: the event log, then the execution, then the review. */
    method Materialize(job: Job) returns (queueRequired: bool)
      requires HasVersion(table, job.key, job.version) && job.key in execs
      modifies this`execs, this`logs, this`reviews
      ensures View() == CommitMaterialized(old(View()), job)
      ensures job.key in logs && (queueRequired <==> logs[job.key].status.LogReady?)
      ensures forall q :: q in old(logs) ==>
                q in logs && logs[q].status == old(logs)[q].status && KeepsColumns(old(logs)[q], logs[q])
      ensures execs[job.key].status.ExMaterialized? && execs[job.key].hasLog
      ensures execs[job.key].technical == (if queueRequired then TechQueued else TechSent)
      ensures job.key !in old(logs) ==>
                && logs[job.key].status.LogReady? && logs[job.key].decisionVersion == Some(job.version)
                && WrittenAs(logs[job.key], DecisionAt(table, job.key, job.version))
      ensures job.key in old(reviews) ==>
                if job.reviewLinked
                then reviews[job.key].status.Approved? && reviews[job.key].hasLog
                else reviews[job.key] == old(reviews)[job.key]
    {
      var d := DecisionAt(table, job.key, job.version);
      var valueCents := if CarriesValue(d.occurrence.eventName) then d.conversion.valueCents else None;
      var currency := if CarriesValue(d.occurrence.eventName) then d.conversion.currency else None;
      if job.key !in logs {
        logs := logs[job.key := EventLog(LogReady, Some(job.version), d.occurrence.eventName, d.occurrence.occurredAt,
                                         valueCents, currency)];
      } else {
        var existing := logs[job.key];
        logs := logs[job.key := existing.(valueCents := OrElse(existing.valueCents, valueCents),
                                          currency := OrElse(existing.currency, currency))];
      }
      queueRequired := logs[job.key].status.LogReady?;
      execs := execs[job.key := execs[job.key].(status := ExMaterialized, leadId := LeadIdOf(d), hasLog := true,
                                                technical := if queueRequired then TechQueued else TechSent)];
      if job.reviewLinked && job.key in reviews {
        var review := reviews[job.key];
        reviews := reviews[job.key := review.(
          status := Approved, hasLog := true, effective := valueCents,
          currency := if currency.Some? then currency.value else "BRL", version := review.version + 1)];
      }
    }

    /** `materializeFrozenDecision` behind its advisory lock, run without interruption. */
    method MaterializeFrozen(job: Job) returns (result: Materialization)
      requires HasVersion(table, job.key, job.version)
      modifies this`execs, this`logs, this`reviews
      ensures match AfterReread(old(View()), job)
              case Failing(_, failure) => result == Failed(failure) && View() == old(View())
              case Idle => result.Unchanged? && View() == old(View())
              case _ =>
                && job.key in old(execs)
                && exists found :: QueryAnswer(old(View()), job, found)
                     && View() == (if found.Some? then CommitDuplicate(old(View()), job)
                                   else CommitMaterialized(old(View()), job))
                     && result == (if found.Some? then BecameDuplicate
                                   else BecameMaterialized(View().logs[job.key].status.LogReady?))
    {
      if job.key !in execs {
        return Failed(StateChanged);
      }
      var current := execs[job.key];
      if current.status.ExMaterialized? {
        if !current.hasLog {
          return Failed(EventMissing);
        }
        return Unchanged;
      }
      if current.status.ExDuplicate? {
        return Unchanged;
      }
      if !current.status.ExEligible? && !current.status.ExFailed? {
        return Failed(StateChanged);
      }
      var found := FindDuplicate(job.key, DecisionAt(table, job.key, job.version));
      assert QueryAnswer(View(), job, found);
      if found.Some? {
        MarkDuplicate(job);
        return BecameDuplicate;
      }
      var queueRequired := Materialize(job);
      result := BecameMaterialized(queueRequired);
    }

    /** The two updates of the failure handler of `processExecution`. */
    method HandleFailure(k: Key, failure: Failure)
      modifies this`execs, this`reviews
      ensures View() == RecordReviewFailure(RecordFailure(old(View()), k, failure), k)
      ensures OpenOnly(old(execs), execs, k)
      ensures forall q :: q in old(reviews) ==> q in reviews && reviews[q].lines == old(reviews)[q].lines
      ensures logs == old(logs)
    {
      if k in execs && (execs[k].status.ExEligible? || execs[k].status.ExFailed?) {
        var (status, technical) := DispositionOf(failure);
        execs := execs[k := execs[k].(status := status, technical := technical)];
      }
      if k in reviews && reviews[k].linked {
        var review := reviews[k];
        if review.status.Recognized? || review.status.Approved? || review.status.FailedReview? {
          reviews := reviews[k := review.(status := FailedReview, version := review.version + 1)];
        }
      }
    }

    /** The update that counts the attempt and marks the delivery queued. */
    method CountAttempt(k: Key)
      requires k in execs
      modifies this`execs
      ensures View() == Protocol.CountAttempt(old(View()), k)
    {
      execs := execs[k := execs[k].(technical := TechQueued)];
    }

    /**
     * `processExecution`, run without interruption. `access` and `route` are the failures that the billing test and
     * the route report, if any; `queued` tells whether the delivery queue accepts the log. An execution that is not
     * due is left alone; every failure goes through the handler, also that of the queue, after the commit.
     */
    method ProcessExecution(k: Key, access: Option<Failure>, route: Option<Failure>, queued: bool)
      returns (result: Materialization)
      modifies this`execs, this`logs, this`reviews
      ensures AfterLoad(old(View()), k).Idle? ==> result.Unchanged? && View() == old(View())
      ensures AfterLoad(old(View()), k).Loaded? ==>
                var job := AfterLoad(old(View()), k).job;
                var counted := Protocol.CountAttempt(old(View()), k);
                match OrElse(access, OrElse(FrozenFailure(table, job), route))
                case Some(f) => result == Failed(f) && View() == RecordReviewFailure(RecordFailure(counted, k, f), k)
                case None =>
                  exists found :: QueryAnswer(counted, job, found) && Processed(counted, job, found, queued, result)
      ensures !IsDue(table, old(execs), k) ==> result.Unchanged? && View() == old(View())
      ensures IsDue(table, old(execs), k) ==>
                var v := old(execs)[k].decision.value;
                var d := DecisionAt(table, k, v);
                && k in execs
                && if access.None? && MayBeSent(d, old(execs)[k].leadId) && route.None? then
                     if exists r :: Conflicts(old(View()), k, d, r) then
                       result.BecameDuplicate? && execs[k].status.ExDuplicate? && logs == old(logs)
                     else
                       && execs[k].status.ExMaterialized? && execs[k].hasLog && LeavesLog(old(logs), logs, k, v, d)
                       && result == if logs[k].status.LogReady? && !queued then Failed(Unexpected)
                                    else BecameMaterialized(logs[k].status.LogReady?)
                   else
                     && result.Failed? && LeftFailed(execs[k], result.failure) && logs == old(logs)
                     && (access.Some? ==> result.failure == access.value)
                     && (access.None? && MayBeSent(d, old(execs)[k].leadId) ==> result.failure == route.value)
    {
      DueIsLoaded(View(), k);
      var loaded := AfterLoad(View(), k);
      if !loaded.Loaded? {
        return Unchanged;
      }
      ghost var counted := Protocol.CountAttempt(View(), k);
      CommitLeaves(counted, loaded.job);
      DuplicateLeaves(counted, loaded.job);
      CountAttempt(k);
      var failure := OrElse(access, OrElse(FrozenFailure(table, loaded.job), route));
      if failure.Some? {
        FailureLeaves(View(), k, failure.value);
        ReviewFailureLeaves(RecordFailure(View(), k, failure.value), k);
        HandleFailure(k, failure.value);
        return Failed(failure.value);
      }
      result := MaterializeFrozen(loaded.job);
      if result == BecameMaterialized(true) && !queued {
        HandleFailure(k, Unexpected);
        result := Failed(Unexpected);
      }
    }

    /** How the transaction on `counted` and the queueing after it end, given the answer of the duplicate query. */
    ghost predicate Processed(counted: State, job: Job, found: Option<Key>, queued: bool, result: Materialization)
      requires HasVersion(counted.table, job.key, job.version) && job.key in counted.execs
      reads this
    {
      if found.Some? then result.BecameDuplicate? && View() == CommitDuplicate(counted, job)
      else
        var n := CommitMaterialized(counted, job);
        if n.logs[job.key].status.LogReady? && !queued
        then && result == Failed(Unexpected)
             && View() == RecordReviewFailure(RecordFailure(n, job.key, Unexpected), job.key)
        else result == BecameMaterialized(n.logs[job.key].status.LogReady?) && View() == n
    }

    /** `updateItems`; the answer is false where the service refuses. */
    method UpdateItems(k: Key, catalog: Option<Catalog>, input: seq<ItemInput>) returns (ok: bool)
      modifies this`reviews
      ensures View() == Protocol.UpdateItems(old(View()), k, catalog, input)
      ensures !ok ==> reviews == old(reviews)
      ensures forall q :: q in old(reviews) && q != k ==> q in reviews && reviews[q] == old(reviews)[q]
      ensures ok <==>
                && k in old(reviews)
                && (if old(reviews)[k].hasLog
                    then && k in logs && logs[k].status.LogSent?
                         && old(reviews)[k].effective.Some? && old(reviews)[k].effective.value != 0
                    else || old(reviews)[k].status.NeedsReview? || old(reviews)[k].status.Recognized?
                         || old(reviews)[k].status.FailedReview? || old(reviews)[k].status.Approved?)
                && catalog.Some? && catalog.value.active
                && (forall i :: 0 <= i < |input| ==> Offered(catalog.value.variants, input[i].variantId).Some?)
                && 0 < OrderTotal(catalog.value.variants, input) <= Money.MAX_SAFE_INTEGER
      ensures ok ==>
                && k in reviews && reviews[k].effective == Some(OrderTotal(catalog.value.variants, input))
                && |reviews[k].lines| == |input|
                && (forall i :: 0 <= i < |input| ==>
                      IsResolved(reviews[k].lines[i], input[i], catalog.value.variants))
                && reviews[k].status == (if old(reviews)[k].hasLog then CorrectedAfterSend else Recognized)
                && reviews[k].version == old(reviews)[k].version + 1
    {
      EditIsResolvedExactly(catalog, input);
      if k !in reviews {
        return false;
      }
      var review := reviews[k];
      var afterSend := review.hasLog && k in logs && logs[k].status.LogSent?;
      if (review.hasLog || !Actionable(review.status)) && !afterSend {
        return false;
      }
      var resolved := ResolveItems(catalog, input);
      if resolved.Err? {
        return false;
      }
      if afterSend && !Truthy(review.effective) {
        return false;
      }
      var (lines, total) := resolved.value;
      reviews := reviews[k := review.(status := if afterSend then CorrectedAfterSend else Recognized, lines := lines,
                                      effective := Some(total), version := review.version + 1)];
      ok := true;
    }

    /** `reject`. */
    method Reject(k: Key) returns (ok: bool)
      modifies this`execs, this`reviews
      ensures View() == Protocol.Reject(old(View()), k)
      ensures ok <==>
                && k in old(reviews) && !old(reviews)[k].hasLog
                && (|| old(reviews)[k].status.NeedsReview? || old(reviews)[k].status.Recognized?
                    || old(reviews)[k].status.FailedReview? || old(reviews)[k].status.Approved?)
      ensures !ok ==> View() == old(View())
      ensures OpenOnly(old(execs), execs, k)
      ensures ok ==>
                && k in reviews && reviews[k].status.Rejected?
                && (reviews[k].linked && k in execs ==> execs[k].status.ExBlocked? || Terminal(execs[k].status))
    {
      if k !in reviews || reviews[k].hasLog || !Actionable(reviews[k].status) {
        return false;
      }
      var review := reviews[k];
      reviews := reviews[k := review.(status := Rejected, version := review.version + 1)];
      if review.linked && k in execs && !Terminal(execs[k].status) {
        execs := execs[k := execs[k].(status := ExBlocked)];
      }
      ok := true;
    }
  }
}
