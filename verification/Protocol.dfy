/**
 * The provider-conversion protocol as a transition system: decisions are frozen, orchestrated into an
 * execution or a review, and materialized by workers that may interleave, retry, fail or crash at any point.
 * One state holds the tables of one workspace; a row is identified by its (rule, occurrence) key.
 */
module Protocol {
  import opened Wrappers
  import opened EventCatalog
  import opened Decisions
  import opened DecisionChain
  import opened ReviewCorrection
  import Text

  // ----- tables -----

  datatype ExecStatus = ExObserved | ExEligible | ExBlocked | ExFailed | ExMaterialized | ExDuplicate

  /** `normalizedResult.technicalDelivery.state`; the retryable flag is set exactly for TechRetryable. */
  datatype Technical = TechNone | TechQueued | TechSent | TechBlocked | TechRetryable | TechPermanent

  /**
   * An execution row. `decision` is the version of its chain the row is linked to (None for rows written
   * before decisions were frozen); `eventName` is the event of its rule; `hasLog` tells that
   * conversionEventLogId is set, to the log keyed by this execution.
   */
  datatype Execution = Execution(
    status: ExecStatus,
    decision: Option<nat>,
    eventName: EventName,
    occurredAt: int,
    contactHash: Option<string>,
    leadId: Option<string>,
    hasLog: bool,
    technical: Technical)

  datatype LogStatus = LogReady | LogSent | LogFailed

  /** The event log with dedupe key `provider-conversion:<execution id>`. */
  datatype EventLog = EventLog(
    status: LogStatus,
    decisionVersion: Option<nat>,
    eventName: EventName,
    occurredAt: int,
    valueCents: Option<nat>,
    currency: Option<string>)

  datatype ReviewStatus =
    | Recognized | AwaitingReview | NeedsReview | Approved | SentReview
    | DuplicateReview | Rejected | FailedReview | CorrectedAfterSend

  /** A purchase review; `linked` tells that providerExecutionId is set, to the execution of the same key. */
  datatype Review = Review(
    status: ReviewStatus,
    version: nat,
    decision: Option<nat>,
    linked: bool,
    hasLog: bool,
    lines: seq<ReviewItem>,
    effective: Option<nat>,
    observed: Option<nat>,
    currency: string,
    phrase: Option<string>)

  // ----- workers -----

  datatype Failure =
    | BillingDenied | ContextInvalid | RouteUnresolved | Unexpected
    | FrozenMismatch | FrozenInvalid | StateChanged | EventMissing

  /** What a worker read before taking the lock: the execution row, its decision and its review link. */
  datatype Job = Job(key: Key, version: nat, leadId: Option<string>, reviewLinked: bool)

  datatype Worker =
    | Idle
    | Loaded(job: Job)
    | Attempted(job: Job)
    | Locked(job: Job)
    | Cleared(job: Job)
    | Checked(job: Job, found: Option<Key>)
    | Enqueuing(key: Key)
    | Failing(key: Key, failure: Failure)
    | FailingReview(key: Key, failure: Failure)

  datatype Approver =
    | Resting
    | Reading(key: Key, review: Review, ctx: ApprovalContext)
    | WithLatest(key: Key, review: Review, latest: nat, own: bool, corrected: Result<Decision, CorrectionError>)
    | Persisted(key: Key, review: Review, version: nat)
    | Orchestrated(key: Key, review: Review, version: nat)
    | ClaimLost(key: Key, version: nat)
    | Granted(key: Key)
    | Refused

  datatype State = State(
    workspaceId: string,
    table: Table,
    execs: map<Key, Execution>,
    logs: map<Key, EventLog>,
    reviews: map<Key, Review>,
    workers: map<nat, Worker>,
    approvers: map<nat, Approver>,
    approvals: seq<(Key, nat)>)

  function WorkerAt(s: State, w: nat): Worker {
    if w in s.workers then s.workers[w] else Idle
  }

  function ApproverAt(s: State, a: nat): Approver {
    if a in s.approvers then s.approvers[a] else Resting
  }

  predicate HasVersion(t: Table, k: Key, v: nat) {
    k in t && 1 <= v <= |t[k]|
  }

  function DecisionAt(t: Table, k: Key, v: nat): Decision
    requires HasVersion(t, k, v)
  {
    t[k][v - 1].decision
  }

  // ----- the duplicate query -----

  predicate WithinWindow(policy: DedupePolicy, here: int, there: int) {
    policy.RollingWindow? ==>
      here - policy.windowSeconds * 1000 < there < here + policy.windowSeconds * 1000
  }

  /** Row `r` answers the duplicate query run for execution `self` with decision `d`. */
  predicate Conflicts(s: State, self: Key, d: Decision, r: Key) {
    && r != self && r in s.execs && s.execs[r].status.ExMaterialized?
    && d.occurrence.policy.Some? && d.leadResolution.Resolved?
    && (match s.execs[r].decision
        case Some(v) =>
          && HasVersion(s.table, r, v)
          && DecisionAt(s.table, r, v).occurrence.policy.Some?
          && DecisionAt(s.table, r, v).occurrence.policy.value.scopeKey == d.occurrence.policy.value.scopeKey
        case None =>
          && s.execs[r].contactHash == Some(d.leadResolution.lead.phoneHash)
          && s.execs[r].eventName == d.occurrence.eventName)
    && WithinWindow(d.occurrence.policy.value, d.occurrence.occurredAt, s.execs[r].occurredAt)
  }

  // ----- orchestration -----

  datatype Disposition = Observe | MakeEligible | Block

  function StatusOf(d: Disposition): ExecStatus {
    match d
    case Observe => ExObserved
    case MakeEligible => ExEligible
    case Block => ExBlocked
  }

  predicate Terminal(status: ExecStatus) {
    status.ExMaterialized? || status.ExDuplicate?
  }

  function LeadIdOf(d: Decision): Option<string> {
    if d.leadResolution.Resolved? then Some(d.leadResolution.lead.id) else None
  }

  /** `persistExecution`. */
  function PersistExecution(s: State, k: Key, v: nat, disposition: Disposition): State
    requires HasVersion(s.table, k, v)
  {
    var d := DecisionAt(s.table, k, v);
    var status := StatusOf(disposition);
    if k in s.execs && Terminal(s.execs[k].status) then s
    else if k in s.execs && s.execs[k].decision == Some(v) && s.execs[k].status == status then s
    else
      var row := Execution(
        status, Some(v),
        if k in s.execs then s.execs[k].eventName else d.rule.eventName,
        d.occurrence.occurredAt, d.occurrence.contactIdentityHash, LeadIdOf(d),
        k in s.execs && s.execs[k].hasLog, TechNone);
      s.(execs := s.execs[k := row])
  }

  predicate Preserved(status: ReviewStatus) {
    status.Approved? || status.SentReview? || status.DuplicateReview? || status.Rejected? || status.CorrectedAfterSend?
  }

  /** `persistReview`. */
  function PersistReview(s: State, k: Key, v: nat): State
    requires HasVersion(s.table, k, v)
  {
    var d := DecisionAt(s.table, k, v);
    if k in s.reviews && Preserved(s.reviews[k].status) then s
    else
      var known := k in s.reviews;
      var row := Review(
        NeedsReview, if known then s.reviews[k].version + 1 else 1, Some(v),
        known && s.reviews[k].linked, known && s.reviews[k].hasLog,
        LinesOf(d.conversion.items), d.conversion.valueCents, d.conversion.observedPaymentValueCents,
        if d.conversion.currency.Some? then d.conversion.currency.value else "BRL",
        d.conversion.matchedTriggerPhrase);
      s.(reviews := s.reviews[k := row])
  }

  /** `orchestrate`, for a stored version of any chain. */
  function Orchestrate(s: State, k: Key, v: nat, disposition: Disposition, recordIgnored: bool): State
    requires HasVersion(s.table, k, v)
  {
    var d := DecisionAt(s.table, k, v);
    match d.code
    case IgnoredUntrackedLead =>
      if recordIgnored && d.rule.mode.Observation? && disposition.Block?
      then PersistExecution(s, k, v, disposition) else s
    case IgnoredEmptyTemplate => s
    case Duplicate => s
    case ReviewRequired => PersistReview(s, k, v)
    case Eligible => PersistExecution(s, k, v, disposition)
  }

  // ----- materialization -----

  /** `frozenDecision` and the value and policy test before the route is resolved. */
  predicate Materializable(t: Table, job: Job)
    requires HasVersion(t, job.key, job.version)
  {
    var d := DecisionAt(t, job.key, job.version);
    && d.code.Eligible? && d.leadResolution.Resolved?
    && (job.leadId.None? || job.leadId == LeadIdOf(d))
    && d.occurrence.policy.Some?
    && (RequiresValue(d.occurrence.eventName) ==> Truthy(d.conversion.valueCents) && d.conversion.currency.Some?)
  }

  predicate InTransaction(w: Worker) {
    w.Locked? || w.Cleared? || w.Checked?
  }

  /** The advisory lock of a job: any function of the scope key and the event, collisions included. */
  function LockOf(lock: (string, EventName) -> int, t: Table, job: Job): int
    requires HasVersion(t, job.key, job.version)
  {
    var d := DecisionAt(t, job.key, job.version);
    lock(if d.occurrence.policy.Some? then d.occurrence.policy.value.scopeKey else "", d.occurrence.eventName)
  }

  function LoggedValue(d: Decision): Option<nat> {
    if CarriesValue(d.occurrence.eventName) then d.conversion.valueCents else None
  }

  function LoggedCurrency(d: Decision): Option<string> {
    if CarriesValue(d.occurrence.eventName) then d.conversion.currency else None
  }

  /** The writes of the transaction when the duplicate query found `r`. */
  function CommitDuplicate(s: State, job: Job): State
    requires HasVersion(s.table, job.key, job.version) && job.key in s.execs
  {
    var d := DecisionAt(s.table, job.key, job.version);
    var k := job.key;
    var s1 := s.(execs := s.execs[k := s.execs[k].(status := ExDuplicate, leadId := LeadIdOf(d),
                                                   technical := TechSent)]);
    if job.reviewLinked && k in s.reviews
    then s1.(reviews := s.reviews[k := s.reviews[k].(status := DuplicateReview, version := s.reviews[k].version + 1)])
    else s1
  }

  /** `reconcileExistingExternalConversion`: a column keeps its value unless that is null. */
  function MergedLog(existing: EventLog, added: EventLog): EventLog {
    existing.(valueCents := OrElse(existing.valueCents, added.valueCents),
              currency := OrElse(existing.currency, added.currency))
  }

  /** The log a worker records for its job. */
  function LogOf(t: Table, job: Job): EventLog
    requires HasVersion(t, job.key, job.version)
  {
    var d := DecisionAt(t, job.key, job.version);
    EventLog(LogReady, Some(job.version), d.occurrence.eventName, d.occurrence.occurredAt, LoggedValue(d),
             LoggedCurrency(d))
  }

  /** The writes of the transaction when the duplicate query found nothing: the log is created or merged into. */
  function CommitMaterialized(s: State, job: Job): State
    requires HasVersion(s.table, job.key, job.version) && job.key in s.execs
  {
    var d := DecisionAt(s.table, job.key, job.version);
    var k := job.key;
    var log := LogOf(s.table, job);
    var technical := if k in s.logs && !s.logs[k].status.LogReady? then TechSent else TechQueued;
    var s1 := s.(execs := s.execs[k := s.execs[k].(status := ExMaterialized, leadId := LeadIdOf(d), hasLog := true,
                                                   technical := technical)],
                 logs := s.logs[k := if k in s.logs then MergedLog(s.logs[k], log) else log]);
    if job.reviewLinked && k in s.reviews
    then s1.(reviews := s.reviews[k := s.reviews[k].(
               status := Approved, hasLog := true, effective := LoggedValue(d),
               currency := if LoggedCurrency(d).Some? then LoggedCurrency(d).value else "BRL",
               version := s.reviews[k].version + 1)])
    else s1
  }

  /** `failureDisposition`. */
  function DispositionOf(f: Failure): (ExecStatus, Technical) {
    match f
    case BillingDenied => (ExFailed, TechRetryable)
    case ContextInvalid => (ExBlocked, TechBlocked)
    case RouteUnresolved => (ExBlocked, TechBlocked)
    case Unexpected => (ExFailed, TechRetryable)
    case _ => (ExFailed, TechPermanent)
  }

  // ----- deliveries and operators -----

  datatype SendOutcome = SendOk | SendNotConfigured | SendNetworkError | SendRejected

  function TechnicalOf(o: SendOutcome): Technical {
    match o
    case SendOk => TechSent
    case SendNotConfigured => TechBlocked
    case SendNetworkError => TechRetryable
    case SendRejected => TechPermanent
  }

  /** `syncProviderConversionDelivery`. */
  function DeliverToExecution(s: State, k: Key, o: SendOutcome): State {
    if k in s.execs && s.execs[k].hasLog
    then s.(execs := s.execs[k := s.execs[k].(technical := TechnicalOf(o))]) else s
  }

  function DeliverToReview(s: State, k: Key, o: SendOutcome): State {
    if k in s.reviews && s.reviews[k].hasLog && (s.reviews[k].status.Approved? || s.reviews[k].status.FailedReview?)
    then s.(reviews := s.reviews[k := s.reviews[k].(
              status := if o.SendOk? then SentReview else FailedReview, version := s.reviews[k].version + 1)])
    else s
  }

  /** The status steps of `sendReadyEvent` for the log of `k`. */
  function Deliver(s: State, k: Key, o: SendOutcome): State {
    if k !in s.logs || !s.logs[k].status.LogReady? then s
    else
      var s1 := s.(logs := s.logs[k := s.logs[k].(status := if o.SendOk? then LogSent else LogFailed)]);
      DeliverToReview(DeliverToExecution(s1, k, o), k, o)
  }

  predicate Actionable(status: ReviewStatus) {
    status.NeedsReview? || status.Recognized? || status.FailedReview? || status.Approved?
  }

  /** `updateItems`. */
  function UpdateItems(s: State, k: Key, catalog: Option<Catalog>, input: seq<ItemInput>): State {
    if k !in s.reviews then s
    else
      var review := s.reviews[k];
      var afterSend := review.hasLog && k in s.logs && s.logs[k].status.LogSent?;
      if (review.hasLog || !Actionable(review.status)) && !afterSend then s
      else
        match ResolveItems(catalog, input)
        case Err(_) => s
        case Ok((lines, total)) =>
          if afterSend && !Truthy(review.effective) then s
          else s.(reviews := s.reviews[k := review.(
                    status := if afterSend then CorrectedAfterSend else Recognized,
                    lines := lines, effective := Some(total), version := review.version + 1)])
  }

  /** `reject`. */
  function Reject(s: State, k: Key): State {
    if k !in s.reviews || s.reviews[k].hasLog || !Actionable(s.reviews[k].status) then s
    else
      var s1 := s.(reviews := s.reviews[k := s.reviews[k].(status := Rejected, version := s.reviews[k].version + 1)]);
      if s.reviews[k].linked && k in s.execs && !Terminal(s.execs[k].status)
      then s1.(execs := s.execs[k := s.execs[k].(status := ExBlocked)])
      else s1
  }

  // ----- approval -----

  function Approvable(status: ReviewStatus): bool {
    status.Recognized? || status.AwaitingReview? || status.NeedsReview? || status.FailedReview? || status.Approved?
  }

  /** "purchase-review:<id>:approval:<version>"; the review is identified by its key. */
  function ApprovalRequestKey(k: Key, reviewVersion: nat): string {
    "purchase-review:" + k.rule + ":" + k.occurrence + ":approval:" + Text.Digits(reviewVersion)
  }

  function ApprovalEvaluationKey(k: Key, reviewVersion: nat): EvaluationKey {
    Reevaluation(Text.Trim(ApprovalRequestKey(k, reviewVersion)))
  }

  /** The first reads of `prepareApproval`, with its early answers. */
  function ReadReview(s: State, k: Key, ctx: ApprovalContext): Approver {
    if k !in s.reviews || s.reviews[k].decision.None? then Resting
    else
      var review := s.reviews[k];
      if review.linked && (review.status.Approved? || review.hasLog) then Granted(k)
      else if && review.status.FailedReview? && review.linked && k in s.execs && s.execs[k].status.ExFailed?
              && s.execs[k].decision == review.decision && s.execs[k].technical.TechRetryable? then Granted(k)
      else if || review.hasLog || !Approvable(review.status) || !ctx.productionReady
              || !LinesApprovable(ctx.rule, review.lines, review.effective) then Refused
      else Reading(k, review, ctx)
  }

  function ApprovalRequest(k: Key, review: Review, d: Decision, latest: nat, delivery: string): Request {
    AppendReevaluation(d, delivery, AuditId(k, latest), ApprovalRequestKey(k, review.version))
  }

  // ----- steps -----

  datatype Step =
    | Freeze(request: Request)
    | OrchestrateStep(key: Key, version: nat, disposition: Disposition, recordIgnored: bool)
    | Load(worker: nat, key: Key)
    | Attempt(worker: nat)
    | FailBeforeLock(worker: nat, failure: Failure)
    | TakeLock(worker: nat)
    | Reread(worker: nat)
    | QueryDuplicate(worker: nat, answer: Option<Key>)
    | Commit(worker: nat)
    | Enqueue(worker: nat, accepted: bool)
    | Abort(worker: nat)
    | HandleExecution(worker: nat)
    | HandleReview(worker: nat)
    | Crash(worker: nat)
    | DeliverStep(key: Key, outcome: SendOutcome)
    | UpdateItemsStep(key: Key, catalog: Option<Catalog>, input: seq<ItemInput>)
    | RejectStep(key: Key)
    | ApprovalRead(approver: nat, key: Key, ctx: ApprovalContext)
    | ApprovalFindLatest(approver: nat)
    | ApprovalAppend(approver: nat, delivery: string)
    | ApprovalOrchestrate(approver: nat)
    | ApprovalClaim(approver: nat)
    | ApprovalRecheck(approver: nat)

  function SetWorker(s: State, w: nat, worker: Worker): State {
    s.(workers := s.workers[w := worker])
  }

  function SetApprover(s: State, a: nat, approver: Approver): State {
    s.(approvers := s.approvers[a := approver])
  }

  /** What a worker that has just read execution `k` does next. */
  function AfterLoad(s: State, k: Key): Worker {
    if k !in s.execs || s.execs[k].decision.None? || !HasVersion(s.table, k, s.execs[k].decision.value) then Idle
    else
      var e := s.execs[k];
      if e.status.ExEligible? || (e.status.ExFailed? && e.technical.TechRetryable?)
      then Loaded(Job(k, e.decision.value, e.leadId, k in s.reviews && s.reviews[k].linked))
      else Idle
  }

  function AfterReread(s: State, job: Job): Worker {
    if job.key !in s.execs then Failing(job.key, StateChanged)
    else
      var e := s.execs[job.key];
      match e.status
      case ExMaterialized => if e.hasLog then Idle else Failing(job.key, EventMissing)
      case ExDuplicate => Idle
      case ExEligible => Cleared(job)
      case ExFailed => Cleared(job)
      case _ => Failing(job.key, StateChanged)
  }

  ghost predicate QueryAnswer(s: State, job: Job, answer: Option<Key>)
    requires HasVersion(s.table, job.key, job.version)
  {
    match answer
    case Some(r) => Conflicts(s, job.key, DecisionAt(s.table, job.key, job.version), r)
    case None => forall r :: !Conflicts(s, job.key, DecisionAt(s.table, job.key, job.version), r)
  }

  ghost predicate LockFree(lock: (string, EventName) -> int, s: State, job: Job)
    requires HasVersion(s.table, job.key, job.version)
  {
    forall w :: w in s.workers && InTransaction(s.workers[w])
        && HasVersion(s.table, s.workers[w].job.key, s.workers[w].job.version)
      ==> LockOf(lock, s.table, s.workers[w].job) != LockOf(lock, s.table, job)
  }

  function JobOf(w: Worker): Option<Job> {
    if w.Loaded? || w.Attempted? || InTransaction(w) then Some(w.job) else None
  }

  /** A step that is not enabled leaves the state unchanged. */
  ghost predicate Enabled(lock: (string, EventName) -> int, s: State, step: Step) {
    match step
    case Freeze(r) => Issued(r.decision) && r.decision.occurrence.workspaceId == s.workspaceId
    case OrchestrateStep(k, v, _, _) => HasVersion(s.table, k, v)
    case Load(w, k) => WorkerAt(s, w).Idle?
    case Attempt(w) => WorkerAt(s, w).Loaded? && WorkerAt(s, w).job.key in s.execs
    case FailBeforeLock(w, f) => WorkerAt(s, w).Attempted?
    case TakeLock(w) =>
      && WorkerAt(s, w).Attempted?
      && var job := WorkerAt(s, w).job;
         HasVersion(s.table, job.key, job.version) && Materializable(s.table, job) && LockFree(lock, s, job)
    case Reread(w) => WorkerAt(s, w).Locked?
    case QueryDuplicate(w, answer) =>
      && WorkerAt(s, w).Cleared?
      && var job := WorkerAt(s, w).job;
         HasVersion(s.table, job.key, job.version) && QueryAnswer(s, job, answer)
    case Commit(w) =>
      && WorkerAt(s, w).Checked?
      && var job := WorkerAt(s, w).job;
         HasVersion(s.table, job.key, job.version) && job.key in s.execs
    case Enqueue(w, _) => WorkerAt(s, w).Enqueuing?
    case Abort(w) => InTransaction(WorkerAt(s, w))
    case HandleExecution(w) => WorkerAt(s, w).Failing?
    case HandleReview(w) => WorkerAt(s, w).FailingReview?
    case Crash(w) => true
    case DeliverStep(_, _) => true
    case UpdateItemsStep(_, _, _) => true
    case RejectStep(_) => true
    case ApprovalRead(a, k, ctx) => ctx.rule.providerRuleId == k.rule
    case ApprovalFindLatest(a) => ApproverAt(s, a).Reading?
    case ApprovalAppend(a, _) =>
      ApproverAt(s, a).WithLatest? && HasVersion(s.table, ApproverAt(s, a).key, ApproverAt(s, a).latest)
    case ApprovalOrchestrate(a) =>
      ApproverAt(s, a).Persisted? && HasVersion(s.table, ApproverAt(s, a).key, ApproverAt(s, a).version)
    case ApprovalClaim(a) => ApproverAt(s, a).Orchestrated? && ApproverAt(s, a).key in s.reviews
    case ApprovalRecheck(a) => ApproverAt(s, a).ClaimLost?
  }

  /** The unconditional update that counts an attempt and marks the delivery queued. */
  function CountAttempt(s: State, k: Key): State
    requires k in s.execs
  {
    s.(execs := s.execs[k := s.execs[k].(technical := TechQueued)])
  }

  /** `updateMany` of the failure handler: only eligible and failed executions are touched. */
  function RecordFailure(s: State, k: Key, f: Failure): State {
    if k in s.execs && (s.execs[k].status.ExEligible? || s.execs[k].status.ExFailed?)
    then s.(execs := s.execs[k := s.execs[k].(status := DispositionOf(f).0, technical := DispositionOf(f).1)])
    else s
  }

  function RecordReviewFailure(s: State, k: Key): State {
    if k in s.reviews && s.reviews[k].linked
       && (s.reviews[k].status.Recognized? || s.reviews[k].status.Approved? || s.reviews[k].status.FailedReview?)
    then s.(reviews := s.reviews[k := s.reviews[k].(status := FailedReview, version := s.reviews[k].version + 1)])
    else s
  }

  function CorrectionFor(ctx: ApprovalContext, review: Review, latest: Decision): Result<Decision, CorrectionError> {
    CorrectedDecision(ctx, latest, review.lines, review.effective, review.observed, review.currency, review.phrase)
  }

  /** What an approver computes from the latest version: whether it is its own, and the corrected decision. */
  function AfterFindLatest(t: Table, k: Key, review: Review, ctx: ApprovalContext): Approver {
    if k !in t || t[k] == [] then Refused
    else
      var latest := t[k][|t[k]| - 1];
      WithLatest(k, review, |t[k]|, latest.evaluationKey == ApprovalEvaluationKey(k, review.version),
                 CorrectionFor(ctx, review, latest.decision))
  }

  /**
   * `prepareApproval` once the latest version is known: reuse it, or append the corrected decision. The result
   * is the table afterwards and the version to orchestrate, if there is one.
   */
  function ReuseOrAppend(table: Table, p: Approver, delivery: string): (Table, Option<nat>)
    requires p.WithLatest? && HasVersion(table, p.key, p.latest)
  {
    if p.own then (table, if DecisionAt(table, p.key, p.latest).code.Eligible? then Some(p.latest) else None)
    else if p.corrected.Err? then (table, None)
    else
      var written := Transaction(table, ApprovalRequest(p.key, p.review, p.corrected.value, p.latest, delivery));
      (written.0, if written.1.Ok? then Some(written.1.value.audit.version) else None)
  }

  function AppendApproval(s: State, a: nat, delivery: string): State
    requires ApproverAt(s, a).WithLatest? && HasVersion(s.table, ApproverAt(s, a).key, ApproverAt(s, a).latest)
  {
    var p := ApproverAt(s, a);
    var (table, version) := ReuseOrAppend(s.table, p, delivery);
    SetApprover(s.(table := table), a, if version.Some? then Persisted(p.key, p.review, version.value) else Refused)
  }

  function OrchestrateApproval(s: State, a: nat): State
    requires ApproverAt(s, a).Persisted? && HasVersion(s.table, ApproverAt(s, a).key, ApproverAt(s, a).version)
  {
    var p := ApproverAt(s, a);
    var s1 := Orchestrate(s, p.key, p.version, MakeEligible, false);
    if DecisionAt(s.table, p.key, p.version).code.Eligible? && p.key in s1.execs && s1.execs[p.key].status.ExEligible?
    then SetApprover(s1, a, Orchestrated(p.key, p.review, p.version))
    else SetApprover(s1, a, Refused)
  }

  /** The compare-and-set on the review version, with its audit entry. */
  function ClaimReview(s: State, a: nat): State
    requires ApproverAt(s, a).Orchestrated? && ApproverAt(s, a).key in s.reviews
  {
    var p := ApproverAt(s, a);
    if s.reviews[p.key].version != p.review.version then SetApprover(s, a, ClaimLost(p.key, p.version))
    else SetApprover(RecordClaim(s, p.key, p.review.version, p.version), a, Granted(p.key))
  }

  function RecordClaim(s: State, k: Key, reviewVersion: nat, v: nat): State
    requires k in s.reviews
  {
    s.(reviews := s.reviews[k := s.reviews[k].(
         status := Approved, decision := Some(v), linked := true, version := reviewVersion + 1)],
       approvals := s.approvals + [(k, reviewVersion)])
  }

  function RecheckClaim(s: State, a: nat): State
    requires ApproverAt(s, a).ClaimLost?
  {
    var p := ApproverAt(s, a);
    if p.key in s.reviews && s.reviews[p.key].status.Approved?
       && s.reviews[p.key].decision == Some(p.version) && s.reviews[p.key].linked
    then SetApprover(s, a, Granted(p.key)) else SetApprover(s, a, Refused)
  }

  /** The writes of a worker's transaction. */
  function Committed(s: State, worker: Worker): State
    requires worker.Checked? && HasVersion(s.table, worker.job.key, worker.job.version) && worker.job.key in s.execs
  {
    if worker.found.Some? then CommitDuplicate(s, worker.job) else CommitMaterialized(s, worker.job)
  }

  /** After its commit a worker puts a log that is ready to send on the delivery queue. */
  function AfterCommit(n: State, worker: Worker): Worker
    requires worker.Checked?
  {
    if worker.found.None? && worker.job.key in n.logs && n.logs[worker.job.key].status.LogReady?
    then Enqueuing(worker.job.key) else Idle
  }

  function CommitStep(s: State, w: nat): State
    requires WorkerAt(s, w).Checked? && HasVersion(s.table, WorkerAt(s, w).job.key, WorkerAt(s, w).job.version)
    requires WorkerAt(s, w).job.key in s.execs
  {
    SetWorker(Committed(s, WorkerAt(s, w)), w, AfterCommit(Committed(s, WorkerAt(s, w)), WorkerAt(s, w)))
  }

  ghost function Next(lock: (string, EventName) -> int, s: State, step: Step): State {
    if !Enabled(lock, s, step) then s else
    match step
    case Freeze(r) => s.(table := Transaction(s.table, r).0)
    case OrchestrateStep(k, v, disposition, recordIgnored) => Orchestrate(s, k, v, disposition, recordIgnored)
    case Load(w, k) => SetWorker(s, w, AfterLoad(s, k))
    case Attempt(w) => SetWorker(CountAttempt(s, WorkerAt(s, w).job.key), w, Attempted(WorkerAt(s, w).job))
    case FailBeforeLock(w, f) => SetWorker(s, w, Failing(WorkerAt(s, w).job.key, f))
    case TakeLock(w) => SetWorker(s, w, Locked(WorkerAt(s, w).job))
    case Reread(w) => SetWorker(s, w, AfterReread(s, WorkerAt(s, w).job))
    case QueryDuplicate(w, answer) => SetWorker(s, w, Checked(WorkerAt(s, w).job, answer))
    case Commit(w) => CommitStep(s, w)
    case Enqueue(w, accepted) =>
      SetWorker(s, w, if accepted then Idle else Failing(WorkerAt(s, w).key, Unexpected))
    case Abort(w) => SetWorker(s, w, Failing(WorkerAt(s, w).job.key, Unexpected))
    case HandleExecution(w) =>
      var p := WorkerAt(s, w);
      SetWorker(RecordFailure(s, p.key, p.failure), w, FailingReview(p.key, p.failure))
    case HandleReview(w) => SetWorker(RecordReviewFailure(s, WorkerAt(s, w).key), w, Idle)
    case Crash(w) => SetWorker(s, w, Idle)
    case DeliverStep(k, o) => Deliver(s, k, o)
    case UpdateItemsStep(k, catalog, input) => UpdateItems(s, k, catalog, input)
    case RejectStep(k) => Reject(s, k)
    case ApprovalRead(a, k, ctx) => SetApprover(s, a, ReadReview(s, k, ctx))
    case ApprovalFindLatest(a) =>
      var p := ApproverAt(s, a);
      SetApprover(s, a, AfterFindLatest(s.table, p.key, p.review, p.ctx))
    case ApprovalAppend(a, delivery) => AppendApproval(s, a, delivery)
    case ApprovalOrchestrate(a) => OrchestrateApproval(s, a)
    case ApprovalClaim(a) => ClaimReview(s, a)
    case ApprovalRecheck(a) => RecheckClaim(s, a)
  }

  ghost function After(lock: (string, EventName) -> int, s: State, steps: seq<Step>): State
    decreases |steps|
  {
    if steps == [] then s else After(lock, Next(lock, s, steps[0]), steps[1..])
  }
}
