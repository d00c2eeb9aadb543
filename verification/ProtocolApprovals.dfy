/** Approvals of purchase reviews along every run. */
module ProtocolApprovals {
  import opened Wrappers
  import opened EventCatalog
  import opened Decisions
  import opened DecisionChain
  import opened ReviewCorrection
  import opened Protocol
  import opened ProtocolBasics
  import opened ProtocolSafety
  import opened ProtocolSteps
  import opened ProtocolTheorems
  import Text

  // ----- approvals -----

  lemma RequestKeyIsTrimmed(k: Key, version: nat)
    ensures Text.Trim(ApprovalRequestKey(k, version)) == ApprovalRequestKey(k, version)
  {
    var key := ApprovalRequestKey(k, version);
    Text.DigitsAreDigits(version);
    assert key[0] == 'p' && key[|key| - 1] == Text.Digits(version)[|Text.Digits(version)| - 1];
    Text.TrimOfPadded("", key);
    assert "" + key == key;
  }

  /** The approvals of two versions of a review never share an evaluation key. */
  lemma ApprovalKeysDiffer(k: Key, m: nat, n: nat)
    requires ApprovalEvaluationKey(k, m) == ApprovalEvaluationKey(k, n)
    ensures m == n
  {
    RequestKeyIsTrimmed(k, m);
    RequestKeyIsTrimmed(k, n);
    var prefix := "purchase-review:" + k.rule + ":" + k.occurrence + ":approval:";
    assert ApprovalRequestKey(k, m)[|prefix|..] == Text.Digits(m);
    assert ApprovalRequestKey(k, n)[|prefix|..] == Text.Digits(n);
    Text.DigitsInjective(m, n);
  }

  lemma OneOwnVersion(s: State, k: Key, v: nat, u: nat, reviewVersion: nat)
    requires TableOk(s) && OwnVersion(s.table, k, v, reviewVersion) && OwnVersion(s.table, k, u, reviewVersion)
    ensures v == u
  {
    FindFindsTheEntry(k, s.table[k], v - 1);
    FindFindsTheEntry(k, s.table[k], u - 1);
  }

  /**
   * Along every run, however many approvals interleave: a chain holds at most one version written for any
   * version of its review; a review version is claimed at most once, and the claim is backed by exactly that
   * version, which is eligible; different claims are backed by different versions.
   */
  lemma ApprovalsAppendOnce(lock: Lock, init: State, steps: seq<Step>, k: Key, reviewVersion: nat)
    requires Init(init)
    ensures var s := After(lock, init, steps);
            && (forall v, u :: OwnVersion(s.table, k, v, reviewVersion) && OwnVersion(s.table, k, u, reviewVersion) ==>
                  v == u)
            && (forall i, j :: 0 <= i < j < |s.approvals| ==> s.approvals[i] != s.approvals[j])
            && ((k, reviewVersion) in s.approvals ==> exists v :: ApprovedVersion(s.table, k, v, reviewVersion))
  {
    InitIsSafe(lock, init);
    RunKeepsBasic(lock, init, steps);
    var s := After(lock, init, steps);
    forall v, u | OwnVersion(s.table, k, v, reviewVersion) && OwnVersion(s.table, k, u, reviewVersion)
      ensures v == u
    {
      OneOwnVersion(s, k, v, u, reviewVersion);
    }
    if (k, reviewVersion) in s.approvals {
      var i :| 0 <= i < |s.approvals| && s.approvals[i] == (k, reviewVersion);
      assert Backed(s.table, k, reviewVersion);
    }
  }

  /** One version is never written for two versions of the review. */
  lemma VersionBacksOneClaim(t: Table, k: Key, v: nat, m: nat, n: nat)
    requires OwnVersion(t, k, v, m) && OwnVersion(t, k, v, n)
    ensures m == n
  {
    ApprovalKeysDiffer(k, m, n);
  }

  // ----- what a caller is granted -----

  /** The key of the review an approver is busy with or was granted. */
  function SubjectOf(p: Approver): Option<Key> {
    match p
    case Resting => None
    case Refused => None
    case _ => Some(p.key)
  }

  /** The step starts an approval by `a`. */
  ghost predicate Asks(lock: Lock, s: State, step: Step, a: nat) {
    step.ApprovalRead? && step.approver == a && Enabled(lock, s, step)
  }

  /** The review the caller `a` asked about last. */
  ghost function Asked(lock: Lock, s: State, steps: seq<Step>, a: nat, last: Option<Key>): Option<Key>
    decreases |steps|
  {
    if steps == [] then last
    else
      var asked := if Asks(lock, s, steps[0], a) then Some(steps[0].key) else last;
      Asked(lock, Next(lock, s, steps[0]), steps[1..], a, asked)
  }

  predicate IsApproverStep(step: Step) {
    || step.ApprovalRead? || step.ApprovalFindLatest? || step.ApprovalAppend? || step.ApprovalOrchestrate?
    || step.ApprovalClaim? || step.ApprovalRecheck?
  }

  /** Only approver `a` moves, and the review it is busy with stays the same. */
  ghost predicate KeepsSubject(s: State, n: State, a: nat, subject: Option<Key>) {
    && (forall b :: b != a ==> ApproverAt(n, b) == ApproverAt(s, b))
    && (SubjectOf(ApproverAt(n, a)).Some? ==> SubjectOf(ApproverAt(n, a)) == subject)
  }

  lemma SettingKeepsSubject(s: State, m: State, n: State, a: nat, p: Approver, subject: Option<Key>)
    requires m.approvers == s.approvers && n == SetApprover(m, a, p) && (SubjectOf(p).Some? ==> SubjectOf(p) == subject)
    ensures KeepsSubject(s, n, a, subject)
  {
  }

  lemma OrchestrationKeepsSubject(s: State, a: nat)
    requires TableOk(s) && LinksOk(s) && ReviewsOk(s)
    requires ApproverAt(s, a).Persisted? && HasVersion(s.table, ApproverAt(s, a).key, ApproverAt(s, a).version)
    ensures KeepsSubject(s, OrchestrateApproval(s, a), a, SubjectOf(ApproverAt(s, a)))
  {
    var p := ApproverAt(s, a);
    var m := Orchestrate(s, p.key, p.version, MakeEligible, false);
    OrchestrateIsDataStep(s, p.key, p.version, MakeEligible, false);
    SettingKeepsSubject(s, m, SetApprover(m, a, Refused), a, Refused, SubjectOf(p));
    var q := Orchestrated(p.key, p.review, p.version);
    SettingKeepsSubject(s, m, SetApprover(m, a, q), a, q, SubjectOf(p));
  }

  lemma AppendKeepsSubject(s: State, a: nat, delivery: string)
    requires ApproverAt(s, a).WithLatest? && HasVersion(s.table, ApproverAt(s, a).key, ApproverAt(s, a).latest)
    ensures KeepsSubject(s, AppendApproval(s, a, delivery), a, SubjectOf(ApproverAt(s, a)))
  {
    var p := ApproverAt(s, a);
    var (table, version) := ReuseOrAppend(s.table, p, delivery);
    var q := if version.Some? then Persisted(p.key, p.review, version.value) else Refused;
    SettingKeepsSubject(s, s.(table := table), SetApprover(s.(table := table), a, q), a, q, SubjectOf(p));
  }

  lemma ClaimKeepsSubject(s: State, a: nat)
    requires ApproverAt(s, a).Orchestrated? && ApproverAt(s, a).key in s.reviews
    ensures KeepsSubject(s, ClaimReview(s, a), a, SubjectOf(ApproverAt(s, a)))
  {
  }

  lemma ReadingKeepsSubject(lock: Lock, s: State, step: Step)
    requires (step.ApprovalRead? || step.ApprovalFindLatest?) && Enabled(lock, s, step)
    ensures KeepsSubject(s, Next(lock, s, step), step.approver,
                         if step.ApprovalRead? then Some(step.key) else SubjectOf(ApproverAt(s, step.approver)))
  {
    match step
    case ApprovalRead(a, k, ctx) =>
      SettingKeepsSubject(s, s, SetApprover(s, a, ReadReview(s, k, ctx)), a, ReadReview(s, k, ctx), Some(k));
    case ApprovalFindLatest(a) =>
      var p := ApproverAt(s, a);
      var q := AfterFindLatest(s.table, p.key, p.review, p.ctx);
      SettingKeepsSubject(s, s, SetApprover(s, a, q), a, q, SubjectOf(p));
  }

  lemma ApproverKeepsSubject(lock: Lock, s: State, step: Step)
    requires Basic(lock, s) && IsApproverStep(step) && Enabled(lock, s, step)
    ensures KeepsSubject(s, Next(lock, s, step), step.approver,
                         if step.ApprovalRead? then Some(step.key) else SubjectOf(ApproverAt(s, step.approver)))
  {
    match step
    case ApprovalRead(_, _, _) => ReadingKeepsSubject(lock, s, step);
    case ApprovalFindLatest(_) => ReadingKeepsSubject(lock, s, step);
    case ApprovalAppend(a, delivery) => AppendKeepsSubject(s, a, delivery);
    case ApprovalOrchestrate(a) => OrchestrationKeepsSubject(s, a);
    case ApprovalClaim(a) => ClaimKeepsSubject(s, a);
    case ApprovalRecheck(a) =>
      var p := ApproverAt(s, a);
      SettingKeepsSubject(s, s, SetApprover(s, a, Granted(p.key)), a, Granted(p.key), SubjectOf(p));
      SettingKeepsSubject(s, s, SetApprover(s, a, Refused), a, Refused, SubjectOf(p));
  }

  lemma WorkersKeepApprovers(lock: Lock, s: State, step: Step)
    requires IsWorkerStep(step)
    ensures Next(lock, s, step).approvers == s.approvers
  {
  }

  lemma DataKeepsApprovers(lock: Lock, s: State, step: Step, n: State)
    requires Next(lock, s, step) == n && DataStep(s, n)
    ensures Next(lock, s, step).approvers == s.approvers
  {
  }

  lemma OthersKeepApprovers(lock: Lock, s: State, step: Step)
    requires Basic(lock, s) && Enabled(lock, s, step) && !IsApproverStep(step)
    ensures Next(lock, s, step).approvers == s.approvers
  {
    match step
    case Freeze(_) =>
    case OrchestrateStep(k, v, disposition, recordIgnored) =>
      OrchestrateIsDataStep(s, k, v, disposition, recordIgnored);
      DataKeepsApprovers(lock, s, step, Orchestrate(s, k, v, disposition, recordIgnored));
    case DeliverStep(k, o) =>
      DeliverIsDataStep(s, k, o);
      DataKeepsApprovers(lock, s, step, Deliver(s, k, o));
    case UpdateItemsStep(k, catalog, input) =>
      UpdateItemsIsDataStep(s, k, catalog, input);
      DataKeepsApprovers(lock, s, step, UpdateItems(s, k, catalog, input));
    case RejectStep(k) =>
      RejectIsDataStep(s, k);
      DataKeepsApprovers(lock, s, step, Reject(s, k));
    case _ => WorkersKeepApprovers(lock, s, step);
  }

  lemma StepKeepsSubject(lock: Lock, s: State, step: Step, a: nat)
    requires Basic(lock, s)
    ensures var p := SubjectOf(ApproverAt(Next(lock, s, step), a));
            p.Some? ==> p == if Asks(lock, s, step, a) then Some(step.key) else SubjectOf(ApproverAt(s, a))
  {
    if Enabled(lock, s, step) {
      if IsApproverStep(step) {
        ApproverKeepsSubject(lock, s, step);
      } else {
        OthersKeepApprovers(lock, s, step);
      }
    }
  }

  lemma {:induction false} SubjectWasAsked(lock: Lock, s: State, steps: seq<Step>, a: nat, last: Option<Key>)
    requires Basic(lock, s) && (SubjectOf(ApproverAt(s, a)).Some? ==> SubjectOf(ApproverAt(s, a)) == last)
    ensures var p := SubjectOf(ApproverAt(After(lock, s, steps), a));
            p.Some? ==> p == Asked(lock, s, steps, a, last)
    decreases |steps|
  {
    if steps != [] {
      StepKeepsBasic(lock, s, steps[0]);
      StepKeepsSubject(lock, s, steps[0], a);
      SubjectWasAsked(lock, Next(lock, s, steps[0]), steps[1..], a,
                      if Asks(lock, s, steps[0], a) then Some(steps[0].key) else last);
    }
  }

  /** Along every run, what is granted to a caller is the existing execution of the review it asked about last. */
  lemma GrantedExists(lock: Lock, init: State, steps: seq<Step>, a: nat)
    requires Init(init) && ApproverAt(After(lock, init, steps), a).Granted?
    ensures var k := ApproverAt(After(lock, init, steps), a).key;
            Asked(lock, init, steps, a, None) == Some(k) && k in After(lock, init, steps).execs
  {
    InitIsSafe(lock, init);
    RunKeepsBasic(lock, init, steps);
    SubjectWasAsked(lock, init, steps, a, None);
    var s := After(lock, init, steps);
    assert ApproverOk(s, s.approvers[a]);
  }
}
