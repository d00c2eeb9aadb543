/** What an approval comes to when nothing else happens in between, and what a delivery leaves. */
module ProtocolProgress {
  import opened Wrappers
  import opened EventCatalog
  import opened Decisions
  import opened DecisionChain
  import opened ReviewCorrection
  import opened Protocol
  import opened ProtocolBasics
  import opened ProtocolSafety
  import opened ProtocolSteps
  import opened ProtocolApprovals
  import Text

  /** Caller `a` asks for the review of `k`, and the five steps of the approval follow one another. */
  ghost function Asking(a: nat, k: Key, ctx: ApprovalContext, delivery: string): seq<Step> {
    [ApprovalRead(a, k, ctx), ApprovalFindLatest(a), ApprovalAppend(a, delivery), ApprovalOrchestrate(a),
     ApprovalClaim(a)]
  }

  ghost function AskedAlone(lock: Lock, s: State, a: nat, k: Key, ctx: ApprovalContext, delivery: string): State {
    After(lock, s, Asking(a, k, ctx, delivery))
  }

  lemma FiveSteps(lock: Lock, s: State, a: State, b: State, c: State, d: State, e: State, steps: seq<Step>)
    requires |steps| == 5
    requires a == Next(lock, s, steps[0]) && b == Next(lock, a, steps[1]) && c == Next(lock, b, steps[2])
    requires d == Next(lock, c, steps[3]) && e == Next(lock, d, steps[4])
    ensures After(lock, s, steps) == e
  {
    var one, two, three, four := steps[1..], steps[2..], steps[3..], steps[4..];
    assert one[1..] == two && two[1..] == three && three[1..] == four && four[1..] == [];
    assert After(lock, d, four) == After(lock, e, []) == e;
    assert After(lock, c, three) == After(lock, d, four);
    assert After(lock, b, two) == After(lock, c, three);
    assert After(lock, a, one) == After(lock, b, two);
  }

  /** An approver that is done stays as it is until asked again. */
  predicate IsDone(p: Approver) {
    p.Granted? || p.Refused? || p.Resting?
  }

  lemma DoneStays(lock: Lock, s: State, a: nat, delivery: string)
    requires IsDone(ApproverAt(s, a))
    ensures Next(lock, s, ApprovalFindLatest(a)) == s && Next(lock, s, ApprovalAppend(a, delivery)) == s
    ensures Next(lock, s, ApprovalOrchestrate(a)) == s && Next(lock, s, ApprovalClaim(a)) == s
  {
  }

  lemma ReadsFirst(lock: Lock, s: State, a: nat, k: Key, ctx: ApprovalContext)
    requires ctx.rule.providerRuleId == k.rule
    ensures Next(lock, s, ApprovalRead(a, k, ctx)) == SetApprover(s, a, ReadReview(s, k, ctx))
  {
  }

  /** Answered at the first read. */
  lemma AnsweredAtOnce(lock: Lock, s: State, a: nat, k: Key, ctx: ApprovalContext, delivery: string)
    requires ctx.rule.providerRuleId == k.rule && IsDone(ReadReview(s, k, ctx))
    ensures AskedAlone(lock, s, a, k, ctx, delivery) == SetApprover(s, a, ReadReview(s, k, ctx))
  {
    ReadsFirst(lock, s, a, k, ctx);
    var n := SetApprover(s, a, ReadReview(s, k, ctx));
    DoneStays(lock, n, a, delivery);
    FiveSteps(lock, s, n, n, n, n, n, Asking(a, k, ctx, delivery));
  }

  /** The answer of the first read, from the rows: already sent or on its way, or open and complete. */
  predicate IsGrantedAlready(s: State, k: Key) {
    && k in s.reviews && s.reviews[k].decision.Some? && s.reviews[k].linked
    && var review := s.reviews[k];
       || review.status.Approved? || review.hasLog
       || (review.status.FailedReview? && k in s.execs && s.execs[k].status.ExFailed?
           && s.execs[k].technical.TechRetryable? && s.execs[k].decision == review.decision)
  }

  /** The review is open, the release is ready and there is a value, for a catalog rule that of its complete lines. */
  predicate IsReady(s: State, k: Key, ctx: ApprovalContext) {
    && k in s.reviews && s.reviews[k].decision.Some? && !s.reviews[k].hasLog && ctx.productionReady
    && var review := s.reviews[k];
       && (|| review.status.NeedsReview? || review.status.AwaitingReview? || review.status.Recognized?
           || review.status.FailedReview? || review.status.Approved?)
       && review.effective.Some? && review.effective.value > 0
       && (ctx.rule.triggerType.StructuredCatalog? ==>
             && review.lines != []
             && forall i :: 0 <= i < |review.lines| ==>
                  && review.lines[i].variantId.Some?
                  && review.lines[i].unitValueCents.Some? && review.lines[i].unitValueCents.value > 0
                  && review.lines[i].subtotalValueCents.Some? && review.lines[i].subtotalValueCents.value > 0)
  }

  lemma ReadsExactly(s: State, k: Key, ctx: ApprovalContext)
    ensures ReadReview(s, k, ctx) == Granted(k) <==> IsGrantedAlready(s, k)
    ensures ReadReview(s, k, ctx).Reading? <==> !IsGrantedAlready(s, k) && IsReady(s, k, ctx)
    ensures ReadReview(s, k, ctx).Reading? ==> ReadReview(s, k, ctx) == Reading(k, s.reviews[k], ctx)
    ensures !ReadReview(s, k, ctx).Reading? ==> IsDone(ReadReview(s, k, ctx))
  {
  }

  // ----- from the version to the claim -----

  /** The execution is not final yet, so orchestration can link it. */
  predicate IsOpen(s: State, k: Key) {
    k in s.execs ==> !s.execs[k].status.ExMaterialized? && !s.execs[k].status.ExDuplicate?
  }

  /** The review and its execution once version `v` is approved. */
  predicate IsApprovedOn(n: State, k: Key, v: nat) {
    && k in n.execs && n.execs[k].status.ExEligible? && n.execs[k].decision == Some(v)
    && k in n.reviews && n.reviews[k].status.Approved? && n.reviews[k].linked && n.reviews[k].decision == Some(v)
  }

  lemma OrchestratesExactly(m: State, k: Key, v: nat)
    requires HasVersion(m.table, k, v) && DecisionAt(m.table, k, v).code.Eligible?
    ensures var n := Orchestrate(m, k, v, MakeEligible, false);
            && n.table == m.table && n.reviews == m.reviews && n.approvers == m.approvers
            && (k in n.execs && n.execs[k].status.ExEligible? <==> IsOpen(m, k))
            && (IsOpen(m, k) ==> n.execs[k].decision == Some(v))
  {
  }

  lemma ClaimsExactly(lock: Lock, m: State, a: nat, k: Key, review: Review, v: nat)
    requires HasVersion(m.table, k, v) && DecisionAt(m.table, k, v).code.Eligible?
    requires k in m.reviews && m.reviews[k].version == review.version && ApproverAt(m, a) == Persisted(k, review, v)
    ensures var n := Next(lock, Next(lock, m, ApprovalOrchestrate(a)), ApprovalClaim(a));
            && (ApproverAt(n, a) == Granted(k) <==> IsOpen(m, k))
            && (IsOpen(m, k) ==> n.table == m.table && IsApprovedOn(n, k, v))
  {
    OrchestratesExactly(m, k, v);
    var o := OrchestrateApproval(m, a);
    assert Next(lock, m, ApprovalOrchestrate(a)) == o;
    if IsOpen(m, k) {
      assert ApproverAt(o, a) == Orchestrated(k, review, v);
      assert Next(lock, o, ApprovalClaim(a)) == ClaimReview(o, a);
    } else {
      DoneStays(lock, o, a, "");
    }
  }

  // ----- to the version -----

  lemma FindsLatest(lock: Lock, s: State, a: nat, k: Key, review: Review, ctx: ApprovalContext)
    requires ApproverAt(s, a) == Reading(k, review, ctx)
    ensures Next(lock, s, ApprovalFindLatest(a)) == SetApprover(s, a, AfterFindLatest(s.table, k, review, ctx))
  {
  }

  lemma AppendsNow(lock: Lock, s: State, a: nat, delivery: string)
    requires ApproverAt(s, a).WithLatest? && HasVersion(s.table, ApproverAt(s, a).key, ApproverAt(s, a).latest)
    ensures Next(lock, s, ApprovalAppend(a, delivery)) == AppendApproval(s, a, delivery)
  {
  }

  /** The corrected decision is stored as the next version, unless the chain holds one for this review version. */
  lemma AppendsCorrected(table: Table, k: Key, review: Review, corrected: Decision, delivery: string)
    requires k in table && table[k] != [] && ValidChain(k, table[k]) && KeyOf(corrected) == k
    requires Text.Trim(delivery) != "" && forall v :: !OwnVersion(table, k, v, review.version)
    ensures var chain := table[k];
            var (after, answer) := Transaction(table, ApprovalRequest(k, review, corrected, |chain|, delivery));
            && answer.Ok? && answer.value.audit.version == |chain| + 1
            && HasVersion(after, k, |chain| + 1) && DecisionAt(after, k, |chain| + 1) == corrected
  {
    var chain, r := table[k], ApprovalRequest(k, review, corrected, |table[k]|, delivery);
    RequestKeyIsTrimmed(k, review.version);
    forall i | 0 <= i < |chain| ensures chain[i].evaluationKey != EvaluationKeyOf(r) {
      var v: nat := i + 1;
      assert !OwnVersion(table, k, v, review.version);
    }
    assert FindByEvaluation(chain, EvaluationKeyOf(r)).None?;
    assert VersionTransitionError(chain, r).None?;
    assert Persist(chain, r).0 == chain + [NextAudit(chain, r)];
  }

  /** The occurrence is a purchase of a known lead, the rule is for purchases, and every catalog line still holds. */
  ghost predicate IsCorrectable(ctx: ApprovalContext, latest: Decision, lines: seq<ReviewItem>) {
    && latest.occurrence.eventName == Purchase && latest.leadResolution.Resolved?
    && ctx.rule.eventName == Purchase && !ctx.rule.triggerType.ProviderAutomation?
    && (ctx.rule.triggerType.StructuredCatalog? ==>
          && ctx.catalog.Some? && ctx.catalog.value.active
          && forall i :: 0 <= i < |lines| ==> StillHolds(lines[i], ctx.catalog.value))
  }

  /** What an approver that has read the review makes of the latest version, which is not its own. */
  lemma LatestIsCorrectedExactly(s: State, k: Key, ctx: ApprovalContext)
    requires TableOk(s) && IsReady(s, k, ctx) && ctx.rule.providerRuleId == k.rule && k in s.table
    requires forall v :: !OwnVersion(s.table, k, v, s.reviews[k].version)
    ensures var chain, review := s.table[k], s.reviews[k];
            && chain != []
            && var r := CorrectionFor(ctx, review, chain[|chain| - 1].decision);
               && AfterFindLatest(s.table, k, review, ctx) == WithLatest(k, review, |chain|, false, r)
               && (r.Ok? <==> IsCorrectable(ctx, chain[|chain| - 1].decision, review.lines))
               && (r.Ok? ==> r.value.code.Eligible? && KeyOf(r.value) == k
                             && r.value.conversion.valueCents == review.effective)
  {
    var chain, review := s.table[k], s.reviews[k];
    assert ValidChain(k, chain);
    var v: nat := |chain|;
    assert !OwnVersion(s.table, k, v, review.version);
    CorrectionExactly(ctx, chain[|chain| - 1].decision, review.lines, review.effective, review.observed,
                      review.currency, review.phrase);
  }

  /** The approval of a review read by `a`, up to the version it is orchestrated under, or its refusal. */
  lemma ReachesVersion(lock: Lock, s: State, a: nat, k: Key, ctx: ApprovalContext, delivery: string)
    requires TableOk(s) && IsReady(s, k, ctx) && ctx.rule.providerRuleId == k.rule && Text.Trim(delivery) != ""
    requires ApproverAt(s, a) == Reading(k, s.reviews[k], ctx)
    requires forall v :: !OwnVersion(s.table, k, v, s.reviews[k].version)
    ensures var review := s.reviews[k];
            var m := Next(lock, Next(lock, s, ApprovalFindLatest(a)), ApprovalAppend(a, delivery));
            && m.reviews == s.reviews && m.execs == s.execs
            && if k in s.table && IsCorrectable(ctx, s.table[k][|s.table[k]| - 1].decision, review.lines) then
                 && var v := |s.table[k]| + 1;
                    && ApproverAt(m, a) == Persisted(k, review, v) && HasVersion(m.table, k, v)
                    && DecisionAt(m.table, k, v).code.Eligible?
                    && DecisionAt(m.table, k, v).conversion.valueCents == review.effective
               else ApproverAt(m, a) == Refused
  {
    var review := s.reviews[k];
    FindsLatest(lock, s, a, k, review, ctx);
    var f := SetApprover(s, a, AfterFindLatest(s.table, k, review, ctx));
    if k in s.table {
      LatestIsCorrectedExactly(s, k, ctx);
      AppendsNow(lock, f, a, delivery);
      var r := CorrectionFor(ctx, review, s.table[k][|s.table[k]| - 1].decision);
      if r.Ok? {
        assert ValidChain(k, s.table[k]);
        AppendsCorrected(s.table, k, review, r.value, delivery);
      }
    } else {
      DoneStays(lock, f, a, delivery);
    }
  }

  /**
   * Alone, and if no version has been written for the review version yet, an approval is granted if and only if it was
   * before, or the review is ready, the latest version can be corrected and the execution is not final. Then the
   * execution is eligible, and the review approved, on a new version worth what the review says.
   */
  lemma FirstApprovalIsGrantedExactly(lock: Lock, s: State, a: nat, k: Key, ctx: ApprovalContext, delivery: string)
    requires Basic(lock, s) && ctx.rule.providerRuleId == k.rule && Text.Trim(delivery) != ""
    requires k in s.reviews ==> forall v :: !OwnVersion(s.table, k, v, s.reviews[k].version)
    ensures var n := AskedAlone(lock, s, a, k, ctx, delivery);
            ApproverAt(n, a) == Granted(k) <==>
              || IsGrantedAlready(s, k)
              || (&& IsReady(s, k, ctx) && IsOpen(s, k) && k in s.table && s.table[k] != []
                  && IsCorrectable(ctx, s.table[k][|s.table[k]| - 1].decision, s.reviews[k].lines))
    ensures var n := AskedAlone(lock, s, a, k, ctx, delivery);
            ApproverAt(n, a) == Granted(k) && !IsGrantedAlready(s, k) ==>
              exists v :: HasVersion(n.table, k, v) && IsApprovedOn(n, k, v) && DecisionAt(n.table, k, v).code.Eligible?
                          && DecisionAt(n.table, k, v).conversion.valueCents == s.reviews[k].effective
  {
    ReadsExactly(s, k, ctx);
    if !ReadReview(s, k, ctx).Reading? {
      AnsweredAtOnce(lock, s, a, k, ctx, delivery);
    } else {
      ReadsFirst(lock, s, a, k, ctx);
      var r := SetApprover(s, a, ReadReview(s, k, ctx));
      ReachesVersion(lock, r, a, k, ctx, delivery);
      var f := Next(lock, r, ApprovalFindLatest(a));
      var m := Next(lock, f, ApprovalAppend(a, delivery));
      var o := Next(lock, m, ApprovalOrchestrate(a));
      var n := Next(lock, o, ApprovalClaim(a));
      FiveSteps(lock, s, r, f, m, o, n, Asking(a, k, ctx, delivery));
      if ApproverAt(m, a).Persisted? {
        ClaimsExactly(lock, m, a, k, s.reviews[k], ApproverAt(m, a).version);
      } else {
        DoneStays(lock, m, a, delivery);
      }
    }
  }

  lemma ReusesVersion(lock: Lock, s: State, a: nat, k: Key, ctx: ApprovalContext, delivery: string)
    requires k in s.reviews && k in s.table && ApproverAt(s, a) == Reading(k, s.reviews[k], ctx)
    requires OwnVersion(s.table, k, |s.table[k]|, s.reviews[k].version)
    ensures var m := Next(lock, Next(lock, s, ApprovalFindLatest(a)), ApprovalAppend(a, delivery));
            && m.table == s.table && m.reviews == s.reviews && m.execs == s.execs
            && ApproverAt(m, a) == if DecisionAt(s.table, k, |s.table[k]|).code.Eligible?
                                   then Persisted(k, s.reviews[k], |s.table[k]|) else Refused
  {
    FindsLatest(lock, s, a, k, s.reviews[k], ctx);
    var p := AfterFindLatest(s.table, k, s.reviews[k], ctx);
    AppendsNow(lock, SetApprover(s, a, p), a, delivery);
    AppendsNothing(SetApprover(s, a, p), a, k, delivery);
  }

  lemma AppendsNothing(f: State, a: nat, k: Key, delivery: string)
    requires ApproverAt(f, a).WithLatest? && ApproverAt(f, a).own && ApproverAt(f, a).key == k
    requires HasVersion(f.table, k, ApproverAt(f, a).latest)
    ensures var p, m := ApproverAt(f, a), AppendApproval(f, a, delivery);
            && m.table == f.table && m.reviews == f.reviews && m.execs == f.execs
            && ApproverAt(m, a) == if DecisionAt(f.table, k, p.latest).code.Eligible?
                                   then Persisted(k, p.review, p.latest) else Refused
  {
  }

  /**
   * Asked again alone, with the latest version written for this very review version, an approval appends nothing and is
   * granted if and only if it was before, or the review is ready, that version eligible and the execution not final.
   */
  lemma RepeatedApprovalIsGrantedExactly(
    lock: Lock, s: State, a: nat, k: Key, ctx: ApprovalContext, delivery: string)
    requires ctx.rule.providerRuleId == k.rule && k in s.reviews && k in s.table
    requires OwnVersion(s.table, k, |s.table[k]|, s.reviews[k].version)
    ensures var n := AskedAlone(lock, s, a, k, ctx, delivery);
            && n.table == s.table
            && (ApproverAt(n, a) == Granted(k) <==>
                  || IsGrantedAlready(s, k)
                  || (IsReady(s, k, ctx) && IsOpen(s, k) && DecisionAt(s.table, k, |s.table[k]|).code.Eligible?))
  {
    ReadsExactly(s, k, ctx);
    if !ReadReview(s, k, ctx).Reading? {
      AnsweredAtOnce(lock, s, a, k, ctx, delivery);
    } else {
      var review, v := s.reviews[k], |s.table[k]|;
      ReadsFirst(lock, s, a, k, ctx);
      var r := SetApprover(s, a, ReadReview(s, k, ctx));
      ReusesVersion(lock, r, a, k, ctx, delivery);
      var f := Next(lock, r, ApprovalFindLatest(a));
      var m := Next(lock, f, ApprovalAppend(a, delivery));
      var o := Next(lock, m, ApprovalOrchestrate(a));
      var n := Next(lock, o, ApprovalClaim(a));
      FiveSteps(lock, s, r, f, m, o, n, Asking(a, k, ctx, delivery));
      if DecisionAt(s.table, k, v).code.Eligible? {
        ClaimsKeepTable(lock, m, a, k, review, v);
        ClaimsExactly(lock, m, a, k, review, v);
      } else {
        DoneStays(lock, m, a, delivery);
      }
    }
  }

  lemma ClaimsKeepTable(lock: Lock, m: State, a: nat, k: Key, review: Review, v: nat)
    requires HasVersion(m.table, k, v) && DecisionAt(m.table, k, v).code.Eligible?
    requires ApproverAt(m, a) == Persisted(k, review, v)
    ensures Next(lock, Next(lock, m, ApprovalOrchestrate(a)), ApprovalClaim(a)).table == m.table
  {
    OrchestratesExactly(m, k, v);
    var o := OrchestrateApproval(m, a);
    assert Next(lock, m, ApprovalOrchestrate(a)) == o;
    if ApproverAt(o, a).Refused? {
      DoneStays(lock, o, a, "");
    }
  }

  /** A caller that lost the claim is granted if and only if the review is approved on the version it orchestrated. */
  lemma LostClaimIsGrantedExactly(lock: Lock, s: State, a: nat)
    requires ApproverAt(s, a).ClaimLost?
    ensures var k, v := ApproverAt(s, a).key, ApproverAt(s, a).version;
            var n := Next(lock, s, ApprovalRecheck(a));
            && n == s.(approvers := n.approvers)
            && (ApproverAt(n, a) == Granted(k) <==>
                  && k in s.reviews && s.reviews[k].status.Approved? && s.reviews[k].linked
                  && s.reviews[k].decision == Some(v))
  {
  }

  // ----- deliveries -----

  /**
   * Only a log that is ready is sent; afterwards it is sent or failed. Its execution is then sent, retryable after a
   * network error, blocked without a configuration, and failed for good otherwise.
   */
  lemma DeliveryLeaves(s: State, k: Key, o: SendOutcome)
    ensures var n := Deliver(s, k, o);
            if k !in s.logs || !s.logs[k].status.LogReady? then n == s
            else
              && k in n.logs && n.logs[k].status == (if o.SendOk? then LogSent else LogFailed)
              && n.logs[k].(status := LogReady) == s.logs[k]
              && (k in s.execs && s.execs[k].hasLog ==>
                    && k in n.execs && n.execs[k].status == s.execs[k].status
                    && match o
                       case SendOk => n.execs[k].technical.TechSent?
                       case SendNotConfigured => n.execs[k].technical.TechBlocked?
                       case SendNetworkError => n.execs[k].technical.TechRetryable?
                       case SendRejected => n.execs[k].technical.TechPermanent?)
  {
  }

  /** A review whose event was approved or had failed becomes sent or failed with it. */
  lemma DeliveryTellsReview(s: State, k: Key, o: SendOutcome)
    requires k in s.logs && s.logs[k].status.LogReady? && k in s.reviews
    ensures var n := Deliver(s, k, o);
            && k in n.reviews
            && n.reviews[k].status
               == if s.reviews[k].hasLog && (s.reviews[k].status.Approved? || s.reviews[k].status.FailedReview?)
                  then (if o.SendOk? then SentReview else FailedReview) else s.reviews[k].status
  {
  }
}
