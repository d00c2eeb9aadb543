/**
 * The conditions of the deduplication theorems are needed: for any decisions that break one, a run from an empty
 * workspace breaks the theorem. The re-read inside the transaction looks at the status of the execution only, so a
 * re-evaluation between a worker's load and its commit goes unnoticed.
 */
module ProtocolCounterexample {
  import opened Wrappers
  import opened EventCatalog
  import opened Decisions
  import opened DecisionChain
  import opened Protocol
  import opened ProtocolBasics
  import opened ProtocolSafety
  import opened ProtocolCommit
  import opened ProtocolTheorems
  import opened ProtocolSeparation
  import opened ProtocolRuns
  import Text

  function Start(workspaceId: string): State {
    State(workspaceId, map[], map[], map[], map[], map[], map[], [])
  }

  lemma StartIsInitial(workspaceId: string)
    ensures Init(Start(workspaceId))
  {
  }

  lemma ShortTexts()
    ensures IsText("d") && IsText("e") && IsText("r") && IsText("q")
  {
    Text.TrimOfPadded("", "d");
    Text.TrimOfPadded("", "e");
    Text.TrimOfPadded("", "r");
    Text.TrimOfPadded("", "q");
    assert "" + "d" == "d" && "" + "e" == "e" && "" + "r" == "r" && "" + "q" == "q";
  }

  /** A decision of this workspace that is ready to be frozen and materialized. */
  ghost predicate Candidate(d: Decision, workspaceId: string) {
    Issued(d) && Materializes(d) && d.occurrence.workspaceId == workspaceId
  }

  // ----- a worker between load and commit -----

  /** The first occurrence is inside the transaction of worker 0, which found no duplicate. */
  function Inside(workspaceId: string, d: Decision): State {
    SetWorker(CountAttempt(Opened(Start(workspaceId), d, "d"), KeyOf(d)), 0, Checked(JobFor(KeyOf(d), 1, d), None))
  }

  lemma InsideIsReachable(lock: Lock, workspaceId: string, d: Decision)
    requires Candidate(d, workspaceId)
    ensures Reaches(lock, Start(workspaceId), Inside(workspaceId, d))
  {
    var s, k := Start(workspaceId), KeyOf(d);
    ShortTexts();
    Opens(lock, s, d, "d");
    assert QueryAnswer(Opened(s, d, "d"), JobFor(k, 1, d), None);
    Enters(lock, Opened(s, d, "d"), 0, k, 1, d, None);
    ReachesTransitive(lock, s, Opened(s, d, "d"), Inside(workspaceId, d));
  }

  /** The next version of a chain is frozen and its open execution linked to it. */
  function Relinked(s: State, r: Decision, delivery: string, request: string, disposition: Disposition): State
    requires KeyOf(r) in s.table
  {
    var k := KeyOf(r);
    var m := s.(table := s.table[k := s.table[k] + [NextVersion(k, s.table[k], r, delivery, request)]]);
    m.(execs := m.execs[k := LinkedRow(m, k, |s.table[k]| + 1, r, disposition)])
  }

  lemma RelinkedIsReachable(lock: Lock, s: State, r: Decision, delivery: string, request: string,
                            disposition: Disposition, recordIgnored: bool)
    requires Issued(r) && r.occurrence.workspaceId == s.workspaceId && Persists(r, disposition, recordIgnored)
    requires KeyOf(r) in s.table && s.table[KeyOf(r)] != [] && IsText(delivery) && IsText(request)
    requires var chain := s.table[KeyOf(r)];
             && chain[|chain| - 1].version == |chain|
             && forall i :: 0 <= i < |chain| ==> chain[i].evaluationKey != Reevaluation(request)
    requires KeyOf(r) in s.execs && !Terminal(s.execs[KeyOf(r)].status)
             && s.execs[KeyOf(r)].decision == Some(|s.table[KeyOf(r)]|)
    ensures Reaches(lock, s, Relinked(s, r, delivery, request, disposition))
  {
    var k := KeyOf(r);
    var chain := s.table[k];
    var m := s.(table := s.table[k := chain + [NextVersion(k, chain, r, delivery, request)]]);
    ReachesItself(lock, s);
    FreezesNext(lock, s, r, delivery, request);
    ReachesBy(lock, s, s, Freeze(AppendReevaluation(r, delivery, AuditId(k, |chain|), request)), m);
    assert DecisionAt(m.table, k, |chain| + 1) == r;
    Links(lock, m, k, |chain| + 1, disposition, recordIgnored);
    ReachesBy(lock, s, m, OrchestrateStep(k, |chain| + 1, disposition, recordIgnored),
              Relinked(s, r, delivery, request, disposition));
  }

  // ----- a re-evaluation out of its slot -----

  /** Linked to `r`, a row does not answer the duplicate query for `e`. */
  predicate Hides(r: Decision, e: Decision) {
    !SameScope(e, r) || !WithinWindow(e.occurrence.policy.value, e.occurrence.occurredAt, r.occurrence.occurredAt)
  }

  /** Only these two occurrences have executions and logs, both logged for the decisions given. */
  ghost predicate BothLogged(n: State, d: Decision, e: Decision) {
    && Logged(n, KeyOf(d)) && LoggedDecision(n, KeyOf(d)) == d
    && Logged(n, KeyOf(e)) && LoggedDecision(n, KeyOf(e)) == e
    && KeyOf(d) in n.execs && n.execs[KeyOf(d)].leadId == LeadIdOf(d)
    && KeyOf(e) in n.execs && n.execs[KeyOf(e)].leadId == LeadIdOf(e)
  }

  /** Just these decisions were ever frozen. */
  ghost predicate FrozenAre(n: State, d: Decision, later: seq<Decision>, e: Decision) {
    && n.table.Keys == {KeyOf(d), KeyOf(e)}
    && |n.table[KeyOf(d)]| == 1 + |later| && n.table[KeyOf(d)][0].decision == d
    && (forall i :: 0 <= i < |later| ==> n.table[KeyOf(d)][i + 1].decision == later[i])
    && |n.table[KeyOf(e)]| == 1 && n.table[KeyOf(e)][0].decision == e
  }

  /** `d` was re-evaluated to `r`, to which its execution is linked, while its worker was about to commit. */
  ghost predicate Overtaken(p: State, workspaceId: string, d: Decision, r: Decision) {
    var k := KeyOf(d);
    && p.workspaceId == workspaceId && p.workers == map[0 := Checked(JobFor(k, 1, d), None)] && p.reviews == map[]
    && p.table.Keys == {k} && |p.table[k]| == 2 && p.table[k][0].decision == d && p.table[k][1].decision == r
    && p.logs == map[] && p.execs.Keys == {k} && p.execs[k].decision == Some(2)
    && p.execs[k].occurredAt == r.occurrence.occurredAt
  }

  /** Then the worker committed. */
  ghost predicate CommittedBehind(n: State, workspaceId: string, d: Decision, r: Decision) {
    var k := KeyOf(d);
    && n.workspaceId == workspaceId && n.workers == map[0 := Idle] && n.reviews == map[]
    && n.table.Keys == {k} && |n.table[k]| == 2 && n.table[k][0].decision == d && n.table[k][1].decision == r
    && n.logs.Keys == {k} && n.execs.Keys == {k} && n.execs[k].occurredAt == r.occurrence.occurredAt
    && Ended(n, k, n.table[k], 2, 1, None)
  }

  lemma OvertakenIsReachable(lock: Lock, workspaceId: string, d: Decision, r: Decision, disposition: Disposition,
                             recordIgnored: bool)
    requires Candidate(d, workspaceId) && Issued(r) && r.occurrence.workspaceId == workspaceId && KeyOf(r) == KeyOf(d)
    requires Persists(r, disposition, recordIgnored)
    ensures KeyOf(r) in Inside(workspaceId, d).table
    ensures Reaches(lock, Start(workspaceId), Relinked(Inside(workspaceId, d), r, "e", "r", disposition))
    ensures Overtaken(Relinked(Inside(workspaceId, d), r, "e", "r", disposition), workspaceId, d, r)
  {
    var m := Inside(workspaceId, d);
    ShortTexts();
    InsideIsReachable(lock, workspaceId, d);
    RelinkedIsReachable(lock, m, r, "e", "r", disposition, recordIgnored);
    ReachesTransitive(lock, Start(workspaceId), m, Relinked(m, r, "e", "r", disposition));
  }

  lemma OvertakenCommits(lock: Lock, p: State, workspaceId: string, d: Decision, r: Decision) returns (n: State)
    requires Overtaken(p, workspaceId, d, r)
    ensures Reaches(lock, p, n) && CommittedBehind(n, workspaceId, d, r)
  {
    var k := KeyOf(d);
    n := CommitsNow(lock, p, 0, k, 1, d, None);
    forall q ensures q in n.execs <==> q == k {
      assert q in p.execs.Keys <==> q in p.execs;
    }
    assert n.execs.Keys == {k};
    assert n.logs.Keys == {k};
  }

  lemma CommitsBehind(lock: Lock, workspaceId: string, d: Decision, r: Decision, disposition: Disposition,
                      recordIgnored: bool)
    returns (n: State)
    requires Candidate(d, workspaceId) && Issued(r) && r.occurrence.workspaceId == workspaceId && KeyOf(r) == KeyOf(d)
    requires Persists(r, disposition, recordIgnored)
    ensures Reaches(lock, Start(workspaceId), n) && CommittedBehind(n, workspaceId, d, r)
  {
    OvertakenIsReachable(lock, workspaceId, d, r, disposition, recordIgnored);
    var p := Relinked(Inside(workspaceId, d), r, "e", "r", disposition);
    n := OvertakenCommits(lock, p, workspaceId, d, r);
    ReachesTransitive(lock, Start(workspaceId), p, n);
  }

  lemma HiddenFromQuery(m: State, workspaceId: string, d: Decision, r: Decision, e: Decision)
    requires CommittedBehind(m, workspaceId, d, r) && Materializes(e) && KeyOf(e) != KeyOf(d) && Hides(r, e)
    ensures var o := Opened(m, e, "d");
            HasVersion(o.table, KeyOf(e), 1) && QueryAnswer(o, JobFor(KeyOf(e), 1, e), None)
  {
    var k := KeyOf(d);
    var o := Opened(m, e, "d");
    assert HasVersion(o.table, k, 2) && DecisionAt(o.table, k, 2) == r;
    assert HasVersion(o.table, KeyOf(e), 1) && DecisionAt(o.table, KeyOf(e), 1) == e;
    forall q ensures !Conflicts(o, KeyOf(e), e, q) {
      assert q in o.execs ==> q == KeyOf(e) || q in m.execs.Keys;
    }
  }

  lemma BothAreLogged(m: State, n: State, workspaceId: string, d: Decision, r: Decision, e: Decision)
    requires CommittedBehind(m, workspaceId, d, r) && KeyOf(e) != KeyOf(d) && OnlyTouches(m, n, KeyOf(e))
    requires Ended(n, KeyOf(e), [FirstAudit(e, "d")], 1, 1, None)
    ensures BothLogged(n, d, e) && FrozenAre(n, d, [r], e)
  {
    var k := KeyOf(d);
    assert k in m.table.Keys && k in m.execs.Keys && k in m.logs.Keys;
    forall q ensures q in n.table <==> q == k || q == KeyOf(e) {
      assert q in m.table <==> q in m.table.Keys;
    }
    assert n.table.Keys == {k, KeyOf(e)};
  }

  /** An event that the duplicate query would have stopped, had the row still been linked to what was logged. */
  lemma HiddenPairIsReachable(lock: Lock, workspaceId: string, d: Decision, r: Decision, e: Decision,
                              disposition: Disposition, recordIgnored: bool) returns (n: State)
    requires Candidate(d, workspaceId) && Candidate(e, workspaceId) && KeyOf(e) != KeyOf(d)
    requires Issued(r) && r.occurrence.workspaceId == workspaceId && KeyOf(r) == KeyOf(d)
    requires Persists(r, disposition, recordIgnored) && Hides(r, e)
    ensures Reaches(lock, Start(workspaceId), n) && BothLogged(n, d, e) && FrozenAre(n, d, [r], e)
  {
    var m := CommitsBehind(lock, workspaceId, d, r, disposition, recordIgnored);
    ShortTexts();
    HiddenFromQuery(m, workspaceId, d, r, e);
    assert KeyOf(e) !in m.table.Keys && KeyOf(e) !in m.execs.Keys && KeyOf(e) !in m.logs.Keys;
    n := Lives(lock, m, 0, e, "d", None);
    ReachesTransitive(lock, Start(workspaceId), m, n);
    BothAreLogged(m, n, workspaceId, d, r, e);
  }

  /** `r` has a scope, and it shares scope and time with `d`. */
  predicate InSlot(d: Decision, r: Decision) {
    r.occurrence.policy.Some? && Agree(true, d, r)
  }

  /** Another occurrence of the same lead and event, under the policy of the legacy engine. */
  function Twin(d: Decision, suffix: string, at: int): Decision
    requires d.leadResolution.Resolved?
  {
    var o := d.occurrence;
    d.(occurrence := o.(occurrenceKey := o.occurrenceKey + suffix, occurredAt := at,
                        policy := Some(LegacyDedupePolicy(o.eventName, o.workspaceId, d.leadResolution.lead.id))))
  }

  lemma TwinIsCandidate(d: Decision, suffix: string, at: int, workspaceId: string)
    requires Candidate(d, workspaceId) && suffix != ""
    ensures Candidate(Twin(d, suffix, at), workspaceId) && SameScope(d, Twin(d, suffix, at))
    ensures KeyOf(Twin(d, suffix, at)) != KeyOf(d)
  {
    assert |KeyOf(Twin(d, suffix, at)).occurrence| != |KeyOf(d).occurrence|;
  }

  /** A time within a window of `d`, and not of `r` if that shares the scope of `d`. */
  function TimeBetween(d: Decision, r: Decision): int {
    var here, there := d.occurrence.occurredAt, r.occurrence.occurredAt;
    if !SameScope(d, r) || there <= here - WINDOW || here + WINDOW <= there then here
    else if here < there then there - WINDOW
    else there + WINDOW
  }

  /**
   * Whenever an occurrence can be re-evaluated out of its slot, some run of just these two decisions and one of
   * another occurrence breaks the window rule.
   */
  lemma SlotIsNeeded(lock: Lock, workspaceId: string, d: Decision, r: Decision, disposition: Disposition,
                     recordIgnored: bool)
    returns (n: State)
    requires Candidate(d, workspaceId) && Issued(r) && r.occurrence.workspaceId == workspaceId && KeyOf(r) == KeyOf(d)
    requires Persists(r, disposition, recordIgnored) && !InSlot(d, r)
    ensures Reaches(lock, Start(workspaceId), n) && !Apart(WindowRule, n)
    ensures BothLogged(n, d, Twin(d, "'", TimeBetween(d, r))) && FrozenAre(n, d, [r], Twin(d, "'", TimeBetween(d, r)))
  {
    var e := Twin(d, "'", TimeBetween(d, r));
    TwinIsCandidate(d, "'", TimeBetween(d, r), workspaceId);
    if SameScope(d, r) {
      SameScopeSameEvent(d, r);
    }
    assert Hides(r, e) && Clash(WindowRule, d, e);
    n := HiddenPairIsReachable(lock, workspaceId, d, r, e, disposition, recordIgnored);
    assert !Clash(WindowRule, LoggedDecision(n, KeyOf(d)), LoggedDecision(n, KeyOf(e))) ==> false;
  }

  // ----- one message delivered twice, with two phone numbers -----

  /** A decision as the services make it: the lead is looked up by the phone of the contact. */
  predicate Received(d: Decision) {
    d.leadResolution.Resolved? ==> d.occurrence.contactIdentityHash == Some(d.leadResolution.lead.phoneHash)
  }

  function PurchaseOf(leadId: string, phoneHash: string): Decision {
    Decision(DecisionV1, "p", Eligible, AverageValueMessageMatched,
             Occurrence(Message, "u", "w", None, "m", Some(BusinessDedupePolicy(Purchase, "w", leadId)),
                        Purchase, 0, None, Some(phoneHash)),
             RuleSnapshot("rule", MessagePhrase, Purchase, Production, true, None, [], Some(100), Some("BRL"), None,
                          Fixed),
             None, Conversion(None, [], Some(100), None, Some("BRL"), None),
             Resolved(Lead(leadId, phoneHash, "ad", "c")), None)
  }

  /**
   * A message of lead 1 is delivered again with the phone of lead 2, and that delivery is re-evaluated while a
   * worker is about to commit the first. The lead then has two purchases at one instant.
   */
  lemma RedeliveryDoublesAPurchase(lock: Lock) returns (n: State, a: Key, b: Key)
    ensures Init(Start("w")) && Reaches(lock, Start("w"), n)
    ensures a != b && a in n.logs && b in n.logs && a in n.execs && b in n.execs
    ensures n.logs[a].eventName == n.logs[b].eventName == Purchase && n.logs[a].occurredAt == n.logs[b].occurredAt
    ensures n.execs[a].leadId == n.execs[b].leadId == Some("1")
    ensures forall k, v :: HasVersion(n.table, k, v) ==> Received(DecisionAt(n.table, k, v))
  {
    var d, r := PurchaseOf("1", "x"), PurchaseOf("2", "y");
    ScopesOfPurchasesDiffer();
    n := SlotIsNeeded(lock, "w", d, r, MakeEligible, false);
    var e := Twin(d, "'", TimeBetween(d, r));
    a, b := KeyOf(d), KeyOf(e);
    TwinIsCandidate(d, "'", TimeBetween(d, r), "w");
    StartIsInitial("w");
    LogsAreOf(lock, "w", n, d, e);
    FrozenAreReceived(n, d, r, e);
  }

  lemma ScopesOfPurchasesDiffer()
    ensures !SameScope(PurchaseOf("1", "x"), PurchaseOf("2", "y"))
  {
    if SameScope(PurchaseOf("1", "x"), PurchaseOf("2", "y")) {
      ScopeKeyInjective(Purchase, Purchase, "w", "1", "2");
    }
  }

  lemma LogsAreOf(lock: Lock, workspaceId: string, n: State, d: Decision, e: Decision)
    requires Reaches(lock, Start(workspaceId), n) && BothLogged(n, d, e)
    ensures n.logs[KeyOf(d)].eventName == d.occurrence.eventName
            && n.logs[KeyOf(d)].occurredAt == d.occurrence.occurredAt
    ensures n.logs[KeyOf(e)].eventName == e.occurrence.eventName
            && n.logs[KeyOf(e)].occurredAt == e.occurrence.occurredAt
  {
    InitIsSafe(lock, Start(workspaceId));
    var steps :| After(lock, Start(workspaceId), steps) == n;
    RunKeepsBasic(lock, Start(workspaceId), steps);
    assert Recorded(n, KeyOf(d)) && Recorded(n, KeyOf(e));
  }

  lemma FrozenAreReceived(n: State, d: Decision, r: Decision, e: Decision)
    requires FrozenAre(n, d, [r], e) && Received(d) && Received(r) && Received(e)
    ensures forall k, v :: HasVersion(n.table, k, v) ==> Received(DecisionAt(n.table, k, v))
  {
    forall k, v | HasVersion(n.table, k, v) ensures Received(DecisionAt(n.table, k, v)) {
      assert k in n.table.Keys;
      assert v == 1 || n.table[KeyOf(d)][0 + 1].decision == [r][0];
    }
  }

  // ----- the two engines and a lifetime event -----

  lemma OtherRowIsFar(m: State, d: Decision, e: Decision)
    requires m.execs.Keys == {KeyOf(d)} && Ended(m, KeyOf(d), [FirstAudit(d, "d")], 1, 1, None)
    requires m.execs[KeyOf(d)].occurredAt == d.occurrence.occurredAt && KeyOf(e) != KeyOf(d) && Materializes(e)
             && Hides(d, e)
    ensures var o := Opened(m, e, "d");
            HasVersion(o.table, KeyOf(e), 1) && QueryAnswer(o, JobFor(KeyOf(e), 1, e), None)
  {
    var o := Opened(m, e, "d");
    assert HasVersion(o.table, KeyOf(d), 1) && DecisionAt(o.table, KeyOf(d), 1) == d;
    assert HasVersion(o.table, KeyOf(e), 1) && DecisionAt(o.table, KeyOf(e), 1) == e;
    forall q ensures !Conflicts(o, KeyOf(e), e, q) {
      assert q in o.execs ==> q == KeyOf(e) || q in m.execs.Keys;
    }
  }

  lemma OnlyOneLives(lock: Lock, workspaceId: string, d: Decision) returns (n: State)
    requires Candidate(d, workspaceId)
    ensures Reaches(lock, Start(workspaceId), n) && OnlyTouches(Start(workspaceId), n, KeyOf(d))
    ensures Ended(n, KeyOf(d), [FirstAudit(d, "d")], 1, 1, None)
            && n.execs[KeyOf(d)].occurredAt == d.occurrence.occurredAt
    ensures n.workers == map[0 := Idle] && n.execs.Keys == {KeyOf(d)} && n.logs.Keys == {KeyOf(d)}
            && n.table.Keys == {KeyOf(d)}
  {
    var s := Start(workspaceId);
    ShortTexts();
    assert QueryAnswer(Opened(s, d, "d"), JobFor(KeyOf(d), 1, d), None);
    n := Lives(lock, s, 0, d, "d", None);
    assert n.execs.Keys == {KeyOf(d)} && n.logs.Keys == {KeyOf(d)} && n.table.Keys == {KeyOf(d)};
  }

  /**
   * A lifetime event frozen by the canonical engine does not stay the only one when the legacy engine freezes another
   * of the same lead: any such pair a window apart is materialized by some run, whose chains have one version each.
   */
  lemma LifetimeNeedsOneEngine(lock: Lock, workspaceId: string, d: Decision, e: Decision) returns (n: State)
    requires Candidate(d, workspaceId) && Candidate(e, workspaceId) && KeyOf(e) != KeyOf(d) && SameScope(d, e)
    requires d.occurrence.policy.value.Lifetime? && e.occurrence.policy.value.RollingWindow? && !Clash(WindowRule, d, e)
    ensures d.occurrence.eventName == LeadSubmitted
    ensures Reaches(lock, Start(workspaceId), n) && BothLogged(n, d, e) && FrozenAre(n, d, [], e)
    ensures Apart(WindowRule, n) && !Apart(LifetimeRule, n)
  {
    SameScopeSameEvent(d, e);
    var m := OnlyOneLives(lock, workspaceId, d);
    ShortTexts();
    OtherRowIsFar(m, d, e);
    assert KeyOf(e) !in m.table.Keys && KeyOf(e) !in m.execs.Keys && KeyOf(e) !in m.logs.Keys;
    n := Lives(lock, m, 0, e, "d", None);
    ReachesTransitive(lock, Start(workspaceId), m, n);
    PairIsLogged(m, n, d, e);
  }

  lemma PairIsLogged(m: State, n: State, d: Decision, e: Decision)
    requires m.execs.Keys == {KeyOf(d)} && m.logs.Keys == {KeyOf(d)} && m.table.Keys == {KeyOf(d)}
    requires Ended(m, KeyOf(d), [FirstAudit(d, "d")], 1, 1, None) && OnlyTouches(m, n, KeyOf(e)) && KeyOf(e) != KeyOf(d)
    requires Ended(n, KeyOf(e), [FirstAudit(e, "d")], 1, 1, None)
    requires Clash(LifetimeRule, d, e) && !Clash(WindowRule, d, e) && !Clash(WindowRule, e, d)
    ensures BothLogged(n, d, e) && FrozenAre(n, d, [], e) && Apart(WindowRule, n) && !Apart(LifetimeRule, n)
  {
    var k := KeyOf(d);
    assert k in m.table.Keys && k in m.execs.Keys && k in m.logs.Keys;
    forall q ensures q in n.table <==> q == k || q == KeyOf(e) {
      assert q in m.table <==> q in m.table.Keys;
    }
    assert n.table.Keys == {k, KeyOf(e)};
    assert BothLogged(n, d, e);
    assert Clash(LifetimeRule, LoggedDecision(n, k), LoggedDecision(n, KeyOf(e)));
    forall a, b | a != b && Logged(n, a) && Logged(n, b)
      ensures !Clash(WindowRule, LoggedDecision(n, a), LoggedDecision(n, b))
    {
      assert a in n.table.Keys && b in n.table.Keys;
    }
  }

  // ----- a re-evaluation out of its scope -----

  function RequestAt(i: nat): string {
    if i == 1 then "r" else "q"
  }

  /**
   * The chain of `k` holds `chain`, its execution is due under the last version, and one other execution, of
   * `e`, is materialized.
   */
  ghost predicate Contest(s: State, workspaceId: string, k: Key, chain: seq<Decision>, e: Decision) {
    var ke := KeyOf(e);
    && s.workspaceId == workspaceId && s.reviews == map[] && k != ke && chain != []
    && s.table.Keys == {k, ke} && s.execs.Keys == {k, ke} && s.logs.Keys == {ke}
    && |s.table[k]| == |chain| && s.table[k][|chain| - 1].version == |chain|
    && (forall i :: 0 <= i < |chain| ==> s.table[k][i].decision == chain[i])
    && (forall i :: 0 <= i < |chain| ==>
          s.table[k][i].evaluationKey == if i == 0 then Initial else Reevaluation(RequestAt(i)))
    && |s.table[ke]| == 1 && s.table[ke][0].decision == e
    && s.execs[ke].status.ExMaterialized? && s.execs[ke].decision == Some(1)
    && s.execs[ke].occurredAt == e.occurrence.occurredAt
    && var d := chain[|chain| - 1];
       && s.execs[k].status.ExEligible? && s.execs[k].decision == Some(|chain|) && s.execs[k].leadId == LeadIdOf(d)
       && !s.execs[k].hasLog && s.execs[k].occurredAt == d.occurrence.occurredAt
  }

  lemma ContestIsDue(s: State, workspaceId: string, k: Key, chain: seq<Decision>, e: Decision, d: Decision,
                     found: Option<Key>)
    requires Contest(s, workspaceId, k, chain, e) && d == chain[|chain| - 1] && Materializes(d) && Issued(d)
    requires found == (if SameScope(d, e) then Some(KeyOf(e)) else None)
    requires SameScope(d, e) ==> d.occurrence.occurredAt == e.occurrence.occurredAt
    ensures Due(s, k, |chain|, d) && QueryAnswer(s, JobFor(k, |chain|, d), found)
  {
    assert k in s.execs.Keys && KeyOf(e) in s.execs.Keys && k in s.table.Keys;
    forall q ensures q in s.execs ==> q == k || q == KeyOf(e) {
      assert q in s.execs <==> q in s.execs.Keys;
    }
  }

  lemma ContestBegins(lock: Lock, workspaceId: string, d: Decision, e: Decision) returns (n: State)
    requires Candidate(d, workspaceId) && Candidate(e, workspaceId) && KeyOf(e) != KeyOf(d)
    ensures Reaches(lock, Start(workspaceId), n) && Contest(n, workspaceId, KeyOf(d), [d], e)
            && n.workers == map[0 := Idle]
  {
    var m := OnlyOneLives(lock, workspaceId, e);
    ShortTexts();
    assert KeyOf(d) !in m.table.Keys && KeyOf(d) !in m.execs.Keys && KeyOf(d) !in m.logs.Keys;
    assert KeyOf(e) in m.table.Keys && KeyOf(e) in m.execs.Keys;
    Opens(lock, m, d, "d");
    n := Opened(m, d, "d");
    ReachesTransitive(lock, Start(workspaceId), m, n);
    assert n.table.Keys == {KeyOf(d), KeyOf(e)} && n.execs.Keys == {KeyOf(d), KeyOf(e)};
  }

  /** A worker enters on the last version of the chain. */
  lemma ContestEnters(lock: Lock, s: State, w: nat, workspaceId: string, k: Key, chain: seq<Decision>, e: Decision,
                      d: Decision, found: Option<Key>) returns (n: State)
    requires Contest(s, workspaceId, k, chain, e) && d == chain[|chain| - 1] && Materializes(d) && Issued(d)
    requires found == (if SameScope(d, e) then Some(KeyOf(e)) else None)
    requires SameScope(d, e) ==> d.occurrence.occurredAt == e.occurrence.occurredAt
    requires WorkerAt(s, w).Idle? && LockIsFree(lock, s, w, d)
    ensures Reaches(lock, s, n) && Contest(n, workspaceId, k, chain, e) && n.table == s.table
    ensures n.workers == s.workers[w := Checked(JobFor(k, |chain|, d), found)]
  {
    ContestIsDue(s, workspaceId, k, chain, e, d, found);
    Enters(lock, s, w, k, |chain|, d, found);
    n := SetWorker(CountAttempt(s, k), w, Checked(JobFor(k, |chain|, d), found));
    assert n.execs.Keys == s.execs.Keys;
  }

  lemma RelinkedKeepsContest(s: State, workspaceId: string, k: Key, chain: seq<Decision>, e: Decision, r: Decision)
    requires Contest(s, workspaceId, k, chain, e) && KeyOf(r) == k && k in s.table
    ensures Contest(Relinked(s, r, "e", RequestAt(|chain|), MakeEligible), workspaceId, k, chain + [r], e)
  {
    var n := Relinked(s, r, "e", RequestAt(|chain|), MakeEligible);
    assert k in s.table.Keys && k in s.execs.Keys;
    assert n.table.Keys == s.table.Keys && n.execs.Keys == s.execs.Keys;
    assert n.table[k] == s.table[k] + [NextVersion(k, s.table[k], r, "e", RequestAt(|chain|))];
    assert KeyOf(e) in s.table.Keys && KeyOf(e) in s.execs.Keys;
  }

  /** The occurrence is re-evaluated to `r`. */
  lemma ContestGrows(lock: Lock, s: State, workspaceId: string, k: Key, chain: seq<Decision>, e: Decision, r: Decision)
    returns (n: State)
    requires Contest(s, workspaceId, k, chain, e) && |chain| <= 2 && Candidate(r, workspaceId) && KeyOf(r) == k
    ensures Reaches(lock, s, n) && Contest(n, workspaceId, k, chain + [r], e) && n.workers == s.workers
  {
    ShortTexts();
    assert k in s.table.Keys && k in s.execs.Keys;
    n := Relinked(s, r, "e", RequestAt(|chain|), MakeEligible);
    RelinkedKeepsContest(s, workspaceId, k, chain, e, r);
    RelinkedIsReachable(lock, s, r, "e", RequestAt(|chain|), MakeEligible, false);
  }

  /** The lock tells the scopes of two decisions apart. */
  predicate TellsApart(lock: Lock, d: Decision, r: Decision)
    requires d.occurrence.policy.Some? && r.occurrence.policy.Some?
  {
    lock(d.occurrence.policy.value.scopeKey, d.occurrence.eventName)
    != lock(r.occurrence.policy.value.scopeKey, r.occurrence.eventName)
  }

  /** Two workers are about to commit one execution, for the first and the second version of its chain. */
  ghost predicate Standoff(s: State, workspaceId: string, d: Decision, r: Decision, e: Decision) {
    && Contest(s, workspaceId, KeyOf(d), [d, r, d], e)
    && s.workers == map[0 := Checked(JobFor(KeyOf(d), 1, d), None),
                        1 := Checked(JobFor(KeyOf(d), 2, r), Some(KeyOf(e)))]
  }

  /** The first worker is inside, on the only version; then the occurrence is re-evaluated. */
  lemma ReevaluationIsReachable(lock: Lock, workspaceId: string, d: Decision, r: Decision, e: Decision)
    returns (n: State)
    requires Candidate(d, workspaceId) && Candidate(r, workspaceId) && Candidate(e, workspaceId)
    requires KeyOf(r) == KeyOf(d) != KeyOf(e) && !SameScope(d, e)
    ensures Reaches(lock, Start(workspaceId), n) && Contest(n, workspaceId, KeyOf(d), [d, r], e)
    ensures n.workers == map[0 := Checked(JobFor(KeyOf(d), 1, d), None)]
  {
    var s, k := Start(workspaceId), KeyOf(d);
    var a := ContestBegins(lock, workspaceId, d, e);
    var b := ContestEnters(lock, a, 0, workspaceId, k, [d], e, d, None);
    ReachesTransitive(lock, s, a, b);
    n := ContestGrows(lock, b, workspaceId, k, [d], e, r);
    ReachesTransitive(lock, s, b, n);
    assert [d] + [r] == [d, r];
  }

  lemma SecondLockIsFree(lock: Lock, s: State, workspaceId: string, d: Decision, r: Decision, e: Decision)
    requires Contest(s, workspaceId, KeyOf(d), [d, r], e)
             && s.workers == map[0 := Checked(JobFor(KeyOf(d), 1, d), None)]
    requires d.occurrence.policy.Some? && r.occurrence.policy.Some? && TellsApart(lock, d, r)
    ensures LockIsFree(lock, s, 1, r)
  {
    assert KeyOf(d) in s.table.Keys && s.table[KeyOf(d)][0].decision == [d, r][0];
  }

  lemma StandoffIsReachable(lock: Lock, workspaceId: string, d: Decision, r: Decision, e: Decision) returns (n: State)
    requires Candidate(d, workspaceId) && Candidate(r, workspaceId) && Candidate(e, workspaceId)
    requires KeyOf(r) == KeyOf(d) != KeyOf(e) && !SameScope(d, e) && SameScope(r, e) && TellsApart(lock, d, r)
    requires r.occurrence.occurredAt == e.occurrence.occurredAt
    ensures Reaches(lock, Start(workspaceId), n) && Standoff(n, workspaceId, d, r, e)
  {
    var s, k := Start(workspaceId), KeyOf(d);
    var c := ReevaluationIsReachable(lock, workspaceId, d, r, e);
    SecondLockIsFree(lock, c, workspaceId, d, r, e);
    var f := ContestEnters(lock, c, 1, workspaceId, k, [d, r], e, r, Some(KeyOf(e)));
    ReachesTransitive(lock, s, c, f);
    n := ContestGrows(lock, f, workspaceId, k, [d, r], e, d);
    ReachesTransitive(lock, s, f, n);
    assert [d, r] + [d] == [d, r, d];
  }

  /** The first worker has committed; the execution is materialized, and the second worker still about to commit. */
  ghost predicate Settled(s: State, workspaceId: string, d: Decision, r: Decision, e: Decision) {
    var k, ke := KeyOf(d), KeyOf(e);
    && s.workspaceId == workspaceId && s.reviews == map[] && k != ke
    && s.workers == map[0 := Idle, 1 := Checked(JobFor(k, 2, r), Some(ke))]
    && s.table.Keys == {k, ke} && s.execs.Keys == {k, ke} && s.logs.Keys == {k, ke}
    && |s.table[k]| == 3 && s.table[k][1].decision == r && s.table[k][2].decision == d
    && |s.table[ke]| == 1 && s.table[ke][0].decision == e
    && s.execs[ke].decision == Some(1)
    && s.execs[k].status.ExMaterialized? && s.execs[k].decision == Some(3)
    && s.execs[k].occurredAt == d.occurrence.occurredAt
  }

  lemma StandoffSettles(lock: Lock, s: State, workspaceId: string, d: Decision, r: Decision, e: Decision)
    returns (n: State)
    requires Standoff(s, workspaceId, d, r, e)
    ensures Reaches(lock, s, n) && Settled(n, workspaceId, d, r, e)
  {
    var k, ke := KeyOf(d), KeyOf(e);
    assert k in s.table.Keys && k in s.execs.Keys && ke in s.execs.Keys && ke in s.table.Keys && ke in s.logs.Keys;
    assert k !in s.logs.Keys;
    assert s.table[k][0].decision == [d, r, d][0] && s.table[k][1].decision == [d, r, d][1]
           && s.table[k][2].decision == [d, r, d][2];
    n := CommitsNow(lock, s, 0, k, 1, d, None);
    forall q ensures (q in n.execs <==> q in {k, ke}) && (q in n.logs <==> q in {k, ke}) {
      assert (q in s.execs <==> q in s.execs.Keys) && (q in s.logs <==> q in s.logs.Keys);
    }
    assert n.execs.Keys == {k, ke} && n.logs.Keys == {k, ke};
  }

  lemma SettledAnswers(s: State, workspaceId: string, d: Decision, r: Decision, e: Decision, f: Decision)
    requires Settled(s, workspaceId, d, r, e) && Candidate(f, workspaceId) && KeyOf(f) != KeyOf(d)
             && KeyOf(f) != KeyOf(e)
    requires SameScope(f, d) && f.occurrence.occurredAt == d.occurrence.occurredAt
    ensures Unknown(s, f)
    ensures var o := Opened(s, f, "d");
            HasVersion(o.table, KeyOf(f), 1) && QueryAnswer(o, JobFor(KeyOf(f), 1, f), Some(KeyOf(d)))
  {
    var o := Opened(s, f, "d");
    assert KeyOf(d) in s.table.Keys && KeyOf(d) in s.execs.Keys;
    assert KeyOf(f) !in s.table.Keys && KeyOf(f) !in s.execs.Keys && KeyOf(f) !in s.logs.Keys;
    assert HasVersion(o.table, KeyOf(d), 3) && DecisionAt(o.table, KeyOf(d), 3) == d;
    assert HasVersion(o.table, KeyOf(f), 1) && DecisionAt(o.table, KeyOf(f), 1) == f;
  }

  lemma SettledLockIsFree(lock: Lock, s: State, workspaceId: string, d: Decision, r: Decision, e: Decision, f: Decision)
    requires Settled(s, workspaceId, d, r, e) && KeyOf(f) != KeyOf(d)
    requires f.occurrence.policy.Some? && r.occurrence.policy.Some? && TellsApart(lock, f, r)
    ensures LockIsFree(lock, Opened(s, f, "d"), 2, f)
  {
    assert KeyOf(d) in s.table.Keys;
  }

  /** A third occurrence became a duplicate, for which the materialized execution is the only witness. */
  ghost predicate Pending(n: State, workspaceId: string, d: Decision, r: Decision, e: Decision, f: Decision) {
    var k, ke, kf := KeyOf(d), KeyOf(e), KeyOf(f);
    && k != ke && k != kf && ke != kf && n.workspaceId == workspaceId
    && WorkerAt(n, 1) == Checked(JobFor(k, 2, r), Some(ke))
    && k in n.table && |n.table[k]| == 3 && n.table[k][1].decision == r
    && ke in n.table && |n.table[ke]| == 1 && n.table[ke][0].decision == e
    && kf in n.table && |n.table[kf]| == 1 && n.table[kf][0].decision == f
    && n.execs.Keys == {k, ke, kf} && k in n.logs && n.execs[ke].decision == Some(1)
    && n.execs[k].status.ExMaterialized? && n.execs[k].decision == Some(3)
    && n.execs[kf].status.ExDuplicate? && n.execs[kf].decision == Some(1)
  }

  lemma ThirdIsDuplicate(lock: Lock, s: State, workspaceId: string, d: Decision, r: Decision, e: Decision, f: Decision)
    returns (n: State)
    requires Settled(s, workspaceId, d, r, e) && Candidate(f, workspaceId) && KeyOf(f) != KeyOf(d)
             && KeyOf(f) != KeyOf(e)
    requires SameScope(f, d) && f.occurrence.occurredAt == d.occurrence.occurredAt
    requires r.occurrence.policy.Some? && TellsApart(lock, f, r)
    ensures Reaches(lock, s, n) && Pending(n, workspaceId, d, r, e, f)
  {
    ShortTexts();
    SettledAnswers(s, workspaceId, d, r, e, f);
    SettledLockIsFree(lock, s, workspaceId, d, r, e, f);
    n := Lives(lock, s, 2, f, "d", Some(KeyOf(d)));
    ThirdIsPending(s, n, workspaceId, d, r, e, f);
  }

  lemma ThirdIsPending(s: State, n: State, workspaceId: string, d: Decision, r: Decision, e: Decision, f: Decision)
    requires Settled(s, workspaceId, d, r, e) && KeyOf(f) != KeyOf(d) && KeyOf(f) != KeyOf(e)
    requires OnlyTouches(s, n, KeyOf(f)) && Ended(n, KeyOf(f), [FirstAudit(f, "d")], 1, 1, Some(KeyOf(d)))
    requires n.workers == s.workers[2 := Idle]
    ensures Pending(n, workspaceId, d, r, e, f)
  {
    var k, ke, kf := KeyOf(d), KeyOf(e), KeyOf(f);
    assert k in s.table.Keys && k in s.execs.Keys && k in s.logs.Keys && ke in s.execs.Keys && ke in s.table.Keys;
    forall q ensures q in n.execs <==> q in {k, ke, kf} {
      assert q in s.execs <==> q in s.execs.Keys;
    }
    assert n.execs.Keys == {k, ke, kf};
  }

  /** The second commit marks the materialized execution a duplicate, and the third loses its witness. */
  lemma PendingCommits(lock: Lock, n: State, workspaceId: string, d: Decision, r: Decision, e: Decision, f: Decision)
    returns (m: State)
    requires Pending(n, workspaceId, d, r, e, f) && !SameScope(f, e)
    ensures Reaches(lock, n, m)
    ensures KeyOf(d) in m.execs && m.execs[KeyOf(d)].status.ExDuplicate? && KeyOf(d) in m.logs
    ensures Linked(m, KeyOf(f)) && m.execs[KeyOf(f)].status.ExDuplicate? && !HasWitness(m, KeyOf(f))
  {
    var k, ke, kf := KeyOf(d), KeyOf(e), KeyOf(f);
    assert k in n.execs.Keys && ke in n.execs.Keys && kf in n.execs.Keys;
    assert DecisionAt(n.table, k, 2) == r;
    m := CommitsNow(lock, n, 1, k, 2, r, Some(ke));
    assert DecisionAt(m.table, kf, 1) == f && DecisionAt(m.table, ke, 1) == e;
    forall v, b | HasVersion(m.table, kf, v) ensures !Conflicts(m, kf, DecisionAt(m.table, kf, v), b) {
      assert b in m.execs ==> b == k || b in n.execs.Keys;
    }
  }

  /**
   * Whenever an occurrence can be re-evaluated to another scope with another lock, some run of the two decisions
   * and twins of them turns a materialized execution, with its log, into a duplicate, and leaves another duplicate
   * without any execution it duplicates.
   */
  lemma ScopeIsNeeded(lock: Lock, workspaceId: string, d: Decision, r: Decision) returns (n: State, m: State, f: Key)
    requires Candidate(d, workspaceId) && Candidate(r, workspaceId) && KeyOf(r) == KeyOf(d)
    requires !SameScope(d, r) && TellsApart(lock, d, r)
    ensures Reaches(lock, Start(workspaceId), n) && Reaches(lock, n, m)
    ensures var k := KeyOf(d);
            && k in n.execs && n.execs[k].status.ExMaterialized? && k in n.logs && !Kept(n, m, k)
            && k in m.execs && m.execs[k].status.ExDuplicate? && k in m.logs && !LogsMatch(m)
    ensures Linked(m, f) && m.execs[f].status.ExDuplicate? && !HasWitness(m, f)
  {
    var e, g := Twin(r, "'", r.occurrence.occurredAt), Twin(d, "''", d.occurrence.occurredAt);
    TwinIsCandidate(r, "'", r.occurrence.occurredAt, workspaceId);
    TwinIsCandidate(d, "''", d.occurrence.occurredAt, workspaceId);
    assert |KeyOf(e).occurrence| == |KeyOf(d).occurrence| + 1 && |KeyOf(g).occurrence| == |KeyOf(d).occurrence| + 2;
    f := KeyOf(g);
    var p := StandoffIsReachable(lock, workspaceId, d, r, e);
    var q := StandoffSettles(lock, p, workspaceId, d, r, e);
    n := ThirdIsDuplicate(lock, q, workspaceId, d, r, e, g);
    m := PendingCommits(lock, n, workspaceId, d, r, e, g);
    ReachesTransitive(lock, Start(workspaceId), p, q);
    ReachesTransitive(lock, Start(workspaceId), q, n);
    assert KeyOf(d) in n.execs.Keys;
  }

  // ----- a second commit on one log -----

  /** Two workers are about to commit one execution, for the two versions of its chain, both without a duplicate. */
  ghost predicate Race(p: State, workspaceId: string, d: Decision, r: Decision) {
    var k := KeyOf(d);
    && p.workspaceId == workspaceId && p.reviews == map[] && p.logs == map[]
    && p.workers == map[0 := Checked(JobFor(k, 1, d), None), 1 := Checked(JobFor(k, 2, r), None)]
    && k in p.table && |p.table[k]| == 2 && p.table[k][0].decision == d && p.table[k][1].decision == r
    && k in p.execs && p.execs[k].decision == Some(2)
  }

  lemma OvertakenIsDue(lock: Lock, p: State, workspaceId: string, d: Decision, r: Decision)
    requires Candidate(d, workspaceId) && Candidate(r, workspaceId) && KeyOf(r) == KeyOf(d) && TellsApart(lock, d, r)
    requires p == Relinked(Inside(workspaceId, d), r, "e", "r", MakeEligible) && Overtaken(p, workspaceId, d, r)
    ensures Due(p, KeyOf(d), 2, r) && WorkerAt(p, 1).Idle? && LockIsFree(lock, p, 1, r)
    ensures QueryAnswer(p, JobFor(KeyOf(d), 2, r), None)
  {
    var k := KeyOf(d);
    assert k in p.table.Keys && k in p.execs.Keys;
    forall q ensures q in p.execs ==> q == k {
      assert q in p.execs <==> q in p.execs.Keys;
    }
  }

  lemma RaceIsReachable(lock: Lock, workspaceId: string, d: Decision, r: Decision) returns (n: State)
    requires Candidate(d, workspaceId) && Candidate(r, workspaceId) && KeyOf(r) == KeyOf(d) && TellsApart(lock, d, r)
    ensures Reaches(lock, Start(workspaceId), n) && Race(n, workspaceId, d, r)
  {
    var k := KeyOf(d);
    OvertakenIsReachable(lock, workspaceId, d, r, MakeEligible, false);
    var p := Relinked(Inside(workspaceId, d), r, "e", "r", MakeEligible);
    OvertakenIsDue(lock, p, workspaceId, d, r);
    Enters(lock, p, 1, k, 2, r, None);
    n := SetWorker(CountAttempt(p, k), 1, Checked(JobFor(k, 2, r), None));
    ReachesTransitive(lock, Start(workspaceId), p, n);
    assert k in p.table.Keys && k in p.execs.Keys;
  }

  /**
   * Whenever an occurrence can be re-evaluated to another scope with another lock, and the second decision supplies a
   * value or currency the first one lacks, some run of just the two leaves a log that names the first version and
   * carries what the second one supplied.
   */
  lemma SecondCommitFillsLog(lock: Lock, workspaceId: string, d: Decision, r: Decision) returns (n: State)
    requires Candidate(d, workspaceId) && Candidate(r, workspaceId) && KeyOf(r) == KeyOf(d) && TellsApart(lock, d, r)
    ensures Reaches(lock, Start(workspaceId), n)
    ensures var k := KeyOf(d);
            && Logged(n, k) && LoggedDecision(n, k) == d
            && n.logs[k].valueCents == OrElse(LoggedValue(d), LoggedValue(r))
            && n.logs[k].currency == OrElse(LoggedCurrency(d), LoggedCurrency(r))
            && (WrittenAs(n.logs[k], d) <==>
                  && (LoggedValue(d).None? ==> LoggedValue(r).None?)
                  && (LoggedCurrency(d).None? ==> LoggedCurrency(r).None?))
  {
    var k := KeyOf(d);
    var p := RaceIsReachable(lock, workspaceId, d, r);
    assert DecisionAt(p.table, k, 1) == d && DecisionAt(p.table, k, 2) == r;
    var q := CommitsNow(lock, p, 0, k, 1, d, None);
    n := MergesNow(lock, q, 1, k, 2, r);
    ReachesTransitive(lock, Start(workspaceId), p, q);
    ReachesTransitive(lock, Start(workspaceId), q, n);
  }

  /** A page view of a lead, whose rule has a default value or none. */
  function ViewOf(leadId: string, phoneHash: string, value: Option<nat>): Decision {
    var d := PurchaseOf(leadId, phoneHash);
    var currency := if value.Some? then Some("BRL") else None;
    var policy := BusinessDedupePolicy(ViewContent, "w", leadId);
    d.(occurrence := d.occurrence.(eventName := ViewContent, policy := Some(policy)),
       rule := d.rule.(eventName := ViewContent, defaultValueCents := value, defaultCurrency := currency),
       conversion := Conversion(None, [], value, None, currency, None))
  }

  /**
   * A page view of lead 1, for a rule without a value, is delivered again with the phone of lead 2, once the rule has
   * a default value. If the lock tells the leads apart, the event of lead 1 can end up with the value of lead 2.
   */
  lemma RedeliveryValuesALog(lock: Lock) returns (n: State, k: Key)
    requires TellsApart(lock, ViewOf("1", "x", None), ViewOf("2", "y", Some(100)))
    ensures Init(Start("w")) && Reaches(lock, Start("w"), n)
    ensures Logged(n, k) && LoggedDecision(n, k).conversion.valueCents == None && n.logs[k].valueCents == Some(100)
    ensures Received(ViewOf("1", "x", None)) && Received(ViewOf("2", "y", Some(100)))
  {
    var d, r := ViewOf("1", "x", None), ViewOf("2", "y", Some(100));
    k := KeyOf(d);
    n := SecondCommitFillsLog(lock, "w", d, r);
  }
}
