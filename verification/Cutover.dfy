/** Handing the delivery of one event type after the other over to this system, and back. */
module Cutover {
  import opened Wrappers

  datatype EventType = ConversationStarted | QualifiedLead | Purchase

  const EVENT_TYPES: nat := 3

  datatype CutoverRow = CutoverRow(eventType: EventType, active: bool, activatedAt: nat, archivedRows: nat)

  datatype LogStatus =
    | ReadyToSend | ShadowObserved | ImportedLog | NotEligible | PendingContext | PendingValue | SentLog | FailedLog

  datatype Log = Log(eventType: EventType, status: LogStatus, occurredAt: nat)

  /** A delivery to Meta: the event, and the cutover under which the send gate let it pass. */
  datatype Delivery = Delivery(key: string, eventType: EventType, occurredAt: nat, activatedAt: nat)

  datatype Connector = Connector(
    cutovers: seq<CutoverRow>, capiSendEnabled: bool, shadowMode: bool,
    logs: map<string, Log>, delivered: seq<Delivery>)

  // ----- active cutovers -----

  /** The first active cutover of a type. */
  function ActiveAt(cutovers: seq<CutoverRow>, t: EventType): (at: Option<nat>)
    ensures at.Some? ==>
        exists i :: 0 <= i < |cutovers| && cutovers[i].active && cutovers[i].eventType == t
            && cutovers[i].activatedAt == at.value
    ensures at.None? ==> forall i :: 0 <= i < |cutovers| ==> !(cutovers[i].active && cutovers[i].eventType == t)
  {
    if cutovers == [] then None
    else if cutovers[0].active && cutovers[0].eventType == t then Some(cutovers[0].activatedAt)
    else ActiveAt(cutovers[1..], t)
  }

  function ActiveCount(cutovers: seq<CutoverRow>): nat {
    if cutovers == [] then 0 else (if cutovers[0].active then 1 else 0) + ActiveCount(cutovers[1..])
  }

  function CountOf(cutovers: seq<CutoverRow>, t: EventType): nat {
    if cutovers == [] then 0
    else (if cutovers[0].active && cutovers[0].eventType == t then 1 else 0) + CountOf(cutovers[1..], t)
  }

  lemma {:induction false} CountsAddUp(cutovers: seq<CutoverRow>)
    ensures ActiveCount(cutovers)
            == CountOf(cutovers, ConversationStarted) + CountOf(cutovers, QualifiedLead) + CountOf(cutovers, Purchase)
  {
    if cutovers != [] {
      CountsAddUp(cutovers[1..]);
    }
  }

  lemma {:induction false} ActiveIsCounted(cutovers: seq<CutoverRow>, t: EventType)
    ensures ActiveAt(cutovers, t).Some? <==> CountOf(cutovers, t) > 0
  {
    if cutovers != [] {
      ActiveIsCounted(cutovers[1..], t);
    }
  }

  // ----- the steps -----

  /** `activateCapiCutover` and `rollbackCapiCutover` set both flags from the number of active cutovers. */
  function WithFlags(c: Connector): Connector {
    c.(capiSendEnabled := ActiveCount(c.cutovers) > 0, shadowMode := ActiveCount(c.cutovers) < EVENT_TYPES)
  }

  predicate IsArchived(l: Log, t: EventType, limit: Option<nat>) {
    l.eventType == t && l.status.ReadyToSend? && (limit.Some? ==> l.occurredAt < limit.value)
  }

  /** `updateMany`: ready logs of the type, before `limit` when there is one, become shadow-observed. */
  function Archive(logs: map<string, Log>, t: EventType, limit: Option<nat>): map<string, Log> {
    map k | k in logs :: if IsArchived(logs[k], t, limit) then logs[k].(status := ShadowObserved) else logs[k]
  }

  function ArchivedKeys(logs: map<string, Log>, t: EventType, limit: Option<nat>): set<string> {
    set k | k in logs && IsArchived(logs[k], t, limit)
  }

  function Activate(c: Connector, t: EventType, now: nat): Connector {
    if ActiveAt(c.cutovers, t).Some? then c
    else
      var row := CutoverRow(t, true, now, |ArchivedKeys(c.logs, t, Some(now))|);
      WithFlags(c.(logs := Archive(c.logs, t, Some(now)), cutovers := c.cutovers + [row]))
  }

  /** Rolls back the first active cutover of the type. */
  function RolledBack(cutovers: seq<CutoverRow>, t: EventType): seq<CutoverRow> {
    if cutovers == [] then []
    else if cutovers[0].active && cutovers[0].eventType == t then [cutovers[0].(active := false)] + cutovers[1..]
    else [cutovers[0]] + RolledBack(cutovers[1..], t)
  }

  function Rollback(c: Connector, t: EventType): Connector {
    if ActiveAt(c.cutovers, t).None? then c
    else WithFlags(c.(logs := Archive(c.logs, t, None), cutovers := RolledBack(c.cutovers, t)))
  }

  /** What a sync run loads before it ingests: `connectorContext`. */
  datatype Context = Context(cutoverAt: EventType -> Option<nat>, capiSendEnabled: bool, shadowMode: bool)

  function FreshContext(c: Connector): Context {
    Context(t => ActiveAt(c.cutovers, t), c.capiSendEnabled, c.shadowMode)
  }

  /** `isLiveEvent`. */
  predicate IsLive(ctx: Context, t: EventType, occurredAt: nat) {
    var cutoverAt := ctx.cutoverAt(t);
    if cutoverAt.Some? then occurredAt >= cutoverAt.value else ctx.capiSendEnabled && !ctx.shadowMode
  }

  /**
   * An external event: its log key, its type and time, whether it carries a click id, and the status its data allow.
   */
  datatype Event = Event(key: string, eventType: EventType, occurredAt: nat, historical: bool, hasClickId: bool,
                         resolved: LogStatus)

  /** `ingestNew` down to `resolveExternalInitialStatus`. */
  function InitialStatus(ctx: Context, e: Event): LogStatus {
    var cutoverAt := ctx.cutoverAt(e.eventType);
    if e.historical then ImportedLog
    else if !e.hasClickId then NotEligible
    else if cutoverAt.Some? && e.occurredAt < cutoverAt.value then ShadowObserved
    else e.resolved
  }

  /** `recordExternalConversion`: create the log, or promote one that was only imported. */
  function Record(logs: map<string, Log>, ctx: Context, e: Event): map<string, Log> {
    if e.key !in logs then logs[e.key := Log(e.eventType, InitialStatus(ctx, e), e.occurredAt)]
    else if logs[e.key].status.ImportedLog? && !e.historical
    then logs[e.key := Log(logs[e.key].eventType, InitialStatus(ctx, e), e.occurredAt)]
    else logs
  }

  function IngestEvent(c: Connector, ctx: Context, e: Event): Connector {
    c.(logs := Record(c.logs, ctx, e))
  }

  /** Whether `ingestNew` puts the log on the delivery queue. */
  predicate Enqueues(c: Connector, ctx: Context, e: Event) {
    Record(c.logs, ctx, e)[e.key].status.ReadyToSend? && IsLive(ctx, e.eventType, e.occurredAt)
  }

  /** The cutover the send gate finds: active, of this type, and not after the event. */
  function OwnedSince(cutovers: seq<CutoverRow>, t: EventType, occurredAt: nat): (at: Option<nat>)
    ensures at.Some? ==>
        exists i :: 0 <= i < |cutovers| && cutovers[i].active && cutovers[i].eventType == t
            && cutovers[i].activatedAt == at.value
    ensures at.Some? ==> at.value <= occurredAt
    ensures at.None? ==> forall i :: 0 <= i < |cutovers| && cutovers[i].active && cutovers[i].eventType == t ==>
                           cutovers[i].activatedAt > occurredAt
  {
    if cutovers == [] then None
    else if cutovers[0].active && cutovers[0].eventType == t && cutovers[0].activatedAt <= occurredAt
    then Some(cutovers[0].activatedAt)
    else OwnedSince(cutovers[1..], t, occurredAt)
  }

  /** `sendReadyEvent`: the gate, then the delivery. */
  function Send(c: Connector, key: string, succeeds: bool): Connector {
    if key !in c.logs || !c.logs[key].status.ReadyToSend? then c
    else
      var l := c.logs[key];
      var owned := OwnedSince(c.cutovers, l.eventType, l.occurredAt);
      if owned.None? then c.(logs := c.logs[key := l.(status := ShadowObserved)])
      else
        c.(logs := c.logs[key := l.(status := if succeeds then SentLog else FailedLog)],
           delivered := c.delivered + [Delivery(key, l.eventType, l.occurredAt, owned.value)])
  }

  datatype Op =
    | OpActivate(t: EventType, now: nat)
    | OpRollback(t: EventType)
    | OpIngest(ctx: Context, e: Event)
    | OpSend(key: string, succeeds: bool)

  function Apply(c: Connector, op: Op): Connector {
    match op
    case OpActivate(t, now) => Activate(c, t, now)
    case OpRollback(t) => Rollback(c, t)
    case OpIngest(ctx, e) => IngestEvent(c, ctx, e)
    case OpSend(key, succeeds) => Send(c, key, succeeds)
  }

  function Run(c: Connector, ops: seq<Op>): Connector
    decreases |ops|
  {
    if ops == [] then c else Run(Apply(c, ops[0]), ops[1..])
  }

  // ----- what every run keeps -----

  ghost predicate OneActivePerType(cutovers: seq<CutoverRow>) {
    forall t :: CountOf(cutovers, t) <= 1
  }

  predicate FlagsAgree(c: Connector) {
    && (c.capiSendEnabled <==> ActiveCount(c.cutovers) > 0)
    && (c.shadowMode <==> ActiveCount(c.cutovers) < EVENT_TYPES)
  }

  ghost predicate DeliveriesOwned(c: Connector) {
    forall i :: 0 <= i < |c.delivered| ==> c.delivered[i].activatedAt <= c.delivered[i].occurredAt
  }

  ghost predicate ReadyAfterCutover(c: Connector, k: string)
    requires k in c.logs
  {
    var at := ActiveAt(c.cutovers, c.logs[k].eventType);
    c.logs[k].status.ReadyToSend? && at.Some? ==> at.value <= c.logs[k].occurredAt
  }

  /** No log that is ready to send predates the active cutover of its type. */
  ghost predicate NoneReadyTooEarly(c: Connector) {
    forall k :: k in c.logs ==> ReadyAfterCutover(c, k)
  }

  lemma {:induction false} CountOfAppend(cutovers: seq<CutoverRow>, row: CutoverRow, t: EventType)
    ensures CountOf(cutovers + [row], t) == CountOf(cutovers, t) + if row.active && row.eventType == t then 1 else 0
  {
    if cutovers == [] {
      assert cutovers + [row] == [row];
    } else {
      assert (cutovers + [row])[1..] == cutovers[1..] + [row];
      CountOfAppend(cutovers[1..], row, t);
    }
  }

  lemma {:induction false} CountOfRolledBack(cutovers: seq<CutoverRow>, t: EventType, u: EventType)
    ensures CountOf(RolledBack(cutovers, t), u)
            == CountOf(cutovers, u) - if u == t && ActiveAt(cutovers, t).Some? then 1 else 0
  {
    if cutovers != [] {
      var rest := RolledBack(cutovers, t)[1..];
      if cutovers[0].active && cutovers[0].eventType == t {
        assert rest == cutovers[1..];
      } else {
        assert rest == RolledBack(cutovers[1..], t);
        CountOfRolledBack(cutovers[1..], t, u);
      }
    }
  }

  /** No row goes, and those of other types stay as they are. */
  lemma {:induction false} RolledBackRows(cutovers: seq<CutoverRow>, t: EventType)
    ensures |RolledBack(cutovers, t)| == |cutovers|
    ensures forall i :: 0 <= i < |cutovers| ==>
              RolledBack(cutovers, t)[i] == cutovers[i]
              || (cutovers[i].eventType == t && RolledBack(cutovers, t)[i] == cutovers[i].(active := false))
  {
    if cutovers != [] {
      RolledBackRows(cutovers[1..], t);
    }
  }

  lemma {:induction false} ActiveAtAppend(cutovers: seq<CutoverRow>, row: CutoverRow, t: EventType)
    ensures ActiveAt(cutovers + [row], t)
            == if ActiveAt(cutovers, t).Some? then ActiveAt(cutovers, t)
               else if row.active && row.eventType == t then Some(row.activatedAt) else None
  {
    if cutovers == [] {
      assert cutovers + [row] == [row];
    } else {
      assert (cutovers + [row])[1..] == cutovers[1..] + [row];
      ActiveAtAppend(cutovers[1..], row, t);
    }
  }

  lemma {:induction false} ActiveAtRolledBack(cutovers: seq<CutoverRow>, t: EventType, u: EventType)
    requires u != t
    ensures ActiveAt(RolledBack(cutovers, t), u) == ActiveAt(cutovers, u)
  {
    if cutovers != [] {
      var rest := RolledBack(cutovers, t)[1..];
      if cutovers[0].active && cutovers[0].eventType == t {
        assert rest == cutovers[1..];
      } else {
        assert rest == RolledBack(cutovers[1..], t);
        ActiveAtRolledBack(cutovers[1..], t, u);
      }
    }
  }

  lemma StepKeepsOneActive(c: Connector, op: Op)
    requires OneActivePerType(c.cutovers)
    ensures OneActivePerType(Apply(c, op).cutovers)
  {
    forall u ensures CountOf(Apply(c, op).cutovers, u) <= 1 {
      match op
      case OpActivate(t, now) =>
        ActiveIsCounted(c.cutovers, t);
        CountOfAppend(c.cutovers, CutoverRow(t, true, now, |ArchivedKeys(c.logs, t, Some(now))|), u);
      case OpRollback(t) => CountOfRolledBack(c.cutovers, t, u);
      case _ =>
    }
  }

  predicate Predates(cutoverAt: Option<nat>, occurredAt: nat) {
    cutoverAt.Some? && occurredAt < cutoverAt.value
  }

  /** The event is recorded as ready, or an imported log promoted to ready, unless it predates the cutover known. */
  predicate MayBecomeReady(c: Connector, e: Event) {
    && !e.historical && e.hasClickId && e.resolved.ReadyToSend?
    && (e.key in c.logs ==> c.logs[e.key].status.ImportedLog?)
  }

  function LoggedType(c: Connector, e: Event): EventType {
    if e.key in c.logs then c.logs[e.key].eventType else e.eventType
  }

  /**
   * A step that ingests an event which may become ready and predates the active cutover of its type knows, from
   * the context it loaded, a cutover the event predates.
   */
  predicate IsInformed(c: Connector, op: Op) {
    op.OpIngest? && MayBecomeReady(c, op.e) && Predates(ActiveAt(c.cutovers, LoggedType(c, op.e)), op.e.occurredAt) ==>
      Predates(op.ctx.cutoverAt(op.e.eventType), op.e.occurredAt)
  }

  lemma ActivateKeepsReady(c: Connector, t: EventType, now: nat)
    requires NoneReadyTooEarly(c)
    ensures NoneReadyTooEarly(Activate(c, t, now))
  {
    var n := Activate(c, t, now);
    forall k | k in n.logs ensures ReadyAfterCutover(n, k) {
      assert ReadyAfterCutover(c, k);
      ActiveAtAppend(c.cutovers, CutoverRow(t, true, now, |ArchivedKeys(c.logs, t, Some(now))|), c.logs[k].eventType);
    }
  }

  lemma RollbackKeepsReady(c: Connector, t: EventType)
    requires NoneReadyTooEarly(c)
    ensures NoneReadyTooEarly(Rollback(c, t))
  {
    var n := Rollback(c, t);
    forall k | k in n.logs ensures ReadyAfterCutover(n, k) {
      assert ReadyAfterCutover(c, k);
      if c.logs[k].eventType != t {
        ActiveAtRolledBack(c.cutovers, t, c.logs[k].eventType);
      }
    }
  }

  lemma SendKeepsReady(c: Connector, key: string, succeeds: bool)
    requires NoneReadyTooEarly(c)
    ensures NoneReadyTooEarly(Send(c, key, succeeds))
  {
    var n := Send(c, key, succeeds);
    forall k | k in n.logs ensures ReadyAfterCutover(n, k) {
      assert ReadyAfterCutover(c, k);
    }
  }

  /** Ingesting an event keeps ready logs behind their cutovers if and only if it is informed. */
  lemma IngestKeepsReadyExactly(c: Connector, ctx: Context, e: Event)
    requires NoneReadyTooEarly(c)
    ensures NoneReadyTooEarly(IngestEvent(c, ctx, e)) <==> IsInformed(c, OpIngest(ctx, e))
  {
    var n := IngestEvent(c, ctx, e);
    forall k | k in n.logs && k != e.key ensures ReadyAfterCutover(n, k) {
      assert ReadyAfterCutover(c, k);
    }
    assert e.key in c.logs ==> ReadyAfterCutover(c, e.key);
    assert ReadyAfterCutover(n, e.key) <==> IsInformed(c, OpIngest(ctx, e));
  }

  lemma StepKeepsReadyExactly(c: Connector, op: Op)
    requires NoneReadyTooEarly(c)
    ensures NoneReadyTooEarly(Apply(c, op)) <==> IsInformed(c, op)
  {
    match op
    case OpActivate(t, now) => ActivateKeepsReady(c, t, now);
    case OpRollback(t) => RollbackKeepsReady(c, t);
    case OpIngest(ctx, e) => IngestKeepsReadyExactly(c, ctx, e);
    case OpSend(key, succeeds) => SendKeepsReady(c, key, succeeds);
  }

  lemma StepKeepsFlags(c: Connector, op: Op)
    requires FlagsAgree(c) && DeliveriesOwned(c)
    ensures FlagsAgree(Apply(c, op)) && DeliveriesOwned(Apply(c, op))
  {
  }

  ghost predicate InformedRun(c: Connector, ops: seq<Op>)
    decreases |ops|
  {
    ops != [] ==> IsInformed(c, ops[0]) && InformedRun(Apply(c, ops[0]), ops[1..])
  }

  /** In every state of the run no log ready to send predates its cutover. */
  ghost predicate NeverReadyTooEarly(c: Connector, ops: seq<Op>)
    decreases |ops|
  {
    NoneReadyTooEarly(c) && (ops != [] ==> NeverReadyTooEarly(Apply(c, ops[0]), ops[1..]))
  }

  const CREATED := Connector([], false, true, map[], [])

  lemma {:induction false} RunKeepsModes(c: Connector, ops: seq<Op>)
    requires OneActivePerType(c.cutovers) && FlagsAgree(c) && DeliveriesOwned(c)
    ensures var n := Run(c, ops); OneActivePerType(n.cutovers) && FlagsAgree(n) && DeliveriesOwned(n)
    decreases |ops|
  {
    if ops != [] {
      StepKeepsOneActive(c, ops[0]);
      StepKeepsFlags(c, ops[0]);
      RunKeepsModes(Apply(c, ops[0]), ops[1..]);
    }
  }

  /**
   * Along every run, whatever contexts ingestion uses: at most one active cutover per type, both mode flags equal
   * the active-count tests, and nothing was delivered that predates the cutover it was delivered under.
   */
  lemma ModesAgree(ops: seq<Op>)
    ensures var n := Run(CREATED, ops);
            OneActivePerType(n.cutovers) && FlagsAgree(n) && DeliveriesOwned(n)
  {
    RunKeepsModes(CREATED, ops);
  }

  lemma {:induction false} RunKeepsReadyExactly(c: Connector, ops: seq<Op>)
    requires NoneReadyTooEarly(c)
    ensures NeverReadyTooEarly(c, ops) <==> InformedRun(c, ops)
    ensures InformedRun(c, ops) ==> NoneReadyTooEarly(Run(c, ops))
    decreases |ops|
  {
    if ops != [] {
      StepKeepsReadyExactly(c, ops[0]);
      if IsInformed(c, ops[0]) {
        RunKeepsReadyExactly(Apply(c, ops[0]), ops[1..]);
      }
    }
  }

  /**
   * In every state of a run no log ready to send predates the active cutover of its type, if and only if no event
   * that predates the active cutover is ingested with a context that does not show it.
   */
  lemma NothingReadyPredatesCutover(ops: seq<Op>)
    ensures NeverReadyTooEarly(CREATED, ops) <==> InformedRun(CREATED, ops)
    ensures InformedRun(CREATED, ops) ==> NoneReadyTooEarly(Run(CREATED, ops))
  {
    RunKeepsReadyExactly(CREATED, ops);
  }

  /** A context loaded from the current state always informs, when dedupe keys tell the types apart. */
  lemma FreshIsInformed(c: Connector, e: Event)
    requires e.key in c.logs ==> c.logs[e.key].eventType == e.eventType
    ensures IsInformed(c, OpIngest(FreshContext(c), e))
  {
  }

  lemma {:induction false} SingleActiveDecides(cutovers: seq<CutoverRow>, t: EventType, occurredAt: nat)
    requires CountOf(cutovers, t) <= 1
    ensures OwnedSince(cutovers, t, occurredAt).Some?
            <==> ActiveAt(cutovers, t).Some? && ActiveAt(cutovers, t).value <= occurredAt
  {
    if cutovers != [] {
      if cutovers[0].active && cutovers[0].eventType == t {
        ActiveIsCounted(cutovers[1..], t);
        SingleActiveDecides(cutovers[1..], t, occurredAt);
      } else {
        SingleActiveDecides(cutovers[1..], t, occurredAt);
      }
    }
  }

  /** In every reachable state the enqueue test on a fresh context and the send gate agree exactly. */
  lemma EnqueueTestIsSendGate(ops: seq<Op>, t: EventType, occurredAt: nat)
    ensures var c := Run(CREATED, ops);
            IsLive(FreshContext(c), t, occurredAt) <==> OwnedSince(c.cutovers, t, occurredAt).Some?
  {
    ModesAgree(ops);
    var c := Run(CREATED, ops);
    SingleActiveDecides(c.cutovers, t, occurredAt);
    CountsAddUp(c.cutovers);
    ActiveIsCounted(c.cutovers, t);
  }

  /**
   * With a context loaded before an activation this fails: an event before the cutover is recorded as ready to
   * send. The send gate still refuses it.
   */
  lemma StaleContextMisjudges()
    ensures var stale := FreshContext(CREATED);
            var ops := [OpActivate(Purchase, 10), OpIngest(stale, Event("k", Purchase, 5, false, true, ReadyToSend))];
            var c := Run(CREATED, ops);
            && !NoneReadyTooEarly(c)
            && OwnedSince(c.cutovers, Purchase, 5) == None
  {
    var stale := FreshContext(CREATED);
    var e := Event("k", Purchase, 5, false, true, ReadyToSend);
    var ops := [OpActivate(Purchase, 10), OpIngest(stale, e)];
    var active := Activate(CREATED, Purchase, 10);
    assert active.cutovers == [CutoverRow(Purchase, true, 10, |ArchivedKeys(map[], Purchase, Some(10))|)];
    var c := IngestEvent(active, stale, e);
    assert ops[1..] == [OpIngest(stale, e)] && ops[1..][1..] == [];
    assert Run(active, ops[1..]) == Run(c, ops[1..][1..]);
    assert Run(CREATED, ops) == c;
    assert c.logs["k"] == Log(Purchase, ReadyToSend, 5);
    assert !ReadyAfterCutover(c, "k");
  }

  // ----- the service -----

  /** One connector with its cutovers and event logs; every method is one transaction. */
  class ConnectorService {
    var cutovers: seq<CutoverRow>
    var capiSendEnabled: bool
    var shadowMode: bool
    var logs: map<string, Log>
    var delivered: seq<Delivery>

    function View(): Connector
      reads this
    {
      Connector(cutovers, capiSendEnabled, shadowMode, logs, delivered)
    }

    /** What the service's steps keep. */
    ghost predicate Valid()
      reads this
    {
      OneActivePerType(cutovers) && FlagsAgree(View()) && DeliveriesOwned(View())
    }

    /** A connector is created in shadow mode, with sending off. */
    constructor ()
      ensures Valid() && View() == CREATED
    {
      cutovers, capiSendEnabled, shadowMode, logs, delivered := [], false, true, map[], [];
    }

    /** The two mode flags, from the number of active cutovers. */
    method SetFlags()
      modifies this`capiSendEnabled, this`shadowMode
      ensures View() == WithFlags(old(View()))
    {
      var activeCount := 0;
      var i := |cutovers|;
      while i > 0
        invariant 0 <= i <= |cutovers| && activeCount == ActiveCount(cutovers[i..])
      {
        i := i - 1;
        assert cutovers[i..][1..] == cutovers[i + 1..];
        if cutovers[i].active {
          activeCount := activeCount + 1;
        }
      }
      assert cutovers[0..] == cutovers;
      capiSendEnabled := activeCount > 0;
      shadowMode := activeCount < EVENT_TYPES;
    }

    /** `activateCapiCutover`; the answer is the number of archived logs, or None when the type is active already. */
    method ActivateCapiCutover(t: EventType, now: nat) returns (archived: Option<nat>)
      requires Valid()
      modifies this
      ensures Valid() && View() == Activate(old(View()), t, now)
      ensures archived == if ActiveAt(old(cutovers), t).Some? then None
                          else Some(|ArchivedKeys(old(logs), t, Some(now))|)
      ensures archived.None? <==> exists i :: 0 <= i < |old(cutovers)| && old(cutovers)[i].active
                                              && old(cutovers)[i].eventType == t
      ensures archived.None? ==> View() == old(View())
      ensures archived.Some? ==>
                && capiSendEnabled && cutovers == old(cutovers) + [CutoverRow(t, true, now, archived.value)]
                && logs.Keys == old(logs).Keys
                && forall k :: k in logs ==>
                     if old(logs)[k].eventType == t && old(logs)[k].status.ReadyToSend? && old(logs)[k].occurredAt < now
                     then logs[k] == old(logs)[k].(status := ShadowObserved) else logs[k] == old(logs)[k]
    {
      StepKeepsOneActive(View(), OpActivate(t, now));
      StepKeepsFlags(View(), OpActivate(t, now));
      if ActiveAt(cutovers, t).Some? {
        return None;
      }
      var count := |ArchivedKeys(logs, t, Some(now))|;
      logs := Archive(logs, t, Some(now));
      cutovers := cutovers + [CutoverRow(t, true, now, count)];
      SetFlags();
      ActiveAtAppend(old(cutovers), CutoverRow(t, true, now, count), t);
      ActiveIsCounted(cutovers, t);
      CountsAddUp(cutovers);
      archived := Some(count);
    }

    /** `rollbackCapiCutover`; false when the type is not active. */
    method RollbackCapiCutover(t: EventType) returns (ok: bool)
      requires Valid()
      modifies this
      ensures Valid() && View() == Rollback(old(View()), t)
      ensures ok <==> exists i :: 0 <= i < |old(cutovers)| && old(cutovers)[i].active
                                  && old(cutovers)[i].eventType == t
      ensures !ok ==> View() == old(View())
      ensures ok ==>
                && (forall i :: 0 <= i < |cutovers| ==> !(cutovers[i].active && cutovers[i].eventType == t))
                && |cutovers| == |old(cutovers)|
                && (forall i :: 0 <= i < |cutovers| && old(cutovers)[i].eventType != t ==>
                      cutovers[i] == old(cutovers)[i])
                && logs.Keys == old(logs).Keys
                && forall k :: k in logs ==>
                     if old(logs)[k].eventType == t && old(logs)[k].status.ReadyToSend?
                     then logs[k] == old(logs)[k].(status := ShadowObserved) else logs[k] == old(logs)[k]
    {
      StepKeepsOneActive(View(), OpRollback(t));
      StepKeepsFlags(View(), OpRollback(t));
      if ActiveAt(cutovers, t).None? {
        return false;
      }
      CountOfRolledBack(cutovers, t, t);
      ActiveIsCounted(RolledBack(cutovers, t), t);
      RolledBackRows(cutovers, t);
      logs := Archive(logs, t, None);
      cutovers := RolledBack(cutovers, t);
      SetFlags();
      ok := true;
    }

    /** `ingestNew` as far as the log and the delivery queue are concerned. */
    method IngestNew(ctx: Context, e: Event) returns (queued: bool)
      requires Valid()
      modifies this`logs
      ensures Valid() && View() == IngestEvent(old(View()), ctx, e)
      ensures queued <==> Enqueues(old(View()), ctx, e)
      ensures queued <==>
                && e.key in logs && logs[e.key].status.ReadyToSend?
                && (if ctx.cutoverAt(e.eventType).Some? then e.occurredAt >= ctx.cutoverAt(e.eventType).value
                    else ctx.capiSendEnabled && !ctx.shadowMode)
      ensures e.key in logs && forall k :: k in old(logs) && k != e.key ==> k in logs && logs[k] == old(logs)[k]
      ensures e.key !in old(logs) || (old(logs)[e.key].status.ImportedLog? && !e.historical) ==>
                && logs[e.key].occurredAt == e.occurredAt
                && logs[e.key].status
                   == (if e.historical then ImportedLog
                       else if !e.hasClickId then NotEligible
                       else if Predates(ctx.cutoverAt(e.eventType), e.occurredAt) then ShadowObserved
                       else e.resolved)
      ensures e.key in old(logs) && !(old(logs)[e.key].status.ImportedLog? && !e.historical) ==>
                logs[e.key] == old(logs)[e.key]
    {
      if e.key !in logs {
        logs := logs[e.key := Log(e.eventType, InitialStatus(ctx, e), e.occurredAt)];
      } else if logs[e.key].status.ImportedLog? && !e.historical {
        logs := logs[e.key := logs[e.key].(status := InitialStatus(ctx, e), occurredAt := e.occurredAt)];
      }
      queued := logs[e.key].status.ReadyToSend? && IsLive(ctx, e.eventType, e.occurredAt);
    }

    /** `sendReadyEvent`; the answer tells whether the event went out to Meta. */
    method SendReadyEvent(key: string, succeeds: bool) returns (attempted: bool)
      requires Valid()
      modifies this`logs, this`delivered
      ensures Valid() && View() == Send(old(View()), key, succeeds)
      ensures attempted <==>
                && key in old(logs) && old(logs)[key].status.ReadyToSend?
                && exists i :: 0 <= i < |cutovers| && cutovers[i].active
                               && cutovers[i].eventType == old(logs)[key].eventType
                               && cutovers[i].activatedAt <= old(logs)[key].occurredAt
      ensures attempted ==>
                && key in logs && logs[key].status == (if succeeds then SentLog else FailedLog)
                && |delivered| == |old(delivered)| + 1 && delivered[..|old(delivered)|] == old(delivered)
                && var d := delivered[|old(delivered)|];
                   d.key == key && d.eventType == logs[key].eventType && d.occurredAt == logs[key].occurredAt
      ensures !attempted ==>
                && delivered == old(delivered)
                && (key in old(logs) ==>
                      && key in logs
                      && logs[key].status == if old(logs)[key].status.ReadyToSend? then ShadowObserved
                                             else old(logs)[key].status)
      ensures logs.Keys == old(logs).Keys && forall k :: k in logs && k != key ==> logs[k] == old(logs)[k]
    {
      if key !in logs || !logs[key].status.ReadyToSend? {
        return false;
      }
      var l := logs[key];
      var owned := OwnedSince(cutovers, l.eventType, l.occurredAt);
      if owned.None? {
        logs := logs[key := l.(status := ShadowObserved)];
        return false;
      }
      delivered := delivered + [Delivery(key, l.eventType, l.occurredAt, owned.value)];
      logs := logs[key := l.(status := if succeeds then SentLog else FailedLog)];
      attempted := true;
    }
  }
}
