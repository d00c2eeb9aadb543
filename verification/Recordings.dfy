/** Recording the same external conversion again and again: what the log keeps, and which call reports it as new. */
module Recordings {
  import opened Wrappers

  /** The columns `reconcileExistingExternalConversion` fills in when they are still null. */
  datatype Column =
    | LeadId | PhoneHash | CustomerIdentityKey | CampaignId | AdSetId | AdId | CtwaClid
    | MetaAccountId | MetaBusinessConnectionId | MetaConversionDestinationId
    | ValueCents | ValueSource | Currency | SourcePayload

  datatype Value = Words(text: string) | Cents(amount: nat)

  /** The non-null columns of a row or an input. */
  type Columns = map<Column, Value>

  datatype Status = ImportedStatus | OtherStatus(name: string)

  /** What identifies the event towards Meta. */
  datatype EventInfo = EventInfo(sourceEventId: string, sourceTrigger: string, eventId: string, occurredAt: int)

  /**
   * One call of `recordExternalConversion`; `status` is what `resolveExternalInitialStatus` makes of it. `overtaken`
   * says that another call created the log between its lookup and its insert.
   */
  datatype Recording = Recording(
    imported: bool, status: string, columns: Columns, paid: bool, event: EventInfo, overtaken: bool)

  datatype Log = Log(columns: Columns, paid: bool, attributed: bool, status: Status, event: EventInfo)

  function InitialStatus(r: Recording): Status {
    if r.imported then ImportedStatus else OtherStatus(r.status)
  }

  /** JavaScript truthiness of an ad id. */
  predicate IsTruthy(columns: Columns, c: Column) {
    c in columns && columns[c] != Words("")
  }

  /** The existing value wins over the supplied one. */
  function Merged(existing: Columns, supplied: Columns): Columns {
    supplied + existing
  }

  /** `recordExternalConversion` on the log of one dedupe key: the log afterwards, and whether "created" is reported. */
  function RecordOne(log: Option<Log>, r: Recording): (Log, bool) {
    match log
    case None => (Log(r.columns, r.paid, IsTruthy(r.columns, AdId), InitialStatus(r), r.event), true)
    case Some(existing) =>
      if r.overtaken then (existing, false) else
      var promotes := existing.status.ImportedStatus? && !r.imported;
      var columns := Merged(existing.columns, r.columns);
      (Log(columns, existing.paid || r.paid, IsTruthy(columns, AdId) || existing.attributed,
           if promotes then InitialStatus(r) else existing.status, if promotes then r.event else existing.event),
       promotes)
  }

  /** The log after the first n recordings. */
  function LogAfter(rs: seq<Recording>, n: nat): Option<Log>
    requires n <= |rs|
  {
    if n == 0 then None else Some(RecordOne(LogAfter(rs, n - 1), rs[n - 1]).0)
  }

  predicate ReportsCreated(rs: seq<Recording>, i: nat)
    requires i < |rs|
  {
    RecordOne(LogAfter(rs, i), rs[i]).1
  }

  /** The recording creates the log or is merged into it; an overtaken one is dropped. */
  predicate Joins(rs: seq<Recording>, i: int)
    requires 0 <= i < |rs|
  {
    i == 0 || !rs[i].overtaken
  }

  /** The recording that first supplied a column. */
  ghost predicate SuppliedFirst(rs: seq<Recording>, n: nat, c: Column, i: int)
    requires n <= |rs|
  {
    0 <= i < n && Joins(rs, i) && c in rs[i].columns && forall j :: 0 <= j < i && Joins(rs, j) ==> c !in rs[j].columns
  }

  predicate Holds(columns: Columns, c: Column, v: Value) {
    c in columns && columns[c] == v
  }

  /** A merged column holds the first value supplied for it, and exactly the supplied columns are filled. */
  lemma {:induction false} FirstValueIsKept(rs: seq<Recording>, n: nat, c: Column)
    requires 0 < n <= |rs|
    ensures c in LogAfter(rs, n).value.columns <==> exists i :: SuppliedFirst(rs, n, c, i)
    ensures forall i :: SuppliedFirst(rs, n, c, i) ==> Holds(LogAfter(rs, n).value.columns, c, rs[i].columns[c])
  {
    if n == 1 {
      assert c in rs[0].columns ==> SuppliedFirst(rs, 1, c, 0);
    } else {
      FirstValueIsKept(rs, n - 1, c);
      var before := LogAfter(rs, n - 1).value.columns;
      if c in before {
        var i :| SuppliedFirst(rs, n - 1, c, i);
        assert SuppliedFirst(rs, n, c, i);
        assert forall k :: SuppliedFirst(rs, n, c, k) ==> k == i;
      } else {
        forall j | 0 <= j < n - 1 && Joins(rs, j) ensures c !in rs[j].columns {
          NotSupplied(rs, n - 1, c, j);
        }
        if Joins(rs, n - 1) && c in rs[n - 1].columns {
          assert SuppliedFirst(rs, n, c, n - 1);
        }
      }
    }
  }

  /** A column some recording supplied was supplied first by one. */
  lemma {:induction false} NotSupplied(rs: seq<Recording>, n: nat, c: Column, j: nat)
    requires n <= |rs| && j < n && Joins(rs, j) && forall i :: !SuppliedFirst(rs, n, c, i)
    ensures c !in rs[j].columns
    decreases j
  {
    if c in rs[j].columns {
      forall k | 0 <= k < j && Joins(rs, k) ensures c !in rs[k].columns {
        NotSupplied(rs, n, c, k);
      }
      assert SuppliedFirst(rs, n, c, j);
    }
  }

  /** `paid` is never lost, and the log is attributed exactly when its ad id is set. */
  lemma {:induction false} PaidAndAttribution(rs: seq<Recording>, n: nat)
    requires 0 < n <= |rs|
    ensures LogAfter(rs, n).value.paid <==> exists i :: 0 <= i < n && Joins(rs, i) && rs[i].paid
    ensures LogAfter(rs, n).value.attributed <==> IsTruthy(LogAfter(rs, n).value.columns, AdId)
  {
    if n > 1 {
      PaidAndAttribution(rs, n - 1);
    }
  }

  ghost predicate AllImported(rs: seq<Recording>, n: nat)
    requires n <= |rs|
  {
    forall i :: 0 <= i < n && Joins(rs, i) ==> rs[i].imported
  }

  /** The log counts as imported exactly as long as every recording was; its event is that of the first other one. */
  lemma {:induction false} StatusFollowsFirstLive(rs: seq<Recording>, n: nat)
    requires 0 < n <= |rs|
    ensures LogAfter(rs, n).value.status.ImportedStatus? <==> AllImported(rs, n)
    ensures AllImported(rs, n) ==> LogAfter(rs, n).value.event == rs[0].event
    ensures forall i :: 0 <= i < n && Joins(rs, i) && AllImported(rs, i) && !rs[i].imported ==>
              LogAfter(rs, n).value.event == rs[i].event && LogAfter(rs, n).value.status == OtherStatus(rs[i].status)
  {
    if n > 1 {
      StatusFollowsFirstLive(rs, n - 1);
    }
  }

  /**
   * Among the recordings that join, of those not marked imported exactly the first reports "created", and an
   * imported one does so only when it is the very first. An overtaken recording never does, so that a live event
   * overtaken by an imported one stays imported.
   */
  lemma CreatedOnce(rs: seq<Recording>, i: nat)
    requires i < |rs|
    ensures ReportsCreated(rs, i) <==> Joins(rs, i) && if rs[i].imported then i == 0 else AllImported(rs, i)
  {
    if i > 0 {
      StatusFollowsFirstLive(rs, i);
    }
  }

  /** The event logs, by dedupe key. */
  class ConversionEvents {
    var logs: map<string, Log>

    constructor ()
      ensures logs == map[]
    {
      logs := map[];
    }

    function LogOf(dedupeKey: string): Option<Log>
      reads this
    {
      if dedupeKey in logs then Some(logs[dedupeKey]) else None
    }

    /** `recordExternalConversion`; an overtaken call looked the log up before there was one. */
    method RecordExternalConversion(dedupeKey: string, r: Recording) returns (created: bool)
      modifies this
      ensures dedupeKey in logs && (logs[dedupeKey], created) == RecordOne(old(LogOf(dedupeKey)), r)
      ensures logs.Keys == old(logs.Keys) + {dedupeKey}
      ensures forall k :: k in old(logs) && k != dedupeKey ==> logs[k] == old(logs[k])
    {
      if dedupeKey !in logs {
        logs := logs[dedupeKey := Log(r.columns, r.paid, IsTruthy(r.columns, AdId), InitialStatus(r), r.event)];
        return true;
      }
      if r.overtaken {
        return false;
      }
      var existing := logs[dedupeKey];
      var promotes := existing.status.ImportedStatus? && !r.imported;
      var columns := Merged(existing.columns, r.columns);
      var updated := existing.(columns := columns, paid := existing.paid || r.paid);
      if IsTruthy(columns, AdId) {
        updated := updated.(attributed := true);
      }
      if promotes {
        updated := updated.(status := InitialStatus(r), event := r.event);
      }
      logs := logs[dedupeKey := updated];
      created := promotes;
    }
  }
}
