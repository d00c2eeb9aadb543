/** Full lead refresh: every row of the external view is marked as received, and what is left unmarked is swept. */
module LeadRefresh {
  import opened Wrappers
  import opened ExternalPaging
  import opened ExternalSync

  datatype LeadKey = LeadKey(connector: string, row: string)

  datatype LeadRow = LeadRow(external: bool)

  datatype LeadStatus = LeadImported | LeadRejected | LeadRemoved

  /** An ingestion record of the leads stream. */
  datatype LeadRecord = LeadRecord(status: LeadStatus, leadId: Option<string>, received: nat)

  /** An ingestion record of the events stream, and an event log, as far as the sweep changes them. */
  datatype EventRecord = EventRecord(removed: bool, leadId: Option<string>)

  datatype LogRow = LogRow(skipped: bool, leadId: Option<string>)

  /** What happened to one row: its lead was found or created, or the row was refused, possibly after that. */
  datatype LeadOutcome = LeadStored(leadId: string) | LeadRefused(touched: Option<string>)

  /** One call of `ingestLead`, and what happened to its row. */
  datatype LeadCall = LeadCall(key: LeadKey, outcome: LeadOutcome)

  /** The calls for rows read one after the other; filtered rows have none. */
  function CallsFor(connector: string, rows: seq<Row>, outcomes: nat -> LeadOutcome): seq<LeadCall> {
    if rows == [] then []
    else
      var earlier := CallsFor(connector, rows[..|rows| - 1], outcomes);
      var r := rows[|rows| - 1];
      if r.excluded then earlier else earlier + [LeadCall(LeadKey(connector, r.id), outcomes(|earlier|))]
  }

  /** What the last call for `key` came to. */
  function LastOutcome(calls: seq<LeadCall>, key: LeadKey): Option<LeadOutcome> {
    if calls == [] then None
    else if calls[|calls| - 1].key == key then Some(calls[|calls| - 1].outcome)
    else LastOutcome(calls[..|calls| - 1], key)
  }

  /** The record of `key` says what the last call for it came to, and a lead that was found or created exists. */
  ghost predicate RecordedAs(
    records: map<LeadKey, LeadRecord>, leads: map<string, LeadRow>, snapshot: nat, calls: seq<LeadCall>, key: LeadKey)
  {
    match LastOutcome(calls, key)
    case None => true
    case Some(outcome) =>
      && key in records && records[key].received >= snapshot
      && match outcome
         case LeadStored(l) => records[key].status.LeadImported? && records[key].leadId == Some(l) && l in leads
         case LeadRefused(_) => records[key].status.LeadRejected?
  }

  ghost predicate AllRecorded(
    records: map<LeadKey, LeadRecord>, leads: map<string, LeadRow>, snapshot: nat, calls: seq<LeadCall>)
  {
    forall key :: RecordedAs(records, leads, snapshot, calls, key)
  }

  lemma RecordsOneMore(
    records: map<LeadKey, LeadRecord>, leads: map<string, LeadRow>, snapshot: nat, calls: seq<LeadCall>, call: LeadCall,
    after: map<LeadKey, LeadRecord>, more: map<string, LeadRow>)
    requires AllRecorded(records, leads, snapshot, calls) && leads.Keys <= more.Keys
    requires call.key in after && after == records[call.key := after[call.key]]
    requires RecordedAs(after, more, snapshot, [call], call.key)
    ensures AllRecorded(after, more, snapshot, calls + [call])
  {
    forall key ensures RecordedAs(after, more, snapshot, calls + [call], key) {
      assert RecordedAs(records, leads, snapshot, calls, key);
      assert (calls + [call])[..|calls|] == calls;
    }
  }

  // ----- the sweep as a function of the tables -----

  predicate IsStale(connector: string, snapshot: nat, key: LeadKey, r: LeadRecord) {
    key.connector == connector && !r.status.LeadRemoved? && r.received < snapshot
  }

  function Stale(records: map<LeadKey, LeadRecord>, connector: string, snapshot: nat): set<LeadKey> {
    set k | k in records && IsStale(connector, snapshot, k, records[k])
  }

  /** A record that survives the sweep still refers to the lead. */
  predicate StillReferred(records: map<LeadKey, LeadRecord>, stale: set<LeadKey>, leadId: string) {
    exists k :: k in records && k !in stale && !records[k].status.LeadRemoved? && records[k].leadId == Some(leadId)
  }

  function Candidates(records: map<LeadKey, LeadRecord>, stale: set<LeadKey>): set<string> {
    set k | k in stale && k in records && records[k].leadId.Some? :: records[k].leadId.value
  }

  predicate IsDeletable(leads: map<string, LeadRow>, records: map<LeadKey, LeadRecord>, stale: set<LeadKey>,
                        leadId: string)
  {
    && leadId in leads && leads[leadId].external
    && !StillReferred(records, stale, leadId)
  }

  function Deletable(leads: map<string, LeadRow>, records: map<LeadKey, LeadRecord>, stale: set<LeadKey>): set<string> {
    set l | l in Candidates(records, stale) && IsDeletable(leads, records, stale, l)
  }

  function Detached(events: map<string, EventRecord>, gone: set<string>): map<string, EventRecord> {
    map k | k in events ::
      if events[k].leadId.Some? && events[k].leadId.value in gone then EventRecord(true, None) else events[k]
  }

  function Skipped(logs: map<string, LogRow>, gone: set<string>): map<string, LogRow> {
    map k | k in logs ::
      if logs[k].leadId.Some? && logs[k].leadId.value in gone then LogRow(true, None) else logs[k]
  }

  function Swept(records: map<LeadKey, LeadRecord>, stale: set<LeadKey>): map<LeadKey, LeadRecord> {
    map k | k in records :: if k in stale then LeadRecord(LeadRemoved, None, records[k].received) else records[k]
  }

  /** The tables the sweep detaches leads from. */
  datatype Tables = Tables(leads: map<string, LeadRow>, events: map<string, EventRecord>, logs: map<string, LogRow>)

  /** Without the leads that are gone, and with nothing referring to the detached ones. */
  function Without(t: Tables, gone: set<string>, detached: set<string>): Tables {
    Tables(t.leads - gone, Detached(t.events, detached), Skipped(t.logs, detached))
  }

  /**
   * The sweep can delete a lead if and only if it is external, a live record of the connector from before the snapshot
   * names it, and no live record of another connector or received since does.
   */
  lemma DeletableExactly(
    leads: map<string, LeadRow>, records: map<LeadKey, LeadRecord>, connector: string, snapshot: nat, l: string)
    ensures l in Deletable(leads, records, Stale(records, connector, snapshot)) <==>
              && l in leads && leads[l].external
              && (exists k :: k in records && records[k].leadId == Some(l) && !records[k].status.LeadRemoved?
                              && k.connector == connector && records[k].received < snapshot)
              && (forall k :: k in records && records[k].leadId == Some(l) && !records[k].status.LeadRemoved? ==>
                    k.connector == connector && records[k].received < snapshot)
  {
    var stale := Stale(records, connector, snapshot);
    if k :| k in records && records[k].leadId == Some(l) && !records[k].status.LeadRemoved?
            && k.connector == connector && records[k].received < snapshot {
      assert k in stale;
      assert records[k].leadId.value in Candidates(records, stale);
    }
  }

  /** The sweep removes exactly the live records of the connector from before the snapshot. */
  lemma SweptExactly(records: map<LeadKey, LeadRecord>, connector: string, snapshot: nat, k: LeadKey)
    requires k in records
    ensures var after := Swept(records, Stale(records, connector, snapshot));
            k in after &&
            if k.connector == connector && !records[k].status.LeadRemoved? && records[k].received < snapshot
            then after[k].status.LeadRemoved? && after[k].leadId.None?
            else after[k] == records[k]
  {
  }

  /** Only what named a detached lead changes: its event records are removed, its logs skipped, and none names it. */
  lemma DetachedExactly(events: map<string, EventRecord>, logs: map<string, LogRow>, gone: set<string>, k: string)
    ensures k in events ==>
              k in Detached(events, gone) &&
              if exists l :: l in gone && events[k].leadId == Some(l)
              then Detached(events, gone)[k].removed && Detached(events, gone)[k].leadId.None?
              else Detached(events, gone)[k] == events[k]
    ensures k in logs ==>
              k in Skipped(logs, gone) &&
              if exists l :: l in gone && logs[k].leadId == Some(l)
              then Skipped(logs, gone)[k].skipped && Skipped(logs, gone)[k].leadId.None?
              else Skipped(logs, gone)[k] == logs[k]
  {
  }

  lemma NothingGone(t: Tables)
    ensures Without(t, {}, {}) == Without(t, {}, {} + {}) == t
  {
    assert Detached(t.events, {}) == t.events && Skipped(t.logs, {}) == t.logs && t.leads - {} == t.leads;
    var none: set<string> := {};
    assert none + none == none;
  }

  lemma WithoutMore(t: Tables, now: Tables, done: set<string>, more: set<string>, refused: set<string>)
    requires now == Without(t, done, done + {})
    ensures Without(now, more, more + refused) == Without(t, done + more, done + more + refused)
  {
    var u := Without(t, done, done + {});
    assert (t.leads - done) - more == t.leads - (done + more);
    assert Detached(u.events, more + refused) == Detached(t.events, done + more + refused);
    assert Skipped(u.logs, more + refused) == Skipped(t.logs, done + more + refused);
  }

  // ----- the sweep as a loop over candidates -----

  /** Of the candidate leads, `deletable` holds those that can be deleted. */
  ghost predicate JudgedFor(leads: map<string, LeadRow>, records: map<LeadKey, LeadRecord>, stale: set<LeadKey>,
                            candidates: set<string>, deletable: set<string>, l: string) {
    l in deletable <==> l in candidates && IsDeletable(leads, records, stale, l)
  }

  ghost predicate Judged(leads: map<string, LeadRow>, records: map<LeadKey, LeadRecord>, stale: set<LeadKey>,
                         candidates: set<string>, deletable: set<string>) {
    forall l :: JudgedFor(leads, records, stale, candidates, deletable, l)
  }

  /** Of the deletable leads, `done` are deleted and `refused` refused; the rest is among `todo`. */
  ghost predicate SwipedFor(candidates: set<string>, deletable: set<string>, pinned: set<string>, done: set<string>,
                            todo: set<string>, refused: set<string>, l: string) {
    && (l in todo ==> l in candidates)
    && (l in done ==> l in deletable && l !in pinned && l !in todo)
    && (l in refused ==> l in deletable && l in pinned)
    && (l in deletable ==> l in done || l in todo || l in refused)
  }

  ghost predicate Swiped(candidates: set<string>, deletable: set<string>, pinned: set<string>, done: set<string>,
                         todo: set<string>, refused: set<string>) {
    forall l :: SwipedFor(candidates, deletable, pinned, done, todo, refused, l)
  }

  lemma NothingSwiped(candidates: set<string>, deletable: set<string>, pinned: set<string>)
    requires deletable <= candidates
    ensures Swiped(candidates, deletable, pinned, {}, candidates, {})
  {
  }

  lemma SwipeOne(leads: map<string, LeadRow>, now: map<string, LeadRow>, records: map<LeadKey, LeadRecord>,
                 stale: set<LeadKey>, candidates: set<string>, deletable: set<string>, pinned: set<string>,
                 done: set<string>, todo: set<string>, l: string, more: set<string>, refused: set<string>)
    requires Judged(leads, records, stale, candidates, deletable) && now == leads - done
    requires Swiped(candidates, deletable, pinned, done, todo, {}) && l in todo
    requires var gone := IsDeletable(now, records, stale, l);
             && more == (if gone && l !in pinned then {l} else {})
             && refused == (if gone && l in pinned then {l} else {})
    ensures Swiped(candidates, deletable, pinned, done + more, todo - {l}, refused)
  {
    assert JudgedFor(leads, records, stale, candidates, deletable, l);
    assert SwipedFor(candidates, deletable, pinned, done, todo, {}, l);
    DeletableNow(leads, now, records, stale, l);
    var d, t := done + more, todo - {l};
    forall q ensures SwipedFor(candidates, deletable, pinned, d, t, refused, q) {
      assert SwipedFor(candidates, deletable, pinned, done, todo, {}, q);
    }
  }

  lemma SwipedEnd(candidates: set<string>, deletable: set<string>, pinned: set<string>, done: set<string>,
                  todo: set<string>, refused: set<string>)
    requires Swiped(candidates, deletable, pinned, done, todo, refused) && (todo == {} || refused != {})
    ensures done <= deletable - pinned && refused <= deletable * pinned
    ensures refused == {} <==> deletable * pinned == {}
    ensures refused == {} ==> done == deletable
  {
    forall l
      ensures l in done ==> l in deletable && l !in pinned
      ensures l in refused ==> l in deletable && l in pinned
      ensures l in deletable ==> l in done || l in todo || l in refused
    {
      assert SwipedFor(candidates, deletable, pinned, done, todo, refused, l);
    }
    if refused != {} {
      var l :| l in refused;
      assert l in deletable * pinned;
    }
  }

  ghost predicate NoneRemovedRefers(records: map<LeadKey, LeadRecord>) {
    forall k :: k in records && records[k].status.LeadRemoved? ==> records[k].leadId.None?
  }

  ghost predicate NoRecordDangles(records: map<LeadKey, LeadRecord>, leads: map<string, LeadRow>) {
    forall k :: k in records && records[k].leadId.Some? ==> records[k].leadId.value in leads
  }

  ghost predicate NoEventDangles(events: map<string, EventRecord>, leads: map<string, LeadRow>) {
    forall k :: k in events && events[k].leadId.Some? ==> events[k].leadId.value in leads
  }

  ghost predicate NoLogDangles(logs: map<string, LogRow>, leads: map<string, LeadRow>) {
    forall k :: k in logs && logs[k].leadId.Some? ==> logs[k].leadId.value in leads
  }

  lemma ReadOneMore(seen: seq<Row>, rows: seq<Row>, i: nat)
    requires 0 < i <= |rows|
    ensures seen + rows[..i - 1] + [rows[i - 1]] == seen + rows[..i]
  {
  }

  class LeadTables {
    var leads: map<string, LeadRow>
    var leadRecords: map<LeadKey, LeadRecord>
    var eventRecords: map<string, EventRecord>
    var logs: map<string, LogRow>

    /** The leads that a frozen decision names; the database refuses to delete them. */
    var pinned: set<string>

    /** No event record, log or decision refers to a lead that does not exist, and removed records refer to none. */
    ghost predicate Valid()
      reads this
    {
      && pinned <= leads.Keys && NoneRemovedRefers(leadRecords)
      && NoEventDangles(eventRecords, leads) && NoLogDangles(logs, leads)
    }

    /** No lead record refers to a lead that does not exist. */
    ghost predicate NoneDangling()
      reads this
    {
      NoRecordDangles(leadRecords, leads)
    }

    /** Valid, and if that was asked for no lead record dangles. */
    ghost predicate Sane(clean: bool)
      reads this
    {
      Valid() && (clean ==> NoneDangling())
    }

    constructor ()
      ensures Valid() && NoneDangling()
      ensures leads == map[] && leadRecords == map[] && eventRecords == map[] && logs == map[] && pinned == {}
    {
      leads, leadRecords, eventRecords, logs, pinned := map[], map[], map[], map[], {};
    }

    /**
     * Deletes one lead unless a surviving record refers to it. Its logs are skipped and its event records marked
     * removed first; the deletion of a lead that a decision names is refused after that.
     */
    method DeleteIfUnreferred(stale: set<LeadKey>, leadId: string) returns (gone: set<string>, refused: set<string>)
      modifies this`leads, this`eventRecords, this`logs
      ensures var deletable := IsDeletable(old(leads), leadRecords, stale, leadId);
              && gone == (if deletable && leadId !in pinned then {leadId} else {})
              && refused == (if deletable && leadId in pinned then {leadId} else {})
      ensures Tables(leads, eventRecords, logs) == Without(old(Tables(leads, eventRecords, logs)), gone, gone + refused)
    {
      if StillReferred(leadRecords, stale, leadId) || leadId !in leads || !leads[leadId].external {
        NothingGone(Tables(leads, eventRecords, logs));
        return {}, {};
      }
      logs := Skipped(logs, {leadId});
      eventRecords := Detached(eventRecords, {leadId});
      if leadId in pinned {
        assert leads - {} == leads;
        return {}, {leadId};
      }
      leads := leads - {leadId};
      return {leadId}, {};
    }

    /**
     * Deletes those of the candidate leads that only stale records refer to, one after the other, until the
     * deletion of one is refused.
     */
    method DeleteUnreferred(stale: set<LeadKey>, candidates: set<string>, ghost deletable: set<string>)
      returns (removed: nat, refused: set<string>, ghost gone: set<string>)
      requires Judged(leads, leadRecords, stale, candidates, deletable) && deletable <= candidates
      modifies this`leads, this`eventRecords, this`logs
      ensures Tables(leads, eventRecords, logs) == Without(old(Tables(leads, eventRecords, logs)), gone, gone + refused)
      ensures removed == |gone| && gone <= deletable - pinned && refused <= deletable * pinned
      ensures refused == {} <==> deletable * pinned == {}
      ensures refused == {} ==> gone == deletable
    {
      var todo, done: set<string> := candidates, {};
      refused := {};
      ghost var t := Tables(leads, eventRecords, logs);
      NothingGone(t);
      NothingSwiped(candidates, deletable, pinned);
      while todo != {} && refused == {}
        invariant Swiped(candidates, deletable, pinned, done, todo, refused)
        invariant Tables(leads, eventRecords, logs) == Without(t, done, done + refused)
        decreases |todo|
      {
        ghost var now := Tables(leads, eventRecords, logs);
        var leadId :| leadId in todo;
        var more;
        more, refused := DeleteIfUnreferred(stale, leadId);
        WithoutMore(t, now, done, more, refused);
        SwipeOne(t.leads, now.leads, leadRecords, stale, candidates, deletable, pinned, done, todo, leadId, more,
                 refused);
        todo, done := todo - {leadId}, done + more;
      }
      SwipedEnd(candidates, deletable, pinned, done, todo, refused);
      removed, gone := |done|, done;
    }

    /**
     * `reconcileLeadSnapshot`. It succeeds exactly when no decision names a lead it would delete. Otherwise it stops
     * at such a lead: the leads before it are gone and its own logs and event records are detached, but no record
     * is marked, and a retry would delete the same leads and stop again.
     */
    method ReconcileLeadSnapshot(connector: string, snapshot: nat)
      returns (ok: bool, removed: nat, ghost gone: set<string>, refused: set<string>)
      requires Valid()
      modifies this`leads, this`leadRecords, this`eventRecords, this`logs
      ensures Valid()
      ensures var stale := Stale(old(leadRecords), connector, snapshot);
              var deletable := Deletable(old(leads), old(leadRecords), stale);
              && (ok <==> deletable * pinned == {}) && (ok <==> refused == {})
              && (ok ==> gone == deletable && removed == |gone|)
              && gone <= deletable - pinned && refused <= deletable * pinned
              && leadRecords == (if ok then Swept(old(leadRecords), stale) else old(leadRecords))
              && Tables(leads, eventRecords, logs)
                 == Without(old(Tables(leads, eventRecords, logs)), gone, gone + refused)
              && (!ok ==> Deletable(leads, leadRecords, stale) * pinned == deletable * pinned)
      ensures ok && old(NoneDangling()) ==> NoneDangling()
    {
      var stale := Stale(leadRecords, connector, snapshot);
      if stale == {} {
        NothingStale(leads, leadRecords, stale);
        NothingGone(Tables(leads, eventRecords, logs));
        return true, 0, {}, {};
      }
      ghost var deletable := Deletable(leads, leadRecords, stale);
      removed, refused, gone := DeleteUnreferred(stale, Candidates(leadRecords, stale), deletable);
      if refused != {} {
        StillDeletable(old(leads), leadRecords, stale, gone, pinned);
        return false, 0, gone, refused;
      }
      if old(NoneDangling()) {
        SweepKeepsValid(old(leads), leadRecords, stale, deletable);
      }
      leadRecords := Swept(leadRecords, stale);
      ok := true;
    }

    /** `ingestLead` during a refresh. */
    method IngestLead(key: LeadKey, outcome: LeadOutcome, now: nat)
      requires Valid()
      modifies this`leads, this`leadRecords
      ensures Valid() && (old(NoneDangling()) ==> NoneDangling())
      ensures old(leads.Keys) <= leads.Keys
      ensures key in leadRecords && !leadRecords[key].status.LeadRemoved? && leadRecords[key].received == now
      ensures leadRecords == old(leadRecords)[key := leadRecords[key]]
      ensures match outcome
              case LeadStored(l) =>
                && leadRecords[key].status.LeadImported? && leadRecords[key].leadId == Some(l) && l in leads
                && (l !in old(leads) ==> leads[l].external)
              case LeadRefused(_) =>
                && leadRecords[key].status.LeadRejected?
                && leadRecords[key].leadId == (if key in old(leadRecords) then old(leadRecords)[key].leadId else None)
      ensures forall l :: l in old(leads) ==> leads[l] == old(leads)[l]
    {
      var lead := match outcome case LeadStored(l) => Some(l) case LeadRefused(l) => l;
      if lead.Some? && lead.value !in leads {
        leads := leads[lead.value := LeadRow(true)];
      }
      match outcome {
        case LeadStored(l) =>
          leadRecords := leadRecords[key := LeadRecord(LeadImported, Some(l), now)];
        case LeadRefused(_) =>
          var known := if key in leadRecords then leadRecords[key].leadId else None;
          leadRecords := leadRecords[key := LeadRecord(LeadRejected, known, now)];
      }
    }

    /** `n` calls have been made for `rows`, `filtered` rows left out, and the records say what the calls came to. */
    ghost predicate HasIngested(
      connector: string, rows: seq<Row>, outcomes: nat -> LeadOutcome, n: nat, filtered: nat, snapshot: nat)
      reads this
    {
      var made := CallsFor(connector, rows, outcomes);
      n == |made| && filtered == Filtered(rows) && AllRecorded(leadRecords, leads, snapshot, made)
    }

    /** Ingests row `q` unless it is filtered. */
    method IngestLeadRow(
      connector: string, view: seq<Row>, r: Row, outcomes: nat -> LeadOutcome, clock: nat -> nat, start: nat,
      leftOut: nat, ghost snapshot: nat, ghost first: nat, ghost q: nat, ghost seen: seq<Row>, ghost clean: bool)
      returns (calls: nat, filtered: nat, ghost read: seq<Row>)
      requires Sane(clean) && first <= q < |view| && r == view[q]
      requires HasIngested(connector, seen, outcomes, start, leftOut, snapshot) && clock(start) >= snapshot
      requires Marked(view, first, q, connector, snapshot, leadRecords)
      modifies this`leads, this`leadRecords
      ensures Sane(clean) && Marked(view, first, q + 1, connector, snapshot, leadRecords)
      ensures read == seen + [r] && HasIngested(connector, read, outcomes, calls, filtered, snapshot)
    {
      ghost var earlier, existing, made := leadRecords, leads, CallsFor(connector, seen, outcomes);
      read := seen + [r];
      assert read[..|seen|] == seen;
      if r.excluded {
        calls, filtered := start, leftOut + 1;
      } else {
        IngestLead(LeadKey(connector, r.id), outcomes(start), clock(start));
        RecordsOneMore(earlier, existing, snapshot, made, LeadCall(LeadKey(connector, r.id), outcomes(start)),
                       leadRecords, leads);
        calls, filtered := start + 1, leftOut;
      }
      MarkedMore(view, first, q, connector, snapshot, earlier, leadRecords);
    }

    /** Ingests the rows of one page that are not filtered. */
    method IngestLeadPage(
      connector: string, view: seq<Row>, rows: seq<Row>, outcomes: nat -> LeadOutcome, clock: nat -> nat, start: nat,
      leftOut: nat, ghost snapshot: nat, ghost first: nat, ghost p: nat, ghost seen: seq<Row>, ghost clean: bool)
      returns (calls: nat, filtered: nat, ghost read: seq<Row>)
      requires Sane(clean) && p + |rows| <= |view| && rows == view[p..p + |rows|] && first <= p
      requires HasIngested(connector, seen, outcomes, start, leftOut, snapshot)
      requires forall n: nat :: clock(n) >= snapshot
      requires Marked(view, first, p, connector, snapshot, leadRecords)
      modifies this`leads, this`leadRecords
      ensures Sane(clean) && Marked(view, first, p + |rows|, connector, snapshot, leadRecords)
      ensures read == seen + rows && HasIngested(connector, read, outcomes, calls, filtered, snapshot)
    {
      calls, filtered, read := start, leftOut, seen;
      var i := 0;
      ghost var q := p;
      while i < |rows|
        invariant i <= |rows| && q == p + i && read == seen + rows[..i]
        invariant Sane(clean) && Marked(view, first, q, connector, snapshot, leadRecords)
        invariant HasIngested(connector, read, outcomes, calls, filtered, snapshot)
      {
        calls, filtered, read :=
          IngestLeadRow(connector, view, rows[i], outcomes, clock, calls, filtered, snapshot, first, q, read, clean);
        i, q := i + 1, q + 1;
        ReadOneMore(seen, rows, i);
      }
      assert rows[..|rows|] == rows;
    }

    /** Reads and ingests the page behind the cursor. */
    method MarkPage(
      connector: string, before: IdOrder, view: seq<Row>, batch: nat, cursor: Cursor,
      outcomes: nat -> LeadOutcome, clock: nat -> nat, start: nat, leftOut: nat, ghost snapshot: nat, ghost low: nat,
      ghost p: nat, ghost seen: seq<Row>, ghost clean: bool)
      returns (size: nat, filtered: nat, calls: nat, next: Cursor, ghost first: nat, ghost reached: nat,
               ghost read: seq<Row>)
      requires Sane(clean) && SafeLimit(batch) == batch > 0
      requires IsStrictOrder(before) && Ordered(before, view)
      requires low <= p == Passed(before, view, cursor)
      requires HasIngested(connector, seen, outcomes, start, leftOut, snapshot)
      requires forall n: nat :: clock(n) >= snapshot
      requires Marked(view, low, p, connector, snapshot, leadRecords)
      modifies this`leads, this`leadRecords
      ensures Sane(clean)
      ensures reached <= |view| && Marked(view, first, reached, connector, snapshot, leadRecords)
      ensures if size == batch then
                && !IsLast(view, batch, p) && reached == Passed(before, view, next)
                && reached == NextPosition(before, view, batch, p) && first == Least(low, reached)
              else IsLast(view, batch, p) && reached == |view| && first == low
      ensures read == seen + (if size == batch then view[p..p + batch] else view[p..]) && |read| == |seen| + size
      ensures HasIngested(connector, read, outcomes, calls, filtered, snapshot)
    {
      var rows := FetchPage(before, view, cursor, SafeLimit(batch));
      calls, filtered, read :=
        IngestLeadPage(connector, view, rows, outcomes, clock, start, leftOut, snapshot, low, p, seen, clean);
      size, next, first, reached := |rows|, cursor, low, p + |rows|;
      if size > 0 {
        PageMoves(before, view, batch, p, rows);
        next := CursorFromRow(rows[size - 1]);
        if size == batch {
          reached := Passed(before, view, next);
          first := Least(low, reached);
          MarkedLower(view, low, reached, p + size, connector, snapshot, leadRecords);
        }
      }
    }

    /** Reads every page from the start of the view and ingests it. */
    method MarkLeads(
      connector: string, before: IdOrder, view: seq<Row>, parsedBatch: Option<int>,
      outcomes: nat -> LeadOutcome, clock: nat -> nat, ghost snapshot: nat, ghost clean: bool)
      returns (read: nat, filtered: nat)
      requires Sane(clean)
      requires IsStrictOrder(before) && Ordered(before, view)
      requires Ends(before, view, RowBatchSize(parsedBatch), Passed(before, view, Cursor(0, "")))
      requires forall n: nat :: clock(n) >= snapshot
      requires forall k :: IsKept(leadRecords, k) && k.connector == connector ==> leadRecords[k].received < snapshot
      modifies this`leads, this`leadRecords
      ensures Sane(clean)
      ensures Marked(view, Lowest(before, view, RowBatchSize(parsedBatch), Passed(before, view, Cursor(0, ""))), |view|,
                     connector, snapshot, leadRecords)
      ensures var start := Passed(before, view, Cursor(0, ""));
              var rows := RowsRead(before, view, RowBatchSize(parsedBatch), start, |view|);
              && read == |rows| && filtered == Filtered(rows)
              && AllRecorded(leadRecords, leads, snapshot, CallsFor(connector, rows, outcomes))
    {
      ghost var start := Passed(before, view, Cursor(0, ""));
      var cursor := Cursor(0, "");
      var batch := RowBatchSize(parsedBatch);
      LimitsAgree(parsedBatch);
      var calls, more := 0, true;
      read, filtered := 0, 0;
      ghost var p: nat, first: nat, left: nat := start, start, |view|;
      ghost var seen: seq<Row>, rows := [], RowsRead(before, view, batch, start, |view|);
      assert [] + rows == rows;
      while more
        invariant Sane(clean)
        invariant p <= |view| && Marked(view, first, p, connector, snapshot, leadRecords)
        invariant more ==>
                    && first <= p == Passed(before, view, cursor)
                    && StillEnds(before, view, batch, start, start, p, first)
        invariant !more ==> p == |view| && first == Lowest(before, view, batch, start)
        invariant if more then StillReads(before, view, batch, p, left, seen, rows) else seen == rows
        invariant HasIngested(connector, seen, outcomes, calls, filtered, snapshot) && read == |seen|
        decreases more, left
      {
        ghost var q, lower, earlier := p, first, seen;
        var size;
        size, filtered, calls, cursor, first, p, seen :=
          MarkPage(connector, before, view, batch, cursor, outcomes, clock, calls, filtered, snapshot, first, p, seen,
                   clean);
        StillEndsOnwards(before, view, batch, start, start, q, lower);
        StillReadsOnwards(before, view, batch, q, left, earlier, rows);
        read, more := read + size, size == batch;
        left := if more then left - 1 else 0;
      }
    }

    /** `syncLeads` of a full refresh: mark, then sweep. The rows it reads begin at the lowest position it reaches. */
    method RefreshLeads(
      connector: string, before: IdOrder, view: seq<Row>, parsedBatch: Option<int>,
      outcomes: nat -> LeadOutcome, clock: nat -> nat, snapshot: nat)
      returns (read: nat, filtered: nat, ok: bool, removed: nat)
      requires Valid()
      requires IsStrictOrder(before) && Ordered(before, view)
      requires Ends(before, view, RowBatchSize(parsedBatch), Passed(before, view, Cursor(0, "")))
      requires forall n: nat :: clock(n) >= snapshot
      requires forall k :: IsKept(leadRecords, k) && k.connector == connector ==> leadRecords[k].received < snapshot
      modifies this
      ensures Valid() && (ok && old(NoneDangling()) ==> NoneDangling())
      ensures var first := Lowest(before, view, RowBatchSize(parsedBatch), Passed(before, view, Cursor(0, "")));
              && (forall id :: IsWanted(view, first, id) ==> IsKept(leadRecords, LeadKey(connector, id)))
              && (ok ==> forall id :: IsKept(leadRecords, LeadKey(connector, id)) <==> IsWanted(view, first, id))
      ensures var start := Passed(before, view, Cursor(0, ""));
              var rows := RowsRead(before, view, RowBatchSize(parsedBatch), start, |view|);
              && read == |rows| && filtered == Filtered(rows)
              && AllRecorded(leadRecords, leads, snapshot, CallsFor(connector, rows, outcomes))
      ensures !ok ==> exists l :: l in pinned && l in Candidates(leadRecords, Stale(leadRecords, connector, snapshot))
    {
      read, filtered := MarkLeads(connector, before, view, parsedBatch, outcomes, clock, snapshot, old(NoneDangling()));
      ghost var first := Lowest(before, view, RowBatchSize(parsedBatch), Passed(before, view, Cursor(0, "")));
      SweepKeepsMarked(view, first, connector, snapshot, leadRecords);
      var refused;
      ghost var gone, records, existing := {}, leadRecords, leads;
      ok, removed, gone, refused := ReconcileLeadSnapshot(connector, snapshot);
      ghost var rows := RowsRead(before, view, RowBatchSize(parsedBatch), Passed(before, view, Cursor(0, "")), |view|);
      SweepKeepsRecorded(records, existing, connector, snapshot, CallsFor(connector, rows, outcomes), gone);
    }
  }

  predicate IsKept(records: map<LeadKey, LeadRecord>, key: LeadKey) {
    key in records && !records[key].status.LeadRemoved?
  }

  predicate IsMarked(records: map<LeadKey, LeadRecord>, key: LeadKey, snapshot: nat) {
    IsKept(records, key) && records[key].received >= snapshot
  }

  /** The rows read so far have a record received since the snapshot, and only rows of the view have one. */
  ghost predicate MarkedFor(
    view: seq<Row>, first: nat, p: nat, connector: string, snapshot: nat, records: map<LeadKey, LeadRecord>, id: string)
    requires p <= |view|
  {
    && (IsRead(view, first, p, id) ==> IsMarked(records, LeadKey(connector, id), snapshot))
    && (IsMarked(records, LeadKey(connector, id), snapshot) ==> IsWanted(view, first, id))
  }

  ghost predicate Marked(view: seq<Row>, first: nat, p: nat, connector: string, snapshot: nat,
                         records: map<LeadKey, LeadRecord>)
    requires p <= |view|
  {
    forall id :: MarkedFor(view, first, p, connector, snapshot, records, id)
  }

  /** The cursor moves to `p`, perhaps in front of what was read so far. */
  lemma MarkedLower(view: seq<Row>, first: nat, p: nat, q: nat, connector: string, snapshot: nat,
                    records: map<LeadKey, LeadRecord>)
    requires p <= q <= |view| && Marked(view, first, q, connector, snapshot, records)
    ensures Marked(view, Least(first, p), p, connector, snapshot, records)
  {
    var low := Least(first, p);
    forall id ensures MarkedFor(view, low, p, connector, snapshot, records, id) {
      assert MarkedFor(view, first, q, connector, snapshot, records, id);
      assert IsWanted(view, first, id) ==> IsWanted(view, low, id);
    }
  }

  /** A row that is filtered adds nothing; any other is marked by its record. */
  lemma MarkedMore(view: seq<Row>, first: nat, p: nat, connector: string, snapshot: nat,
                   records: map<LeadKey, LeadRecord>, after: map<LeadKey, LeadRecord>)
    requires first <= p < |view| && Marked(view, first, p, connector, snapshot, records)
    requires var key := LeadKey(connector, view[p].id);
             if view[p].excluded then after == records
             else IsMarked(after, key, snapshot) && after == records[key := after[key]]
    ensures Marked(view, first, p + 1, connector, snapshot, after)
  {
    var q := p + 1;
    forall id ensures MarkedFor(view, first, q, connector, snapshot, after, id) {
      assert MarkedFor(view, first, p, connector, snapshot, records, id);
      ReadMore(view, first, p, id);
    }
  }

  lemma SweepKeepsMarked(view: seq<Row>, first: nat, connector: string, snapshot: nat,
                         records: map<LeadKey, LeadRecord>)
    requires Marked(view, first, |view|, connector, snapshot, records)
    ensures var after := Swept(records, Stale(records, connector, snapshot));
            forall id :: IsKept(after, LeadKey(connector, id)) <==> IsWanted(view, first, id)
    ensures forall id :: IsWanted(view, first, id) ==> IsKept(records, LeadKey(connector, id))
  {
    var after := Swept(records, Stale(records, connector, snapshot));
    forall id ensures IsKept(after, LeadKey(connector, id)) <==> IsWanted(view, first, id) {
      assert MarkedFor(view, first, |view|, connector, snapshot, records, id);
      assert IsRead(view, first, |view|, id) <==> IsWanted(view, first, id);
    }
  }

  /** Neither the records of the rows just read nor the leads they name are swept. */
  lemma SweepKeepsRecorded(
    records: map<LeadKey, LeadRecord>, leads: map<string, LeadRow>, connector: string, snapshot: nat,
    calls: seq<LeadCall>, gone: set<string>)
    requires AllRecorded(records, leads, snapshot, calls)
    requires gone <= Deletable(leads, records, Stale(records, connector, snapshot))
    ensures AllRecorded(records, leads - gone, snapshot, calls)
    ensures AllRecorded(Swept(records, Stale(records, connector, snapshot)), leads - gone, snapshot, calls)
  {
    var stale := Stale(records, connector, snapshot);
    forall key
      ensures RecordedAs(records, leads - gone, snapshot, calls, key)
      ensures RecordedAs(Swept(records, stale), leads - gone, snapshot, calls, key)
    {
      assert RecordedAs(records, leads, snapshot, calls, key);
      match LastOutcome(calls, key)
      case Some(LeadStored(l)) => assert StillReferred(records, stale, l);
      case _ =>
    }
  }

  lemma DeletableNow(leads: map<string, LeadRow>, now: map<string, LeadRow>, records: map<LeadKey, LeadRecord>,
                     stale: set<LeadKey>, l: string)
    requires (l in now <==> l in leads) && (l in now ==> now[l] == leads[l])
    ensures IsDeletable(now, records, stale, l) <==> IsDeletable(leads, records, stale, l)
  {
  }

  lemma NothingStale(leads: map<string, LeadRow>, records: map<LeadKey, LeadRecord>, stale: set<LeadKey>)
    requires stale == {}
    ensures Deletable(leads, records, stale) == {} && Swept(records, stale) == records
  {
    assert Candidates(records, stale) == {};
  }

  /** Deleting other leads changes nothing for those that cannot be deleted. */
  lemma StillDeletable(leads: map<string, LeadRow>, records: map<LeadKey, LeadRecord>, stale: set<LeadKey>,
                       gone: set<string>, pinned: set<string>)
    requires gone !! pinned
    ensures Deletable(leads - gone, records, stale) * pinned == Deletable(leads, records, stale) * pinned
  {
    forall l | l in pinned
      ensures l in Deletable(leads - gone, records, stale) <==> l in Deletable(leads, records, stale)
    {
      DeletableNow(leads, leads - gone, records, stale, l);
    }
  }

  /** Records that survive the sweep refer to leads that survive it. */
  lemma SweepKeepsValid(leads: map<string, LeadRow>, records: map<LeadKey, LeadRecord>, stale: set<LeadKey>,
                        gone: set<string>)
    requires gone == Deletable(leads, records, stale)
    requires forall k :: k in records && records[k].leadId.Some? ==> records[k].leadId.value in leads
    requires forall k :: k in records && records[k].status.LeadRemoved? ==> records[k].leadId.None?
    ensures forall k :: k in Swept(records, stale) && Swept(records, stale)[k].leadId.Some? ==>
              Swept(records, stale)[k].leadId.value in leads - gone
  {
    forall k | k in records && k !in stale && records[k].leadId.Some? ensures records[k].leadId.value !in gone {
      assert StillReferred(records, stale, records[k].leadId.value);
    }
  }
}
