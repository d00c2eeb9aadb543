/** Incremental event sync: pages of an external view ingested behind a persisted cursor, crashes and restarts. */
module ExternalSync {
  import opened Wrappers
  import opened ExternalPaging

  datatype RecordStatus = Imported | DuplicateRecord | Rejected | PendingDelivery

  datatype RecordError = LeadNotMatched | QueueFailed | OtherError

  datatype Record = Record(status: RecordStatus, error: Option<RecordError>, duplicateCount: nat)

  datatype QueueResult = NotLive | Enqueued | EnqueueFailed

  /** What the services behind `ingestNew` answer; a refusal is normally recorded, but that write may fail silently. */
  datatype Outcome =
    | Accepted(duplicate: bool, queue: QueueResult)
    | Refused(notMatched: bool, recorded: bool)

  /** Answers for one call of `ingest`: to a new row, and to the redelivery of a known one. */
  datatype Answer = Answer(first: Outcome, requeued: bool)

  datatype RowStatus = RowImported | RowDuplicate | RowFiltered | RowRejected

  datatype Counts = Counts(read: nat, imported: nat, duplicates: nat, filtered: nat, rejected: nat, queued: nat)

  const NO_COUNTS := Counts(0, 0, 0, 0, 0, 0)

  // ----- ingestion of one row -----

  type Records = map<string, Record>

  datatype Ingested = Ingested(records: Records, status: RowStatus, queued: bool)

  function FreshRecord(r: Row, o: Outcome): Record {
    match o
    case Accepted(duplicate, queue) =>
      if queue.EnqueueFailed? then Record(PendingDelivery, Some(QueueFailed), r.duplicateCount)
      else Record(if duplicate then DuplicateRecord else Imported, None, r.duplicateCount)
    case Refused(notMatched, _) =>
      Record(Rejected, Some(if notMatched then LeadNotMatched else OtherError), r.duplicateCount)
  }

  /** `ingestNew` and, when it throws, `recordRejected`. */
  function IngestNew(records: Records, r: Row, o: Outcome): Ingested {
    match o
    case Accepted(duplicate, queue) =>
      Ingested(records[r.id := FreshRecord(r, o)], if duplicate then RowDuplicate else RowImported, queue.Enqueued?)
    case Refused(_, recorded) =>
      Ingested(if recorded then records[r.id := FreshRecord(r, o)] else records, RowRejected, false)
  }

  predicate AwaitsLead(record: Record) {
    record.status.Rejected? && record.error == Some(LeadNotMatched)
  }

  /** `ingest`. */
  function Ingest(records: Records, r: Row, a: Answer): Ingested {
    if r.excluded then Ingested(records, RowFiltered, false)
    else if r.id in records && !AwaitsLead(records[r.id]) then
      var known := records[r.id];
      var count := if known.duplicateCount > r.duplicateCount then known.duplicateCount else r.duplicateCount;
      Ingested(records[r.id := if a.requeued then Record(Imported, None, count) else known.(duplicateCount := count)],
               RowDuplicate, a.requeued)
    else IngestNew(records, r, a.first)
  }

  function Count(c: Counts, status: RowStatus, queued: bool): Counts {
    var d := c.(queued := c.queued + if queued then 1 else 0);
    match status
    case RowImported => d.(imported := d.imported + 1)
    case RowDuplicate => d.(duplicates := d.duplicates + 1)
    case RowFiltered => d.(filtered := d.filtered + 1)
    case RowRejected => d.(rejected := d.rejected + 1)
  }

  /** Every row read so far was counted under exactly one status. */
  predicate Balanced(c: Counts, pending: nat) {
    c.read == c.imported + c.duplicates + c.filtered + c.rejected + pending
  }

  // ----- the sync loop -----

  /** A row that is not filtered, at or after position `first`. */
  ghost predicate IsWanted(view: seq<Row>, first: nat, id: string) {
    exists i :: first <= i < |view| && !view[i].excluded && view[i].id == id
  }

  /** A row that is not filtered, from position `first` up to `upto`. */
  ghost predicate IsRead(view: seq<Row>, first: nat, upto: nat, id: string)
    requires upto <= |view|
  {
    exists i :: first <= i < upto && !view[i].excluded && view[i].id == id
  }

  /** One call of `ingest` for a row that is not filtered: whether the row was new, and what the services answered. */
  datatype Call = Call(id: string, isNew: bool, answer: Answer)

  /** Whatever the row, the call leaves a record of it. */
  predicate Leaves(a: Answer) {
    a.first.Accepted? || a.first.recorded
  }

  ghost predicate WasCalled(calls: seq<Call>, id: string) {
    exists j :: 0 <= j < |calls| && calls[j].id == id
  }

  ghost predicate HasLeft(calls: seq<Call>, id: string) {
    exists j :: 0 <= j < |calls| && calls[j].id == id && Leaves(calls[j].answer)
  }

  /** A wanted row without a record before, each call for which was refused, its rejection going unrecorded. */
  ghost predicate IsLost(view: seq<Row>, first: nat, known: set<string>, calls: seq<Call>, id: string) {
    IsWanted(view, first, id) && id !in known && !HasLeft(calls, id)
  }

  /** A row is new if it has no record, or its lead was not found before. */
  predicate IsFresh(records: Records, id: string) {
    id !in records || (records[id].status.Rejected? && records[id].error == Some(LeadNotMatched))
  }

  function WithCall(calls: seq<Call>, records: Records, r: Row, a: Answer): seq<Call> {
    if r.excluded then calls else calls + [Call(r.id, IsFresh(records, r.id), a)]
  }

  // ----- the counts of a run -----

  predicate Imports(c: Call) {
    c.isNew && c.answer.first.Accepted? && !c.answer.first.duplicate
  }

  predicate Repeats(c: Call) {
    !c.isNew || (c.answer.first.Accepted? && c.answer.first.duplicate)
  }

  predicate Rejects(c: Call) {
    c.isNew && c.answer.first.Refused?
  }

  predicate Queues(c: Call) {
    if c.isNew then c.answer.first.Accepted? && c.answer.first.queue.Enqueued? else c.answer.requeued
  }

  function CountIf(calls: seq<Call>, p: Call -> bool): nat {
    if calls == [] then 0 else CountIf(calls[..|calls| - 1], p) + if p(calls[|calls| - 1]) then 1 else 0
  }

  /** The counts are those of the rows read and of the calls made for them. */
  predicate Tallied(c: Counts, rows: seq<Row>, calls: seq<Call>) {
    && c.filtered == Filtered(rows) && |calls| == |rows| - Filtered(rows)
    && c.imported == CountIf(calls, Imports) && c.duplicates == CountIf(calls, Repeats)
    && c.rejected == CountIf(calls, Rejects) && c.queued == CountIf(calls, Queues)
  }

  lemma CountIfMore(calls: seq<Call>, c: Call, p: Call -> bool)
    ensures CountIf(calls + [c], p) == CountIf(calls, p) + if p(c) then 1 else 0
  {
    assert (calls + [c])[..|calls|] == calls;
  }

  lemma TallyMore(c: Counts, rows: seq<Row>, calls: seq<Call>, records: Records, r: Row, a: Answer)
    requires Tallied(c, rows, calls)
    ensures var after := Ingest(records, r, a);
            Tallied(Count(c, after.status, after.queued), rows + [r], WithCall(calls, records, r, a))
  {
    assert (rows + [r])[..|rows|] == rows;
    if !r.excluded {
      var call := Call(r.id, IsFresh(records, r.id), a);
      CountIfMore(calls, call, Imports);
      CountIfMore(calls, call, Repeats);
      CountIfMore(calls, call, Rejects);
      CountIfMore(calls, call, Queues);
    }
  }

  /** A row has a record after `ingest` exactly when it had one, or it is not filtered and the call leaves one. */
  lemma RecordedExactly(records: Records, r: Row, a: Answer, id: string)
    ensures id in Ingest(records, r, a).records <==> id in records || (id == r.id && !r.excluded && Leaves(a))
  {
  }

  class EventSync {
    var cursor: Option<Cursor>
    var records: Records
    /** The calls of `ingest` so far. */
    ghost var calls: seq<Call>

    /** The starting point of the page query. */
    function Position(): Cursor
      reads this`cursor
    {
      if cursor.Some? then cursor.value else Cursor(0, "")
    }

    constructor ()
      ensures cursor == None && records == map[] && calls == []
    {
      cursor, records, calls := None, map[], [];
    }

    method IngestRow(r: Row, a: Answer) returns (status: RowStatus, queued: bool)
      modifies this`records, this`calls
      ensures Ingested(records, status, queued) == Ingest(old(records), r, a)
      ensures r.excluded ==> status.RowFiltered? && !queued && records == old(records)
      ensures !r.excluded && IsFresh(old(records), r.id) ==>
                match a.first
                case Accepted(duplicate, queue) =>
                  && status == (if duplicate then RowDuplicate else RowImported) && (queued <==> queue.Enqueued?)
                  && r.id in records && records[r.id].duplicateCount == r.duplicateCount
                  && records[r.id].status == (if queue.EnqueueFailed? then PendingDelivery
                                              else if duplicate then DuplicateRecord else Imported)
                case Refused(notMatched, recorded) =>
                  && status.RowRejected? && !queued && (!recorded ==> records == old(records))
                  && (recorded ==>
                        && r.id in records && records[r.id].status.Rejected?
                        && (IsFresh(records, r.id) <==> notMatched))
      ensures !r.excluded && !IsFresh(old(records), r.id) ==>
                && status.RowDuplicate? && queued == a.requeued && r.id in records
                && records[r.id].duplicateCount >= old(records)[r.id].duplicateCount
                && records[r.id].duplicateCount >= r.duplicateCount
                && (if queued then records[r.id].status.Imported?
                    else records[r.id].status == old(records)[r.id].status)
      ensures forall id :: id != r.id ==>
                (id in records <==> id in old(records)) && (id in records ==> records[id] == old(records)[id])
      ensures calls == WithCall(old(calls), old(records), r, a)
    {
      if r.excluded {
        return RowFiltered, false;
      }
      calls := WithCall(calls, records, r, a);
      if r.id in records && !AwaitsLead(records[r.id]) {
        var known := records[r.id];
        var count := if known.duplicateCount > r.duplicateCount then known.duplicateCount else r.duplicateCount;
        records := records[r.id := known.(duplicateCount := count)];
        if a.requeued {
          records := records[r.id := Record(Imported, None, count)];
        }
        return RowDuplicate, a.requeued;
      }
      match a.first {
        case Accepted(duplicate, queue) =>
          records := records[r.id := Record(if duplicate then DuplicateRecord else Imported, None, r.duplicateCount)];
          if queue.EnqueueFailed? {
            records := records[r.id := Record(PendingDelivery, Some(QueueFailed), r.duplicateCount)];
          }
          status, queued := if duplicate then RowDuplicate else RowImported, queue.Enqueued?;
        case Refused(notMatched, recorded) =>
          if recorded {
            var error := if notMatched then LeadNotMatched else OtherError;
            records := records[r.id := Record(Rejected, Some(error), r.duplicateCount)];
          }
          status, queued := RowRejected, false;
      }
    }

    /** Ingests row `q` and counts it. */
    method IngestCounted(
      view: seq<Row>, r: Row, answers: nat -> Answer, n: nat, counted: Counts, ghost first: nat, ghost q: nat,
      ghost known: set<string>, ghost seen: seq<Row>, ghost earlier: seq<Call>, ghost mark: nat, ghost pending: nat)
      returns (counts: Counts)
      requires first <= q < |view| && r == view[q] && Sound(view, first, q, known, records, calls)
      requires Balanced(counted, pending + 1) && Answered(answers, earlier, calls)
      requires mark <= |calls| && Tallied(counted, seen, calls[mark..])
      modifies this`records, this`calls
      ensures Sound(view, first, q + 1, known, records, calls) && Answered(answers, earlier, calls)
      ensures mark <= |calls| && Tallied(counts, seen + [r], calls[mark..]) && counts.read == counted.read
      ensures Balanced(counts, pending)
    {
      var a := answers(n);
      IngestKeepsSound(view, first, q, records, calls, a, known);
      AnsweredMore(answers, earlier, calls, records, r, n);
      TallyMore(counted, seen, calls[mark..], records, r, a);
      var status, queued := IngestRow(r, a);
      assert calls[mark..] == WithCall(old(calls)[mark..], old(records), r, a);
      counts := Count(counted, status, queued);
    }

    /** Ingests the rows of one page, or as many of them as the budget allows. */
    method IngestPage(
      view: seq<Row>, rows: seq<Row>, budget: Option<nat>, answers: nat -> Answer, counted: Counts, start: nat,
      ghost first: nat, ghost p: nat, ghost known: set<string>, ghost seen: seq<Row>, ghost mark: nat)
      returns (counts: Counts, ingested: nat, died: bool)
      requires p + |rows| <= |view| && rows == view[p..p + |rows|] && first <= p
      requires Sound(view, first, p, known, records, calls)
      requires Balanced(counted, |rows|) && mark <= |calls| && Tallied(counted, seen, calls[mark..])
      modifies this`records, this`calls
      ensures budget.None? ==> !died
      ensures !died ==> mark <= |calls| && Tallied(counts, seen + rows, calls[mark..]) && counts.read == counted.read
      ensures !died ==> Balanced(counts, 0) && Sound(view, first, p + |rows|, known, records, calls)
      ensures died ==> Sound(view, first, p, known, records, calls)
      ensures Answered(answers, old(calls), calls)
    {
      counts, ingested := counted, start;
      var i := 0;
      ghost var read := seen;
      while i < |rows|
        invariant i <= |rows| && read == seen + rows[..i]
        invariant Balanced(counts, |rows| - i) && counts.read == counted.read
        invariant mark <= |calls| && Tallied(counts, read, calls[mark..])
        invariant Sound(view, first, p + i, known, records, calls)
        invariant Answered(answers, old(calls), calls)
      {
        if budget == Some(ingested) {
          SoundLess(view, first, p, p + i, known, records, calls);
          return counts, ingested, true;
        }
        counts := IngestCounted(view, rows[i], answers, ingested, counts, first, p + i, known, read, old(calls), mark,
                                |rows| - i - 1);
        read := read + [rows[i]];
        ingested := ingested + 1;
        i := i + 1;
      }
      assert read == seen + rows;
      died := false;
    }

    /**
     * One round of the loop: read a page, ingest it, move the cursor; `more` tells whether the page was full. All rows
     * from `first` up to `covered` have been read afterwards, where `first` follows the cursor if that moves back.
     */
    method SyncPage(
      before: IdOrder, view: seq<Row>, batch: nat, budget: Option<nat>, answers: nat -> Answer,
      counted: Counts, start: nat, ghost low: nat, ghost p: nat, ghost known: set<string>, ghost seen: seq<Row>,
      ghost mark: nat)
      returns (counts: Counts, ingested: nat, died: bool, more: bool, ghost first: nat, ghost covered: nat)
      requires IsStrictOrder(before) && Ordered(before, view) && SafeLimit(batch) == batch > 0
      requires low <= p == Passed(before, view, Position())
      requires Sound(view, low, p, known, records, calls) && Balanced(counted, 0)
      requires mark <= |calls| && Tallied(counted, seen, calls[mark..]) && counted.read == |seen|
      modifies this
      ensures budget.None? ==> !died
      ensures Sound(view, first, covered, known, records, calls) && (!died ==> Balanced(counts, 0))
      ensures died ==> cursor == old(cursor) && covered == p && first == low
      ensures !died && more ==>
                && !IsLast(view, batch, p) && covered == Passed(before, view, Position())
                && covered == NextPosition(before, view, batch, p) && first == Least(low, covered)
      ensures !died && !more ==>
                && IsLast(view, batch, p) && covered == |view| && first == low
                && (CanBePassed(view) ==> Passed(before, view, Position()) == |view|)
      ensures !died ==>
                var rows := if more then view[p..p + batch] else view[p..];
                mark <= |calls| && Tallied(counts, seen + rows, calls[mark..]) && counts.read == |seen + rows|
      ensures Answered(answers, old(calls), calls)
    {
      var rows := FetchPage(before, view, Position(), SafeLimit(batch));
      counts, ingested, died := IngestPage(
        view, rows, budget, answers, counted.(read := counted.read + |rows|), start, low, p, known, seen, mark);
      more := |rows| == batch;
      first := low;
      if died || budget == Some(ingested) {
        SoundLess(view, low, p, if died then p else p + |rows|, known, records, calls);
        return counts, ingested, true, more, low, p;
      }
      assert rows == if more then view[p..p + batch] else view[p..];
      covered := p + |rows|;
      if |rows| > 0 {
        PageMoves(before, view, batch, p, rows);
        cursor := Some(CursorFromRow(rows[|rows| - 1]));
        if more {
          covered := Passed(before, view, Position());
          first := Least(low, covered);
          SoundLower(view, low, covered, p + |rows|, known, records, calls);
        }
      }
    }

    /**
     * `syncEvents`, run until it finishes or until `budget` rows have been ingested and the process dies; None
     * means it does not die. `answers` are the answers of the services, call by call.
     */
    method SyncEvents(
      before: IdOrder, view: seq<Row>, parsedBatch: Option<int>, budget: Option<nat>, answers: nat -> Answer,
      ghost low: nat, ghost known: set<string>)
      returns (counts: Counts, finished: bool, ghost first: nat)
      requires IsStrictOrder(before) && Ordered(before, view)
      requires Ends(before, view, RowBatchSize(parsedBatch), Passed(before, view, Position()))
      requires low <= Passed(before, view, Position())
      requires Sound(view, low, Passed(before, view, Position()), known, records, calls)
      modifies this
      ensures budget.None? ==> finished
      ensures finished ==>
                && Balanced(counts, 0) && Sound(view, first, |view|, known, records, calls)
                && first == Least(low, Lowest(before, view, RowBatchSize(parsedBatch),
                                              old(Passed(before, view, Position()))))
      ensures finished && CanBePassed(view) ==> Passed(before, view, Position()) == |view|
      ensures finished ==>
                var start := old(Passed(before, view, Position()));
                var rows := RowsRead(before, view, RowBatchSize(parsedBatch), start, |view|);
                counts.read == |rows| && |old(calls)| <= |calls| && Tallied(counts, rows, calls[|old(calls)|..])
      ensures !finished ==>
                && first <= Passed(before, view, Position())
                && StillEnds(before, view, RowBatchSize(parsedBatch), old(Passed(before, view, Position())), low,
                             Passed(before, view, Position()), first)
                && Sound(view, first, Passed(before, view, Position()), known, records, calls)
      ensures Answered(answers, old(calls), calls)
    {
      counts := NO_COUNTS;
      var batch := RowBatchSize(parsedBatch);
      LimitsAgree(parsedBatch);
      var ingested, died, more := 0, false, true;
      ghost var start := Passed(before, view, Position());
      ghost var p := start;
      ghost var left: nat := |view|;
      ghost var seen: seq<Row> := [];
      ghost var rows := RowsRead(before, view, batch, start, |view|);
      assert [] + rows == rows;
      first := low;
      while more
        invariant Balanced(counts, 0) && !died && Sound(view, first, p, known, records, calls)
        invariant more ==>
                    && first <= p == Passed(before, view, Position())
                    && StillEnds(before, view, batch, start, low, p, first)
        invariant !more ==>
                    && p == |view| && first == Least(low, Lowest(before, view, batch, start))
                    && (CanBePassed(view) ==> Passed(before, view, Position()) == |view|)
        invariant |old(calls)| <= |calls| && Tallied(counts, seen, calls[|old(calls)|..]) && counts.read == |seen|
        invariant if more then StillReads(before, view, batch, p, left, seen, rows) else seen == rows
        invariant Answered(answers, old(calls), calls)
        decreases more, left
      {
        ghost var earlier, q, lower := calls, p, first;
        counts, ingested, died, more, first, p :=
          SyncPage(before, view, batch, budget, answers, counts, ingested, first, p, known, seen, |old(calls)|);
        AnsweredOnwards(answers, old(calls), earlier, calls);
        if died {
          return counts, false, first;
        }
        StillEndsOnwards(before, view, batch, start, low, q, lower);
        StillReadsOnwards(before, view, batch, q, left, seen, rows);
        seen := seen + if more then view[q..q + batch] else view[q..];
        left := if more then left - 1 else 0;
      }
      finished := true;
    }

    /**
     * The sync is started, and dies after as many rows as the next of `budgets` says, until it finishes or is left
     * alone. Afterwards the records are those of an uninterrupted sync, one for each wanted row from the first one
     * it reads on, if and only if no wanted row had all its calls refused with the rejection unrecorded.
     */
    method SyncWithRestarts(
      before: IdOrder, view: seq<Row>, parsedBatch: Option<int>, budgets: seq<nat>, answers: nat -> nat -> Answer)
      returns (counts: Counts)
      requires IsStrictOrder(before) && Ordered(before, view)
      requires Ends(before, view, RowBatchSize(parsedBatch), Passed(before, view, Position()))
      modifies this
      ensures Balanced(counts, 0)
      ensures CanBePassed(view) ==> Passed(before, view, Position()) == |view|
      ensures AllAnswered(answers, calls)
      ensures var first := Lowest(before, view, RowBatchSize(parsedBatch), old(Passed(before, view, Position())));
              && (forall id :: WasCalled(calls, id) <==> IsWanted(view, first, id))
              && (forall id :: id in records <==> id in old(records) || HasLeft(calls, id))
              && ((forall id :: id in records <==> id in old(records) || IsWanted(view, first, id)) <==>
                  forall id :: !IsLost(view, first, old(records).Keys, calls, id))
    {
      ghost var start, known := Passed(before, view, Position()), records.Keys;
      ghost var first: nat := start;
      calls := [];
      counts := NO_COUNTS;
      var run, finished := 0, false;
      while !finished
        invariant finished ==>
                    && Balanced(counts, 0) && Sound(view, first, |view|, known, records, calls)
                    && first == Lowest(before, view, RowBatchSize(parsedBatch), start)
        invariant finished && CanBePassed(view) ==> Passed(before, view, Position()) == |view|
        invariant !finished ==>
                    && run <= |budgets| && first <= Passed(before, view, Position())
                    && StillEnds(before, view, RowBatchSize(parsedBatch), start, start,
                                 Passed(before, view, Position()), first)
                    && Sound(view, first, Passed(before, view, Position()), known, records, calls)
        invariant AllAnswered(answers, calls)
        decreases !finished, |budgets| - run
      {
        ghost var earlier := calls;
        var budget := if run < |budgets| then Some(budgets[run]) else None;
        counts, finished, first := SyncEvents(before, view, parsedBatch, budget, answers(run), first, known);
        AllAnsweredOnwards(answers, earlier, calls, run);
        run := run + 1;
      }
      FinishedSync(view, first, known, records, calls);
    }
  }

  /** The calls since `earlier` were answered by `answers`. */
  ghost predicate Answered(answers: nat -> Answer, earlier: seq<Call>, calls: seq<Call>) {
    && earlier <= calls
    && forall j :: |earlier| <= j < |calls| ==> IsAnswer(answers, calls[j].answer)
  }

  ghost predicate IsAnswer(answers: nat -> Answer, a: Answer) {
    exists n: nat :: a == answers(n)
  }

  /** Every call was answered in some run. */
  ghost predicate AllAnswered(answers: nat -> nat -> Answer, calls: seq<Call>) {
    forall j :: 0 <= j < |calls| ==> exists run: nat :: IsAnswer(answers(run), calls[j].answer)
  }

  lemma AllAnsweredOnwards(answers: nat -> nat -> Answer, earlier: seq<Call>, calls: seq<Call>, run: nat)
    requires AllAnswered(answers, earlier) && Answered(answers(run), earlier, calls)
    ensures AllAnswered(answers, calls)
  {
    forall j | 0 <= j < |calls| ensures exists run: nat :: IsAnswer(answers(run), calls[j].answer) {
      if j < |earlier| {
        assert calls[j] == earlier[j];
      } else {
        assert IsAnswer(answers(run), calls[j].answer);
      }
    }
  }

  lemma AnsweredMore(answers: nat -> Answer, earlier: seq<Call>, calls: seq<Call>, records: Records, r: Row, n: nat)
    requires Answered(answers, earlier, calls)
    ensures Answered(answers, earlier, WithCall(calls, records, r, answers(n)))
  {
  }

  lemma AnsweredOnwards(answers: nat -> Answer, earlier: seq<Call>, middle: seq<Call>, calls: seq<Call>)
    requires Answered(answers, earlier, middle) && Answered(answers, middle, calls)
    ensures Answered(answers, earlier, calls)
  {
    forall j | |earlier| <= j < |calls| ensures IsAnswer(answers, calls[j].answer) {
      if j < |middle| {
        assert calls[j] == middle[j];
      }
    }
  }

  lemma FinishedSync(view: seq<Row>, first: nat, known: set<string>, records: Records, calls: seq<Call>)
    requires Sound(view, first, |view|, known, records, calls)
    ensures forall id :: WasCalled(calls, id) <==> IsWanted(view, first, id)
    ensures forall id :: id in records <==> id in known || HasLeft(calls, id)
    ensures (forall id :: id in records <==> id in known || IsWanted(view, first, id)) <==>
            forall id :: !IsLost(view, first, known, calls, id)
  {
    forall id
      ensures WasCalled(calls, id) <==> IsWanted(view, first, id)
      ensures id in records <==> id in known || HasLeft(calls, id)
    {
      assert SoundFor(view, first, |view|, known, records, calls, id);
      assert IsRead(view, first, |view|, id) <==> IsWanted(view, first, id);
    }
    forall id ensures IsLost(view, first, known, calls, id) <==> IsWanted(view, first, id) && id !in records {
    }
    if forall id :: !IsLost(view, first, known, calls, id) {
      forall id ensures id in records <==> id in known || IsWanted(view, first, id) {
        assert !IsLost(view, first, known, calls, id);
        assert HasLeft(calls, id) ==> WasCalled(calls, id);
      }
    }
  }

  /**
   * A wanted row from `first` up to `upto` has been called for, only wanted rows have, and exactly the rows known
   * before and those whose calls left one have a record.
   */
  ghost predicate SoundFor(
    view: seq<Row>, first: nat, upto: nat, known: set<string>, records: Records, calls: seq<Call>, id: string)
    requires upto <= |view|
  {
    && (IsRead(view, first, upto, id) ==> WasCalled(calls, id))
    && (WasCalled(calls, id) ==> IsWanted(view, first, id))
    && (id in records <==> id in known || HasLeft(calls, id))
  }

  ghost predicate Sound(view: seq<Row>, first: nat, upto: nat, known: set<string>, records: Records, calls: seq<Call>) {
    upto <= |view| && forall id :: SoundFor(view, first, upto, known, records, calls, id)
  }

  lemma SoundLess(view: seq<Row>, first: nat, p: nat, q: nat, known: set<string>, records: Records, calls: seq<Call>)
    requires p <= q && Sound(view, first, q, known, records, calls)
    ensures Sound(view, first, p, known, records, calls)
  {
    forall id ensures SoundFor(view, first, p, known, records, calls, id) {
      assert SoundFor(view, first, q, known, records, calls, id);
    }
  }

  /** The cursor moves to `p`, perhaps in front of what was read so far. */
  lemma SoundLower(view: seq<Row>, first: nat, p: nat, q: nat, known: set<string>, records: Records, calls: seq<Call>)
    requires p <= q && Sound(view, first, q, known, records, calls)
    ensures Sound(view, Least(first, p), p, known, records, calls)
  {
    var low := Least(first, p);
    forall id ensures SoundFor(view, low, p, known, records, calls, id) {
      assert SoundFor(view, first, q, known, records, calls, id);
      assert IsWanted(view, first, id) ==> IsWanted(view, low, id);
    }
  }

  lemma CalledMore(calls: seq<Call>, records: Records, r: Row, a: Answer, id: string)
    ensures WasCalled(WithCall(calls, records, r, a), id) <==> WasCalled(calls, id) || (!r.excluded && id == r.id)
    ensures HasLeft(WithCall(calls, records, r, a), id) <==>
            HasLeft(calls, id) || (!r.excluded && id == r.id && Leaves(a))
  {
    var more := WithCall(calls, records, r, a);
    assert forall j :: 0 <= j < |calls| ==> more[j] == calls[j];
    if !r.excluded {
      assert more[|calls|] == Call(r.id, IsFresh(records, r.id), a);
    }
  }

  lemma ReadMore(view: seq<Row>, first: nat, p: nat, id: string)
    requires first <= p < |view|
    ensures IsRead(view, first, p + 1, id) <==> IsRead(view, first, p, id) || (!view[p].excluded && view[p].id == id)
    ensures !view[p].excluded && view[p].id == id ==> IsWanted(view, first, id)
  {
  }

  /** Ingesting the next row extends what is covered by it. */
  lemma IngestKeepsSound(
    view: seq<Row>, first: nat, p: nat, records: Records, calls: seq<Call>, a: Answer, known: set<string>)
    requires first <= p < |view| && Sound(view, first, p, known, records, calls)
    ensures Sound(view, first, p + 1, known, Ingest(records, view[p], a).records, WithCall(calls, records, view[p], a))
  {
    var r, more := view[p], WithCall(calls, records, view[p], a);
    var after, q := Ingest(records, r, a).records, p + 1;
    forall id ensures SoundFor(view, first, q, known, after, more, id) {
      assert SoundFor(view, first, p, known, records, calls, id);
      CalledMore(calls, records, r, a, id);
      RecordedExactly(records, r, a, id);
      ReadMore(view, first, p, id);
    }
  }

  /** Refused with its rejection unrecorded, a row is passed by the cursor for good and has no record. */
  method LoseRow(before: IdOrder, r: Row, notMatched: bool) returns (sync: EventSync)
    requires IsStrictOrder(before) && !r.excluded && Representable(r) && r.time > 0
    ensures sync.records == map[] && IsLost([r], 0, {}, sync.calls, r.id)
    ensures Passed(before, [r], sync.Position()) == 1
  {
    sync := new EventSync();
    assert Passed(before, [r], sync.Position()) == 0;
    var _ := sync.SyncWithRestarts(before, [r], None, [], _ => _ => Answer(Refused(notMatched, false), false));
    assert !HasLeft(sync.calls, r.id);
    assert [r][0] == r;
    assert IsWanted([r], 0, r.id);
  }
}
