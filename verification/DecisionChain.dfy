/** The append-only chain of decision versions kept for each (rule, occurrence) pair. */
module DecisionChain {
  import opened Wrappers
  import opened Decisions
  import Text

  /** A provider rule together with one occurrence of it. */
  datatype Key = Key(rule: string, occurrence: string)

  function KeyOf(d: Decision): Key {
    Key(d.rule.providerRuleId, d.occurrence.occurrenceKey)
  }

  datatype AuditId = AuditId(key: Key, version: nat)

  /** SHA-256 is taken to be injective, so a hashed request key is the request key. */
  datatype EvaluationKey = Initial | Reevaluation(request: string)

  datatype Audit = Audit(
    version: nat,
    evaluationKey: EvaluationKey,
    supersedes: Option<AuditId>,
    decision: Decision,
    delivery: string)

  datatype Request =
    | RecordInitial(decision: Decision, delivery: string)
    | AppendReevaluation(decision: Decision, delivery: string, superseded: AuditId, requestKey: string)

  datatype PersistError =
    | InvalidInput | EvaluationKeyConflict | ImplicitReevaluation | InvalidReevaluation | StaleSuperseded

  datatype Accepted = Accepted(audit: Audit, created: bool)

  function EvaluationKeyOf(r: Request): EvaluationKey {
    if r.RecordInitial? then Initial else Reevaluation(Text.Trim(r.requestKey))
  }

  predicate WellFormedRequest(r: Request) {
    Text.Trim(r.delivery) != "" && (r.AppendReevaluation? ==> Text.Trim(r.requestKey) != "")
  }

  /** The entry stored under an evaluation key (the key is unique in a chain). */
  function FindByEvaluation(chain: seq<Audit>, key: EvaluationKey): (found: Option<nat>)
    ensures found.Some? ==> found.value < |chain| && chain[found.value].evaluationKey == key
    ensures found.None? ==> forall i :: 0 <= i < |chain| ==> chain[i].evaluationKey != key
  {
    FindFrom(chain, key, 0)
  }

  function FindFrom(chain: seq<Audit>, key: EvaluationKey, start: nat): (found: Option<nat>)
    requires start <= |chain|
    ensures found.Some? ==> start <= found.value < |chain| && chain[found.value].evaluationKey == key
    ensures found.None? ==> forall i :: start <= i < |chain| ==> chain[i].evaluationKey != key
    decreases |chain| - start
  {
    if start == |chain| then None
    else if chain[start].evaluationKey == key then Some(start)
    else FindFrom(chain, key, start + 1)
  }

  /** Checks the transition from the latest version; None means the new version may be appended. */
  function VersionTransitionError(chain: seq<Audit>, r: Request): Option<PersistError> {
    if r.RecordInitial? then
      if chain != [] then Some(ImplicitReevaluation) else None
    else if chain == [] then Some(InvalidReevaluation)
    else if AuditId(KeyOf(r.decision), chain[|chain| - 1].version) != r.superseded then Some(StaleSuperseded)
    else None
  }

  /**
   * Fingerprints are digests of the canonical JSON text; they agree exactly for equal decisions, as
   * `DecisionJson.FingerprintsDecideDecisions` says.
   */
  predicate SameFingerprint(a: Decision, b: Decision) {
    a == b
  }

  function NextAudit(chain: seq<Audit>, r: Request): Audit {
    Audit(if chain == [] then 1 else chain[|chain| - 1].version + 1,
          EvaluationKeyOf(r),
          if r.AppendReevaluation? then Some(r.superseded) else None,
          r.decision,
          Text.Trim(r.delivery))
  }

  /** One `persist` transaction on the chain of the request's own key. */
  function Persist(chain: seq<Audit>, r: Request): (seq<Audit>, Result<Accepted, PersistError>) {
    if !WellFormedRequest(r) then (chain, Err(InvalidInput)) else
    match FindByEvaluation(chain, EvaluationKeyOf(r))
    case Some(i) =>
      if !SameFingerprint(chain[i].decision, r.decision) then (chain, Err(EvaluationKeyConflict))
      else (chain, Ok(Accepted(chain[i], false)))
    case None =>
      match VersionTransitionError(chain, r)
      case Some(e) => (chain, Err(e))
      case None =>
        var audit := NextAudit(chain, r);
        (chain + [audit], Ok(Accepted(audit, true)))
  }

  /** The chain of `key` after a sequence of requests addressed to it. */
  function Run(chain: seq<Audit>, requests: seq<Request>): seq<Audit>
    decreases |requests|
  {
    if requests == [] then chain else Run(Persist(chain, requests[0]).0, requests[1..])
  }

  /**
   * Versions 1..n, distinct evaluation keys, the initial entry first, each later entry superseding its
   * predecessor (the entry at index i has version i + 1, so its predecessor has version i).
   */
  ghost predicate ValidChain(key: Key, chain: seq<Audit>) {
    && (forall i :: 0 <= i < |chain| ==> chain[i].version == i + 1 && KeyOf(chain[i].decision) == key)
    && (forall i, j :: 0 <= i < j < |chain| ==> chain[i].evaluationKey != chain[j].evaluationKey)
    && (chain != [] ==> chain[0].evaluationKey == Initial && chain[0].supersedes == None)
    && (forall i :: 0 < i < |chain| ==> chain[i].supersedes == Some(AuditId(key, i)))
  }

  lemma {:induction false} AppendKeepsChainValid(key: Key, chain: seq<Audit>, added: Audit)
    requires ValidChain(key, chain)
    requires added.version == |chain| + 1 && KeyOf(added.decision) == key
    requires forall i :: 0 <= i < |chain| ==> chain[i].evaluationKey != added.evaluationKey
    requires if chain == [] then added.evaluationKey == Initial && added.supersedes == None
             else added.supersedes == Some(AuditId(key, |chain|))
    ensures ValidChain(key, chain + [added])
  {
  }

  lemma {:induction false} PersistKeepsChainValid(key: Key, chain: seq<Audit>, r: Request)
    requires ValidChain(key, chain) && KeyOf(r.decision) == key
    ensures ValidChain(key, Persist(chain, r).0)
    ensures chain <= Persist(chain, r).0
    ensures |Persist(chain, r).0| <= |chain| + 1
  {
    if WellFormedRequest(r) && FindByEvaluation(chain, EvaluationKeyOf(r)).None?
       && VersionTransitionError(chain, r).None? {
      AppendKeepsChainValid(key, chain, NextAudit(chain, r));
    }
  }

  /** Every reachable chain is valid, and no stored version is ever changed or dropped. */
  lemma {:induction false} ReachableChainIsValid(key: Key, chain: seq<Audit>, requests: seq<Request>)
    requires ValidChain(key, chain)
    requires forall r :: r in requests ==> KeyOf(r.decision) == key
    ensures ValidChain(key, Run(chain, requests))
    ensures chain <= Run(chain, requests)
    decreases |requests|
  {
    if requests != [] {
      PersistKeepsChainValid(key, chain, requests[0]);
      ReachableChainIsValid(key, Persist(chain, requests[0]).0, requests[1..]);
    }
  }

  /** In a reachable chain the refusal "implicit reevaluation" never happens. */
  lemma {:induction false} ImplicitReevaluationUnreachable(key: Key, requests: seq<Request>, r: Request)
    requires forall q :: q in requests ==> KeyOf(q.decision) == key
    ensures Persist(Run([], requests), r).1 != Err(ImplicitReevaluation)
  {
    ReachableChainIsValid(key, [], requests);
    InitialIsAlwaysFound(key, Run([], requests), r);
  }

  lemma {:induction false} InitialIsAlwaysFound(key: Key, chain: seq<Audit>, r: Request)
    requires ValidChain(key, chain)
    ensures Persist(chain, r).1 != Err(ImplicitReevaluation)
  {
    if r.RecordInitial? && chain != [] {
      assert chain[0].evaluationKey == EvaluationKeyOf(r);
      assert FindByEvaluation(chain, EvaluationKeyOf(r)).Some?;
    }
  }

  /** Distinct evaluation keys make the lookup return the one entry that carries the key. */
  lemma {:induction false} FindFindsTheEntry(key: Key, chain: seq<Audit>, i: nat)
    requires ValidChain(key, chain) && i < |chain|
    ensures FindByEvaluation(chain, chain[i].evaluationKey) == Some(i)
  {
    var found := FindByEvaluation(chain, chain[i].evaluationKey);
    assert found.Some?;
  }

  /** Replaying an accepted request after any later history returns the original record and changes nothing. */
  lemma {:induction false} ReplayReturnsOriginal(key: Key, before: seq<Audit>, r: Request, later: seq<Request>)
    requires ValidChain(key, before)
    requires KeyOf(r.decision) == key && forall q :: q in later ==> KeyOf(q.decision) == key
    requires Persist(before, r).1.Ok?
    ensures var now := Run(Persist(before, r).0, later);
            Persist(now, r) == (now, Ok(Accepted(Persist(before, r).1.value.audit, false)))
  {
    var (chain, answer) := Persist(before, r);
    PersistKeepsChainValid(key, before, r);
    ReachableChainIsValid(key, chain, later);
    var now := Run(chain, later);
    var i := FindByEvaluation(chain, EvaluationKeyOf(r));
    if answer.value.created {
      assert chain[|before|].evaluationKey == EvaluationKeyOf(r);
      FindFindsTheEntry(key, chain, |before|);
    }
    assert now[i.value] == chain[i.value] == answer.value.audit;
    FindFindsTheEntry(key, now, i.value);
  }

  /** The same evaluation key with another decision is refused, whatever happened in between. */
  lemma {:induction false} ConflictingReplayIsRefused(key: Key, before: seq<Audit>, r: Request, later: seq<Request>,
                                                      other: Request)
    requires ValidChain(key, before)
    requires KeyOf(r.decision) == key && KeyOf(other.decision) == key
    requires forall q :: q in later ==> KeyOf(q.decision) == key
    requires Persist(before, r).1.Ok? && WellFormedRequest(other)
    requires EvaluationKeyOf(other) == EvaluationKeyOf(r) && other.decision != r.decision
    ensures var now := Run(Persist(before, r).0, later);
            Persist(now, other) == (now, Err(EvaluationKeyConflict))
  {
    ReplayReturnsOriginal(key, before, r, later);
  }

  ghost predicate SupersededBySome(key: Key, chain: seq<Audit>, i: nat)
    requires i < |chain|
  {
    exists j :: 0 <= j < |chain| && chain[j].supersedes == Some(AuditId(key, chain[i].version))
  }

  /** "Latest by version" and "superseded by none" select the same entry of every reachable chain. */
  lemma {:induction false} LatestIsTheUnsuperseded(key: Key, chain: seq<Audit>, i: nat)
    requires ValidChain(key, chain) && i < |chain|
    ensures !SupersededBySome(key, chain, i)
            <==> (forall j :: 0 <= j < |chain| ==> chain[j].version <= chain[i].version)
    ensures !SupersededBySome(key, chain, i) <==> i == |chain| - 1
  {
    if i < |chain| - 1 {
      assert chain[i + 1].supersedes == Some(AuditId(key, chain[i].version));
      assert chain[i + 1].version > chain[i].version;
    } else {
      assert forall j :: 0 < j < |chain| ==> chain[j].supersedes != Some(AuditId(key, |chain|));
      assert chain[0].supersedes == None;
    }
  }

  // ----- the audit table -----

  type Table = map<Key, seq<Audit>>

  function ChainIn(table: Table, key: Key): seq<Audit> {
    if key in table then table[key] else []
  }

  ghost predicate ValidTable(table: Table) {
    forall k :: k in table ==> table[k] != [] && ValidChain(k, table[k])
  }

  /** `persist` on the table: only the chain of the request's key can change. */
  function Transaction(table: Table, r: Request): (Table, Result<Accepted, PersistError>) {
    var (chain, answer) := Persist(ChainIn(table, KeyOf(r.decision)), r);
    (if chain == [] then table else table[KeyOf(r.decision) := chain], answer)
  }

  lemma {:induction false} TransactionKeepsTable(table: Table, r: Request)
    requires ValidTable(table)
    ensures ValidTable(Transaction(table, r).0)
    ensures forall k :: ChainIn(table, k) <= ChainIn(Transaction(table, r).0, k)
    ensures forall k :: k != KeyOf(r.decision) ==> ChainIn(Transaction(table, r).0, k) == ChainIn(table, k)
    ensures ChainIn(Transaction(table, r).0, KeyOf(r.decision)) == Persist(ChainIn(table, KeyOf(r.decision)), r).0
  {
    PersistKeepsChainValid(KeyOf(r.decision), ChainIn(table, KeyOf(r.decision)), r);
  }

  /** The repository: one transaction per request. */
  class DecisionRepository {
    var table: Table

    ghost predicate Valid()
      reads this
    {
      ValidTable(table)
    }

    constructor ()
      ensures Valid() && table == map[]
    {
      table := map[];
    }

    /** `persist`: returns the stored record of the evaluation key, or appends the next version. */
    method PersistRequest(r: Request) returns (answer: Result<Accepted, PersistError>)
      requires Valid()
      modifies this
      ensures Valid()
      ensures (table, answer) == Transaction(old(table), r)
    {
      assert ValidTable(Transaction(table, r).0) by {
        TransactionKeepsTable(table, r);
      }
      var key := KeyOf(r.decision);
      var chain := ChainIn(table, key);
      assert chain != [] ==> table[key := chain] == table;
      if !WellFormedRequest(r) {
        return Err(InvalidInput);
      }
      var existing := FindByEvaluation(chain, EvaluationKeyOf(r));
      if existing.Some? {
        if !SameFingerprint(chain[existing.value].decision, r.decision) {
          return Err(EvaluationKeyConflict);
        }
        return Ok(Accepted(chain[existing.value], false));
      }
      var refused := VersionTransitionError(chain, r);
      if refused.Some? {
        return Err(refused.value);
      }
      var created := NextAudit(chain, r);
      table := table[key := chain + [created]];
      answer := Ok(Accepted(created, true));
    }

    /** `findLatestByOccurrence`: the entry no other entry supersedes. */
    method FindLatest(key: Key) returns (latest: Option<Audit>)
      requires Valid()
      ensures latest.None? <==> key !in table
      ensures latest.Some? ==>
                exists i :: 0 <= i < |table[key]| && table[key][i] == latest.value &&
                            !SupersededBySome(key, table[key], i)
    {
      if key !in table {
        return None;
      }
      LatestIsTheUnsuperseded(key, table[key], |table[key]| - 1);
      latest := Some(table[key][|table[key]| - 1]);
    }
  }
}
