/** The frozen conversion decision and the values it is made of. */
module Decisions {
  import opened Wrappers
  import opened EventCatalog
  import Text

  datatype Source = Message | Automation
  datatype TriggerType = StructuredCatalog | MessagePhrase | ProviderAutomation
  datatype RuleMode = Observation | Production
  datatype AuthorScope = Team | Contact | Both
  datatype AuthorType = FromContact | FromMember | FromBot | FromUnknown
  datatype ValueMode = Fixed | MessageExtracted

  datatype Attribute = Attribute(key: string, labelText: string)

  datatype Variant = Variant(
    id: string,
    normalizedKey: string,
    attributeValues: seq<string>,
    aliases: seq<seq<string>>,
    valueCents: nat,
    contentName: Option<string>,
    active: bool)

  datatype Catalog = Catalog(
    name: string,
    productName: string,
    currency: string,
    active: bool,
    attributes: seq<Attribute>,
    variants: seq<Variant>)

  datatype ItemReason =
    | ItemMatched | InvalidQuantity | AwaitingData | IncompleteItem | UnknownCombination | AmbiguousVariant

  datatype ParsedAttribute = ParsedAttribute(key: string, labelText: string, value: string)

  datatype ParsedItem = ParsedItem(
    position: nat,
    quantity: nat,
    parsedAttributes: seq<ParsedAttribute>,
    catalogVariantId: Option<string>,
    unitValueCents: Option<nat>,
    subtotalValueCents: Option<nat>,
    contentName: Option<string>,
    reason: ItemReason)

  datatype Lead = Lead(id: string, phoneHash: string, adId: string, ctwaClid: string)

  datatype LeadResolution =
    | Resolved(lead: Lead)
    | MissingIdentity
    | NotFound(attributionMissing: bool, candidate: Option<string>)
    | Ambiguous(candidates: seq<string>)

  datatype DedupePolicy =
    | Lifetime(scopeKey: string)
    | RollingWindow(scopeKey: string, windowSeconds: nat)

  datatype Occurrence = Occurrence(
    source: Source,
    provider: string,
    workspaceId: string,
    channelId: Option<string>,
    occurrenceKey: string,
    policy: Option<DedupePolicy>,
    eventName: EventName,
    occurredAt: int,
    authorType: Option<AuthorType>,
    contactIdentityHash: Option<string>)

  datatype RuleSnapshot = RuleSnapshot(
    providerRuleId: string,
    triggerType: TriggerType,
    eventName: EventName,
    mode: RuleMode,
    active: bool,
    authorScope: Option<AuthorScope>,
    triggerPhrases: seq<string>,
    defaultValueCents: Option<nat>,
    defaultCurrency: Option<string>,
    defaultContentName: Option<string>,
    valueMode: ValueMode)

  datatype Conversion = Conversion(
    matchedTriggerPhrase: Option<string>,
    items: seq<ParsedItem>,
    valueCents: Option<nat>,
    observedPaymentValueCents: Option<nat>,
    currency: Option<string>,
    contentName: Option<string>)

  datatype DecisionCode =
    | IgnoredEmptyTemplate | IgnoredUntrackedLead | ReviewRequired | Eligible | Duplicate

  datatype LeadReason = MissingContactIdentity | PaidLeadNotFound | PaidAttributionMissing | PaidLeadAmbiguous

  /** Why a message was or was not matched against the catalog. */
  datatype MatchReason = CatalogInactive | TriggerMissing | EmptyTemplate | OfItems(reason: ItemReason)

  datatype ReasonCode =
    | CatalogMatched | AverageValueMessageMatched | AutomationMatched | AverageValueMissing
    | NotMatched(reason: MatchReason) | UntrackedLead(problem: LeadReason)
    | BusinessDuplicate | PurchaseReviewApproved

  datatype EngineVersion = DecisionV1 | LegacyV1

  datatype Decision = Decision(
    engineVersion: EngineVersion,
    parserVersion: string,
    code: DecisionCode,
    reasonCode: ReasonCode,
    occurrence: Occurrence,
    rule: RuleSnapshot,
    catalog: Option<Catalog>,
    conversion: Conversion,
    leadResolution: LeadResolution,
    duplicateOf: Option<(Option<string>, Option<string>)>)

  // ----- business deduplication -----

  function ScopeKey(e: EventName, workspaceId: string, leadId: string): string {
    Name(e) + ":" + (workspaceId + ":" + leadId)
  }

  function BusinessDedupePolicy(e: EventName, workspaceId: string, leadId: string): DedupePolicy {
    var scopeKey := ScopeKey(e, workspaceId, leadId);
    if Dedupe(e) == LifetimeMode then Lifetime(scopeKey) else RollingWindow(scopeKey, PURCHASE_DEDUPE_WINDOW_SECONDS)
  }

  /** The policy of the frozen legacy engine, which knows one lifetime event only. */
  function LegacyDedupePolicy(e: EventName, workspaceId: string, leadId: string): DedupePolicy {
    var scopeKey := ScopeKey(e, workspaceId, leadId);
    if e == QualifiedLead then Lifetime(scopeKey) else RollingWindow(scopeKey, PURCHASE_DEDUPE_WINDOW_SECONDS)
  }

  /** The two engines deduplicate every event alike but one. */
  lemma PoliciesDifferOnLeadSubmitted(e: EventName, workspaceId: string, leadId: string)
    ensures LegacyDedupePolicy(e, workspaceId, leadId) == BusinessDedupePolicy(e, workspaceId, leadId)
            <==> e != LeadSubmitted
  {
  }

  /** Within one workspace a scope key names exactly one event and one lead. */
  lemma ScopeKeyInjective(e: EventName, f: EventName, workspaceId: string, lead: string, other: string)
    requires ScopeKey(e, workspaceId, lead) == ScopeKey(f, workspaceId, other)
    ensures e == f && lead == other
  {
    NamesAreDistinct(e);
    NamesAreDistinct(f);
    NamesHaveNoColon(e);
    NamesHaveNoColon(f);
    var x := workspaceId + ":" + lead;
    var y := workspaceId + ":" + other;
    assert ScopeKey(e, workspaceId, lead) == Name(e) + [':'] + x;
    assert ScopeKey(f, workspaceId, other) == Name(f) + [':'] + y;
    Text.SplitUnique(Name(e), x, Name(f), y, ':');
    assert lead == x[|workspaceId| + 1..] && other == y[|workspaceId| + 1..];
  }

  /** Everything about a decision that the materializer's lock and duplicate query look at. */
  datatype DedupeKey = DedupeKey(
    eventName: EventName, policy: Option<DedupePolicy>, occurredAt: int, phoneHash: Option<string>)

  function KeyForDedupe(d: Decision): DedupeKey {
    DedupeKey(d.occurrence.eventName, d.occurrence.policy, d.occurrence.occurredAt,
              if d.leadResolution.Resolved? then Some(d.leadResolution.lead.phoneHash) else None)
  }

  // ----- value of a catalog decision -----

  /** Sum over the items of quantity times unit price. */
  function Total(items: seq<ParsedItem>): nat {
    if items == [] then 0
    else items[0].quantity * (if items[0].unitValueCents.Some? then items[0].unitValueCents.value else 0)
         + Total(items[1..])
  }

  /** Every item is priced by a variant. */
  predicate Priced(items: seq<ParsedItem>) {
    forall i :: 0 <= i < |items| ==> items[i].unitValueCents.Some? && items[i].catalogVariantId.Some?
  }

  /** What either engine and the review correction promise of every decision they freeze. */
  ghost predicate Issued(d: Decision) {
    && (d.code.ReviewRequired? || d.code.Eligible? || d.code.Duplicate? ==> d.leadResolution.Resolved?)
    && (d.occurrence.policy.Some? ==>
          && d.leadResolution.Resolved?
          && var o := d.occurrence;
             var lead := d.leadResolution.lead.id;
             || o.policy.value == BusinessDedupePolicy(o.eventName, o.workspaceId, lead)
             || o.policy.value == LegacyDedupePolicy(o.eventName, o.workspaceId, lead))
    && (d.code.ReviewRequired? ==> d.conversion.valueCents.None?)
    && (d.rule.triggerType.StructuredCatalog? && (d.code.Eligible? || d.code.Duplicate?) ==>
          && d.conversion.items != []
          && Priced(d.conversion.items)
          && d.conversion.valueCents == Some(Total(d.conversion.items)))
  }

  lemma SameScopeSameEvent(a: Decision, b: Decision)
    requires Issued(a) && Issued(b)
    requires a.occurrence.policy.Some? && b.occurrence.policy.Some?
    requires a.occurrence.workspaceId == b.occurrence.workspaceId
    requires a.occurrence.policy.value.scopeKey == b.occurrence.policy.value.scopeKey
    ensures a.occurrence.eventName == b.occurrence.eventName
    ensures a.leadResolution.Resolved? && b.leadResolution.Resolved?
    ensures a.leadResolution.lead.id == b.leadResolution.lead.id
    ensures a.occurrence.eventName != LeadSubmitted ==> a.occurrence.policy == b.occurrence.policy
  {
    ScopeKeyInjective(a.occurrence.eventName, b.occurrence.eventName, a.occurrence.workspaceId,
                      a.leadResolution.lead.id, b.leadResolution.lead.id);
  }
}
