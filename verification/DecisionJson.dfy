/** Frozen decisions as the JSON values that fingerprints and engine comparisons are computed from. */
module DecisionJson {
  import opened Wrappers
  import opened EventCatalog
  import opened Decisions
  import opened StableJson
  import opened JsonObjects
  import DecisionChain
  import DecisionEngine

  // ----- words -----

  function StringJson(s: string): Json {
    Str(s)
  }

  function NumberJson(n: nat): Json {
    Number(n)
  }

  function EventJson(e: EventName): Json {
    Str(Name(e))
  }

  function SourceJson(s: Source): Json {
    Str(match s case Message => "message" case Automation => "automation")
  }

  function TriggerTypeJson(t: TriggerType): Json {
    Str(match t
        case StructuredCatalog => "structured_catalog"
        case MessagePhrase => "message_phrase"
        case ProviderAutomation => "provider_automation")
  }

  function ModeJson(m: RuleMode): Json {
    Str(match m case Observation => "observation" case Production => "production")
  }

  function AuthorScopeJson(a: AuthorScope): Json {
    Str(match a case Team => "team" case Contact => "contact" case Both => "both")
  }

  function AuthorTypeJson(a: AuthorType): Json {
    Str(match a
        case FromContact => "contact"
        case FromMember => "organization_member"
        case FromBot => "bot"
        case FromUnknown => "unknown")
  }

  function ValueModeJson(m: ValueMode): Json {
    Str(match m case Fixed => "fixed" case MessageExtracted => "message_extracted")
  }

  function EngineJson(e: EngineVersion): Json {
    Str(match e case DecisionV1 => "decision-v1" case LegacyV1 => "legacy-v1")
  }

  function CodeJson(c: DecisionCode): Json {
    Str(match c
        case IgnoredEmptyTemplate => "ignored_empty_template"
        case IgnoredUntrackedLead => "ignored_untracked_lead"
        case ReviewRequired => "review_required"
        case Eligible => "eligible"
        case Duplicate => "duplicate")
  }

  function ItemReasonName(r: ItemReason): string {
    match r
    case ItemMatched => "matched"
    case InvalidQuantity => "invalid_quantity"
    case AwaitingData => "awaiting_data"
    case IncompleteItem => "incomplete_item"
    case UnknownCombination => "unknown_combination"
    case AmbiguousVariant => "ambiguous_variant"
  }

  function LeadReasonName(r: LeadReason): string {
    match r
    case MissingContactIdentity => "missing_contact_identity"
    case PaidLeadNotFound => "paid_lead_not_found"
    case PaidAttributionMissing => "paid_attribution_missing"
    case PaidLeadAmbiguous => "paid_lead_ambiguous"
  }

  function ReasonName(r: ReasonCode): string {
    match r
    case CatalogMatched => "catalog_matched"
    case AverageValueMessageMatched => "average_value_message_matched"
    case AutomationMatched => "automation_matched"
    case AverageValueMissing => "average_value_missing"
    case NotMatched(CatalogInactive) => "catalog_inactive"
    case NotMatched(TriggerMissing) => "trigger_missing"
    case NotMatched(EmptyTemplate) => "empty_template"
    case NotMatched(OfItems(r)) => ItemReasonName(r)
    case UntrackedLead(r) => LeadReasonName(r)
    case BusinessDuplicate => "business_duplicate"
    case PurchaseReviewApproved => "purchase_review_approved"
  }

  /** Tells the reasons apart by their length and a few of their letters. */
  function ParseReason(s: string): ReasonCode
    requires |s| > 1
  {
    match |s|
    case 7 => NotMatched(OfItems(ItemMatched))
    case 13 => NotMatched(OfItems(AwaitingData))
    case 14 => NotMatched(EmptyTemplate)
    case 15 =>
      if s[0] == 'c' then CatalogMatched
      else if s[0] == 't' then NotMatched(TriggerMissing) else NotMatched(OfItems(IncompleteItem))
    case 16 => if s[0] == 'c' then NotMatched(CatalogInactive) else NotMatched(OfItems(InvalidQuantity))
    case 17 => NotMatched(OfItems(AmbiguousVariant))
    case 18 => if s[0] == 'a' then AutomationMatched else BusinessDuplicate
    case 19 =>
      if s[0] == 'u' then NotMatched(OfItems(UnknownCombination))
      else UntrackedLead(if s[18] == 'd' then PaidLeadNotFound else PaidLeadAmbiguous)
    case 21 => AverageValueMissing
    case 24 =>
      if s[0] == 'm' then UntrackedLead(MissingContactIdentity)
      else if s[1] == 'a' then UntrackedLead(PaidAttributionMissing) else PurchaseReviewApproved
    case _ => AverageValueMessageMatched
  }

  lemma ReasonsAreDistinct(r: ReasonCode)
    ensures |ReasonName(r)| > 1 && ParseReason(ReasonName(r)) == r
  {
  }

  function ReasonJson(r: ReasonCode): Json {
    Str(ReasonName(r))
  }

  function ItemReasonJson(r: ItemReason): Json {
    Str(ItemReasonName(r))
  }

  function LeadReasonJson(r: LeadReason): Json {
    Str(LeadReasonName(r))
  }

  lemma WordsAreFaithful()
    ensures Faithful(StringJson) && Faithful(NumberJson)
    ensures Faithful(ModeJson) && Faithful(AuthorScopeJson) && Faithful(AuthorTypeJson) && Faithful(ValueModeJson)
    ensures Faithful(EngineJson) && Faithful(SourceJson) && Faithful(TriggerTypeJson)
  {
  }

  lemma CodesAreFaithful()
    ensures Faithful(CodeJson)
  {
    forall a, b ensures FaithfulAt(CodeJson, a, b) {
      assert |CodeJson(a).s| > 8 && |CodeJson(b).s| > 8 && CodeJson(a) == CodeJson(b) ==>
          CodeJson(a).s[8] == CodeJson(b).s[8];
    }
  }

  lemma NamesAreFaithful()
    ensures Faithful(EventJson) && Faithful(ReasonJson) && Faithful(ItemReasonJson) && Faithful(LeadReasonJson)
  {
    forall a, b ensures FaithfulAt(EventJson, a, b) {
      NamesAreDistinct(a);
      NamesAreDistinct(b);
    }
    forall a, b ensures FaithfulAt(ReasonJson, a, b) {
      ReasonsAreDistinct(a);
      ReasonsAreDistinct(b);
    }
    forall a, b ensures FaithfulAt(ItemReasonJson, a, b) {
      ReasonsAreDistinct(NotMatched(OfItems(a)));
      ReasonsAreDistinct(NotMatched(OfItems(b)));
    }
    forall a, b ensures FaithfulAt(LeadReasonJson, a, b) {
      ReasonsAreDistinct(UntrackedLead(a));
      ReasonsAreDistinct(UntrackedLead(b));
    }
  }

  // ----- objects of a decision -----

  function StringsJson(ss: seq<string>): Json {
    ListJson(StringJson, ss)
  }

  function AttributeFields(a: Attribute): seq<Field> {
    [
      Field("key", Str(a.key)),
      Field("label", Str(a.labelText))
    ]
  }

  function AttributeJson(a: Attribute): Json {
    Record(AttributeFields(a))
  }

  function VariantFields(v: Variant): seq<Field> {
    [
      Field("id", Str(v.id)),
      Field("active", Bool(v.active)),
      Field("aliases", ListJson(StringsJson, v.aliases)),
      Field("valueCents", Number(v.valueCents)),
      Field("contentName", OptionJson(StringJson, v.contentName)),
      Field("normalizedKey", Str(v.normalizedKey)),
      Field("attributeValues", StringsJson(v.attributeValues))
    ]
  }

  function VariantJson(v: Variant): Json {
    Record(VariantFields(v))
  }

  function CatalogFields(c: Catalog): seq<Field> {
    [
      Field("name", Str(c.name)),
      Field("active", Bool(c.active)),
      Field("currency", Str(c.currency)),
      Field("variants", ListJson(VariantJson, c.variants)),
      Field("attributes", ListJson(AttributeJson, c.attributes)),
      Field("productName", Str(c.productName))
    ]
  }

  function CatalogJson(c: Catalog): Json {
    Record(CatalogFields(c))
  }

  function ParsedAttributeFields(a: ParsedAttribute): seq<Field> {
    [
      Field("key", Str(a.key)),
      Field("label", Str(a.labelText)),
      Field("value", Str(a.value))
    ]
  }

  function ParsedAttributeJson(a: ParsedAttribute): Json {
    Record(ParsedAttributeFields(a))
  }

  function ItemFront(i: ParsedItem): seq<Field> {
    [
      Field("position", Number(i.position)),
      Field("quantity", Number(i.quantity)),
      Field("reasonCode", ItemReasonJson(i.reason)),
      Field("contentName", OptionJson(StringJson, i.contentName))
    ]
  }

  function ItemBack(i: ParsedItem): seq<Field> {
    [
      Field("unitValueCents", OptionJson(NumberJson, i.unitValueCents)),
      Field("catalogVariantId", OptionJson(StringJson, i.catalogVariantId)),
      Field("parsedAttributes", ListJson(ParsedAttributeJson, i.parsedAttributes)),
      Field("subtotalValueCents", OptionJson(NumberJson, i.subtotalValueCents))
    ]
  }

  function ItemJson(i: ParsedItem): Json {
    Record(ItemFront(i) + ItemBack(i))
  }

  function ConversionFields(c: Conversion): seq<Field> {
    [
      Field("items", ListJson(ItemJson, c.items)),
      Field("currency", OptionJson(StringJson, c.currency)),
      Field("valueCents", OptionJson(NumberJson, c.valueCents)),
      Field("contentName", OptionJson(StringJson, c.contentName)),
      Field("matchedTriggerPhrase", OptionJson(StringJson, c.matchedTriggerPhrase)),
      Field("observedPaymentValueCents", OptionJson(NumberJson, c.observedPaymentValueCents))
    ]
  }

  function ConversionJson(c: Conversion): Json {
    Record(ConversionFields(c))
  }

  function LeadFields(l: Lead): seq<Field> {
    [
      Field("id", Str(l.id)),
      Field("adId", Str(l.adId)),
      Field("ctwaClid", Str(l.ctwaClid)),
      Field("phoneHash", Str(l.phoneHash))
    ]
  }

  function LeadJson(l: Lead): Json {
    Record(LeadFields(l))
  }

  /** `status` and what depends on it. */
  function ResolutionFields(l: LeadResolution): seq<Field> {
    match l
    case Resolved(lead) =>
      [Field("lead", LeadJson(lead)), Field("status", Str("resolved")), Field("reasonCode", Str("paid_lead_resolved"))]
    case MissingIdentity =>
      [Field("status", Str("missing_identity")), Field("reasonCode", LeadReasonJson(MissingContactIdentity))]
    case NotFound(attributionMissing, candidate) =>
      [Field("status", Str("not_found")),
       Field("reasonCode", LeadReasonJson(if attributionMissing then PaidAttributionMissing else PaidLeadNotFound)),
       Field("candidateLeadId", OptionJson(StringJson, candidate))]
    case Ambiguous(candidates) =>
      [Field("status", Str("ambiguous")), Field("reasonCode", LeadReasonJson(PaidLeadAmbiguous)),
       Field("candidateLeadIds", StringsJson(candidates))]
  }

  function ResolutionJson(l: LeadResolution): Json {
    Record(ResolutionFields(l))
  }

  function PolicyFields(p: DedupePolicy): seq<Field> {
    match p
    case Lifetime(scopeKey) => [Field("mode", Str("lifetime")), Field("scopeKey", Str(scopeKey))]
    case RollingWindow(scopeKey, windowSeconds) =>
      [Field("mode", Str("rolling_window")), Field("scopeKey", Str(scopeKey)),
       Field("windowSeconds", Number(windowSeconds))]
  }

  function PolicyJson(p: DedupePolicy): Json {
    Record(PolicyFields(p))
  }

  function RuleFront(r: RuleSnapshot): seq<Field> {
    [
      Field("mode", ModeJson(r.mode)),
      Field("active", Bool(r.active)),
      Field("eventName", EventJson(r.eventName)),
      Field("valueMode", ValueModeJson(r.valueMode)),
      Field("authorScope", OptionJson(AuthorScopeJson, r.authorScope))
    ]
  }

  function RuleBack(r: RuleSnapshot): seq<Field> {
    [
      Field("triggerType", TriggerTypeJson(r.triggerType)),
      Field("providerRuleId", Str(r.providerRuleId)),
      Field("triggerPhrases", StringsJson(r.triggerPhrases)),
      Field("defaultCurrency", OptionJson(StringJson, r.defaultCurrency)),
      Field("defaultValueCents", OptionJson(NumberJson, r.defaultValueCents)),
      Field("defaultContentName", OptionJson(StringJson, r.defaultContentName))
    ]
  }

  function RuleJson(r: RuleSnapshot): Json {
    Record(RuleFront(r) + RuleBack(r))
  }

  /** The time stands for its ISO text. */
  function OccurrenceFront(o: Occurrence): seq<Field> {
    [
      Field("source", SourceJson(o.source)),
      Field("provider", Str(o.provider)),
      Field("channelId", OptionJson(StringJson, o.channelId)),
      Field("eventName", EventJson(o.eventName)),
      Field("authorType", OptionJson(AuthorTypeJson, o.authorType))
    ]
  }

  function OccurrenceBack(o: Occurrence): seq<Field> {
    [
      Field("occurredAt", Number(o.occurredAt)),
      Field("workspaceId", Str(o.workspaceId)),
      Field("occurrenceKey", Str(o.occurrenceKey)),
      Field("contactIdentityHash", OptionJson(StringJson, o.contactIdentityHash)),
      Field("businessDedupePolicy", OptionJson(PolicyJson, o.policy))
    ]
  }

  function OccurrenceJson(o: Occurrence): Json {
    Record(OccurrenceFront(o) + OccurrenceBack(o))
  }

  function SnapshotFields(d: Decision): seq<Field> {
    [
      Field("rule", RuleJson(d.rule)),
      Field("catalog", OptionJson(CatalogJson, d.catalog)),
      Field("conversion", ConversionJson(d.conversion)),
      Field("occurrence", OccurrenceJson(d.occurrence))
    ]
  }

  function CodeFields(d: Decision): seq<Field> {
    [
      Field("reasonCode", ReasonJson(d.reasonCode)),
      Field("decisionCode", CodeJson(d.code)),
      Field("engineVersion", EngineJson(d.engineVersion)),
      Field("parserVersion", Str(d.parserVersion)),
      Field("leadResolution", ResolutionJson(d.leadResolution))
    ]
  }

  /** A duplicate names the decision and the log it duplicates; other decisions do not have these fields. */
  function DuplicateFields(d: Decision): seq<Field> {
    match d.duplicateOf
    case None => []
    case Some((decision, log)) =>
      [Field("duplicateOfDecisionId", OptionJson(StringJson, decision)),
       Field("duplicateOfConversionEventLogId", OptionJson(StringJson, log))]
  }

  function DecisionFields(d: Decision): seq<Field> {
    SnapshotFields(d) + (CodeFields(d) + DuplicateFields(d))
  }

  function DecisionJson(d: Decision): Json {
    Record(DecisionFields(d))
  }

  /** The resolution as the comparison of the engines sees it. */
  function ViewFields(v: DecisionEngine.LeadView): seq<Field> {
    match v
    case ResolvedView(leadId, adId, ctwaClid) =>
      [Field("adId", Str(adId)), Field("leadId", Str(leadId)), Field("status", Str("resolved")),
       Field("ctwaClid", Str(ctwaClid))]
    case UnresolvedView(reason) =>
      [Field("status", Str(StatusOf(reason))), Field("reasonCode", LeadReasonJson(reason))]
  }

  function StatusOf(r: LeadReason): string {
    match r
    case MissingContactIdentity => "missing_identity"
    case PaidLeadNotFound | PaidAttributionMissing => "not_found"
    case PaidLeadAmbiguous => "ambiguous"
  }

  function ViewJson(v: DecisionEngine.LeadView): Json {
    Record(ViewFields(v))
  }

  // ----- different decisions are different objects -----

  lemma StringsAreFaithful()
    ensures Faithful(StringsJson)
  {
    WordsAreFaithful();
    forall s, t ensures FaithfulAt(StringsJson, s, t) {
      ListsDiffer(StringJson, s, t);
    }
  }

  lemma AttributeIsFaithful()
    ensures Faithful(AttributeJson)
  {
    WordsAreFaithful();
    forall a, b ensures FaithfulAt(AttributeJson, a, b) {
    }
  }

  lemma VariantIsFaithful()
    ensures Faithful(VariantJson)
  {
    WordsAreFaithful();
    StringsAreFaithful();
    forall v, w ensures FaithfulAt(VariantJson, v, w) {
      ListsDiffer(StringsJson, v.aliases, w.aliases);
      OptionsDiffer(StringJson, v.contentName, w.contentName);
      ListsDiffer(StringJson, v.attributeValues, w.attributeValues);
    }
  }

  lemma CatalogIsFaithful()
    ensures Faithful(CatalogJson)
  {
    WordsAreFaithful();
    VariantIsFaithful();
    AttributeIsFaithful();
    forall c, d ensures FaithfulAt(CatalogJson, c, d) {
      ListsDiffer(VariantJson, c.variants, d.variants);
      ListsDiffer(AttributeJson, c.attributes, d.attributes);
    }
  }

  lemma ParsedAttributeIsFaithful()
    ensures Faithful(ParsedAttributeJson)
  {
    WordsAreFaithful();
    forall a, b ensures FaithfulAt(ParsedAttributeJson, a, b) {
    }
  }

  lemma ItemFrontsDiffer(i: ParsedItem, j: ParsedItem)
    ensures Fields(ItemFront(i))
    ensures ItemFront(i) == ItemFront(j) ==>
              i.position == j.position && i.quantity == j.quantity && i.reason == j.reason
              && i.contentName == j.contentName
  {
    WordsAreFaithful();
    NamesAreFaithful();
    assert FaithfulAt(ItemReasonJson, i.reason, j.reason);
    OptionsDiffer(StringJson, i.contentName, j.contentName);
  }

  lemma ItemBacksDiffer(i: ParsedItem, j: ParsedItem)
    ensures Fields(ItemBack(i))
    ensures ItemBack(i) == ItemBack(j) ==>
              i.unitValueCents == j.unitValueCents && i.catalogVariantId == j.catalogVariantId
              && i.parsedAttributes == j.parsedAttributes && i.subtotalValueCents == j.subtotalValueCents
  {
    WordsAreFaithful();
    ParsedAttributeIsFaithful();
    OptionsDiffer(NumberJson, i.unitValueCents, j.unitValueCents);
    OptionsDiffer(StringJson, i.catalogVariantId, j.catalogVariantId);
    ListsDiffer(ParsedAttributeJson, i.parsedAttributes, j.parsedAttributes);
    OptionsDiffer(NumberJson, i.subtotalValueCents, j.subtotalValueCents);
  }

  lemma ItemIsFaithful()
    ensures Faithful(ItemJson)
  {
    forall i, j ensures FaithfulAt(ItemJson, i, j) {
      ItemFrontsDiffer(i, j);
      ItemBacksDiffer(i, j);
      FieldsJoin(ItemFront(i), ItemBack(i));
      if ItemJson(i) == ItemJson(j) {
        PartsAreEqual(ItemFront(i), ItemFront(j), ItemBack(i), ItemBack(j));
      }
    }
  }

  lemma ConversionIsFaithful()
    ensures Faithful(ConversionJson)
  {
    WordsAreFaithful();
    ItemIsFaithful();
    forall c, d ensures FaithfulAt(ConversionJson, c, d) {
      ListsDiffer(ItemJson, c.items, d.items);
      OptionsDiffer(StringJson, c.currency, d.currency);
      OptionsDiffer(NumberJson, c.valueCents, d.valueCents);
      OptionsDiffer(StringJson, c.contentName, d.contentName);
      OptionsDiffer(StringJson, c.matchedTriggerPhrase, d.matchedTriggerPhrase);
      OptionsDiffer(NumberJson, c.observedPaymentValueCents, d.observedPaymentValueCents);
    }
  }

  lemma LeadIsFaithful()
    ensures Faithful(LeadJson)
  {
    WordsAreFaithful();
    forall l, m ensures FaithfulAt(LeadJson, l, m) {
    }
  }

  lemma RuleFrontsDiffer(r: RuleSnapshot, t: RuleSnapshot)
    ensures Fields(RuleFront(r))
    ensures RuleFront(r) == RuleFront(t) ==>
              r.mode == t.mode && r.active == t.active && r.eventName == t.eventName && r.valueMode == t.valueMode
              && r.authorScope == t.authorScope
  {
    WordsAreFaithful();
    NamesAreFaithful();
    assert FaithfulAt(ModeJson, r.mode, t.mode);
    assert FaithfulAt(EventJson, r.eventName, t.eventName);
    assert FaithfulAt(ValueModeJson, r.valueMode, t.valueMode);
    OptionsDiffer(AuthorScopeJson, r.authorScope, t.authorScope);
  }

  lemma RuleBacksDiffer(r: RuleSnapshot, t: RuleSnapshot)
    ensures Fields(RuleBack(r))
    ensures RuleBack(r) == RuleBack(t) ==>
              r.triggerType == t.triggerType && r.providerRuleId == t.providerRuleId
              && r.triggerPhrases == t.triggerPhrases && r.defaultCurrency == t.defaultCurrency
              && r.defaultValueCents == t.defaultValueCents && r.defaultContentName == t.defaultContentName
  {
    WordsAreFaithful();
    assert FaithfulAt(TriggerTypeJson, r.triggerType, t.triggerType);
    ListsDiffer(StringJson, r.triggerPhrases, t.triggerPhrases);
    OptionsDiffer(StringJson, r.defaultCurrency, t.defaultCurrency);
    OptionsDiffer(NumberJson, r.defaultValueCents, t.defaultValueCents);
    OptionsDiffer(StringJson, r.defaultContentName, t.defaultContentName);
  }

  lemma RuleIsFaithful()
    ensures Faithful(RuleJson)
  {
    forall r, t ensures FaithfulAt(RuleJson, r, t) {
      RuleFrontsDiffer(r, t);
      RuleBacksDiffer(r, t);
      FieldsJoin(RuleFront(r), RuleBack(r));
      if RuleJson(r) == RuleJson(t) {
        PartsAreEqual(RuleFront(r), RuleFront(t), RuleBack(r), RuleBack(t));
      }
    }
  }

  lemma PolicyIsFaithful()
    ensures Faithful(PolicyJson)
  {
    forall p, q ensures FaithfulAt(PolicyJson, p, q) {
      assert PolicyJson(p) == PolicyJson(q) ==> |PolicyFields(p)| == |PolicyFields(q)|;
    }
  }

  lemma OccurrenceFrontsDiffer(o: Occurrence, p: Occurrence)
    ensures Fields(OccurrenceFront(o))
    ensures OccurrenceFront(o) == OccurrenceFront(p) ==>
              o.source == p.source && o.provider == p.provider && o.channelId == p.channelId
              && o.eventName == p.eventName && o.authorType == p.authorType
  {
    WordsAreFaithful();
    NamesAreFaithful();
    assert FaithfulAt(SourceJson, o.source, p.source);
    OptionsDiffer(StringJson, o.channelId, p.channelId);
    assert FaithfulAt(EventJson, o.eventName, p.eventName);
    OptionsDiffer(AuthorTypeJson, o.authorType, p.authorType);
  }

  lemma OccurrenceBacksDiffer(o: Occurrence, p: Occurrence)
    ensures Fields(OccurrenceBack(o))
    ensures OccurrenceBack(o) == OccurrenceBack(p) ==>
              o.occurredAt == p.occurredAt && o.workspaceId == p.workspaceId && o.occurrenceKey == p.occurrenceKey
              && o.contactIdentityHash == p.contactIdentityHash && o.policy == p.policy
  {
    WordsAreFaithful();
    PolicyIsFaithful();
    OptionsDiffer(StringJson, o.contactIdentityHash, p.contactIdentityHash);
    OptionsDiffer(PolicyJson, o.policy, p.policy);
  }

  lemma OccurrenceIsFaithful()
    ensures Faithful(OccurrenceJson)
  {
    forall o, p ensures FaithfulAt(OccurrenceJson, o, p) {
      OccurrenceFrontsDiffer(o, p);
      OccurrenceBacksDiffer(o, p);
      FieldsJoin(OccurrenceFront(o), OccurrenceBack(o));
      if OccurrenceJson(o) == OccurrenceJson(p) {
        PartsAreEqual(OccurrenceFront(o), OccurrenceFront(p), OccurrenceBack(o), OccurrenceBack(p));
      }
    }
  }

  lemma ResolutionIsArranged(l: LeadResolution)
    ensures Arranged(ResolutionJson(l))
  {
    WordsAreFaithful();
    StringsAreFaithful();
    LeadIsFaithful();
    match l
    case Resolved(lead) => assert FaithfulAt(LeadJson, lead, lead);
    case NotFound(_, candidate) => OptionsDiffer(StringJson, candidate, candidate);
    case Ambiguous(candidates) => assert FaithfulAt(StringsJson, candidates, candidates);
    case _ =>
  }

  lemma ResolutionsDiffer(l: LeadResolution, m: LeadResolution)
    requires ResolutionJson(l) == ResolutionJson(m)
    ensures l == m
  {
    WordsAreFaithful();
    NamesAreFaithful();
    StringsAreFaithful();
    LeadIsFaithful();
    if l.Resolved? && m.Resolved? {
      assert FaithfulAt(LeadJson, l.lead, m.lead);
    } else if l.NotFound? && m.NotFound? {
      OptionsDiffer(StringJson, l.candidate, m.candidate);
      assert FaithfulAt(LeadReasonJson, PaidAttributionMissing, PaidLeadNotFound);
      assert FaithfulAt(LeadReasonJson, PaidLeadNotFound, PaidAttributionMissing);
    } else if l.Ambiguous? && m.Ambiguous? {
      assert FaithfulAt(StringsJson, l.candidates, m.candidates);
    }
  }

  lemma ResolutionIsFaithful()
    ensures Faithful(ResolutionJson)
  {
    forall l, m ensures FaithfulAt(ResolutionJson, l, m) {
      ResolutionIsArranged(l);
      if ResolutionJson(l) == ResolutionJson(m) {
        ResolutionsDiffer(l, m);
      }
    }
  }

  lemma SnapshotIsArranged(d: Decision)
    ensures Fields(SnapshotFields(d))
  {
    RuleIsFaithful();
    CatalogIsFaithful();
    ConversionIsFaithful();
    OccurrenceIsFaithful();
    OptionsDiffer(CatalogJson, d.catalog, d.catalog);
    assert FaithfulAt(RuleJson, d.rule, d.rule) && FaithfulAt(ConversionJson, d.conversion, d.conversion)
           && FaithfulAt(OccurrenceJson, d.occurrence, d.occurrence);
  }

  lemma SnapshotsDiffer(d: Decision, e: Decision)
    ensures SnapshotFields(d) == SnapshotFields(e) ==>
              d.rule == e.rule && d.catalog == e.catalog && d.conversion == e.conversion && d.occurrence == e.occurrence
  {
    RuleIsFaithful();
    CatalogIsFaithful();
    ConversionIsFaithful();
    OccurrenceIsFaithful();
    OptionsDiffer(CatalogJson, d.catalog, e.catalog);
    assert FaithfulAt(RuleJson, d.rule, e.rule) && FaithfulAt(ConversionJson, d.conversion, e.conversion)
           && FaithfulAt(OccurrenceJson, d.occurrence, e.occurrence);
  }

  lemma CodesAreArranged(d: Decision)
    ensures Fields(CodeFields(d))
  {
    ResolutionIsArranged(d.leadResolution);
  }

  lemma CodesDiffer(d: Decision, e: Decision)
    ensures CodeFields(d) == CodeFields(e) ==>
              d.reasonCode == e.reasonCode && d.code == e.code && d.engineVersion == e.engineVersion
              && d.parserVersion == e.parserVersion && d.leadResolution == e.leadResolution
  {
    WordsAreFaithful();
    NamesAreFaithful();
    CodesAreFaithful();
    ResolutionIsFaithful();
    assert FaithfulAt(ReasonJson, d.reasonCode, e.reasonCode) && FaithfulAt(CodeJson, d.code, e.code)
           && FaithfulAt(EngineJson, d.engineVersion, e.engineVersion)
           && FaithfulAt(ResolutionJson, d.leadResolution, e.leadResolution);
  }

  lemma DuplicatesDiffer(d: Decision, e: Decision)
    ensures Fields(DuplicateFields(d))
    ensures DuplicateFields(d) == DuplicateFields(e) ==> d.duplicateOf == e.duplicateOf
  {
    WordsAreFaithful();
    if d.duplicateOf.Some? {
      var (decision, log) := d.duplicateOf.value;
      var (otherDecision, otherLog) := if e.duplicateOf.Some? then e.duplicateOf.value else d.duplicateOf.value;
      OptionsDiffer(StringJson, decision, otherDecision);
      OptionsDiffer(StringJson, log, otherLog);
    }
  }

  lemma DecisionIsArranged(d: Decision)
    ensures Arranged(DecisionJson(d))
  {
    var front, codes, duplicates := SnapshotFields(d), CodeFields(d), DuplicateFields(d);
    SnapshotIsArranged(d);
    CodesAreArranged(d);
    DuplicatesDiffer(d, d);
    assert codes[|codes| - 1].key == "leadResolution";
    FieldsJoin(codes, duplicates);
    assert front[|front| - 1].key == "occurrence" && (codes + duplicates)[0].key == "reasonCode";
    FieldsJoin(front, codes + duplicates);
  }

  lemma DecisionsDiffer(d: Decision, e: Decision)
    requires DecisionJson(d) == DecisionJson(e)
    ensures d == e
  {
    PartsAreEqual(SnapshotFields(d), SnapshotFields(e), CodeFields(d) + DuplicateFields(d),
                  CodeFields(e) + DuplicateFields(e));
    PartsAreEqual(CodeFields(d), CodeFields(e), DuplicateFields(d), DuplicateFields(e));
    SnapshotsDiffer(d, e);
    CodesDiffer(d, e);
    DuplicatesDiffer(d, e);
  }

  /** Two decisions are written alike only if they are equal. */
  lemma DecisionIsFaithful()
    ensures Faithful(DecisionJson)
  {
    forall d, e ensures FaithfulAt(DecisionJson, d, e) {
      DecisionIsArranged(d);
      if DecisionJson(d) == DecisionJson(e) {
        DecisionsDiffer(d, e);
      }
    }
  }

  lemma ViewIsFaithful()
    ensures Faithful(ViewJson)
  {
    NamesAreFaithful();
    forall v, w ensures FaithfulAt(ViewJson, v, w) {
      if v.UnresolvedView? && w.UnresolvedView? {
        assert FaithfulAt(LeadReasonJson, v.reason, w.reason);
      }
    }
  }

  // ----- fingerprints and comparisons -----

  /** With an injective digest, the fingerprints of two decisions are equal exactly when the decisions are. */
  lemma FingerprintsDecideDecisions(before: Order, digest: string -> string, d: Decision, e: Decision)
    requires IsTotalOrder(before) && forall x, y :: digest(x) == digest(y) ==> x == y
    ensures digest(Print(before, DecisionJson(d))) == digest(Print(before, DecisionJson(e)))
            <==> DecisionChain.SameFingerprint(d, e)
  {
    DecisionIsFaithful();
    TextsDiffer(before, DecisionJson, d, e);
  }

  /** `mismatchCode`, which compares the leads and the conversions as canonical texts. */
  function MismatchOfTexts(
    before: Order, legacy: Option<DecisionEngine.Projection>, canonical: Option<DecisionEngine.Projection>)
    : Option<DecisionEngine.Mismatch>
  {
    if legacy.None? || canonical.None? then
      if legacy.None? && canonical.None? then None else Some(DecisionEngine.ApplicabilityMismatch)
    else
      var a, b := legacy.value, canonical.value;
      if a.code != b.code then Some(DecisionEngine.DecisionCodeMismatch)
      else if Print(before, ViewJson(a.lead)) != Print(before, ViewJson(b.lead))
      then Some(DecisionEngine.LeadResolutionMismatch)
      else if Print(before, ConversionJson(a.conversion)) != Print(before, ConversionJson(b.conversion))
      then Some(DecisionEngine.ConversionPayloadMismatch)
      else if a.reason != b.reason then Some(DecisionEngine.ReasonCodeMismatch)
      else if a.eventName != b.eventName || a.source != b.source || a.channelId != b.channelId
      then Some(DecisionEngine.OccurrenceMismatch)
      else None
  }

  /** Comparing the texts is comparing the values, so no mismatch of the texts means equal projections. */
  lemma TextsDecideMismatch(
    before: Order, legacy: Option<DecisionEngine.Projection>, canonical: Option<DecisionEngine.Projection>)
    requires IsTotalOrder(before)
    ensures MismatchOfTexts(before, legacy, canonical) == DecisionEngine.MismatchCode(legacy, canonical)
    ensures MismatchOfTexts(before, legacy, canonical) == None <==> legacy == canonical
  {
    if legacy.Some? && canonical.Some? {
      ViewIsFaithful();
      ConversionIsFaithful();
      TextsDiffer(before, ViewJson, legacy.value.lead, canonical.value.lead);
      TextsDiffer(before, ConversionJson, legacy.value.conversion, canonical.value.conversion);
    }
    DecisionEngine.NoMismatchMeansEqual(legacy, canonical);
  }
}
