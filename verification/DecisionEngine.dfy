/** The canonical decision engine, the frozen legacy engine, and the comparison of their decisions. */
module DecisionEngine {
  import opened Wrappers
  import opened EventCatalog
  import opened Decisions
  import opened CatalogParser
  import CatalogOrders
  import Money
  import Text

  datatype Trigger =
    | FromMessage(author: Option<AuthorType>, text: string)
    | FromAutomation(labels: Option<seq<string>>)

  datatype DuplicateMatch = DuplicateMatch(duplicate: bool, decisionId: Option<string>, logId: Option<string>)

  datatype Input = Input(
    parserVersion: string,
    rule: RuleSnapshot,
    catalog: Option<Catalog>,
    lead: LeadResolution,
    contactIdentityHash: Option<string>,
    duplicateMatch: Option<DuplicateMatch>,
    provider: string,
    workspaceId: string,
    channelId: Option<string>,
    occurrenceKey: string,
    eventName: EventName,
    occurredAt: int,
    trigger: Trigger)

  /** A catalog has at least one attribute. */
  predicate ValidInput(i: Input) {
    i.catalog.Some? ==> i.catalog.value.attributes != []
  }

  datatype Evaluation =
    | NotApplicable
    | IgnoredTemplate(reason: ReasonCode, conversion: Conversion)
    | ReviewOutcome(reason: ReasonCode, conversion: Conversion)
    | EligibleOutcome(reason: ReasonCode, conversion: Conversion)

  function Positive(v: Option<nat>): bool {
    v.Some? && v.value != 0
  }

  function NonEmpty(s: Option<string>): bool {
    s.Some? && s.value != ""
  }

  function AuthorMayTrigger(i: Input): bool
    requires i.trigger.FromMessage?
  {
    i.trigger.author.Some? && i.trigger.author.value != FromUnknown &&
    AuthorAllowed(if i.rule.authorScope.Some? then i.rule.authorScope.value else Team, i.trigger.author.value)
  }

  function ConversionOf(m: Match): Conversion {
    Conversion(m.phrase, m.items, m.valueCents, m.observed, m.currency, m.contentName)
  }

  /** Recognized match for events that travel without a value. */
  function ValuelessConversion(phrase: Option<string>): Conversion {
    Conversion(phrase, [], None, None, None, None)
  }

  // ----- the canonical engine -----

  /** `extractSingleMoneyValueCents`. */
  function ExtractSingleMoney(locale: Locale, text: string): Option<nat> {
    Money.ObservedPayment(locale.round, locale.tokens, SplitLines(text), {})
  }

  function ExtractedValue(locale: Locale, i: Input): Option<nat> {
    if !i.rule.valueMode.MessageExtracted? || !i.trigger.FromMessage? then None
    else ExtractSingleMoney(locale, i.trigger.text)
  }

  /** `averageValueMatch`: whether there is a value and a currency, and the conversion. */
  function AverageValue(locale: Locale, i: Input, phrase: Option<string>): (bool, Conversion) {
    var extracted := ExtractedValue(locale, i);
    var value := OrElse(extracted, i.rule.defaultValueCents);
    var currency := OrElse(i.rule.defaultCurrency, if Positive(extracted) then Some("BRL") else None);
    if Positive(value) && NonEmpty(currency)
    then (true, Conversion(phrase, [], value, extracted, currency, i.rule.defaultContentName))
    else (false, Conversion(phrase, [], None, None, i.rule.defaultCurrency, i.rule.defaultContentName))
  }

  /** The value policy of an event that reached a trigger: eligible with, or without a value, or held for review. */
  function ApplyValuePolicy(locale: Locale, i: Input, phrase: Option<string>, reason: ReasonCode): Evaluation {
    if Policy(i.rule.eventName).NoValue? then EligibleOutcome(reason, ValuelessConversion(phrase))
    else
      var (valued, conversion) := AverageValue(locale, i, phrase);
      if valued then EligibleOutcome(reason, conversion)
      else if Policy(i.rule.eventName).Required? then ReviewOutcome(AverageValueMissing, conversion)
      else EligibleOutcome(reason, ValuelessConversion(phrase))
  }

  function EvaluateCatalog(locale: Locale, i: Input): Evaluation
    requires ValidInput(i)
  {
    if !i.trigger.FromMessage? || i.catalog.None? || !AuthorMayTrigger(i) || !i.catalog.value.active then NotApplicable
    else CatalogOutcome(MatchMessage(locale, i.catalog.value, i.trigger.text, i.rule.triggerPhrases))
  }

  function CatalogOutcome(m: Match): Evaluation {
    if m.classification.Ignored? && m.reason.TriggerMissing? then NotApplicable
    else if m.classification.Ignored? && m.reason.EmptyTemplate?
    then IgnoredTemplate(NotMatched(EmptyTemplate), ConversionOf(m))
    else if !m.matched then ReviewOutcome(NotMatched(m.reason), ConversionOf(m))
    else EligibleOutcome(CatalogMatched, ConversionOf(m))
  }

  function EvaluatePhrase(locale: Locale, i: Input): Evaluation {
    if !i.trigger.FromMessage? || !AuthorMayTrigger(i) then NotApplicable
    else
      var phrase := MatchTrigger(locale, i.trigger.text, i.rule.triggerPhrases);
      if !NonEmpty(phrase) then NotApplicable
      else ApplyValuePolicy(locale, i, phrase, AverageValueMessageMatched)
  }

  function LowerTrimmed(locale: Locale, s: string): string {
    locale.lower(Text.Trim(s))
  }

  /** Some configured phrase equals one of the labels. */
  predicate LabelsMatch(locale: Locale, labels: seq<string>, phrases: seq<string>) {
    exists p, l :: p in phrases && l in labels && LowerTrimmed(locale, p) == LowerTrimmed(locale, l)
  }

  function EvaluateAutomation(locale: Locale, i: Input): Evaluation {
    if !i.trigger.FromAutomation? then NotApplicable
    else if i.trigger.labels.Some? && !LabelsMatch(locale, i.trigger.labels.value, i.rule.triggerPhrases)
    then NotApplicable
    else ApplyValuePolicy(locale, i, None, AutomationMatched)
  }

  function EvaluateRule(locale: Locale, i: Input): Evaluation
    requires ValidInput(i)
  {
    if !i.rule.active || i.eventName != i.rule.eventName then NotApplicable
    else
      match i.rule.triggerType
      case StructuredCatalog => EvaluateCatalog(locale, i)
      case MessagePhrase => EvaluatePhrase(locale, i)
      case ProviderAutomation => EvaluateAutomation(locale, i)
  }

  function LeadProblem(l: LeadResolution): LeadReason
    requires !l.Resolved?
  {
    match l
    case MissingIdentity => MissingContactIdentity
    case NotFound(missing, _) => if missing then PaidAttributionMissing else PaidLeadNotFound
    case Ambiguous(_) => PaidLeadAmbiguous
  }

  function OccurrenceOf(i: Input, policy: Option<DedupePolicy>): Occurrence {
    Occurrence(if i.trigger.FromMessage? then Message else Automation, i.provider, i.workspaceId, i.channelId,
               i.occurrenceKey, policy, i.eventName, i.occurredAt,
               if i.trigger.FromMessage? then i.trigger.author else None, i.contactIdentityHash)
  }

  function Decide(i: Input, engine: EngineVersion, code: DecisionCode, reason: ReasonCode, conversion: Conversion,
                  policy: Option<DedupePolicy>, duplicateOf: Option<(Option<string>, Option<string>)>): Decision {
    Decision(engine, i.parserVersion, code, reason, OccurrenceOf(i, policy), i.rule, i.catalog, conversion, i.lead,
             duplicateOf)
  }

  predicate IsDuplicate(i: Input) {
    i.duplicateMatch.Some? && i.duplicateMatch.value.duplicate
  }

  /** `evaluate` of the canonical engine. */
  function Evaluate(locale: Locale, i: Input): Option<Decision>
    requires ValidInput(i)
  {
    Conclude(i, EvaluateRule(locale, i))
  }

  /** From the evaluation of the rule to the decision: the lead, then the duplicate match. */
  function Conclude(i: Input, e: Evaluation): Option<Decision> {
    if e.NotApplicable? then None
    else if e.IgnoredTemplate?
    then Some(Decide(i, DecisionV1, IgnoredEmptyTemplate, e.reason, e.conversion, None, None))
    else if !i.lead.Resolved? then
      Some(Decide(i, DecisionV1, IgnoredUntrackedLead, UntrackedLead(LeadProblem(i.lead)), e.conversion, None, None))
    else
      var policy := Some(BusinessDedupePolicy(i.rule.eventName, i.workspaceId, i.lead.lead.id));
      if e.ReviewOutcome? then Some(Decide(i, DecisionV1, ReviewRequired, e.reason, e.conversion, policy, None))
      else if IsDuplicate(i) then
        Some(Decide(i, DecisionV1, Duplicate, BusinessDuplicate, e.conversion, policy,
                    Some((i.duplicateMatch.value.decisionId, i.duplicateMatch.value.logId))))
      else Some(Decide(i, DecisionV1, Eligible, e.reason, e.conversion, policy, None))
  }

  // ----- the legacy engine -----

  function LegacyConversion(i: Input, phrase: Option<string>): Conversion {
    Conversion(phrase, [], i.rule.defaultValueCents, None, i.rule.defaultCurrency, i.rule.defaultContentName)
  }

  function LegacyDecide(i: Input, code: DecisionCode, reason: ReasonCode, conversion: Conversion): Option<Decision>
    requires i.lead.Resolved?
  {
    Some(Decide(i, LegacyV1, code, reason, conversion,
                Some(LegacyDedupePolicy(i.rule.eventName, i.workspaceId, i.lead.lead.id)), None))
  }

  function LegacyCatalog(locale: Locale, i: Input): Option<Decision>
    requires ValidInput(i) && i.lead.Resolved?
  {
    if !i.trigger.FromMessage? || i.catalog.None? || !i.catalog.value.active || !AuthorMayTrigger(i) then None
    else LegacyCatalogOutcome(i, MatchMessage(locale, i.catalog.value, i.trigger.text, i.rule.triggerPhrases))
  }

  function LegacyCatalogOutcome(i: Input, m: Match): Option<Decision>
    requires i.lead.Resolved?
  {
    if m.classification.Ignored? then None
    else if m.matched then LegacyDecide(i, Eligible, CatalogMatched, ConversionOf(m))
    else LegacyDecide(i, ReviewRequired, NotMatched(m.reason), ConversionOf(m))
  }

  function LegacyPhrase(locale: Locale, i: Input): Option<Decision>
    requires i.lead.Resolved?
  {
    if !i.trigger.FromMessage? || !AuthorMayTrigger(i) then None
    else
      var phrase := MatchTrigger(locale, i.trigger.text, i.rule.triggerPhrases);
      if !NonEmpty(phrase) || !Positive(i.rule.defaultValueCents) || !NonEmpty(i.rule.defaultCurrency) then None
      else LegacyDecide(i, Eligible, AverageValueMessageMatched, LegacyConversion(i, phrase))
  }

  function LegacyAutomation(i: Input): Option<Decision>
    requires i.lead.Resolved?
  {
    if !i.trigger.FromAutomation? then None
    else if i.rule.eventName.QualifiedLead? then LegacyDecide(i, Eligible, AutomationMatched, ValuelessConversion(None))
    else if !Positive(i.rule.defaultValueCents) || !NonEmpty(i.rule.defaultCurrency) then None
    else LegacyDecide(i, Eligible, AutomationMatched, LegacyConversion(i, None))
  }

  /** `evaluate` of the legacy engine. */
  function LegacyEvaluate(locale: Locale, i: Input): Option<Decision>
    requires ValidInput(i)
  {
    if !i.rule.active || i.eventName != i.rule.eventName || !i.lead.Resolved? then None
    else
      match i.rule.triggerType
      case StructuredCatalog => LegacyCatalog(locale, i)
      case MessagePhrase => LegacyPhrase(locale, i)
      case ProviderAutomation => LegacyAutomation(i)
  }

  // ----- the comparison -----

  datatype LeadView = ResolvedView(leadId: string, adId: string, ctwaClid: string) | UnresolvedView(reason: LeadReason)

  /** `semanticProjection`. */
  datatype Projection = Projection(
    code: DecisionCode, reason: ReasonCode, eventName: EventName, source: Source, channelId: Option<string>,
    lead: LeadView, conversion: Conversion)

  function Project(d: Option<Decision>): Option<Projection> {
    if d.None? then None
    else
      var d := d.value;
      Some(Projection(d.code, d.reasonCode, d.occurrence.eventName, d.occurrence.source, d.occurrence.channelId,
                      if d.leadResolution.Resolved?
                      then ResolvedView(d.leadResolution.lead.id, d.leadResolution.lead.adId,
                                        d.leadResolution.lead.ctwaClid)
                      else UnresolvedView(LeadProblem(d.leadResolution)), d.conversion))
  }

  datatype Mismatch =
    | ApplicabilityMismatch | DecisionCodeMismatch | LeadResolutionMismatch | ConversionPayloadMismatch
    | ReasonCodeMismatch | OccurrenceMismatch

  /** `mismatchCode`; that it compares canonical texts makes no difference (`DecisionJson.TextsDecideMismatch`). */
  function MismatchCode(legacy: Option<Projection>, canonical: Option<Projection>): Option<Mismatch> {
    if legacy.None? || canonical.None? then
      if legacy.None? && canonical.None? then None else Some(ApplicabilityMismatch)
    else
      var a, b := legacy.value, canonical.value;
      if a.code != b.code then Some(DecisionCodeMismatch)
      else if a.lead != b.lead then Some(LeadResolutionMismatch)
      else if a.conversion != b.conversion then Some(ConversionPayloadMismatch)
      else if a.reason != b.reason then Some(ReasonCodeMismatch)
      else if a.eventName != b.eventName || a.source != b.source || a.channelId != b.channelId
      then Some(OccurrenceMismatch)
      else None
  }

  lemma NoMismatchMeansEqual(legacy: Option<Projection>, canonical: Option<Projection>)
    ensures MismatchCode(legacy, canonical) == None <==> legacy == canonical
  {
  }

  // ----- when the engines agree -----

  /** Conditions of the rule and its trigger under which the canonical engine decides as the legacy engine does. */
  predicate DecidesAlike(locale: Locale, i: Input)
    requires ValidInput(i)
  {
    match i.rule.triggerType
    case StructuredCatalog =>
      !IsDuplicate(i) ||
      (i.trigger.FromMessage? && i.catalog.Some?
       && !MatchMessage(locale, i.catalog.value, i.trigger.text, i.rule.triggerPhrases).matched)
    case MessagePhrase =>
      !IsDuplicate(i) && !Policy(i.rule.eventName).NoValue? && ExtractedValue(locale, i).None?
    case ProviderAutomation =>
      && !IsDuplicate(i) && (Policy(i.rule.eventName).NoValue? ==> i.rule.eventName.QualifiedLead?)
      && (i.trigger.FromAutomation? && i.trigger.labels.Some? ==>
            LabelsMatch(locale, i.trigger.labels.value, i.rule.triggerPhrases))
  }

  function Comparison(locale: Locale, i: Input): Option<Mismatch>
    requires ValidInput(i)
  {
    MismatchCode(Project(LegacyEvaluate(locale, i)), Project(Evaluate(locale, i)))
  }

  lemma CatalogAgreesExactly(locale: Locale, i: Input)
    requires ValidInput(i) && i.rule.triggerType.StructuredCatalog? && LegacyEvaluate(locale, i).Some?
    ensures Comparison(locale, i) == None <==> DecidesAlike(locale, i)
  {
    OutcomesAgreeExactly(i, MatchMessage(locale, i.catalog.value, i.trigger.text, i.rule.triggerPhrases));
  }

  /** For any match the legacy engine does not ignore, only a duplicate match tells the two decisions apart. */
  lemma OutcomesAgreeExactly(i: Input, m: Match)
    requires i.lead.Resolved? && i.eventName == i.rule.eventName && !m.classification.Ignored?
    ensures MismatchCode(Project(LegacyCatalogOutcome(i, m)), Project(Conclude(i, CatalogOutcome(m)))) == None
            <==> !IsDuplicate(i) || !m.matched
  {
  }

  /** With a default value and currency, only a value read from the message changes the average value. */
  lemma AverageValueIsDefault(locale: Locale, i: Input, phrase: Option<string>)
    requires Positive(i.rule.defaultValueCents) && NonEmpty(i.rule.defaultCurrency)
    ensures ExtractedValue(locale, i).None? <==> AverageValue(locale, i, phrase) == (true, LegacyConversion(i, phrase))
    ensures ExtractedValue(locale, i).Some? ==> AverageValue(locale, i, phrase).1 != LegacyConversion(i, phrase)
    ensures ExtractedValue(locale, i).Some? ==>
            !AverageValue(locale, i, phrase).0 || AverageValue(locale, i, phrase).1.observedPaymentValueCents.Some?
  {
  }

  /** What the policy makes of such an event agrees with the legacy conversion exactly under the same condition. */
  lemma PolicyAgreesExactly(locale: Locale, i: Input, phrase: Option<string>, reason: ReasonCode)
    requires Positive(i.rule.defaultValueCents) && NonEmpty(i.rule.defaultCurrency)
    ensures ApplyValuePolicy(locale, i, phrase, reason) == EligibleOutcome(reason, LegacyConversion(i, phrase))
            <==> !Policy(i.rule.eventName).NoValue? && ExtractedValue(locale, i).None?
  {
    AverageValueIsDefault(locale, i, phrase);
  }

  lemma PhraseAgreesExactly(locale: Locale, i: Input)
    requires ValidInput(i) && i.rule.triggerType.MessagePhrase? && LegacyEvaluate(locale, i).Some?
    ensures Comparison(locale, i) == None <==> DecidesAlike(locale, i)
  {
    PolicyAgreesExactly(locale, i, MatchTrigger(locale, i.trigger.text, i.rule.triggerPhrases),
                        AverageValueMessageMatched);
  }

  lemma AutomationAgreesExactly(locale: Locale, i: Input)
    requires ValidInput(i) && i.rule.triggerType.ProviderAutomation? && LegacyEvaluate(locale, i).Some?
    ensures Comparison(locale, i) == None <==> DecidesAlike(locale, i)
  {
  }

  /** Where the legacy engine decides at all, the comparison reports no mismatch exactly under `DecidesAlike`. */
  lemma EnginesAgreeExactly(locale: Locale, i: Input)
    requires ValidInput(i) && LegacyEvaluate(locale, i).Some?
    ensures Comparison(locale, i) == None <==> DecidesAlike(locale, i)
  {
    match i.rule.triggerType
    case StructuredCatalog => CatalogAgreesExactly(locale, i);
    case MessagePhrase => PhraseAgreesExactly(locale, i);
    case ProviderAutomation => AutomationAgreesExactly(locale, i);
  }

  // ----- what both engines promise the protocol -----

  /** A held evaluation carries no value; an eligible catalog evaluation is valued by its items. */
  predicate SoundEvaluation(i: Input, e: Evaluation) {
    && (e.ReviewOutcome? ==> e.conversion.valueCents.None?)
    && (e.EligibleOutcome? && i.rule.triggerType.StructuredCatalog? ==>
          && e.conversion.items != [] && Priced(e.conversion.items)
          && e.conversion.valueCents == Some(Total(e.conversion.items)))
  }

  lemma CatalogEvaluationIsSound(locale: Locale, i: Input)
    requires ValidInput(i)
    ensures SoundEvaluation(i, EvaluateCatalog(locale, i))
  {
    if i.trigger.FromMessage? && i.catalog.Some? {
      CatalogOrders.MatchIsValuedByItems(locale, i.catalog.value, i.trigger.text, i.rule.triggerPhrases);
    }
  }

  lemma EvaluationIsSound(locale: Locale, i: Input)
    requires ValidInput(i)
    ensures SoundEvaluation(i, EvaluateRule(locale, i))
  {
    if i.rule.triggerType.StructuredCatalog? {
      CatalogEvaluationIsSound(locale, i);
    }
  }

  lemma ConclusionIsIssued(i: Input, e: Evaluation)
    requires ValidInput(i) && i.eventName == i.rule.eventName && SoundEvaluation(i, e) && Conclude(i, e).Some?
    ensures var d := Conclude(i, e).value;
            Issued(d) && (d.code.Eligible? || d.code.ReviewRequired? ==> d.occurrence.policy.Some?)
  {
  }

  /** Everything either engine decides has the shape the protocol relies on. */
  lemma CanonicalIsIssued(locale: Locale, i: Input)
    requires ValidInput(i) && Evaluate(locale, i).Some?
    ensures var d := Evaluate(locale, i).value;
            Issued(d) && (d.code.Eligible? || d.code.ReviewRequired? ==> d.occurrence.policy.Some?)
  {
    EvaluationIsSound(locale, i);
    ConclusionIsIssued(i, EvaluateRule(locale, i));
  }

  lemma LegacyIsIssued(locale: Locale, i: Input)
    requires ValidInput(i) && LegacyEvaluate(locale, i).Some?
    ensures Issued(LegacyEvaluate(locale, i).value) && LegacyEvaluate(locale, i).value.occurrence.policy.Some?
  {
    if i.rule.triggerType.StructuredCatalog? && i.trigger.FromMessage? && i.catalog.Some? {
      CatalogOrders.MatchIsValuedByItems(locale, i.catalog.value, i.trigger.text, i.rule.triggerPhrases);
    }
  }
}
