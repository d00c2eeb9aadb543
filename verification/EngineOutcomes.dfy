/** What the decision engines decide, told from the rule, the message and the lead. */
module EngineOutcomes {
  import opened Wrappers
  import opened EventCatalog
  import opened Decisions
  import opened CatalogLines
  import opened CatalogParser
  import opened DecisionEngine
  import Money
  import Text

  // ----- who and what triggers a rule -----

  /** The phrase is not blank once normalized, and the normalized message contains it. */
  predicate Occurs(locale: Locale, message: string, phrase: string) {
    locale.value(phrase) != "" && Text.Includes(locale.value(message), locale.value(phrase))
  }

  /** The first of the phrases that occurs. */
  ghost predicate OccursFirst(locale: Locale, message: string, phrases: seq<string>, i: int) {
    && 0 <= i < |phrases| && Occurs(locale, message, phrases[i])
    && forall j :: 0 <= j < i ==> !Occurs(locale, message, phrases[j])
  }

  lemma {:induction false} MatchesTheFirst(locale: Locale, message: string, phrases: seq<string>)
    ensures match MatchTrigger(locale, message, phrases)
            case Some(p) => exists i :: OccursFirst(locale, message, phrases, i) && phrases[i] == p
            case None => forall p :: p in phrases ==> !Occurs(locale, message, p)
  {
    if phrases != [] && !Occurs(locale, message, phrases[0]) {
      MatchesTheFirst(locale, message, phrases[1..]);
      if MatchTrigger(locale, message, phrases[1..]).Some? {
        var rest := phrases[1..];
        var i :| OccursFirst(locale, message, rest, i) && rest[i] == MatchTrigger(locale, message, rest).value;
        var k := i + 1;
        forall j | 0 <= j < k ensures !Occurs(locale, message, phrases[j]) {
          assert j > 0 ==> phrases[j] == phrases[1..][j - 1];
        }
        assert OccursFirst(locale, message, phrases, k);
      }
    } else if phrases != [] {
      assert OccursFirst(locale, message, phrases, 0);
    }
  }

  /** The team of a rule without a scope, or of scope team, is its members and bots. */
  predicate MayWrite(scope: Option<AuthorScope>, author: Option<AuthorType>) {
    match author
    case None => false
    case Some(FromUnknown) => false
    case Some(FromContact) => scope.Some? && !scope.value.Team?
    case Some(_) => scope.None? || !scope.value.Contact?
  }

  /** The phrase the rule is triggered by is the first that occurs, and not empty. */
  ghost predicate IsCalled(locale: Locale, message: string, phrases: seq<string>) {
    exists i :: OccursFirst(locale, message, phrases, i) && phrases[i] != ""
  }

  /** Some phrase occurs, if there are any. */
  predicate IsWanted(locale: Locale, message: string, phrases: seq<string>) {
    phrases != [] ==> exists p :: p in phrases && Occurs(locale, message, p)
  }

  ghost predicate IsTriggered(locale: Locale, i: Input) {
    && i.rule.active && i.eventName == i.rule.eventName
    && match i.rule.triggerType
       case MessagePhrase =>
         && i.trigger.FromMessage? && MayWrite(i.rule.authorScope, i.trigger.author)
         && IsCalled(locale, i.trigger.text, i.rule.triggerPhrases)
       case ProviderAutomation =>
         && i.trigger.FromAutomation?
         && (i.trigger.labels.Some? ==>
               exists p, l :: p in i.rule.triggerPhrases && l in i.trigger.labels.value
                              && locale.lower(Text.Trim(p)) == locale.lower(Text.Trim(l)))
       case StructuredCatalog =>
         && i.trigger.FromMessage? && MayWrite(i.rule.authorScope, i.trigger.author)
         && i.catalog.Some? && i.catalog.value.active
         && IsWanted(locale, i.trigger.text, i.rule.triggerPhrases)
  }

  lemma CalledExactly(locale: Locale, message: string, phrases: seq<string>)
    ensures IsCalled(locale, message, phrases) <==> NonEmpty(MatchTrigger(locale, message, phrases))
  {
    MatchesTheFirst(locale, message, phrases);
    if IsCalled(locale, message, phrases) {
      var i :| OccursFirst(locale, message, phrases, i) && phrases[i] != "";
      assert phrases[i] in phrases;
      var j :| OccursFirst(locale, message, phrases, j) && phrases[j] == MatchTrigger(locale, message, phrases).value;
      assert i == j;
    }
  }

  lemma ItemsAreTriggered(catalog: Catalog, phrase: Option<string>, items: seq<ParsedItem>, observed: Option<nat>)
    ensures !MatchItems(catalog, phrase, items, observed).reason.TriggerMissing?
  {
  }

  lemma MessageMissesTriggerExactly(locale: Locale, catalog: Catalog, message: string, phrases: seq<string>)
    requires catalog.attributes != [] && catalog.active
    ensures MatchMessage(locale, catalog, message, phrases).reason.TriggerMissing? <==>
              phrases != [] && MatchTrigger(locale, message, phrases).None?
    ensures MatchMessage(locale, catalog, message, phrases).reason.TriggerMissing? ==>
              MatchMessage(locale, catalog, message, phrases).classification.Ignored?
  {
    var lines := SplitLines(message);
    var labels := locale.labels;
    var observed := Money.ObservedPayment(locale.round, locale.tokens, lines,
                                          LineIndexes(Found(labels, catalog.attributes, lines)));
    ItemsAreTriggered(catalog, MatchTrigger(locale, message, phrases),
                      ParseItems(locale, catalog, RawItems(labels, catalog.attributes, lines)), observed);
  }

  lemma CatalogIsCalledExactly(locale: Locale, i: Input)
    requires ValidInput(i) && i.trigger.FromMessage? && i.catalog.Some? && i.catalog.value.active
    ensures var m := MatchMessage(locale, i.catalog.value, i.trigger.text, i.rule.triggerPhrases);
            CatalogOutcome(m).NotApplicable? <==> !IsWanted(locale, i.trigger.text, i.rule.triggerPhrases)
  {
    MatchesTheFirst(locale, i.trigger.text, i.rule.triggerPhrases);
    MessageMissesTriggerExactly(locale, i.catalog.value, i.trigger.text, i.rule.triggerPhrases);
  }

  lemma PhraseAppliesExactly(locale: Locale, i: Input)
    ensures EvaluatePhrase(locale, i).NotApplicable? <==>
              !(&& i.trigger.FromMessage? && MayWrite(i.rule.authorScope, i.trigger.author)
                && IsCalled(locale, i.trigger.text, i.rule.triggerPhrases))
  {
    if i.trigger.FromMessage? {
      CalledExactly(locale, i.trigger.text, i.rule.triggerPhrases);
    }
  }

  lemma AutomationAppliesExactly(locale: Locale, i: Input)
    ensures EvaluateAutomation(locale, i).NotApplicable? <==>
              !(&& i.trigger.FromAutomation?
                && (i.trigger.labels.Some? ==>
                      exists p, l :: p in i.rule.triggerPhrases && l in i.trigger.labels.value
                                     && locale.lower(Text.Trim(p)) == locale.lower(Text.Trim(l))))
  {
  }

  lemma CatalogAppliesExactly(locale: Locale, i: Input)
    requires ValidInput(i)
    ensures EvaluateCatalog(locale, i).NotApplicable? <==>
              !(&& i.trigger.FromMessage? && MayWrite(i.rule.authorScope, i.trigger.author)
                && i.catalog.Some? && i.catalog.value.active
                && IsWanted(locale, i.trigger.text, i.rule.triggerPhrases))
  {
    if i.trigger.FromMessage? && i.catalog.Some? && i.catalog.value.active {
      CatalogIsCalledExactly(locale, i);
    }
  }

  lemma ConcludesExactly(i: Input, e: Evaluation)
    ensures Conclude(i, e).Some? <==> !e.NotApplicable?
  {
  }

  /** The canonical engine decides exactly what is triggered, whatever the lead and the duplicate match. */
  lemma DecidesExactly(locale: Locale, i: Input)
    requires ValidInput(i)
    ensures Evaluate(locale, i).Some? <==> IsTriggered(locale, i)
  {
    ConcludesExactly(i, EvaluateRule(locale, i));
    match i.rule.triggerType
    case MessagePhrase => PhraseAppliesExactly(locale, i);
    case StructuredCatalog => CatalogAppliesExactly(locale, i);
    case ProviderAutomation => AutomationAppliesExactly(locale, i);
  }

  // ----- what a decision is worth -----

  /** Some line of the message carries a money token worth `v`. */
  ghost predicate Mentions(locale: Locale, message: string, v: nat) {
    exists j :: 0 <= j < |SplitLines(message)| && Money.Carries(locale.round, locale.tokens(SplitLines(message)[j]), v)
  }

  /** `v` is the one amount that the message mentions. */
  ghost predicate MentionsOnly(locale: Locale, message: string, v: nat) {
    Mentions(locale, message, v) && forall u :: Mentions(locale, message, u) ==> u == v
  }

  lemma ReadsExactly(locale: Locale, message: string, v: nat)
    ensures ExtractSingleMoney(locale, message) == Some(v) <==> MentionsOnly(locale, message, v)
  {
    var lines := SplitLines(message);
    Money.ObservedExactly(locale.round, locale.tokens, lines, {}, v);
    forall u ensures Mentions(locale, message, u) <==> Money.IsObserved(locale.round, locale.tokens, lines, {}, 0, u) {
      if Mentions(locale, message, u) {
        var j :| 0 <= j < |lines| && Money.Carries(locale.round, locale.tokens(lines[j]), u);
        assert j !in {};
      }
    }
  }

  lemma MentionsArePositive(locale: Locale, message: string, v: nat)
    requires Mentions(locale, message, v)
    ensures v > 0
  {
  }

  /** The amount that the rule takes from the message: the only one, if the rule reads amounts. */
  ghost predicate TakesAmount(locale: Locale, i: Input, v: nat) {
    i.rule.valueMode.MessageExtracted? && i.trigger.FromMessage? && MentionsOnly(locale, i.trigger.text, v)
  }

  lemma TakesExactly(locale: Locale, i: Input, v: nat)
    ensures ExtractedValue(locale, i) == Some(v) <==> TakesAmount(locale, i, v)
    ensures TakesAmount(locale, i, v) ==> v > 0
  {
    if i.trigger.FromMessage? {
      ReadsExactly(locale, i.trigger.text, v);
      if TakesAmount(locale, i, v) {
        MentionsArePositive(locale, i.trigger.text, v);
      }
    }
  }

  /** A phrase or automation rule that is triggered, for a known lead without a duplicate. */
  ghost predicate IsPlain(locale: Locale, i: Input) {
    && ValidInput(i) && IsTriggered(locale, i) && !i.rule.triggerType.StructuredCatalog?
    && i.lead.Resolved? && !(i.duplicateMatch.Some? && i.duplicateMatch.value.duplicate)
  }

  predicate IsFor(
    d: Decision, code: DecisionCode, value: Option<nat>, observed: Option<nat>, currency: Option<string>)
  {
    && d.code == code && d.conversion.valueCents == value && d.conversion.observedPaymentValueCents == observed
    && d.conversion.currency == currency && d.conversion.items == []
  }

  predicate MayCarryValue(e: EventName) {
    || e == Purchase || e == InitiateCheckout || e == ViewContent || e == AddToCart || e == CartAbandoned
    || e == OrderCreated
  }

  lemma PlainIsConcluded(locale: Locale, i: Input) returns (phrase: Option<string>, reason: ReasonCode)
    requires IsPlain(locale, i)
    ensures Evaluate(locale, i) == Conclude(i, ApplyValuePolicy(locale, i, phrase, reason))
  {
    DecidesExactly(locale, i);
    if i.rule.triggerType.MessagePhrase? {
      phrase, reason := MatchTrigger(locale, i.trigger.text, i.rule.triggerPhrases), AverageValueMessageMatched;
    } else {
      phrase, reason := None, AutomationMatched;
    }
  }

  predicate Evaluates(
    e: Evaluation, code: DecisionCode, value: Option<nat>, observed: Option<nat>, currency: Option<string>)
  {
    && (if code.Eligible? then e.EligibleOutcome?
        else code.ReviewRequired? && e.ReviewOutcome? && e.reason == AverageValueMissing)
    && e.conversion.valueCents == value && e.conversion.observedPaymentValueCents == observed
    && e.conversion.currency == currency && e.conversion.items == []
  }

  lemma PlainIsFor(
    i: Input, e: Evaluation, code: DecisionCode, value: Option<nat>, observed: Option<nat>, currency: Option<string>)
    requires i.lead.Resolved? && !IsDuplicate(i) && Evaluates(e, code, value, observed, currency)
    ensures var d := Conclude(i, e);
            && d.Some? && IsFor(d.value, code, value, observed, currency)
            && (code.ReviewRequired? ==> d.value.reasonCode == AverageValueMissing)
  {
  }

  lemma AverageIsDecided(locale: Locale, i: Input, phrase: Option<string>, taken: Option<nat>)
    requires ExtractedValue(locale, i) == taken && (taken.Some? ==> taken.value > 0)
    ensures var (valued, c) := AverageValue(locale, i, phrase);
            var r := i.rule;
            && c.items == []
            && if taken.Some? && r.defaultCurrency != Some("") then
                 && valued && c.valueCents == taken && c.observedPaymentValueCents == taken
                 && c.currency == if r.defaultCurrency.Some? then r.defaultCurrency else Some("BRL")
               else if taken.None? && Positive(r.defaultValueCents) && NonEmpty(r.defaultCurrency) then
                 && valued && c.valueCents == r.defaultValueCents && c.observedPaymentValueCents == None
                 && c.currency == r.defaultCurrency
               else
                 && !valued && c.valueCents == None && c.observedPaymentValueCents == None
                 && c.currency == r.defaultCurrency
  {
  }

  lemma PolicyOfEvent(e: EventName)
    ensures Policy(e).NoValue? <==> !MayCarryValue(e)
    ensures Policy(e).Required? <==> e == Purchase || e == InitiateCheckout
  {
  }

  /** The value policy of a rule that takes the amount `taken` from the message, if any. */
  lemma PolicyDecides(locale: Locale, i: Input, phrase: Option<string>, reason: ReasonCode, taken: Option<nat>)
    requires ExtractedValue(locale, i) == taken && (taken.Some? ==> taken.value > 0)
    ensures var e, r := ApplyValuePolicy(locale, i, phrase, reason), i.rule;
            if !MayCarryValue(r.eventName) then Evaluates(e, Eligible, None, None, None)
            else if taken.Some? && r.defaultCurrency != Some("") then
              Evaluates(e, Eligible, taken, taken,
                        if r.defaultCurrency.Some? then r.defaultCurrency else Some("BRL"))
            else if taken.None? && Positive(r.defaultValueCents) && NonEmpty(r.defaultCurrency) then
              Evaluates(e, Eligible, r.defaultValueCents, None, r.defaultCurrency)
            else if r.eventName == Purchase || r.eventName == InitiateCheckout then
              Evaluates(e, ReviewRequired, None, None, r.defaultCurrency)
            else Evaluates(e, Eligible, None, None, None)
  {
    AverageIsDecided(locale, i, phrase, taken);
    PolicyOfEvent(i.rule.eventName);
  }

  /** An event that carries no value is eligible without one. */
  lemma ValuelessEventIsEligible(locale: Locale, i: Input)
    requires IsPlain(locale, i) && !MayCarryValue(i.rule.eventName)
    ensures Evaluate(locale, i).Some? && IsFor(Evaluate(locale, i).value, Eligible, None, None, None)
  {
    var phrase, reason := PlainIsConcluded(locale, i);
    AmountIsPositive(locale, i);
    PolicyDecides(locale, i, phrase, reason, ExtractedValue(locale, i));
    PlainIsFor(i, ApplyValuePolicy(locale, i, phrase, reason), Eligible, None, None, None);
  }

  /** An amount taken from the message wins over the default, and is in reais if the rule names no currency. */
  lemma MessageAmountWins(locale: Locale, i: Input, v: nat)
    requires IsPlain(locale, i) && MayCarryValue(i.rule.eventName)
    requires TakesAmount(locale, i, v) && i.rule.defaultCurrency != Some("")
    ensures Evaluate(locale, i).Some?
    ensures IsFor(Evaluate(locale, i).value, Eligible, Some(v), Some(v),
                  if i.rule.defaultCurrency.Some? then i.rule.defaultCurrency else Some("BRL"))
  {
    var phrase, reason := PlainIsConcluded(locale, i);
    TakesExactly(locale, i, v);
    PolicyDecides(locale, i, phrase, reason, Some(v));
    PlainIsFor(i, ApplyValuePolicy(locale, i, phrase, reason), Eligible, Some(v), Some(v),
               if i.rule.defaultCurrency.Some? then i.rule.defaultCurrency else Some("BRL"));
  }

  lemma AmountIsPositive(locale: Locale, i: Input)
    ensures ExtractedValue(locale, i).Some? ==> ExtractedValue(locale, i).value > 0
    ensures (forall v :: !TakesAmount(locale, i, v)) <==> ExtractedValue(locale, i).None?
  {
    if ExtractedValue(locale, i).Some? {
      TakesExactly(locale, i, ExtractedValue(locale, i).value);
    } else {
      forall v ensures !TakesAmount(locale, i, v) {
        TakesExactly(locale, i, v);
      }
    }
  }

  /** Without an amount in the message the default value counts. */
  lemma DefaultIsFallback(locale: Locale, i: Input)
    requires IsPlain(locale, i) && MayCarryValue(i.rule.eventName) && forall v :: !TakesAmount(locale, i, v)
    requires i.rule.defaultValueCents.Some? && i.rule.defaultValueCents.value > 0
    requires i.rule.defaultCurrency.Some? && i.rule.defaultCurrency.value != ""
    ensures Evaluate(locale, i).Some?
    ensures IsFor(Evaluate(locale, i).value, Eligible, i.rule.defaultValueCents, None, i.rule.defaultCurrency)
  {
    var phrase, reason := PlainIsConcluded(locale, i);
    AmountIsPositive(locale, i);
    PolicyDecides(locale, i, phrase, reason, None);
    PlainIsFor(i, ApplyValuePolicy(locale, i, phrase, reason), Eligible, i.rule.defaultValueCents, None,
               i.rule.defaultCurrency);
  }

  /**
   * Without a value or a currency a purchase or a checkout is held for review, and any other event goes out without a
   * value.
   */
  lemma MissingValueIsHeld(locale: Locale, i: Input)
    requires IsPlain(locale, i) && MayCarryValue(i.rule.eventName)
    requires || i.rule.defaultCurrency == Some("")
             || (&& (forall v :: !TakesAmount(locale, i, v))
                 && (|| i.rule.defaultValueCents.None? || i.rule.defaultValueCents.value == 0
                     || i.rule.defaultCurrency.None?))
    ensures Evaluate(locale, i).Some?
    ensures var d := Evaluate(locale, i).value;
            if i.rule.eventName == Purchase || i.rule.eventName == InitiateCheckout
            then IsFor(d, ReviewRequired, None, None, i.rule.defaultCurrency) && d.reasonCode == AverageValueMissing
            else IsFor(d, Eligible, None, None, None)
  {
    var phrase, reason := PlainIsConcluded(locale, i);
    AmountIsPositive(locale, i);
    PolicyDecides(locale, i, phrase, reason, ExtractedValue(locale, i));
    var held := i.rule.eventName == Purchase || i.rule.eventName == InitiateCheckout;
    PlainIsFor(i, ApplyValuePolicy(locale, i, phrase, reason), if held then ReviewRequired else Eligible, None, None,
               if held then i.rule.defaultCurrency else None);
  }

  // ----- what does not depend on the value -----

  /** A catalog rule ignores an empty template, holds what it does not match, and takes the value of what it does. */
  lemma CatalogRuleDecides(locale: Locale, i: Input)
    requires ValidInput(i) && IsTriggered(locale, i) && i.rule.triggerType.StructuredCatalog?
    requires i.lead.Resolved? && !(i.duplicateMatch.Some? && i.duplicateMatch.value.duplicate)
    ensures var m := MatchMessage(locale, i.catalog.value, i.trigger.text, i.rule.triggerPhrases);
            && Evaluate(locale, i).Some?
            && var d := Evaluate(locale, i).value;
               && d.code == (if m.matched then Eligible
                             else if m.classification.Ignored? then IgnoredEmptyTemplate else ReviewRequired)
               && d.conversion.valueCents == m.valueCents && d.conversion.items == m.items
               && d.conversion.observedPaymentValueCents == m.observed
  {
    DecidesExactly(locale, i);
    MessageMissesTriggerExactly(locale, i.catalog.value, i.trigger.text, i.rule.triggerPhrases);
    MessageIsIgnoredAs(locale, i.catalog.value, i.trigger.text, i.rule.triggerPhrases);
  }

  lemma ItemsAreIgnoredAs(catalog: Catalog, phrase: Option<string>, items: seq<ParsedItem>, observed: Option<nat>)
    ensures var m := MatchItems(catalog, phrase, items, observed);
            (m.classification.Ignored? ==> m.reason.EmptyTemplate? && !m.matched) && (m.matched ==> m.reason.OfItems?)
  {
  }

  lemma MessageIsIgnoredAs(locale: Locale, catalog: Catalog, message: string, phrases: seq<string>)
    requires catalog.attributes != [] && catalog.active
    ensures var m := MatchMessage(locale, catalog, message, phrases);
            m.classification.Ignored? ==> (m.reason.EmptyTemplate? || m.reason.TriggerMissing?) && !m.matched
  {
    var lines := SplitLines(message);
    var labels := locale.labels;
    var observed := Money.ObservedPayment(locale.round, locale.tokens, lines,
                                          LineIndexes(Found(labels, catalog.attributes, lines)));
    ItemsAreIgnoredAs(catalog, MatchTrigger(locale, message, phrases),
                      ParseItems(locale, catalog, RawItems(labels, catalog.attributes, lines)), observed);
  }

  lemma RuleIgnoresDuplicates(locale: Locale, i: Input)
    requires ValidInput(i)
    ensures EvaluateRule(locale, i.(duplicateMatch := None)) == EvaluateRule(locale, i)
  {
  }

  lemma DuplicateConcludes(i: Input, e: Evaluation)
    requires i.duplicateMatch.Some? && i.duplicateMatch.value.duplicate
    ensures var without, dup := Conclude(i.(duplicateMatch := None), e), i.duplicateMatch.value;
            Conclude(i, e) ==
            if without.Some? && without.value.code.Eligible?
            then Some(without.value.(code := Duplicate, reasonCode := BusinessDuplicate,
                                     duplicateOf := Some((dup.decisionId, dup.logId))))
            else without
  {
  }

  /** A duplicate match changes an eligible decision into a duplicate of what it names, and nothing else. */
  lemma DuplicateIsMarked(locale: Locale, i: Input)
    requires ValidInput(i) && i.duplicateMatch.Some? && i.duplicateMatch.value.duplicate
    ensures var without, dup := Evaluate(locale, i.(duplicateMatch := None)), i.duplicateMatch.value;
            Evaluate(locale, i) ==
            if without.Some? && without.value.code.Eligible?
            then Some(without.value.(code := Duplicate, reasonCode := BusinessDuplicate,
                                     duplicateOf := Some((dup.decisionId, dup.logId))))
            else without
  {
    RuleIgnoresDuplicates(locale, i);
    DuplicateConcludes(i, EvaluateRule(locale, i));
  }

  /**
   * Without a known paid lead a decision is ignored for what the resolution says, whatever the rule makes of it, unless
   * it is an empty template.
   */
  lemma UnknownLeadIsIgnored(locale: Locale, i: Input)
    requires ValidInput(i) && !i.lead.Resolved? && Evaluate(locale, i).Some?
    ensures var d := Evaluate(locale, i).value;
            || d.code.IgnoredEmptyTemplate?
            || (&& d.code.IgnoredUntrackedLead?
                && d.reasonCode == UntrackedLead(match i.lead
                                                 case MissingIdentity => MissingContactIdentity
                                                 case NotFound(missing, _) =>
                                                   if missing then PaidAttributionMissing else PaidLeadNotFound
                                                 case _ => PaidLeadAmbiguous))
  {
  }

  lemma ConclusionIsAboutInput(i: Input, e: Evaluation)
    requires Conclude(i, e).Some?
    ensures var d, o := Conclude(i, e).value, Conclude(i, e).value.occurrence;
            && d.rule == i.rule && d.catalog == i.catalog && d.leadResolution == i.lead && d.engineVersion.DecisionV1?
            && o.eventName == i.eventName && o.occurredAt == i.occurredAt && o.occurrenceKey == i.occurrenceKey
            && o.workspaceId == i.workspaceId && o.channelId == i.channelId && o.provider == i.provider
            && o.contactIdentityHash == i.contactIdentityHash
            && (o.source.Message? <==> i.trigger.FromMessage?)
            && o.authorType == (if i.trigger.FromMessage? then i.trigger.author else None)
  {
  }

  lemma ConclusionHasScope(i: Input, e: Evaluation)
    requires Conclude(i, e).Some?
    ensures var d := Conclude(i, e).value;
            d.occurrence.policy ==
            if !i.lead.Resolved? || d.code.IgnoredEmptyTemplate? then None
            else
              var scope := Name(i.rule.eventName) + ":" + (i.workspaceId + ":" + i.lead.lead.id);
              Some(if i.rule.eventName == LeadSubmitted || i.rule.eventName == QualifiedLead
                   then Lifetime(scope) else RollingWindow(scope, 86400))
  {
  }

  /** Whatever is decided is about the occurrence, the rule and the lead that were given. */
  lemma DecisionIsAboutInput(locale: Locale, i: Input)
    requires ValidInput(i) && Evaluate(locale, i).Some?
    ensures var d, o := Evaluate(locale, i).value, Evaluate(locale, i).value.occurrence;
            && d.rule == i.rule && d.catalog == i.catalog && d.leadResolution == i.lead && d.engineVersion.DecisionV1?
            && o.eventName == i.eventName && o.occurredAt == i.occurredAt && o.occurrenceKey == i.occurrenceKey
            && o.workspaceId == i.workspaceId && o.channelId == i.channelId && o.provider == i.provider
            && o.contactIdentityHash == i.contactIdentityHash
            && (o.source.Message? <==> i.trigger.FromMessage?)
            && o.authorType == (if i.trigger.FromMessage? then i.trigger.author else None)
    ensures var d := Evaluate(locale, i).value;
            d.occurrence.policy ==
            if !i.lead.Resolved? || d.code.IgnoredEmptyTemplate? then None
            else
              var scope := Name(i.eventName) + ":" + (i.workspaceId + ":" + i.lead.lead.id);
              Some(if i.eventName == LeadSubmitted || i.eventName == QualifiedLead
                   then Lifetime(scope) else RollingWindow(scope, 86400))
  {
    var e := EvaluateRule(locale, i);
    ConclusionIsAboutInput(i, e);
    ConclusionHasScope(i, e);
  }

  /**
   * Two decisions compare without a mismatch if and only if code, reason, event, source, channel and conversion are the
   * same, and so is the paid lead with its ad and click, or why there is none.
   */
  lemma ComparesExactly(d: Decision, e: Decision)
    ensures MismatchCode(Project(Some(d)), Project(Some(e))) == None <==>
              && d.code == e.code && d.reasonCode == e.reasonCode && d.conversion == e.conversion
              && d.occurrence.eventName == e.occurrence.eventName && d.occurrence.source == e.occurrence.source
              && d.occurrence.channelId == e.occurrence.channelId
              && match (d.leadResolution, e.leadResolution)
                 case (Resolved(l), Resolved(m)) => l.id == m.id && l.adId == m.adId && l.ctwaClid == m.ctwaClid
                 case (MissingIdentity, MissingIdentity) => true
                 case (NotFound(missing, _), NotFound(lacking, _)) => missing == lacking
                 case (Ambiguous(_), Ambiguous(_)) => true
                 case _ => false
    ensures MismatchCode(Project(None), Project(Some(d))) == MismatchCode(Project(Some(d)), Project(None))
            == Some(ApplicabilityMismatch)
    ensures MismatchCode(Project(None), Project(None)) == None
  {
  }

  // ----- the legacy engine -----

  lemma LegacyOutcomeExactly(i: Input, m: Match)
    requires i.lead.Resolved?
    ensures LegacyCatalogOutcome(i, m).Some? <==> !m.classification.Ignored?
    ensures LegacyCatalogOutcome(i, m).Some? ==>
              var d := LegacyCatalogOutcome(i, m).value;
              && d.code == (if m.matched then Eligible else ReviewRequired)
              && d.conversion.valueCents == m.valueCents && d.conversion.items == m.items
  {
  }

  lemma LegacyCatalogIsOutcome(locale: Locale, i: Input)
    requires ValidInput(i) && i.rule.triggerType.StructuredCatalog? && i.lead.Resolved?
    ensures LegacyEvaluate(locale, i) ==
            if i.rule.active && i.eventName == i.rule.eventName
               && i.trigger.FromMessage? && MayWrite(i.rule.authorScope, i.trigger.author)
               && i.catalog.Some? && i.catalog.value.active
            then LegacyCatalogOutcome(i, MatchMessage(locale, i.catalog.value, i.trigger.text, i.rule.triggerPhrases))
            else None
  {
  }

  /** For a known lead the legacy engine decides what the catalog makes of a message, but an empty template. */
  lemma LegacyCatalogDecidesExactly(locale: Locale, i: Input)
    requires ValidInput(i) && i.rule.triggerType.StructuredCatalog?
    ensures LegacyEvaluate(locale, i).Some? <==>
              && IsTriggered(locale, i) && i.lead.Resolved?
              && !MatchMessage(locale, i.catalog.value, i.trigger.text, i.rule.triggerPhrases).classification.Ignored?
    ensures LegacyEvaluate(locale, i).Some? ==>
              var m := MatchMessage(locale, i.catalog.value, i.trigger.text, i.rule.triggerPhrases);
              var d := LegacyEvaluate(locale, i).value;
              && d.code == (if m.matched then Eligible else ReviewRequired)
              && d.conversion.valueCents == m.valueCents && d.conversion.items == m.items
  {
    if i.lead.Resolved? {
      LegacyCatalogIsOutcome(locale, i);
      if i.trigger.FromMessage? && i.catalog.Some? && i.catalog.value.active {
        MatchesTheFirst(locale, i.trigger.text, i.rule.triggerPhrases);
        MessageMissesTriggerExactly(locale, i.catalog.value, i.trigger.text, i.rule.triggerPhrases);
        LegacyOutcomeExactly(i, MatchMessage(locale, i.catalog.value, i.trigger.text, i.rule.triggerPhrases));
      }
    }
  }

  /**
   * Outside catalogs the legacy engine decides exactly for a known lead what is triggered and has a value and a
   * currency in its rule, automations for any labels and qualified leads without a value. It takes the rule's value and
   * never one from the message.
   */
  lemma LegacyDecidesExactly(locale: Locale, i: Input)
    requires ValidInput(i) && !i.rule.triggerType.StructuredCatalog?
    ensures LegacyEvaluate(locale, i).Some? <==>
              && i.rule.active && i.eventName == i.rule.eventName && i.lead.Resolved?
              && (if i.rule.triggerType.MessagePhrase? then
                    && i.trigger.FromMessage? && MayWrite(i.rule.authorScope, i.trigger.author)
                    && IsCalled(locale, i.trigger.text, i.rule.triggerPhrases)
                  else i.trigger.FromAutomation?)
              && ((i.rule.triggerType.ProviderAutomation? && i.rule.eventName == QualifiedLead)
                  || (i.rule.defaultValueCents.Some? && i.rule.defaultValueCents.value > 0
                      && i.rule.defaultCurrency.Some? && i.rule.defaultCurrency.value != ""))
    ensures LegacyEvaluate(locale, i).Some? ==>
              var d := LegacyEvaluate(locale, i).value;
              if i.rule.triggerType.ProviderAutomation? && i.rule.eventName == QualifiedLead
              then IsFor(d, Eligible, None, None, None)
              else IsFor(d, Eligible, i.rule.defaultValueCents, None, i.rule.defaultCurrency)
  {
    if i.trigger.FromMessage? {
      CalledExactly(locale, i.trigger.text, i.rule.triggerPhrases);
    }
  }
}
