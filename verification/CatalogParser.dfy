/** Resolving the items of a message against a product catalog. */
module CatalogParser {
  import opened Wrappers
  import opened Decisions
  import opened CatalogLines
  import Money
  import Text

  /** The Unicode-dependent parts: normalization of values and of labels, lower case, and the money tokenizer. */
  datatype Locale = Locale(value: Normalizer, labels: Normalizer, tokens: Money.Tokenizer, round: Money.Rounding,
                           lower: Normalizer)

  // ----- triggers and authors -----

  function MatchTrigger(locale: Locale, message: string, phrases: seq<string>): (phrase: Option<string>)
    ensures phrase.Some? ==> phrase.value in phrases
  {
    if phrases == [] then None
    else
      var wanted := locale.value(phrases[0]);
      if wanted != "" && Text.Includes(locale.value(message), wanted) then Some(phrases[0])
      else MatchTrigger(locale, message, phrases[1..])
  }

  predicate AuthorAllowed(scope: AuthorScope, author: AuthorType) {
    match scope
    case Both => !author.FromUnknown?
    case Contact => author.FromContact?
    case Team => author.FromMember? || author.FromBot?
  }

  // ----- quantities -----

  predicate IsLineTerminator(c: char) {
    c == '\n' || c == '\r' || c == '\U{2028}' || c == '\U{2029}'
  }

  predicate IsTimes(c: char) {
    c == 'x' || c == 'X' || c == '\U{d7}'
  }

  /** Number of digits a string starts with. */
  function DigitRun(s: string): (n: nat)
    ensures n <= |s| && Text.AllDigits(s[..n]) && (n < |s| ==> !Text.IsDigit(s[n]))
  {
    if s != "" && Text.IsDigit(s[0]) then
      var n := DigitRun(s[1..]);
      assert s[..n + 1] == [s[0]] + s[1..][..n];
      n + 1
    else 0
  }

  datatype Quantity = Quantity(quantity: nat, value: string, valid: bool)

  /** `parseQuantity`: one to three digits, a times sign, and a value on one line; values arrive trimmed. */
  function ParseQuantity(value: string): (q: Quantity)
    requires Text.Trimmed(value)
    ensures q.valid ==> 1 <= q.quantity <= 100
  {
    var n := DigitRun(value);
    var rest := Text.TrimLeft(value[n..]);
    if !(1 <= n <= 3) || rest == "" || !IsTimes(rest[0]) then Quantity(1, value, true)
    else
      var named := Text.TrimLeft(rest[1..]);
      if named == "" || exists c :: c in named && IsLineTerminator(c) then Quantity(1, value, true)
      else
        var quantity := Money.DigitsValue(value[..n]);
        Quantity(quantity, Text.Trim(named), 1 <= quantity <= 100)
  }

  // ----- variants -----

  function Aliases(variant: Variant, index: nat): seq<string> {
    if index < |variant.aliases| then variant.aliases[index] else []
  }

  function Normalized(locale: Locale, values: seq<string>): seq<string> {
    if values == [] then []
    else (if values[0] == "" then [] else [locale.value(values[0])]) + Normalized(locale, values[1..])
  }

  /** `acceptedVariantValues`. */
  function AcceptedValues(locale: Locale, variant: Variant, index: nat): seq<string> {
    var own := if index < |variant.attributeValues| then [variant.attributeValues[index]] else [];
    Normalized(locale, own + Aliases(variant, index))
  }

  predicate IsDecimal(s: string) {
    var n := DigitRun(s);
    n > 0 && (n == |s| || ((s[n] == '.' || s[n] == ',') && n + 1 < |s| && Text.AllDigits(s[n + 1..])))
  }

  predicate EndsWith(s: string, suffix: string) {
    |suffix| <= |s| && s[|s| - |suffix|..] == suffix
  }

  /** The number in front of a metric unit. */
  function MetricNumber(s: string): Option<string> {
    var unit :=
      if EndsWith(s, "metros") then 6 else if EndsWith(s, "metro") then 5 else if EndsWith(s, "m") then 1 else 0;
    if unit == 0 then None
    else
      var number := Text.TrimRight(s[..|s| - unit]);
      if IsDecimal(number) then Some(number) else None
  }

  /** `observedVariantValues`. */
  function ObservedValues(locale: Locale, value: string): seq<string> {
    var normalized := locale.value(value);
    var metric := MetricNumber(normalized);
    [normalized] + if metric.Some? then [metric.value] else []
  }

  /** The value written for attribute `index` is one the variant accepts. */
  predicate AcceptsAt(locale: Locale, attributes: seq<Attribute>, variant: Variant, values: map<string, string>,
                      index: nat)
    requires index < |attributes|
  {
    && attributes[index].key in values && values[attributes[index].key] != ""
    && exists candidate :: candidate in ObservedValues(locale, values[attributes[index].key])
         && candidate in AcceptedValues(locale, variant, index)
  }

  predicate Accepts(locale: Locale, attributes: seq<Attribute>, variant: Variant, values: map<string, string>) {
    && variant.active
    && forall index :: 0 <= index < |attributes| ==> AcceptsAt(locale, attributes, variant, values, index)
  }

  function MatchingVariants(locale: Locale, attributes: seq<Attribute>, variants: seq<Variant>,
                            values: map<string, string>): seq<Variant>
  {
    if variants == [] then []
    else (if Accepts(locale, attributes, variants[0], values) then [variants[0]] else [])
         + MatchingVariants(locale, attributes, variants[1..], values)
  }

  function LabelledValues(attributes: seq<Attribute>, values: seq<string>): seq<string> {
    if attributes == [] then []
    else [attributes[0].labelText + ": " + if values == [] then "undefined" else values[0]]
         + LabelledValues(attributes[1..], if values == [] then [] else values[1..])
  }

  /** `contentNameFor`; an empty content name counts as absent. */
  function ContentNameFor(catalog: Catalog, variant: Variant): string {
    if variant.contentName.Some? && variant.contentName.value != "" then variant.contentName.value
    else
      var values := LabelledValues(catalog.attributes, variant.attributeValues);
      Text.Truncate(catalog.productName + " | " + Text.Join(values, " | "), 180)
  }

  // ----- one item -----

  function ValueAt(values: map<string, string>, key: string): string {
    if key in values then Text.Trim(values[key]) else ""
  }

  function ParsedValues(attributes: seq<Attribute>, values: map<string, string>): seq<ParsedAttribute> {
    if attributes == [] then []
    else
      var value := ValueAt(values, attributes[0].key);
      (if value == "" then [] else [ParsedAttribute(attributes[0].key, attributes[0].labelText, value)])
      + ParsedValues(attributes[1..], values)
  }

  function Unresolved(position: nat, quantity: nat, parsed: seq<ParsedAttribute>, reason: ItemReason): ParsedItem {
    ParsedItem(position, quantity, parsed, None, None, None, None, reason)
  }

  /** The values of an item with the quantity taken off the first attribute. */
  function WithoutQuantity(attributes: seq<Attribute>, raw: map<string, string>): (Quantity, map<string, string>)
    requires attributes != []
  {
    var first := attributes[0].key;
    var quantity := ParseQuantity(ValueTrimmed(raw, first));
    (quantity, raw[first := quantity.value])
  }

  /** The raw value of a key; raw values are trimmed when they are read. */
  function ValueTrimmed(raw: map<string, string>, key: string): (value: string)
    ensures Text.Trimmed(value)
  {
    Text.TrimIsTrimmed(if key in raw then raw[key] else "");
    Text.Trim(if key in raw then raw[key] else "")
  }

  predicate ItemPriced(p: ParsedItem) {
    && p.unitValueCents.Some? && p.catalogVariantId.Some? && 1 <= p.quantity <= 100
    && p.subtotalValueCents == Some(p.unitValueCents.value * p.quantity)
  }

  predicate PricedIfMatched(p: ParsedItem) {
    p.reason.ItemMatched? ==> ItemPriced(p)
  }

  /** A complete item, for the variants that accept it. */
  function OfVariants(catalog: Catalog, variants: seq<Variant>, position: nat, quantity: nat,
                      parsed: seq<ParsedAttribute>): (p: ParsedItem)
    requires 1 <= quantity <= 100
    ensures p.position == position && p.parsedAttributes == parsed && PricedIfMatched(p)
  {
    if variants == [] then Unresolved(position, quantity, parsed, UnknownCombination)
    else if |variants| > 1 then Unresolved(position, quantity, parsed, AmbiguousVariant)
    else
      ParsedItem(position, quantity, parsed, Some(variants[0].id), Some(variants[0].valueCents),
                 Some(variants[0].valueCents * quantity), Some(ContentNameFor(catalog, variants[0])), ItemMatched)
  }

  /** `parseItem`. */
  function ParseItem(locale: Locale, catalog: Catalog, item: RawItem, position: nat): (p: ParsedItem)
    requires catalog.attributes != []
    ensures p.position == position && PricedIfMatched(p)
  {
    var (quantity, values) := WithoutQuantity(catalog.attributes, item.values);
    var parsed := ParsedValues(catalog.attributes, values);
    if !quantity.valid then Unresolved(position, 1, parsed, InvalidQuantity)
    else if exists a :: a in catalog.attributes && ValueAt(values, a.key) == "" then
      Unresolved(position, quantity.quantity, parsed, AwaitingData)
    else if exists a :: a in catalog.attributes && a.key !in item.values then
      Unresolved(position, quantity.quantity, parsed, IncompleteItem)
    else
      OfVariants(catalog, MatchingVariants(locale, catalog.attributes, catalog.variants, values), position,
                 quantity.quantity, parsed)
  }

  /** The items of a message, numbered from one. */
  function ParseItems(locale: Locale, catalog: Catalog, raw: seq<RawItem>): seq<ParsedItem>
    requires catalog.attributes != []
  {
    seq(|raw|, i requires 0 <= i < |raw| => ParseItem(locale, catalog, raw[i], i + 1))
  }

  // ----- a whole message -----

  datatype Classification = Recognized | ReviewNeeded | Ignored | AwaitingCustomer

  datatype Match = Match(
    matched: bool,
    reason: MatchReason,
    classification: Classification,
    phrase: Option<string>,
    items: seq<ParsedItem>,
    valueCents: Option<nat>,
    observed: Option<nat>,
    variantId: Option<string>,
    contentName: Option<string>,
    currency: Option<string>)

  /** `split(/\r?\n/)`. */
  function SplitLines(text: string): seq<string> {
    var i := Text.IndexOf(text, '\n');
    if i < 0 then [text]
    else [if i > 0 && text[i - 1] == '\r' then text[..i - 1] else text[..i]] + SplitLines(text[i + 1..])
  }

  function EmptyMatch(catalog: Catalog, reason: MatchReason, classification: Classification, phrase: Option<string>,
                      items: seq<ParsedItem>, observed: Option<nat>): Match {
    Match(false, reason, classification, phrase, items, None, observed, None, None, Some(catalog.currency))
  }

  function FirstProblem(items: seq<ParsedItem>): (problem: Option<ItemReason>)
    ensures problem.None? <==> forall i :: 0 <= i < |items| ==> items[i].reason.ItemMatched?
    ensures problem.Some? ==> !problem.value.ItemMatched?
  {
    if items == [] then None
    else if !items[0].reason.ItemMatched? then Some(items[0].reason)
    else FirstProblem(items[1..])
  }

  function SubtotalsOf(items: seq<ParsedItem>): nat {
    if items == [] then 0
    else (if items[0].subtotalValueCents.Some? then items[0].subtotalValueCents.value else 0) + SubtotalsOf(items[1..])
  }

  function QuantityOf(items: seq<ParsedItem>): nat {
    if items == [] then 0 else items[0].quantity + QuantityOf(items[1..])
  }

  function MatchItems(catalog: Catalog, phrase: Option<string>, items: seq<ParsedItem>, observed: Option<nat>): Match {
    if forall i :: 0 <= i < |items| ==> items[i].parsedAttributes == [] then
      EmptyMatch(catalog, EmptyTemplate, Ignored, phrase, [], observed)
    else
      match FirstProblem(items)
      case Some(problem) =>
        var awaiting := forall i :: 0 <= i < |items| ==> items[i].reason.ItemMatched? || items[i].reason.AwaitingData?;
        EmptyMatch(catalog, OfItems(problem),
                   if awaiting then AwaitingCustomer else ReviewNeeded, phrase, items, observed)
      case None =>
        var contentName :=
          if |items| == 1 then items[0].contentName
          else Some(Text.Truncate(catalog.productName + " | " + Text.Digits(QuantityOf(items)) + " itens", 180));
        Match(true, OfItems(ItemMatched), Recognized, phrase, items, Some(SubtotalsOf(items)), observed,
              if |items| == 1 then items[0].catalogVariantId else None, contentName, Some(catalog.currency))
  }

  /** `matchStructuredCatalogMessage`. */
  function MatchMessage(locale: Locale, catalog: Catalog, message: string, phrases: seq<string>): Match
    requires catalog.attributes != []
  {
    if !catalog.active then EmptyMatch(catalog, CatalogInactive, ReviewNeeded, None, [], None)
    else
      var phrase := MatchTrigger(locale, message, phrases);
      if phrases != [] && phrase.None? then EmptyMatch(catalog, TriggerMissing, Ignored, None, [], None)
      else
        var lines := SplitLines(message);
        var observed := Money.ObservedPayment(
          locale.round, locale.tokens, lines, LineIndexes(Found(locale.labels, catalog.attributes, lines)));
        MatchItems(catalog, phrase, ParseItems(locale, catalog, RawItems(locale.labels, catalog.attributes, lines)),
                   observed)
  }
}
