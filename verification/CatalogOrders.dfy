/** What a parsed message is worth, and the round trip of a written order. */
module CatalogOrders {
  import opened Wrappers
  import opened Decisions
  import opened CatalogLines
  import opened CatalogRendering
  import opened CatalogParser
  import opened Counting
  import Money
  import Text

  // ----- every message -----

  /** Exactly one active variant, and this one, accepts the values. */
  ghost predicate OnlyMatch(locale: Locale, attributes: seq<Attribute>, variants: seq<Variant>,
                            values: map<string, string>, v: Variant)
  {
    exists i :: 0 <= i < |variants| && variants[i] == v && Accepts(locale, attributes, v, values)
      && forall j :: 0 <= j < |variants| && j != i ==> !Accepts(locale, attributes, variants[j], values)
  }

  lemma {:induction false} NoMatchMeansNone(locale: Locale, attributes: seq<Attribute>, variants: seq<Variant>,
                                            values: map<string, string>)
    ensures MatchingVariants(locale, attributes, variants, values) == []
            <==> forall j :: 0 <= j < |variants| ==> !Accepts(locale, attributes, variants[j], values)
  {
    if variants != [] {
      NoMatchMeansNone(locale, attributes, variants[1..], values);
      if forall j :: 0 <= j < |variants[1..]| ==> !Accepts(locale, attributes, variants[1..][j], values) {
        forall j | 0 < j < |variants| ensures !Accepts(locale, attributes, variants[j], values) {
          assert variants[j] == variants[1..][j - 1];
        }
      } else {
        var j :| 0 <= j < |variants[1..]| && Accepts(locale, attributes, variants[1..][j], values);
        assert Accepts(locale, attributes, variants[j + 1], values);
      }
    }
  }

  lemma HeadAlone(head: Variant, more: seq<Variant>, v: Variant)
    ensures [head] + more == [v] <==> head == v && more == []
  {
    assert ([head] + more)[0] == head;
    assert |[head] + more| == 1 + |more|;
  }

  /** The filter leaves one variant exactly when one, and only one, accepts the values. */
  lemma {:induction false} SingleMatchIsOnly(locale: Locale, attributes: seq<Attribute>, variants: seq<Variant>,
                                             values: map<string, string>, v: Variant)
    ensures MatchingVariants(locale, attributes, variants, values) == [v]
            <==> OnlyMatch(locale, attributes, variants, values, v)
  {
    if variants != [] {
      var rest := variants[1..];
      NoMatchMeansNone(locale, attributes, rest, values);
      SingleMatchIsOnly(locale, attributes, rest, values, v);
      if Accepts(locale, attributes, variants[0], values) {
        SingleMatchFirst(locale, attributes, variants, values, v);
        HeadAlone(variants[0], MatchingVariants(locale, attributes, rest, values), v);
      } else {
        assert [] + MatchingVariants(locale, attributes, rest, values)
               == MatchingVariants(locale, attributes, rest, values);
        SingleMatchLater(locale, attributes, variants, values, v);
      }
    }
  }

  lemma SingleMatchFirst(locale: Locale, attributes: seq<Attribute>, variants: seq<Variant>,
                         values: map<string, string>, v: Variant)
    requires variants != [] && Accepts(locale, attributes, variants[0], values)
    ensures OnlyMatch(locale, attributes, variants, values, v) <==>
            && v == variants[0]
            && forall j :: 0 <= j < |variants[1..]| ==> !Accepts(locale, attributes, variants[1..][j], values)
  {
    if OnlyMatch(locale, attributes, variants, values, v) {
      forall j | 0 <= j < |variants[1..]| ensures !Accepts(locale, attributes, variants[1..][j], values) {
        assert variants[1..][j] == variants[j + 1];
      }
    } else if && v == variants[0]
              && forall j :: 0 <= j < |variants[1..]| ==> !Accepts(locale, attributes, variants[1..][j], values)
    {
      forall j | 0 < j < |variants| ensures !Accepts(locale, attributes, variants[j], values) {
        assert variants[j] == variants[1..][j - 1];
      }
    }
  }

  lemma SingleMatchLater(locale: Locale, attributes: seq<Attribute>, variants: seq<Variant>,
                         values: map<string, string>, v: Variant)
    requires variants != [] && !Accepts(locale, attributes, variants[0], values)
    ensures OnlyMatch(locale, attributes, variants, values, v)
            <==> OnlyMatch(locale, attributes, variants[1..], values, v)
  {
    var rest := variants[1..];
    if OnlyMatch(locale, attributes, variants, values, v) {
      var i :| 0 <= i < |variants| && variants[i] == v && Accepts(locale, attributes, v, values)
        && forall j :: 0 <= j < |variants| && j != i ==> !Accepts(locale, attributes, variants[j], values);
      assert rest[i - 1] == v;
      forall j | 0 <= j < |rest| && j != i - 1 ensures !Accepts(locale, attributes, rest[j], values) {
        assert rest[j] == variants[j + 1];
      }
    }
    if OnlyMatch(locale, attributes, rest, values, v) {
      var i :| 0 <= i < |rest| && rest[i] == v && Accepts(locale, attributes, v, values)
        && forall j :: 0 <= j < |rest| && j != i ==> !Accepts(locale, attributes, rest[j], values);
      assert variants[i + 1] == v;
      forall j | 0 <= j < |variants| && j != i + 1 ensures !Accepts(locale, attributes, variants[j], values) {
        if j > 0 {
          assert variants[j] == rest[j - 1];
        }
      }
    }
  }

  predicate Complete(attributes: seq<Attribute>, values: map<string, string>) {
    forall a :: a in attributes ==> a.key in values && ValueAt(values, a.key) != ""
  }

  lemma SomeOrMany(locale: Locale, attributes: seq<Attribute>, variants: seq<Variant>, values: map<string, string>)
    ensures |MatchingVariants(locale, attributes, variants, values)| == 1
            <==> exists v :: OnlyMatch(locale, attributes, variants, values, v)
  {
    var found := MatchingVariants(locale, attributes, variants, values);
    if |found| == 1 {
      assert found == [found[0]];
      SingleMatchIsOnly(locale, attributes, variants, values, found[0]);
    }
    if exists v :: OnlyMatch(locale, attributes, variants, values, v) {
      var v :| OnlyMatch(locale, attributes, variants, values, v);
      SingleMatchIsOnly(locale, attributes, variants, values, v);
    }
  }

  /** Every attribute of a complete item was written, since a missing one counts as blank. */
  lemma MissingIsBlank(attributes: seq<Attribute>, raw: map<string, string>, a: Attribute)
    requires attributes != [] && a in attributes && a.key !in raw
    ensures ValueAt(WithoutQuantity(attributes, raw).1, a.key) == ""
  {
    var (quantity, values) := WithoutQuantity(attributes, raw);
    if a.key == attributes[0].key {
      assert ValueTrimmed(raw, a.key) == "";
      assert values[a.key] == "";
    }
  }

  // ----- what a variant accepts -----

  predicate StandsBefore(s: string, unit: string, number: string) {
    EndsWith(s, unit) && Text.TrimRight(s[..|s| - |unit|]) == number
  }

  /** A length in metres: a decimal number, then blanks, then the unit. */
  predicate IsMetric(s: string, number: string) {
    && IsDecimal(number)
    && (StandsBefore(s, "m", number) || StandsBefore(s, "metro", number) || StandsBefore(s, "metros", number))
  }

  lemma UnitsDiffer(s: string)
    ensures EndsWith(s, "metros") ==> !EndsWith(s, "metro") && !EndsWith(s, "m")
    ensures EndsWith(s, "metro") ==> !EndsWith(s, "m")
  {
    assert EndsWith(s, "metros") ==> s[|s| - 1] == 's';
    assert EndsWith(s, "metro") ==> s[|s| - 1] == 'o';
    assert EndsWith(s, "m") ==> s[|s| - 1] == 'm';
  }

  lemma MetricNumberExactly(s: string, number: string)
    ensures MetricNumber(s) == Some(number) <==> IsMetric(s, number)
  {
    UnitsDiffer(s);
  }

  /** The variant's own value for the attribute, or one of its aliases, normalized. */
  ghost predicate IsFormOf(locale: Locale, variant: Variant, index: nat, form: string) {
    || (&& index < |variant.attributeValues| && variant.attributeValues[index] != ""
        && form == locale.value(variant.attributeValues[index]))
    || (&& index < |variant.aliases|
        && exists a :: a in variant.aliases[index] && a != "" && form == locale.value(a))
  }

  lemma {:induction false} NormalizedExactly(locale: Locale, values: seq<string>, form: string)
    ensures form in Normalized(locale, values) <==> exists a :: a in values && a != "" && form == locale.value(a)
  {
    if values != [] {
      NormalizedExactly(locale, values[1..], form);
      assert forall a :: a in values <==> a == values[0] || a in values[1..];
    }
  }

  lemma FormsExactly(locale: Locale, variant: Variant, index: nat, form: string)
    ensures form in AcceptedValues(locale, variant, index) <==> IsFormOf(locale, variant, index, form)
  {
    var own := if index < |variant.attributeValues| then [variant.attributeValues[index]] else [];
    NormalizedExactly(locale, own + Aliases(variant, index), form);
    assert forall a :: a in own + Aliases(variant, index) <==> a in own || a in Aliases(variant, index);
  }

  /** The normalized value, or the number of metres in it. */
  predicate IsReading(locale: Locale, value: string, form: string) {
    form == locale.value(value) || IsMetric(locale.value(value), form)
  }

  lemma AcceptsAtExactly(
    locale: Locale, attributes: seq<Attribute>, variant: Variant, values: map<string, string>, index: nat)
    requires index < |attributes|
    ensures AcceptsAt(locale, attributes, variant, values, index) <==>
              && attributes[index].key in values && values[attributes[index].key] != ""
              && exists form :: IsFormOf(locale, variant, index, form)
                                && IsReading(locale, values[attributes[index].key], form)
  {
    if attributes[index].key in values {
      var value := values[attributes[index].key];
      forall form
        ensures form in AcceptedValues(locale, variant, index) <==> IsFormOf(locale, variant, index, form)
        ensures form in ObservedValues(locale, value) <==> IsReading(locale, value, form)
      {
        FormsExactly(locale, variant, index, form);
        MetricNumberExactly(locale.value(value), form);
      }
    }
  }

  /**
   * A variant accepts the values of an item if and only if it is active and each attribute has a value whose normalized
   * form, or the number of metres in it, is that of the variant's own value or of one of its aliases.
   */
  lemma AcceptsExactly(locale: Locale, attributes: seq<Attribute>, variant: Variant, values: map<string, string>)
    ensures Accepts(locale, attributes, variant, values) <==>
              && variant.active
              && forall index :: 0 <= index < |attributes| ==>
                   && attributes[index].key in values && values[attributes[index].key] != ""
                   && exists form :: IsFormOf(locale, variant, index, form)
                                     && IsReading(locale, values[attributes[index].key], form)
  {
    forall index: nat | index < |attributes|
      ensures AcceptsAt(locale, attributes, variant, values, index) <==>
                && attributes[index].key in values && values[attributes[index].key] != ""
                && exists form :: IsFormOf(locale, variant, index, form)
                                  && IsReading(locale, values[attributes[index].key], form)
    {
      AcceptsAtExactly(locale, attributes, variant, values, index);
    }
  }

  /**
   * An item is matched exactly when its quantity is valid, every attribute has a value, and exactly one active
   * variant accepts the values; then it is priced by that variant. Otherwise it has no price at all. The
   * reason "incomplete item" never occurs: a missing attribute is reported as awaiting data.
   */
  lemma ItemMatchedExactly(locale: Locale, catalog: Catalog, item: RawItem, position: nat)
    requires catalog.attributes != []
    ensures var p := ParseItem(locale, catalog, item, position);
            var (quantity, values) := WithoutQuantity(catalog.attributes, item.values);
            && (p.reason.ItemMatched? <==>
                  && quantity.valid && Complete(catalog.attributes, values)
                  && exists v :: OnlyMatch(locale, catalog.attributes, catalog.variants, values, v))
            && (!p.reason.ItemMatched? ==>
                  p.catalogVariantId.None? && p.unitValueCents.None? && p.subtotalValueCents.None?)
            && !p.reason.IncompleteItem?
  {
    var (quantity, values) := WithoutQuantity(catalog.attributes, item.values);
    SomeOrMany(locale, catalog.attributes, catalog.variants, values);
    forall a | a in catalog.attributes && a.key !in item.values
      ensures ValueAt(values, a.key) == ""
    {
      MissingIsBlank(catalog.attributes, item.values, a);
    }
  }

  lemma MatchedItemIsPriced(locale: Locale, catalog: Catalog, item: RawItem, position: nat)
    requires catalog.attributes != [] && ParseItem(locale, catalog, item, position).reason.ItemMatched?
    ensures var p := ParseItem(locale, catalog, item, position);
            var values := WithoutQuantity(catalog.attributes, item.values).1;
            && 1 <= p.quantity <= 100
            && exists v :: && OnlyMatch(locale, catalog.attributes, catalog.variants, values, v)
                           && PricedBy(p, v)
  {
    var (quantity, values) := WithoutQuantity(catalog.attributes, item.values);
    var v := MatchedVariant(locale, catalog, item, position);
    SingleMatchIsOnly(locale, catalog.attributes, catalog.variants, values, v);
  }

  lemma MatchedVariant(locale: Locale, catalog: Catalog, item: RawItem, position: nat) returns (v: Variant)
    requires catalog.attributes != [] && ParseItem(locale, catalog, item, position).reason.ItemMatched?
    ensures var p := ParseItem(locale, catalog, item, position);
            var values := WithoutQuantity(catalog.attributes, item.values).1;
            && 1 <= p.quantity <= 100 && PricedBy(p, v) && p.contentName == Some(ContentNameFor(catalog, v))
            && MatchingVariants(locale, catalog.attributes, catalog.variants, values) == [v]
  {
    var found := MatchingVariants(locale, catalog.attributes, catalog.variants,
                                  WithoutQuantity(catalog.attributes, item.values).1);
    v := found[0];
    assert found == [v];
  }

  predicate PricedBy(p: ParsedItem, v: Variant) {
    && p.catalogVariantId == Some(v.id) && p.unitValueCents == Some(v.valueCents)
    && p.subtotalValueCents == Some(v.valueCents * p.quantity)
  }

  predicate AllPriced(items: seq<ParsedItem>) {
    forall i :: 0 <= i < |items| ==> ItemPriced(items[i])
  }

  lemma {:induction false} SubtotalsAreTotal(items: seq<ParsedItem>)
    requires AllPriced(items)
    ensures SubtotalsOf(items) == Total(items)
  {
    if items != [] {
      assert ItemPriced(items[0]);
      assert AllPriced(items[1..]);
      SubtotalsAreTotal(items[1..]);
    }
  }

  predicate MatchedArePriced(items: seq<ParsedItem>) {
    forall i :: 0 <= i < |items| ==> PricedIfMatched(items[i])
  }

  /** Items are numbered from one, and priced where they are matched. */
  lemma ParsedItemsArePriced(locale: Locale, catalog: Catalog, raw: seq<RawItem>)
    requires catalog.attributes != []
    ensures var items := ParseItems(locale, catalog, raw);
            |items| == |raw| && MatchedArePriced(items) && forall i :: 0 <= i < |items| ==> items[i].position == i + 1
  {
  }

  lemma MatchItemsValues(catalog: Catalog, phrase: Option<string>, items: seq<ParsedItem>, observed: Option<nat>)
    requires MatchedArePriced(items)
    ensures ValuedByItems(MatchItems(catalog, phrase, items, observed))
  {
    if FirstProblem(items).None? {
      assert forall i :: 0 <= i < |items| ==> PricedIfMatched(items[i]);
      assert AllPriced(items);
      SubtotalsAreTotal(items);
      assert Priced(items);
    }
  }

  /** A match is worth quantity times unit price over its items; anything else is worth nothing. */
  predicate ValuedByItems(m: Match) {
    if m.matched then
      && m.items != [] && Priced(m.items) && m.valueCents == Some(Total(m.items))
      && forall i :: 0 <= i < |m.items| ==> 1 <= m.items[i].quantity <= 100
    else m.valueCents == None && !m.classification.Recognized?
  }

  /** On any message, a recognized order is valued by its items, and everything else has no value. */
  lemma MatchIsValuedByItems(locale: Locale, catalog: Catalog, message: string, phrases: seq<string>)
    requires catalog.attributes != []
    ensures ValuedByItems(MatchMessage(locale, catalog, message, phrases))
  {
    var phrase := MatchTrigger(locale, message, phrases);
    if catalog.active && (phrases == [] || phrase.Some?) {
      var lines := SplitLines(message);
      var observed := Money.ObservedPayment(
        locale.round, locale.tokens, lines, LineIndexes(Found(locale.labels, catalog.attributes, lines)));
      var raw := RawItems(locale.labels, catalog.attributes, lines);
      ParsedItemsArePriced(locale, catalog, raw);
      MatchItemsValues(catalog, phrase, ParseItems(locale, catalog, raw), observed);
    }
  }

  lemma ItemsKeepObserved(catalog: Catalog, phrase: Option<string>, items: seq<ParsedItem>, observed: Option<nat>)
    ensures MatchItems(catalog, phrase, items, observed).observed == observed
  {
  }

  /** The name a variant has, else the product and its labelled values, in 180 characters at most. */
  predicate IsNamed(catalog: Catalog, v: Variant, name: string) {
    if v.contentName.Some? && v.contentName.value != "" then name == v.contentName.value
    else
      var generated :=
        catalog.productName + " | " + Text.Join(LabelledValues(catalog.attributes, v.attributeValues), " | ");
      name == if |generated| <= 180 then generated else generated[..180]
  }

  lemma VariantIsNamed(catalog: Catalog, v: Variant)
    ensures IsNamed(catalog, v, ContentNameFor(catalog, v))
  {
  }

  lemma MatchedItemIsNamed(locale: Locale, catalog: Catalog, item: RawItem, position: nat)
    requires catalog.attributes != [] && ParseItem(locale, catalog, item, position).reason.ItemMatched?
    ensures var p := ParseItem(locale, catalog, item, position);
            var values := WithoutQuantity(catalog.attributes, item.values).1;
            && p.contentName.Some?
            && exists v :: OnlyMatch(locale, catalog.attributes, catalog.variants, values, v)
                           && IsNamed(catalog, v, p.contentName.value)
  {
    var values := WithoutQuantity(catalog.attributes, item.values).1;
    var v := MatchedVariant(locale, catalog, item, position);
    SingleMatchIsOnly(locale, catalog.attributes, catalog.variants, values, v);
    VariantIsNamed(catalog, v);
  }

  /**
   * A message waits for the customer if and only if some item has a value, some is not matched, and all that are not
   * only lack data.
   */
  lemma WaitsExactly(catalog: Catalog, phrase: Option<string>, items: seq<ParsedItem>, observed: Option<nat>)
    ensures MatchItems(catalog, phrase, items, observed).classification.AwaitingCustomer? <==>
              && (exists i :: 0 <= i < |items| && items[i].parsedAttributes != [])
              && (exists i :: 0 <= i < |items| && !items[i].reason.ItemMatched?)
              && (forall i :: 0 <= i < |items| ==> items[i].reason.ItemMatched? || items[i].reason.AwaitingData?)
  {
  }

  lemma {:induction false} FirstProblemIsFirst(items: seq<ParsedItem>, i: nat)
    requires i < |items| && !items[i].reason.ItemMatched? && forall j :: 0 <= j < i ==> items[j].reason.ItemMatched?
    ensures FirstProblem(items) == Some(items[i].reason)
  {
    if i > 0 {
      FirstProblemIsFirst(items[1..], i - 1);
    }
  }

  /** A message with values is held for the reason of its first item that is not matched. */
  lemma FirstProblemIsReported(
    catalog: Catalog, phrase: Option<string>, items: seq<ParsedItem>, observed: Option<nat>, i: nat)
    requires i < |items| && !items[i].reason.ItemMatched? && forall j :: 0 <= j < i ==> items[j].reason.ItemMatched?
    requires exists j :: 0 <= j < |items| && items[j].parsedAttributes != []
    ensures MatchItems(catalog, phrase, items, observed).reason == OfItems(items[i].reason)
    ensures !MatchItems(catalog, phrase, items, observed).matched
  {
    FirstProblemIsFirst(items, i);
  }

  /** A message is passed over as an empty template if and only if no item of it has a value. */
  lemma IgnoredExactly(catalog: Catalog, phrase: Option<string>, items: seq<ParsedItem>, observed: Option<nat>)
    ensures var m := MatchItems(catalog, phrase, items, observed);
            && (m.classification.Ignored? <==> forall i :: 0 <= i < |items| ==> items[i].parsedAttributes == [])
            && (m.classification.Ignored? <==> m.reason.EmptyTemplate?)
            && m.items == if m.classification.Ignored? then [] else items
  {
  }

  lemma {:induction false} QuantitiesAddUp(a: seq<ParsedItem>, b: seq<ParsedItem>)
    ensures QuantityOf(a + b) == QuantityOf(a) + QuantityOf(b)
    ensures |a| == 1 ==> QuantityOf(a) == a[0].quantity
  {
    if a == [] {
      assert a + b == b;
    } else {
      assert (a + b)[1..] == a[1..] + b;
      QuantitiesAddUp(a[1..], b);
    }
  }

  /** The product and the number of items, in 180 characters at most. */
  predicate NamesTotal(catalog: Catalog, total: nat, name: string) {
    var generated := catalog.productName + " | " + Text.Digits(total) + " itens";
    name == if |generated| <= 180 then generated else generated[..180]
  }

  /** One item lends a recognized message its variant and name; several are named by the product and their number. */
  lemma {:induction false} MatchIsNamed(
    catalog: Catalog, phrase: Option<string>, items: seq<ParsedItem>, observed: Option<nat>)
    requires MatchItems(catalog, phrase, items, observed).matched
    ensures var m := MatchItems(catalog, phrase, items, observed);
            && m.phrase == phrase && m.currency == Some(catalog.currency)
            && (|items| == 1 ==> m.variantId == items[0].catalogVariantId && m.contentName == items[0].contentName)
            && (|items| > 1 ==> m.variantId == None && m.contentName.Some?
                                && NamesTotal(catalog, QuantityOf(items), m.contentName.value))
  {
  }

  /** The attribute with its label and the value that is written for it. */
  ghost predicate IsShown(attributes: seq<Attribute>, values: map<string, string>, p: ParsedAttribute) {
    exists a :: && a in attributes && a.key in values && Text.Trim(values[a.key]) != ""
                && p == ParsedAttribute(a.key, a.labelText, Text.Trim(values[a.key]))
  }

  /** An item shows exactly the attributes that it has a value for. */
  lemma {:induction false} ParsedValuesExactly(
    attributes: seq<Attribute>, values: map<string, string>, p: ParsedAttribute)
    ensures p in ParsedValues(attributes, values) <==> IsShown(attributes, values, p)
  {
    if attributes != [] {
      ParsedValuesExactly(attributes[1..], values, p);
      assert forall a :: a in attributes <==> a == attributes[0] || a in attributes[1..];
    }
  }

  /** An item has its number and, with the quantity taken off the first, the values that `ParsedValuesExactly` gives. */
  lemma ParsedItemHolds(locale: Locale, catalog: Catalog, item: RawItem, position: nat)
    requires catalog.attributes != []
    ensures var parsed := ParseItem(locale, catalog, item, position);
            && parsed.position == position
            && parsed.parsedAttributes
               == ParsedValues(catalog.attributes, WithoutQuantity(catalog.attributes, item.values).1)
  {
    var (quantity, values) := WithoutQuantity(catalog.attributes, item.values);
    if quantity.valid {
      if exists a :: a in catalog.attributes && ValueAt(values, a.key) == "" {
      } else if exists a :: a in catalog.attributes && a.key !in item.values {
      } else {
        var variants := MatchingVariants(locale, catalog.attributes, catalog.variants, values);
        assert variants == [] || |variants| == 1 || |variants| > 1;
      }
    }
  }

  /** A message is observed to pay `v` if and only if that is the one amount in its lines outside the items. */
  lemma MessageObservesExactly(locale: Locale, catalog: Catalog, message: string, phrases: seq<string>, v: nat)
    requires catalog.attributes != [] && catalog.active
    requires phrases == [] || MatchTrigger(locale, message, phrases).Some?
    ensures var lines := SplitLines(message);
            var items := LineIndexes(Found(locale.labels, catalog.attributes, lines));
            MatchMessage(locale, catalog, message, phrases).observed == Some(v) <==>
              && Money.IsObserved(locale.round, locale.tokens, lines, items, 0, v)
              && forall u :: Money.IsObserved(locale.round, locale.tokens, lines, items, 0, u) ==> u == v
  {
    var lines := SplitLines(message);
    var items := LineIndexes(Found(locale.labels, catalog.attributes, lines));
    Money.ObservedExactly(locale.round, locale.tokens, lines, items, v);
    ItemsKeepObserved(
      catalog, MatchTrigger(locale, message, phrases),
      ParseItems(locale, catalog, RawItems(locale.labels, catalog.attributes, lines)),
      Money.ObservedPayment(locale.round, locale.tokens, lines, items));
  }

  // ----- a written order -----

  /** A variant of the catalog, by index, and how many of it. */
  datatype Line = Line(variant: nat, quantity: nat)

  /** The quantity, a times sign and a value on one line, blanks around the sign: `3 x value`. */
  ghost predicate WritesQuantity(text: string, quantity: nat, value: string) {
    exists gap: string, times: char, pad: string :: text == QuantityText(quantity, gap, times, pad, value)
      && IsTimes(times) && IsBlank(gap) && IsBlank(pad)
  }

  function QuantityText(quantity: nat, gap: string, times: char, pad: string, value: string): string {
    Text.Digits(quantity) + (gap + ([times] + (pad + value)))
  }

  predicate IsBlank(s: string) {
    forall i :: 0 <= i < |s| ==> Text.IsSpace(s[i])
  }

  predicate IsPlainValue(value: string) {
    value != "" && Text.Trimmed(value) && forall c :: c in value ==> !IsLineTerminator(c)
  }

  lemma {:induction false} TrimLeftSkips(blank: string, s: string)
    requires IsBlank(blank) && s != "" && !Text.IsSpace(s[0])
    ensures Text.TrimLeft(blank + s) == s
  {
    if blank == "" {
      assert blank + s == s;
    } else {
      assert (blank + s)[1..] == blank[1..] + s;
      TrimLeftSkips(blank[1..], s);
    }
  }

  lemma {:induction false} DigitRunOfDigits(digits: string, rest: string)
    requires Text.AllDigits(digits) && (rest != "" ==> !Text.IsDigit(rest[0]))
    ensures DigitRun(digits + rest) == |digits|
  {
    if digits == "" {
      assert digits + rest == rest;
    } else {
      assert (digits + rest)[1..] == digits[1..] + rest;
      DigitRunOfDigits(digits[1..], rest);
    }
  }

  lemma SmallNumbersAreShort(n: nat)
    requires 1 <= n <= 100
    ensures 1 <= |Text.Digits(n)| <= 3
  {
    if n >= 10 {
      assert |Text.Digits(n)| == |Text.Digits(n / 10)| + 1;
    }
  }

  lemma QuantityTextSplits(digits: string, gap: string, times: char, rest: string)
    requires digits != "" && Text.AllDigits(digits) && IsTimes(times) && IsBlank(gap)
    ensures var text := digits + (gap + ([times] + rest));
            && DigitRun(text) == |digits| && text[..|digits|] == digits
            && Text.TrimLeft(text[|digits|..]) == [times] + rest
  {
    var tail := gap + ([times] + rest);
    assert tail[0] == if gap == "" then times else gap[0];
    DigitRunOfDigits(digits, tail);
    assert (digits + tail)[|digits|..] == tail;
    TrimLeftSkips(gap, [times] + rest);
  }

  lemma Prepend(c: char, s: string, blank: string, rest: string)
    requires s != "" && c == s[0] && s[1..] == blank + rest && Text.IsSpace(c) && IsBlank(blank)
    ensures s == ([c] + blank) + rest && IsBlank([c] + blank)
  {
    assert s == [c] + s[1..];
  }

  lemma {:induction false} TrimLeftDrops(s: string) returns (blank: string)
    ensures s == blank + Text.TrimLeft(s) && IsBlank(blank)
  {
    if s != "" && Text.IsSpace(s[0]) {
      var more := TrimLeftDrops(s[1..]);
      blank := [s[0]] + more;
      Prepend(s[0], s, more, Text.TrimLeft(s[1..]));
    } else {
      blank := "";
    }
  }

  /** One to three digits, a times sign after any blanks, and the rest. */
  predicate SplitsAs(text: string, digits: string, gap: string, times: char, rest: string) {
    && text == digits + (gap + ([times] + rest))
    && 1 <= |digits| <= 3 && Text.AllDigits(digits) && IsBlank(gap) && IsTimes(times)
  }

  /** What is left of blanks is some value on one line. */
  predicate NamesValue(rest: string) {
    Text.TrimLeft(rest) != "" && forall c :: c in Text.TrimLeft(rest) ==> !IsLineTerminator(c)
  }

  /** A text that splits into a number, a times sign and a value has that number as quantity, valid up to 100. */
  lemma SplitIsRead(text: string, digits: string, gap: string, times: char, rest: string)
    requires Text.Trimmed(text) && SplitsAs(text, digits, gap, times, rest) && NamesValue(rest)
    ensures var n := Money.DigitsValue(digits);
            ParseQuantity(text) == Quantity(n, Text.Trim(rest), 1 <= n <= 100)
  {
    QuantityTextSplits(digits, gap, times, rest);
    assert ([times] + rest)[1..] == rest;
    assert Text.TrimLeft(Text.TrimLeft(rest)) == Text.TrimLeft(rest) by {
      Text.TrimLeftStart(rest);
    }
  }

  /** How a text splits whose digits are followed by a times sign. */
  lemma TextSplits(text: string, n: nat, gap: string, tail: string)
    requires n == DigitRun(text) && 1 <= n <= 3 && text[n..] == gap + tail && IsBlank(gap)
    requires tail != "" && IsTimes(tail[0])
    ensures SplitsAs(text, text[..n], gap, tail[0], tail[1..])
  {
    assert text == text[..n] + text[n..];
    assert tail == [tail[0]] + tail[1..];
  }

  /** Any other text is itself the value, once. */
  lemma UnsplitIsOne(text: string)
    requires Text.Trimmed(text)
    requires forall digits: string, gap: string, times: char, rest: string ::
               SplitsAs(text, digits, gap, times, rest) ==> !NamesValue(rest)
    ensures ParseQuantity(text) == Quantity(1, text, true)
  {
    var n := DigitRun(text);
    var tail := Text.TrimLeft(text[n..]);
    if 1 <= n <= 3 && tail != "" && IsTimes(tail[0]) {
      var gap := TrimLeftDrops(text[n..]);
      TextSplits(text, n, gap, tail);
      assert !NamesValue(tail[1..]);
    }
  }

  lemma QuantityTextIsTrimmed(quantity: nat, gap: string, times: char, pad: string, value: string)
    requires IsPlainValue(value)
    ensures Text.Trimmed(QuantityText(quantity, gap, times, pad, value))
  {
    var text := QuantityText(quantity, gap, times, pad, value);
    Text.DigitsAreDigits(quantity);
    assert text[0] == Text.Digits(quantity)[0];
    assert text[|text| - 1] == value[|value| - 1];
  }

  lemma QuantityTextParses(quantity: nat, gap: string, times: char, pad: string, value: string)
    requires 1 <= quantity <= 100 && IsTimes(times) && IsBlank(gap) && IsBlank(pad) && IsPlainValue(value)
    ensures var text := QuantityText(quantity, gap, times, pad, value);
            Text.Trimmed(text) && ParseQuantity(text) == Quantity(quantity, value, true)
  {
    QuantityTextIsTrimmed(quantity, gap, times, pad, value);
    Text.DigitsAreDigits(quantity);
    SmallNumbersAreShort(quantity);
    QuantityTextSplits(Text.Digits(quantity), gap, times, pad + value);
    TrimLeftSkips(pad, value);
    Money.DigitsValueOfDigits(quantity);
    QuantityFromParts(QuantityText(quantity, gap, times, pad, value), quantity, times, pad + value, value);
  }

  lemma QuantityFromParts(text: string, quantity: nat, times: char, rest: string, value: string)
    requires Text.Trimmed(text) && 1 <= quantity <= 100 && IsTimes(times) && IsPlainValue(value)
    requires 1 <= DigitRun(text) <= 3 && Money.DigitsValue(text[..DigitRun(text)]) == quantity
    requires Text.TrimLeft(text[DigitRun(text)..]) == [times] + rest && Text.TrimLeft(rest) == value
    ensures ParseQuantity(text) == Quantity(quantity, value, true)
  {
    assert ([times] + rest)[0] == times && ([times] + rest)[1..] == rest;
    TrimOfTrimmed(value);
  }

  lemma TrimOfTrimmed(value: string)
    requires Text.Trimmed(value)
    ensures Text.Trim(value) == value
  {
    Text.TrimOfPadded("", value);
    assert "" + value == value;
  }

  /** The item writes every attribute of the variant, and the quantity in front of the first. */
  ghost predicate Writes(catalog: Catalog, item: seq<Entry>, o: Line) {
    && o.variant < |catalog.variants| && 1 <= o.quantity <= 100
    && LedByFirst(catalog.attributes, item) && |item| == |catalog.attributes|
    && var values := catalog.variants[o.variant].attributeValues;
       && |values| == |catalog.attributes|
       && forall i :: 0 <= i < |item| ==>
            if i == 0 then WritesQuantity(item[i].value, o.quantity, values[0])
            else item[i].value == values[item[i].position]
  }

  /** The values of the variant are plain, and no other active variant accepts them all. */
  ghost predicate Sellable(locale: Locale, catalog: Catalog, index: nat) {
    && index < |catalog.variants| && catalog.variants[index].active
    && |catalog.variants[index].attributeValues| == |catalog.attributes|
    && (forall p :: 0 <= p < |catalog.attributes| ==> IsPlainValue(catalog.variants[index].attributeValues[p]))
    && forall j :: 0 <= j < |catalog.variants| && j != index && catalog.variants[j].active ==>
         Rejects(locale, catalog, catalog.variants[j], catalog.variants[index])
  }

  /** Some value of `written` is not accepted by `other`. */
  ghost predicate Rejects(locale: Locale, catalog: Catalog, other: Variant, written: Variant)
    requires |written.attributeValues| == |catalog.attributes|
  {
    exists p :: 0 <= p < |catalog.attributes| && RejectsAt(locale, other, written.attributeValues[p], p)
  }

  predicate RejectsAt(locale: Locale, other: Variant, value: string, p: nat) {
    forall candidate :: candidate in ObservedValues(locale, value) ==> candidate !in AcceptedValues(locale, other, p)
  }

  lemma {:induction false} ValuesOfAt(attributes: seq<Attribute>, item: seq<Entry>, i: nat)
    requires forall k :: 0 <= k < |item| ==> item[k].position < |attributes|
    requires i < |item| && forall k :: i < k < |item| ==>
                             attributes[item[k].position].key != attributes[item[i].position].key
    ensures var key := attributes[item[i].position].key;
            key in ValuesOf(attributes, item) && ValuesOf(attributes, item)[key] == item[i].value
  {
    var last := |item| - 1;
    if i < last {
      ValuesOfAt(attributes, item[..last], i);
    }
  }

  lemma ItemHasValue(normalize: Normalizer, attributes: seq<Attribute>, item: seq<Entry>, i: nat)
    requires Legible(normalize, attributes) && LedByFirst(attributes, item) && i < |item|
    ensures var key := attributes[item[i].position].key;
            key in ValuesOf(attributes, item) && ValuesOf(attributes, item)[key] == item[i].value
  {
    forall k | i < k < |item| ensures attributes[item[k].position].key != attributes[item[i].position].key {
      assert item[i].position != item[k].position;
      assert Apart(normalize, attributes[item[k].position], attributes[item[i].position]);
    }
    ValuesOfAt(attributes, item, i);
  }

  /** n distinct positions below n are all of them. */
  lemma {:induction false} EveryPositionIsWritten(item: seq<Entry>, n: nat, p: nat) returns (i: nat)
    requires |item| == n && p < n
    requires forall k :: 0 <= k < n ==> item[k].position < n
    requires forall k, m :: 0 <= k < m < n ==> item[k].position != item[m].position
    ensures i < n && item[i].position == p
  {
    var positions := seq(n, k requires 0 <= k < n => item[k].position);
    var numbers: seq<nat> := seq(n, k => k);
    forall x | x in positions ensures x in numbers {
      assert numbers[x] == x;
    }
    DrawnFromAll(positions, numbers);
    assert numbers[p] == p;
    assert p in positions;
    i :| 0 <= i < n && positions[i] == p;
  }

  /** Each attribute key holds the value of the variant. */
  ghost predicate Holds(catalog: Catalog, values: map<string, string>, v: Variant) {
    && |v.attributeValues| == |catalog.attributes|
    && forall p :: 0 <= p < |catalog.attributes| ==>
         catalog.attributes[p].key in values && values[catalog.attributes[p].key] == v.attributeValues[p]
  }

  lemma WrittenItemHolds(locale: Locale, catalog: Catalog, item: seq<Entry>, o: Line)
    requires catalog.attributes != [] && Legible(locale.labels, catalog.attributes)
    requires Writes(catalog, item, o) && Sellable(locale, catalog, o.variant)
    ensures var (quantity, values) := WithoutQuantity(catalog.attributes, ValuesOf(catalog.attributes, item));
            && quantity.valid && quantity.quantity == o.quantity
            && Holds(catalog, values, catalog.variants[o.variant])
  {
    var attributes, v := catalog.attributes, catalog.variants[o.variant];
    var raw := ValuesOf(attributes, item);
    var first := attributes[0].key;
    ItemHasValue(locale.labels, attributes, item, 0);
    assert WritesQuantity(item[0].value, o.quantity, v.attributeValues[0]);
    var gap: string, times: char, pad: string :|
      item[0].value == QuantityText(o.quantity, gap, times, pad, v.attributeValues[0])
      && IsTimes(times) && IsBlank(gap) && IsBlank(pad);
    QuantityTextParses(o.quantity, gap, times, pad, v.attributeValues[0]);
    TrimOfTrimmed(item[0].value);
    var values := raw[first := v.attributeValues[0]];
    assert WithoutQuantity(attributes, raw) == (Quantity(o.quantity, v.attributeValues[0], true), values);
    forall p | 0 <= p < |attributes|
      ensures attributes[p].key in values && values[attributes[p].key] == v.attributeValues[p]
    {
      if p > 0 {
        var i := EveryPositionIsWritten(item, |attributes|, p);
        ItemHasValue(locale.labels, attributes, item, i);
        assert Apart(locale.labels, attributes[p], attributes[0]);
      }
    }
  }

  lemma OwnValueIsAccepted(locale: Locale, catalog: Catalog, values: map<string, string>, v: Variant, p: nat)
    requires p < |catalog.attributes| && Holds(catalog, values, v) && v.attributeValues[p] != ""
    ensures AcceptsAt(locale, catalog.attributes, v, values, p)
  {
    var own := v.attributeValues[p];
    assert AcceptedValues(locale, v, p)[0] == locale.value(own);
    assert ObservedValues(locale, own)[0] == locale.value(own);
    assert locale.value(own) in ObservedValues(locale, own) && locale.value(own) in AcceptedValues(locale, v, p);
  }

  lemma SellableIsOnlyMatch(locale: Locale, catalog: Catalog, values: map<string, string>, index: nat)
    requires Sellable(locale, catalog, index) && Holds(catalog, values, catalog.variants[index])
    ensures OnlyMatch(locale, catalog.attributes, catalog.variants, values, catalog.variants[index])
  {
    var v := catalog.variants[index];
    forall p | 0 <= p < |catalog.attributes| ensures AcceptsAt(locale, catalog.attributes, v, values, p) {
      OwnValueIsAccepted(locale, catalog, values, v, p);
    }
    forall j | 0 <= j < |catalog.variants| && j != index
      ensures !Accepts(locale, catalog.attributes, catalog.variants[j], values)
    {
      if catalog.variants[j].active {
        assert Rejects(locale, catalog, catalog.variants[j], v);
        var p :| 0 <= p < |catalog.attributes| && RejectsAt(locale, catalog.variants[j], v.attributeValues[p], p);
        assert !AcceptsAt(locale, catalog.attributes, catalog.variants[j], values, p);
      }
    }
  }

  /** The parsed item of an order line: its quantity, its variant and the variant's price. */
  predicate IsLine(catalog: Catalog, p: ParsedItem, o: Line)
    requires o.variant < |catalog.variants|
  {
    && p.reason.ItemMatched? && p.quantity == o.quantity
    && PricedBy(p, catalog.variants[o.variant]) && p.parsedAttributes != []
  }

  lemma PlainValueIsNotBlank(value: string)
    requires IsPlainValue(value)
    ensures Text.Trim(value) != ""
  {
    TrimOfTrimmed(value);
  }

  lemma HeldItemParses(locale: Locale, catalog: Catalog, raw: RawItem, position: nat, o: Line)
    requires catalog.attributes != [] && Sellable(locale, catalog, o.variant)
    requires var (quantity, values) := WithoutQuantity(catalog.attributes, raw.values);
             quantity.valid && quantity.quantity == o.quantity && Holds(catalog, values, catalog.variants[o.variant])
    ensures IsLine(catalog, ParseItem(locale, catalog, raw, position), o)
  {
    var v := catalog.variants[o.variant];
    var (quantity, values) := WithoutQuantity(catalog.attributes, raw.values);
    SellableIsOnlyMatch(locale, catalog, values, o.variant);
    SingleMatchIsOnly(locale, catalog.attributes, catalog.variants, values, v);
    forall a | a in catalog.attributes ensures ValueAt(values, a.key) != "" && a.key in values {
      var p :| 0 <= p < |catalog.attributes| && catalog.attributes[p] == a;
      PlainValueIsNotBlank(v.attributeValues[p]);
    }
    ItemMatchedExactly(locale, catalog, raw, position);
    assert ParsedValues(catalog.attributes, values)[0].key == catalog.attributes[0].key;
  }

  ghost predicate WritesAt(locale: Locale, catalog: Catalog, item: seq<Entry>, o: Line) {
    Writes(catalog, item, o) && Sellable(locale, catalog, o.variant)
  }

  ghost predicate WritesAll(locale: Locale, catalog: Catalog, items: seq<seq<Entry>>, orders: seq<Line>) {
    && |items| == |orders|
    && forall i :: 0 <= i < |orders| ==> WritesAt(locale, catalog, items[i], orders[i])
  }

  ghost predicate AreLines(catalog: Catalog, parsed: seq<ParsedItem>, orders: seq<Line>) {
    && |parsed| == |orders|
    && forall i :: 0 <= i < |orders| ==> orders[i].variant < |catalog.variants| && IsLine(catalog, parsed[i], orders[i])
  }

  /** Sum over the order of quantity times catalog price. */
  function OrderTotal(catalog: Catalog, orders: seq<Line>): nat {
    if orders == [] then 0
    else orders[0].quantity * (if orders[0].variant < |catalog.variants|
                               then catalog.variants[orders[0].variant].valueCents else 0)
         + OrderTotal(catalog, orders[1..])
  }

  lemma WrittenItemParses(locale: Locale, catalog: Catalog, raw: RawItem, item: seq<Entry>, o: Line, position: nat)
    requires catalog.attributes != [] && Legible(locale.labels, catalog.attributes)
    requires WritesAt(locale, catalog, item, o)
    requires raw.values == ValuesOf(catalog.attributes, item)
    ensures ParsesAs(locale, catalog, raw, position, o)
  {
    WrittenItemHolds(locale, catalog, item, o);
    HeldItemParses(locale, catalog, raw, position, o);
  }

  ghost predicate ParsesAs(locale: Locale, catalog: Catalog, raw: RawItem, position: nat, o: Line)
    requires catalog.attributes != []
  {
    o.variant < |catalog.variants| && IsLine(catalog, ParseItem(locale, catalog, raw, position), o)
  }

  ghost predicate AllParseAs(locale: Locale, catalog: Catalog, raw: seq<RawItem>, orders: seq<Line>)
    requires catalog.attributes != []
  {
    |raw| == |orders| && forall i :: 0 <= i < |orders| ==> ParsesAs(locale, catalog, raw[i], i + 1, orders[i])
  }

  lemma WrittenItemsParse(locale: Locale, catalog: Catalog, raw: seq<RawItem>, items: seq<seq<Entry>>,
                          orders: seq<Line>)
    requires catalog.attributes != [] && Legible(locale.labels, catalog.attributes)
    requires WritesAll(locale, catalog, items, orders) && ReadBack(catalog.attributes, raw, items)
    ensures AllParseAs(locale, catalog, raw, orders)
  {
    forall i | 0 <= i < |orders| ensures ParsesAs(locale, catalog, raw[i], i + 1, orders[i]) {
      WrittenItemParsesAt(locale, catalog, raw, items, orders, i);
    }
  }

  lemma WrittenItemParsesAt(
    locale: Locale, catalog: Catalog, raw: seq<RawItem>, items: seq<seq<Entry>>, orders: seq<Line>, i: nat)
    requires catalog.attributes != [] && Legible(locale.labels, catalog.attributes)
    requires WritesAll(locale, catalog, items, orders) && ReadBack(catalog.attributes, raw, items) && i < |orders|
    ensures ParsesAs(locale, catalog, raw[i], i + 1, orders[i])
  {
    assert WritesAt(locale, catalog, items[i], orders[i]);
    WrittenItemParses(locale, catalog, raw[i], items[i], orders[i], i + 1);
  }

  lemma ParsedAreLines(locale: Locale, catalog: Catalog, raw: seq<RawItem>, orders: seq<Line>)
    requires catalog.attributes != [] && AllParseAs(locale, catalog, raw, orders)
    ensures AreLines(catalog, ParseItems(locale, catalog, raw), orders)
  {
    var parsed := ParseItems(locale, catalog, raw);
    forall i | 0 <= i < |orders|
      ensures orders[i].variant < |catalog.variants| && IsLine(catalog, parsed[i], orders[i])
    {
      assert parsed[i] == ParseItem(locale, catalog, raw[i], i + 1);
      assert ParsesAs(locale, catalog, raw[i], i + 1, orders[i]);
    }
  }

  lemma {:induction false} LinesAddUp(catalog: Catalog, parsed: seq<ParsedItem>, orders: seq<Line>)
    requires AreLines(catalog, parsed, orders)
    ensures SubtotalsOf(parsed) == OrderTotal(catalog, orders)
  {
    if orders != [] {
      assert IsLine(catalog, parsed[0], orders[0]);
      forall i | 0 <= i < |orders[1..]|
        ensures orders[1..][i].variant < |catalog.variants| && IsLine(catalog, parsed[1..][i], orders[1..][i])
      {
        assert IsLine(catalog, parsed[i + 1], orders[i + 1]);
      }
      LinesAddUp(catalog, parsed[1..], orders[1..]);
    }
  }

  lemma LinesMatch(catalog: Catalog, phrase: Option<string>, parsed: seq<ParsedItem>, orders: seq<Line>,
                   observed: Option<nat>)
    requires orders != [] && AreLines(catalog, parsed, orders)
    ensures var m := MatchItems(catalog, phrase, parsed, observed);
            m.matched && m.items == parsed && m.valueCents == Some(OrderTotal(catalog, orders))
  {
    assert IsLine(catalog, parsed[0], orders[0]);
    LinesAddUp(catalog, parsed, orders);
    assert forall i :: 0 <= i < |parsed| ==> IsLine(catalog, parsed[i], orders[i]);
    assert FirstProblem(parsed).None?;
  }

  /**
   * An order written line by line, with any other lines in between, is recognized as exactly that order: the
   * same variants and quantities, worth the sum of quantity times catalog price.
   */
  lemma OrderRoundTrip(
    locale: Locale, catalog: Catalog, message: string, phrases: seq<string>, items: seq<seq<Entry>>, orders: seq<Line>)
    requires catalog.active && catalog.attributes != [] && Legible(locale.labels, catalog.attributes)
    requires phrases == [] || MatchTrigger(locale, message, phrases).Some?
    requires orders != [] && WritesAll(locale, catalog, items, orders)
    requires Carry(locale.labels, catalog.attributes, SplitLines(message), 0, Flatten(items))
    ensures var m := MatchMessage(locale, catalog, message, phrases);
            && m.matched && AreLines(catalog, m.items, orders)
            && m.valueCents == Some(OrderTotal(catalog, orders))
  {
    var lines := SplitLines(message);
    assert forall i :: 0 <= i < |items| ==> WritesAt(locale, catalog, items[i], orders[i]);
    GroupingRoundTrip(locale.labels, catalog.attributes, lines, items);
    var raw := RawItems(locale.labels, catalog.attributes, lines);
    WrittenItemsParse(locale, catalog, raw, items, orders);
    ParsedAreLines(locale, catalog, raw, orders);
    var observed := Money.ObservedPayment(
      locale.round, locale.tokens, lines, LineIndexes(Found(locale.labels, catalog.attributes, lines)));
    LinesMatch(catalog, MatchTrigger(locale, message, phrases), ParseItems(locale, catalog, raw), orders, observed);
  }
}
