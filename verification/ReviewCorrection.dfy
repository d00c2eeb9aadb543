/** Human correction of a purchase review: re-pricing its items and freezing the corrected decision. */
module ReviewCorrection {
  import opened Wrappers
  import opened EventCatalog
  import opened Decisions
  import Money
  import Text

  datatype ReviewItem = ReviewItem(
    variantId: Option<string>,
    quantity: nat,
    unitValueCents: Option<nat>,
    subtotalValueCents: Option<nat>,
    attributeValues: seq<string>,
    contentName: Option<string>)

  /** An edited line: which variant, and how many of it. */
  datatype ItemInput = ItemInput(variantId: string, quantity: nat)

  datatype CorrectionError =
    | InactiveCatalog | UnknownVariant | InvalidTotal | NotApprovable | NotAPurchase | CatalogChanged

  function Truthy(v: Option<nat>): bool {
    v.Some? && v.value != 0
  }

  function FindVariant(variants: seq<Variant>, id: string): (v: Option<Variant>)
    ensures v.Some? ==> v.value in variants && v.value.id == id
    ensures v.None? ==> forall x :: x in variants ==> x.id != id
  {
    if variants == [] then None
    else
      // A JavaScript Map built from pairs keeps the last value stored under a key.
      var later := FindVariant(variants[1..], id);
      if later.Some? then later else if variants[0].id == id then Some(variants[0]) else None
  }

  function ActiveVariants(variants: seq<Variant>): (active: seq<Variant>)
    ensures forall v :: v in active <==> v in variants && v.active
  {
    if variants == [] then []
    else (if variants[0].active then [variants[0]] else []) + ActiveVariants(variants[1..])
  }

  function SubtotalSum(items: seq<ReviewItem>): nat {
    if items == [] then 0
    else (if items[0].subtotalValueCents.Some? then items[0].subtotalValueCents.value else 0) + SubtotalSum(items[1..])
  }

  /** Each line is a variant's price times its quantity. */
  predicate LinesPriced(items: seq<ReviewItem>) {
    forall i :: 0 <= i < |items| ==>
      && items[i].variantId.Some? && items[i].unitValueCents.Some?
      && items[i].subtotalValueCents == Some(items[i].unitValueCents.value * items[i].quantity)
  }

  /** A content name, or the product name followed by the attribute values, cut at 180 characters. */
  function NameOr(name: Option<string>, productName: string, values: seq<string>): string {
    if name.Some? then name.value else Text.Truncate(productName + " | " + Text.Join(values, " | "), 180)
  }

  function ResolveLines(variants: seq<Variant>, input: seq<ItemInput>,
                        productName: string): (r: Result<seq<ReviewItem>, CorrectionError>)
    ensures r.Ok? ==> |r.value| == |input| && LinesPriced(r.value)
    ensures r.Ok? ==> forall i :: 0 <= i < |input| ==>
      r.value[i].quantity == input[i].quantity && r.value[i].variantId == Some(input[i].variantId)
  {
    if input == [] then Ok([])
    else
      match FindVariant(variants, input[0].variantId)
      case None => Err(UnknownVariant)
      case Some(variant) =>
        match ResolveLines(variants, input[1..], productName)
        case Err(e) => Err(e)
        case Ok(rest) =>
          Ok([ReviewItem(Some(variant.id), input[0].quantity, Some(variant.valueCents),
                         Some(variant.valueCents * input[0].quantity), variant.attributeValues,
                         Some(NameOr(variant.contentName, productName, variant.attributeValues)))] + rest)
  }

  /** `resolveItems`: the lines re-priced from the active catalog, and their safe positive total. */
  function ResolveItems(catalog: Option<Catalog>,
                        input: seq<ItemInput>): (r: Result<(seq<ReviewItem>, nat), CorrectionError>)
    ensures r.Ok? ==>
            LinesPriced(r.value.0) && r.value.1 == SubtotalSum(r.value.0) && 0 < r.value.1 <= Money.MAX_SAFE_INTEGER
  {
    if catalog.None? || !catalog.value.active then Err(InactiveCatalog)
    else
      match ResolveLines(ActiveVariants(catalog.value.variants), input, catalog.value.productName)
      case Err(e) => Err(e)
      case Ok(items) =>
        var total := SubtotalSum(items);
        if total == 0 || total > Money.MAX_SAFE_INTEGER then Err(InvalidTotal) else Ok((items, total))
  }

  // ----- what an edit is worth -----

  /** The active variant that an edited line asks for: the last one with the id, should there be several. */
  ghost function Offered(variants: seq<Variant>, id: string): (v: Option<Variant>)
    ensures v.Some? ==> v.value in variants && v.value.active && v.value.id == id
    ensures v.None? ==> forall x :: x in variants && x.active ==> x.id != id
  {
    if variants == [] then None
    else
      var last := variants[|variants| - 1];
      if last.active && last.id == id then Some(last) else Offered(variants[..|variants| - 1], id)
  }

  /** Quantity times the price of the variant asked for, summed up. */
  ghost function OrderTotal(variants: seq<Variant>, input: seq<ItemInput>): nat {
    if input == [] then 0
    else
      var v := Offered(variants, input[0].variantId);
      (if v.Some? then input[0].quantity * v.value.valueCents else 0) + OrderTotal(variants, input[1..])
  }

  lemma {:induction false} FindAppended(variants: seq<Variant>, v: Variant, id: string)
    ensures FindVariant(variants + [v], id) == if v.id == id then Some(v) else FindVariant(variants, id)
  {
    if variants == [] {
      assert variants + [v] == [v];
    } else {
      assert (variants + [v])[1..] == variants[1..] + [v];
      FindAppended(variants[1..], v, id);
    }
  }

  lemma {:induction false} ActiveAppended(variants: seq<Variant>, v: Variant)
    ensures ActiveVariants(variants + [v]) == ActiveVariants(variants) + if v.active then [v] else []
  {
    if variants == [] {
      assert variants + [v] == [v];
    } else {
      assert (variants + [v])[1..] == variants[1..] + [v];
      ActiveAppended(variants[1..], v);
    }
  }

  /** Looking an id up among the active variants finds the variant offered under it. */
  lemma {:induction false} FindsTheOffered(variants: seq<Variant>, id: string)
    ensures FindVariant(ActiveVariants(variants), id) == Offered(variants, id)
  {
    if variants != [] {
      var front, last := variants[..|variants| - 1], variants[|variants| - 1];
      assert front + [last] == variants;
      ActiveAppended(front, last);
      FindsTheOffered(front, id);
      if last.active {
        FindAppended(ActiveVariants(front), last, id);
      } else {
        assert ActiveVariants(front) + [] == ActiveVariants(front);
      }
    }
  }

  /** The line is what `input` asks for, at the price and with the attributes of the variant offered. */
  ghost predicate IsResolved(line: ReviewItem, input: ItemInput, variants: seq<Variant>) {
    && Offered(variants, input.variantId).Some?
    && var v := Offered(variants, input.variantId).value;
       && line.variantId == Some(input.variantId) && line.quantity == input.quantity
       && line.unitValueCents == Some(v.valueCents) && line.subtotalValueCents == Some(v.valueCents * input.quantity)
       && line.attributeValues == v.attributeValues
  }

  /** A line without a name of its own is named after the product and the values, in 180 characters at most. */
  lemma LineIsNamed(variants: seq<Variant>, input: seq<ItemInput>, productName: string, i: nat)
    requires ResolveLines(ActiveVariants(variants), input, productName).Ok? && i < |input|
    ensures Offered(variants, input[i].variantId).Some?
    ensures var v := Offered(variants, input[i].variantId).value;
            var generated := productName + " | " + Text.Join(v.attributeValues, " | ");
            ResolveLines(ActiveVariants(variants), input, productName).value[i].contentName
            == Some(if v.contentName.Some? then v.contentName.value
                    else if |generated| <= 180 then generated else generated[..180])
  {
    FindsTheOffered(variants, input[0].variantId);
    if i > 0 {
      LineIsNamed(variants, input[1..], productName, i - 1);
    }
  }

  lemma {:induction false} LinesResolveExactly(variants: seq<Variant>, input: seq<ItemInput>, productName: string)
    ensures var r := ResolveLines(ActiveVariants(variants), input, productName);
            && (r.Ok? <==> forall i :: 0 <= i < |input| ==> Offered(variants, input[i].variantId).Some?)
            && (r.Ok? ==>
                  && |r.value| == |input| && SubtotalSum(r.value) == OrderTotal(variants, input)
                  && forall i :: 0 <= i < |input| ==> IsResolved(r.value[i], input[i], variants))
  {
    if input != [] {
      FindsTheOffered(variants, input[0].variantId);
      LinesResolveExactly(variants, input[1..], productName);
    }
  }

  /**
   * An edit is refused exactly when the catalog is not active, a line asks for a variant that is not offered, or the
   * total is zero or not a safe integer. Otherwise each line is what was asked for at the price of its variant, and the
   * total is quantity times price over what was asked for.
   */
  lemma EditIsResolvedExactly(catalog: Option<Catalog>, input: seq<ItemInput>)
    ensures var r := ResolveItems(catalog, input);
            && (r.Ok? <==>
                  && catalog.Some? && catalog.value.active
                  && (forall i :: 0 <= i < |input| ==> Offered(catalog.value.variants, input[i].variantId).Some?)
                  && 0 < OrderTotal(catalog.value.variants, input) <= Money.MAX_SAFE_INTEGER)
            && (r.Ok? ==>
                  && |r.value.0| == |input| && r.value.1 == OrderTotal(catalog.value.variants, input)
                  && forall i :: 0 <= i < |input| ==> IsResolved(r.value.0[i], input[i], catalog.value.variants))
  {
    if catalog.Some? {
      LinesResolveExactly(catalog.value.variants, input, catalog.value.productName);
    }
  }

  /** The lines of a review created from a decision. */
  function LinesOf(items: seq<ParsedItem>): (lines: seq<ReviewItem>)
    ensures |lines| == |items|
  {
    if items == [] then []
    else
      var i := items[0];
      [ReviewItem(i.catalogVariantId, i.quantity, i.unitValueCents, i.subtotalValueCents,
                  Values(i.parsedAttributes), i.contentName)] + LinesOf(items[1..])
  }

  function Values(attributes: seq<ParsedAttribute>): seq<string> {
    if attributes == [] then [] else [attributes[0].value] + Values(attributes[1..])
  }

  /** A review starts with the items as they were recognized. */
  lemma {:induction false} LinesAreTheItems(items: seq<ParsedItem>, i: nat)
    requires i < |items|
    ensures var line, item := LinesOf(items)[i], items[i];
            && line.variantId == item.catalogVariantId && line.quantity == item.quantity
            && line.unitValueCents == item.unitValueCents && line.subtotalValueCents == item.subtotalValueCents
            && line.contentName == item.contentName && |line.attributeValues| == |item.parsedAttributes|
            && forall j :: 0 <= j < |item.parsedAttributes| ==>
                 line.attributeValues[j] == item.parsedAttributes[j].value
  {
    if i == 0 {
      ValuesAreTheirs(items[0].parsedAttributes);
    } else {
      LinesAreTheItems(items[1..], i - 1);
    }
  }

  lemma {:induction false} ValuesAreTheirs(attributes: seq<ParsedAttribute>)
    ensures |Values(attributes)| == |attributes|
    ensures forall j :: 0 <= j < |attributes| ==> Values(attributes)[j] == attributes[j].value
  {
    if attributes != [] {
      ValuesAreTheirs(attributes[1..]);
    }
  }

  function ParsedAttributes(attributes: seq<Attribute>, values: seq<string>): seq<ParsedAttribute>
    requires |attributes| == |values|
  {
    seq(|attributes|, i requires 0 <= i < |attributes| =>
      ParsedAttribute(attributes[i].key, attributes[i].labelText, values[i]))
  }

  /** `correctedItems`, from line `start` on: every line must still agree with the catalog. */
  function CorrectedItems(lines: seq<ReviewItem>, catalog: Catalog,
                          start: nat): (r: Result<seq<ParsedItem>, CorrectionError>)
    ensures r.Ok? ==> |r.value| == |lines| && Priced(r.value) && LinesPriced(lines)
    ensures r.Ok? ==> Total(r.value) == SubtotalSum(lines)
  {
    if lines == [] then Ok([])
    else
      var line := lines[0];
      var variant := if line.variantId.Some? then FindVariant(catalog.variants, line.variantId.value) else None;
      if || variant.None? || !variant.value.active
         || !Truthy(line.unitValueCents) || !Truthy(line.subtotalValueCents)
         || |line.attributeValues| != |catalog.attributes|
         || variant.value.valueCents != line.unitValueCents.value
         || line.subtotalValueCents.value != line.unitValueCents.value * line.quantity
      then Err(CatalogChanged)
      else
        match CorrectedItems(lines[1..], catalog, start + 1)
        case Err(e) => Err(e)
        case Ok(rest) =>
          Ok([ParsedItem(start + 1, line.quantity, ParsedAttributes(catalog.attributes, line.attributeValues),
                         Some(variant.value.id), line.unitValueCents, line.subtotalValueCents,
                         Some(NameOr(OrElse(line.contentName, variant.value.contentName),
                                     catalog.productName, line.attributeValues)),
                         ItemMatched)] + rest)
  }

  /** The last variant with the id, active or not. */
  ghost function Latest(variants: seq<Variant>, id: string): (v: Option<Variant>)
    ensures v.Some? ==> v.value in variants && v.value.id == id
    ensures v.None? ==> forall x :: x in variants ==> x.id != id
  {
    if variants == [] then None
    else if variants[|variants| - 1].id == id then Some(variants[|variants| - 1])
    else Latest(variants[..|variants| - 1], id)
  }

  lemma {:induction false} FindsTheLatest(variants: seq<Variant>, id: string)
    ensures FindVariant(variants, id) == Latest(variants, id)
  {
    if variants != [] {
      var front := variants[..|variants| - 1];
      assert front + [variants[|variants| - 1]] == variants;
      FindAppended(front, variants[|variants| - 1], id);
      FindsTheLatest(front, id);
    }
  }

  /** The line has the current price of an active variant, is worth that times its quantity, and has all attributes. */
  ghost predicate StillHolds(line: ReviewItem, catalog: Catalog) {
    && line.variantId.Some? && Latest(catalog.variants, line.variantId.value).Some?
    && var v := Latest(catalog.variants, line.variantId.value).value;
       && v.active && v.valueCents > 0 && line.quantity > 0
       && line.unitValueCents == Some(v.valueCents) && line.subtotalValueCents == Some(v.valueCents * line.quantity)
       && |line.attributeValues| == |catalog.attributes|
  }

  /** The item says of the line what the line says, under the names of the catalog. */
  predicate IsItemOf(item: ParsedItem, line: ReviewItem, catalog: Catalog) {
    && item.quantity == line.quantity && item.catalogVariantId == line.variantId && item.reason.ItemMatched?
    && item.unitValueCents == line.unitValueCents && item.subtotalValueCents == line.subtotalValueCents
    && |item.parsedAttributes| == |line.attributeValues| == |catalog.attributes|
    && forall i :: 0 <= i < |item.parsedAttributes| ==>
         item.parsedAttributes[i]
         == ParsedAttribute(catalog.attributes[i].key, catalog.attributes[i].labelText, line.attributeValues[i])
  }

  lemma FirstLineHoldsExactly(line: ReviewItem, catalog: Catalog, start: nat)
    ensures CorrectedItems([line], catalog, start).Ok? <==> StillHolds(line, catalog)
    ensures StillHolds(line, catalog) ==> IsItemOf(CorrectedItems([line], catalog, start).value[0], line, catalog)
  {
    if line.variantId.Some? {
      FindsTheLatest(catalog.variants, line.variantId.value);
    }
    assert [line][1..] == [];
    if line.variantId.Some? && Latest(catalog.variants, line.variantId.value).Some? {
      var price := Latest(catalog.variants, line.variantId.value).value.valueCents;
      assert price * line.quantity == 0 <==> price == 0 || line.quantity == 0;
    }
  }

  lemma CorrectsLineByLine(lines: seq<ReviewItem>, catalog: Catalog, start: nat)
    requires lines != []
    ensures var first := CorrectedItems([lines[0]], catalog, start);
            var rest := CorrectedItems(lines[1..], catalog, start + 1);
            && (CorrectedItems(lines, catalog, start).Ok? <==> first.Ok? && rest.Ok?)
            && (first.Ok? && rest.Ok? ==> CorrectedItems(lines, catalog, start).value == first.value + rest.value)
  {
    assert [lines[0]][1..] == [];
  }

  /** Reviewed lines are accepted if and only if all still hold; the items then say what the lines say. */
  lemma {:induction false} LinesAreCorrectedExactly(lines: seq<ReviewItem>, catalog: Catalog, start: nat)
    ensures var r := CorrectedItems(lines, catalog, start);
            && (r.Ok? <==> forall i :: 0 <= i < |lines| ==> StillHolds(lines[i], catalog))
            && (r.Ok? ==> forall i :: 0 <= i < |lines| ==> IsItemOf(r.value[i], lines[i], catalog))
  {
    if lines != [] {
      FirstLineHoldsExactly(lines[0], catalog, start);
      CorrectsLineByLine(lines, catalog, start);
      LinesAreCorrectedExactly(lines[1..], catalog, start + 1);
      var r := CorrectedItems(lines, catalog, start);
      if r.Ok? {
        forall i | 0 <= i < |lines| ensures IsItemOf(r.value[i], lines[i], catalog) {
          assert i > 0 ==> lines[i] == lines[1..][i - 1];
        }
      }
    }
  }

  /** The rule, catalog and release rows read together with the review. */
  datatype ApprovalContext = ApprovalContext(
    rule: RuleSnapshot, catalog: Option<Catalog>, parserVersion: string, productionReady: bool)

  /** `assertReviewIsApprovable`, apart from the status test. */
  predicate LinesApprovable(rule: RuleSnapshot, lines: seq<ReviewItem>, effective: Option<nat>) {
    && Truthy(effective)
    && (rule.triggerType.StructuredCatalog? ==>
          && lines != []
          && forall i :: 0 <= i < |lines| ==>
               lines[i].variantId.Some? && Truthy(lines[i].unitValueCents) && Truthy(lines[i].subtotalValueCents))
  }

  /** `correctedDecision`: the occurrence and lead of the latest version, with the reviewed items and value. */
  function CorrectedDecision(
    ctx: ApprovalContext, latest: Decision, lines: seq<ReviewItem>, effective: Option<nat>,
    observed: Option<nat>, currency: string, phrase: Option<string>): Result<Decision, CorrectionError>
  {
    if latest.occurrence.eventName != Purchase || !latest.leadResolution.Resolved? then Err(NotAPurchase)
    else if ctx.rule.triggerType.ProviderAutomation? || ctx.rule.eventName != Purchase then Err(NotAPurchase)
    else
      var items :=
        if !ctx.rule.triggerType.StructuredCatalog? then Ok([])
        else if ctx.catalog.None? || !ctx.catalog.value.active then Err(InactiveCatalog)
        else CorrectedItems(lines, ctx.catalog.value, 0);
      match items
      case Err(e) => Err(e)
      case Ok(items) =>
        var contentName :=
          if |items| == 1 then OrElse(items[0].contentName, latest.conversion.contentName)
          else if ctx.catalog.Some? then Some(ctx.catalog.value.productName)
          else OrElse(ctx.rule.defaultContentName, latest.conversion.contentName);
        Ok(Decision(DecisionV1, ctx.parserVersion, Eligible, PurchaseReviewApproved,
                    latest.occurrence, ctx.rule, ctx.catalog,
                    Conversion(OrElse(phrase, latest.conversion.matchedTriggerPhrase), items, effective,
                               observed, Some(currency), contentName),
                    latest.leadResolution, None))
  }

  /**
   * A correction keeps the occurrence and the lead, hence everything deduplication looks at, and its
   * value is the sum of quantity times catalog price over the corrected items.
   */
  lemma {:induction false} CorrectionIsIssued(
    ctx: ApprovalContext, latest: Decision, lines: seq<ReviewItem>, effective: Option<nat>,
    observed: Option<nat>, currency: string, phrase: Option<string>)
    requires Issued(latest)
    requires LinesApprovable(ctx.rule, lines, effective)
    requires effective == Some(SubtotalSum(lines))
    requires CorrectedDecision(ctx, latest, lines, effective, observed, currency, phrase).Ok?
    ensures var d := CorrectedDecision(ctx, latest, lines, effective, observed, currency, phrase).value;
            && Issued(d) && KeyForDedupe(d) == KeyForDedupe(latest)
            && d.occurrence == latest.occurrence && d.code.Eligible?
            && (ctx.rule.triggerType.StructuredCatalog? ==>
                  d.conversion.valueCents == Some(Total(d.conversion.items)) && |d.conversion.items| == |lines|)
  {
  }

  /**
   * A correction succeeds if and only if the occurrence is a purchase of a known lead, the rule is for purchases and no
   * automation, and for a catalog rule the catalog is active and every line still holds. It is eligible, of the same
   * occurrence and lead, and worth what the review says.
   */
  lemma CorrectionExactly(
    ctx: ApprovalContext, latest: Decision, lines: seq<ReviewItem>, effective: Option<nat>,
    observed: Option<nat>, currency: string, phrase: Option<string>)
    ensures var r := CorrectedDecision(ctx, latest, lines, effective, observed, currency, phrase);
            && (r.Ok? <==>
                  && latest.occurrence.eventName == Purchase && latest.leadResolution.Resolved?
                  && ctx.rule.eventName == Purchase && !ctx.rule.triggerType.ProviderAutomation?
                  && (ctx.rule.triggerType.StructuredCatalog? ==>
                        && ctx.catalog.Some? && ctx.catalog.value.active
                        && forall i :: 0 <= i < |lines| ==> StillHolds(lines[i], ctx.catalog.value)))
            && (r.Ok? ==>
                  && r.value.code.Eligible? && r.value.occurrence == latest.occurrence
                  && r.value.leadResolution == latest.leadResolution && r.value.rule == ctx.rule
                  && r.value.conversion.valueCents == effective && r.value.conversion.currency == Some(currency)
                  && r.value.conversion.observedPaymentValueCents == observed
                  && (if ctx.rule.triggerType.StructuredCatalog? then
                        && |r.value.conversion.items| == |lines|
                        && forall i :: 0 <= i < |lines| ==>
                             IsItemOf(r.value.conversion.items[i], lines[i], ctx.catalog.value)
                      else r.value.conversion.items == []))
  {
    if ctx.catalog.Some? {
      LinesAreCorrectedExactly(lines, ctx.catalog.value, 0);
    }
  }
}
