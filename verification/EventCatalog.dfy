/** The catalog of conversion events: who carries value, and how events are deduplicated. */
module EventCatalog {
  datatype EventName =
    | LeadSubmitted | ViewContent | AddToCart | CartAbandoned | InitiateCheckout
    | QualifiedLead | Purchase | OrderCreated | OrderShipped | OrderDelivered
    | OrderCanceled | OrderReturned | RatingProvided | ReviewProvided

  datatype ValuePolicy = Required | Optional | NoValue

  datatype DedupeMode = LifetimeMode | RollingMode

  const PURCHASE_DEDUPE_WINDOW_SECONDS: nat := 24 * 60 * 60

  function Policy(e: EventName): ValuePolicy {
    match e
    case InitiateCheckout | Purchase => Required
    case ViewContent | AddToCart | CartAbandoned | OrderCreated => Optional
    case _ => NoValue
  }

  function Dedupe(e: EventName): DedupeMode {
    match e
    case LeadSubmitted | QualifiedLead => LifetimeMode
    case _ => RollingMode
  }

  predicate CarriesValue(e: EventName) {
    !Policy(e).NoValue?
  }

  predicate RequiresValue(e: EventName) {
    Policy(e).Required?
  }

  function Name(e: EventName): string {
    match e
    case LeadSubmitted => "LeadSubmitted"
    case ViewContent => "ViewContent"
    case AddToCart => "AddToCart"
    case CartAbandoned => "CartAbandoned"
    case InitiateCheckout => "InitiateCheckout"
    case QualifiedLead => "QualifiedLead"
    case Purchase => "Purchase"
    case OrderCreated => "OrderCreated"
    case OrderShipped => "OrderShipped"
    case OrderDelivered => "OrderDelivered"
    case OrderCanceled => "OrderCanceled"
    case OrderReturned => "OrderReturned"
    case RatingProvided => "RatingProvided"
    case ReviewProvided => "ReviewProvided"
  }

  /** Tells the names apart by their length and a few of their letters. */
  function Parse(s: string): EventName
    requires |s| > 5
  {
    match s[0]
    case 'L' => LeadSubmitted
    case 'V' => ViewContent
    case 'A' => AddToCart
    case 'C' => CartAbandoned
    case 'I' => InitiateCheckout
    case 'Q' => QualifiedLead
    case 'P' => Purchase
    case 'O' =>
      if |s| == 14 then OrderDelivered
      else if |s| == 12 then (if s[5] == 'C' then OrderCreated else OrderShipped)
      else if s[5] == 'C' then OrderCanceled else OrderReturned
    case _ => if s[1] == 'a' then RatingProvided else ReviewProvided
  }

  lemma NamesAreDistinct(e: EventName)
    ensures |Name(e)| > 5 && Parse(Name(e)) == e
  {
  }

  lemma NamesHaveNoColon(e: EventName)
    ensures ':' !in Name(e)
  {
  }
}
