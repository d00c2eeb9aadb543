/** Deduplication keys of external events: percent-encoded parts joined by colons. */
module ExternalIdentity {
  import opened Wrappers
  import opened Cutover
  import Text

  // ----- percent-encoding (section 2.1 of RFC 3986) of the UTF-8 bytes -----

  /** The characters `encodeURIComponent` leaves alone. */
  predicate IsPlain(c: char) {
    || 'a' <= c <= 'z' || 'A' <= c <= 'Z' || '0' <= c <= '9'
    || c == '-' || c == '_' || c == '.' || c == '!' || c == '~' || c == '*' || c == '\'' || c == '(' || c == ')'
  }

  function HexDigit(n: nat): char
    requires n < 16
  {
    if n < 10 then ('0' as int + n) as char else ('A' as int + n - 10) as char
  }

  function HexValue(c: char): int {
    if '0' <= c <= '9' then c as int - '0' as int else c as int - 'A' as int + 10
  }

  function EncodeByte(b: nat): string
    requires b < 256
  {
    ['%', HexDigit(b / 16), HexDigit(b % 16)]
  }

  function EncodeChar(c: char): string {
    var n := c as int;
    if IsPlain(c) then [c]
    else if n < 0x80 then EncodeByte(n)
    else if n < 0x800 then EncodeByte(0xC0 + n / 0x40) + EncodeByte(0x80 + n % 0x40)
    else if n < 0x10000 then
      EncodeByte(0xE0 + n / 0x1000) + (EncodeByte(0x80 + n / 0x40 % 0x40) + EncodeByte(0x80 + n % 0x40))
    else
      EncodeByte(0xF0 + n / 0x40000)
      + (EncodeByte(0x80 + n / 0x1000 % 0x40) + (EncodeByte(0x80 + n / 0x40 % 0x40) + EncodeByte(0x80 + n % 0x40)))
  }

  function EncodePart(s: string): string {
    if s == "" then "" else EncodeChar(s[0]) + EncodePart(s[1..])
  }

  /** The byte written at position i of an encoded string. */
  function ByteAt(s: string, i: nat): int
    requires i + 3 <= |s|
  {
    HexValue(s[i + 1]) * 16 + HexValue(s[i + 2])
  }

  function Join2(a: int, b: int): int { (a - 0xC0) * 0x40 + b - 0x80 }

  function Join3(a: int, b: int, c: int): int { (a - 0xE0) * 0x1000 + (b - 0x80) * 0x40 + c - 0x80 }

  function Join4(a: int, b: int, c: int, d: int): int {
    (a - 0xF0) * 0x40000 + (b - 0x80) * 0x1000 + (c - 0x80) * 0x40 + d - 0x80
  }

  lemma JoinThree(n: nat)
    requires 0x800 <= n < 0x10000
    ensures Join3(0xE0 + n / 0x1000, 0x80 + n / 0x40 % 0x40, 0x80 + n % 0x40) == n
    ensures 0xE0 <= 0xE0 + n / 0x1000 < 0xF0
  {
    assert n / 0x40 / 0x40 == n / 0x1000;
  }

  lemma JoinFour(n: nat)
    requires 0x10000 <= n < 0x110000
    ensures Join4(0xF0 + n / 0x40000, 0x80 + n / 0x1000 % 0x40, 0x80 + n / 0x40 % 0x40, 0x80 + n % 0x40) == n
    ensures 0xF0 <= 0xF0 + n / 0x40000 < 256
  {
    assert n / 0x40 / 0x40 == n / 0x1000 && n / 0x1000 / 0x40 == n / 0x40000;
  }

  /** The code point an encoded string starts with, and how many characters it takes. */
  function DecodeHead(s: string): (int, nat) {
    if s == "" then (0, 0)
    else if s[0] != '%' then (s[0] as int, 1)
    else if |s| < 3 then (0, 0)
    else
      var b := ByteAt(s, 0);
      if b < 0x80 then (b, 3)
      else if b < 0xE0 then (if |s| < 6 then (0, 0) else (Join2(b, ByteAt(s, 3)), 6))
      else if b < 0xF0 then
        if |s| < 9 then (0, 0) else (Join3(b, ByteAt(s, 3), ByteAt(s, 6)), 9)
      else if |s| < 12 then (0, 0)
      else (Join4(b, ByteAt(s, 3), ByteAt(s, 6), ByteAt(s, 9)), 12)
  }

  lemma ByteIsRead(b: nat, x: string)
    requires b < 256
    ensures ByteAt(EncodeByte(b) + x, 0) == b
    ensures forall i :: 0 <= i < 3 ==> (EncodeByte(b) + x)[i] == EncodeByte(b)[i]
  {
  }

  lemma ByteIsReadAt(s: string, i: nat, b: nat)
    requires b < 256 && i + 3 <= |s| && s[i..i + 3] == EncodeByte(b)
    ensures ByteAt(s, i) == b && s[i] == '%'
  {
    assert s[i] == s[i..i + 3][0] && s[i + 1] == s[i..i + 3][1] && s[i + 2] == s[i..i + 3][2];
  }

  lemma TwoBytes(a: nat, b: nat, x: string)
    requires a < 256 && b < 256
    ensures var s := EncodeByte(a) + EncodeByte(b) + x;
            |s| >= 6 && s[0] == '%' && ByteAt(s, 0) == a && ByteAt(s, 3) == b
  {
    var s := EncodeByte(a) + EncodeByte(b) + x;
    assert s[0..3] == EncodeByte(a) && s[3..6] == EncodeByte(b);
    ByteIsReadAt(s, 0, a);
    ByteIsReadAt(s, 3, b);
  }

  lemma ThreeBytes(a: nat, b: nat, c: nat, x: string)
    requires a < 256 && b < 256 && c < 256
    ensures var s := EncodeByte(a) + (EncodeByte(b) + EncodeByte(c)) + x;
            |s| >= 9 && s[0] == '%' && ByteAt(s, 0) == a && ByteAt(s, 3) == b && ByteAt(s, 6) == c
  {
    var s := EncodeByte(a) + (EncodeByte(b) + EncodeByte(c)) + x;
    assert s[0..3] == EncodeByte(a) && s[3..6] == EncodeByte(b) && s[6..9] == EncodeByte(c);
    ByteIsReadAt(s, 0, a);
    ByteIsReadAt(s, 3, b);
    ByteIsReadAt(s, 6, c);
  }

  lemma FourBytes(a: nat, b: nat, c: nat, d: nat, x: string)
    requires a < 256 && b < 256 && c < 256 && d < 256
    ensures var s := EncodeByte(a) + (EncodeByte(b) + (EncodeByte(c) + EncodeByte(d))) + x;
            |s| >= 12 && s[0] == '%' && ByteAt(s, 0) == a && ByteAt(s, 3) == b && ByteAt(s, 6) == c && ByteAt(s, 9) == d
  {
    var s := EncodeByte(a) + (EncodeByte(b) + (EncodeByte(c) + EncodeByte(d))) + x;
    assert s[0..3] == EncodeByte(a) && s[3..6] == EncodeByte(b) && s[6..9] == EncodeByte(c)
           && s[9..12] == EncodeByte(d);
    ByteIsReadAt(s, 0, a);
    ByteIsReadAt(s, 3, b);
    ByteIsReadAt(s, 6, c);
    ByteIsReadAt(s, 9, d);
  }

  lemma DecodeTwo(c: char, x: string)
    requires !IsPlain(c) && 0x80 <= c as int < 0x800
    ensures DecodeHead(EncodeChar(c) + x) == (c as int, |EncodeChar(c)|)
  {
    var n := c as int;
    TwoBytes(0xC0 + n / 0x40, 0x80 + n % 0x40, x);
  }

  lemma DecodeThree(c: char, x: string)
    requires !IsPlain(c) && 0x800 <= c as int < 0x10000
    ensures DecodeHead(EncodeChar(c) + x) == (c as int, |EncodeChar(c)|)
  {
    var n := c as int;
    var a, b, d := 0xE0 + n / 0x1000, 0x80 + n / 0x40 % 0x40, 0x80 + n % 0x40;
    JoinThree(n);
    ThreeBytes(a, b, d, x);
    DecodeByLength(EncodeByte(a) + (EncodeByte(b) + EncodeByte(d)) + x, a, b, d, 0);
  }

  lemma DecodeFour(c: char, x: string)
    requires !IsPlain(c) && 0x10000 <= c as int
    ensures DecodeHead(EncodeChar(c) + x) == (c as int, |EncodeChar(c)|)
  {
    var n := c as int;
    var a, b, d, e := 0xF0 + n / 0x40000, 0x80 + n / 0x1000 % 0x40, 0x80 + n / 0x40 % 0x40, 0x80 + n % 0x40;
    JoinFour(n);
    FourBytes(a, b, d, e, x);
    DecodeByLength(EncodeByte(a) + (EncodeByte(b) + (EncodeByte(d) + EncodeByte(e))) + x, a, b, d, e);
  }

  lemma DecodeByLength(s: string, a: nat, b: nat, c: nat, d: nat)
    requires |s| >= 9 && s[0] == '%' && ByteAt(s, 0) == a && ByteAt(s, 3) == b && ByteAt(s, 6) == c
    ensures 0xE0 <= a < 0xF0 ==> DecodeHead(s) == (Join3(a, b, c), 9)
    ensures a >= 0xF0 && |s| >= 12 && ByteAt(s, 9) == d ==> DecodeHead(s) == (Join4(a, b, c, d), 12)
  {
  }

  /** Decoding reads back the character that was encoded, whatever follows it. */
  lemma DecodeInverts(c: char, x: string)
    ensures DecodeHead(EncodeChar(c) + x) == (c as int, |EncodeChar(c)|)
  {
    var n := c as int;
    if !IsPlain(c) {
      if n < 0x80 {
        ByteIsRead(n, x);
      } else if n < 0x800 {
        DecodeTwo(c, x);
      } else if n < 0x10000 {
        DecodeThree(c, x);
      } else {
        DecodeFour(c, x);
      }
    }
  }

  lemma {:induction false} EncodingIsInjective(s: string, t: string)
    requires EncodePart(s) == EncodePart(t)
    ensures s == t
  {
    if s != "" {
      DecodeInverts(s[0], EncodePart(s[1..]));
    }
    if t != "" {
      DecodeInverts(t[0], EncodePart(t[1..]));
    }
    if s != "" && t != "" {
      var n := |EncodeChar(s[0])|;
      assert s[0] as int == t[0] as int;
      assert EncodePart(s)[n..] == EncodePart(s[1..]) && EncodePart(t)[n..] == EncodePart(t[1..]);
      EncodingIsInjective(s[1..], t[1..]);
      assert s == [s[0]] + s[1..] && t == [t[0]] + t[1..];
    }
  }

  lemma ByteHasNoColon(b: nat)
    requires b < 256
    ensures ':' !in EncodeByte(b)
  {
  }

  lemma CharHasNoColon(c: char)
    ensures ':' !in EncodeChar(c)
  {
    forall b: nat | b < 256 ensures ':' !in EncodeByte(b) {
      ByteHasNoColon(b);
    }
  }

  lemma {:induction false} EncodingHasNoColon(s: string)
    ensures ':' !in EncodePart(s)
  {
    if s != "" {
      CharHasNoColon(s[0]);
      EncodingHasNoColon(s[1..]);
    }
  }

  // ----- joined parts -----

  /** `parts.join(":")` for a non-empty list. */
  function JoinParts(parts: seq<string>): string
    requires parts != []
  {
    if |parts| == 1 then parts[0] else parts[0] + [':'] + JoinParts(parts[1..])
  }

  ghost predicate NoColons(parts: seq<string>) {
    forall i :: 0 <= i < |parts| ==> ':' !in parts[i]
  }

  lemma ManyPartsHaveColon(parts: seq<string>)
    requires |parts| > 1
    ensures ':' in JoinParts(parts)
  {
    assert JoinParts(parts)[|parts[0]|] == ':';
  }

  lemma {:induction false} JoinIsInjective(a: seq<string>, b: seq<string>)
    requires a != [] && b != [] && NoColons(a) && NoColons(b)
    requires JoinParts(a) == JoinParts(b)
    ensures a == b
  {
    if |a| > 1 && |b| > 1 {
      assert ':' !in a[0] && ':' !in b[0];
      Text.SplitUnique(a[0], JoinParts(a[1..]), b[0], JoinParts(b[1..]), ':');
      assert NoColons(a[1..]) && NoColons(b[1..]);
      JoinIsInjective(a[1..], b[1..]);
      assert a == [a[0]] + a[1..] && b == [b[0]] + b[1..];
    } else {
      assert ':' !in a[0] && ':' !in b[0];
      if |a| > 1 {
        ManyPartsHaveColon(a);
      }
      if |b| > 1 {
        ManyPartsHaveColon(b);
      }
    }
  }

  function EncodeAll(parts: seq<string>): (encoded: seq<string>)
    ensures |encoded| == |parts|
  {
    if parts == [] then [] else [EncodePart(parts[0])] + EncodeAll(parts[1..])
  }

  lemma {:induction false} EncodeAllIsInjective(a: seq<string>, b: seq<string>)
    requires EncodeAll(a) == EncodeAll(b)
    ensures a == b
  {
    if a != [] {
      assert |EncodeAll(a)| == |a| && |EncodeAll(b)| == |b|;
      assert EncodeAll(a)[0] == EncodePart(a[0]) && EncodeAll(b)[0] == EncodePart(b[0]);
      EncodingIsInjective(a[0], b[0]);
      assert EncodeAll(a)[1..] == EncodeAll(a[1..]) && EncodeAll(b)[1..] == EncodeAll(b[1..]);
      EncodeAllIsInjective(a[1..], b[1..]);
      assert a == [a[0]] + a[1..] && b == [b[0]] + b[1..];
    } else {
      assert |EncodeAll(b)| == |b|;
    }
  }

  lemma {:induction false} EncodeAllHasNoColons(parts: seq<string>)
    ensures NoColons(EncodeAll(parts))
  {
    if parts != [] {
      EncodingHasNoColon(parts[0]);
      EncodeAllHasNoColons(parts[1..]);
    }
  }

  // ----- the identity of an event -----

  datatype Input = Input(
    connectorId: string, provider: string, eventType: EventType, leadIdentity: string,
    externalEventId: Option<string>, transactionId: Option<string>, localDate: string)

  datatype IdentityPolicy = ProviderEvent | Transaction | KinboxDaily | KinboxLead

  datatype IdentityError = MissingField | MissingProviderEventIdentity

  function Optional(value: Option<string>): Option<string> {
    if value.None? || Text.Trim(value.value) == "" then None else Some(Text.Trim(value.value))
  }

  predicate IsKinbox(i: Input) {
    i.provider == "kinbox_mysql"
  }

  function TypeName(t: EventType): string {
    match t
    case ConversationStarted => "conversation_started"
    case QualifiedLead => "qualified_lead"
    case Purchase => "purchase"
  }

  function Tag(p: IdentityPolicy): string {
    match p
    case ProviderEvent => "event"
    case Transaction => "transaction"
    case KinboxDaily => "lead-day"
    case KinboxLead => "lead"
  }

  /** The policy an event falls under, and the identifiers it is then known by. */
  function IdentifyBy(i: Input): Result<(IdentityPolicy, seq<string>), IdentityError> {
    var lead := Text.Trim(i.leadIdentity);
    if Text.Trim(i.connectorId) == "" || Text.Trim(i.provider) == "" || lead == "" then Err(MissingField)
    else if Optional(i.externalEventId).Some? then Ok((ProviderEvent, [Optional(i.externalEventId).value]))
    else if i.eventType.Purchase? && Optional(i.transactionId).Some?
    then Ok((Transaction, [Optional(i.transactionId).value]))
    else if IsKinbox(i) && i.eventType.Purchase? then Ok((KinboxDaily, [lead, i.localDate]))
    else if IsKinbox(i) && i.eventType.QualifiedLead? then Ok((KinboxLead, [lead]))
    else Err(MissingProviderEventIdentity)
  }

  function Parts(i: Input, policy: IdentityPolicy, identifiers: seq<string>): seq<string> {
    ["external", Text.Trim(i.connectorId), Text.Trim(i.provider), TypeName(i.eventType), Tag(policy)] + identifiers
  }

  /** The dedupe key of `buildExternalEventIdentity`. */
  function DedupeKey(i: Input): Result<string, IdentityError> {
    match IdentifyBy(i)
    case Err(e) => Err(e)
    case Ok((policy, identifiers)) => Ok(JoinParts(EncodeAll(Parts(i, policy, identifiers))))
  }

  lemma NamesDiffer(t: EventType, u: EventType, p: IdentityPolicy, q: IdentityPolicy)
    ensures TypeName(t) == TypeName(u) ==> t == u
    ensures Tag(p) == Tag(q) ==> p == q
  {
    assert TypeName(ConversationStarted)[0] == 'c' && TypeName(QualifiedLead)[0] == 'q' && TypeName(Purchase)[0] == 'p';
    assert Tag(ProviderEvent)[0] == 'e' && Tag(Transaction)[0] == 't';
    assert |Tag(KinboxDaily)| == 8 && |Tag(KinboxLead)| == 4;
    assert Tag(KinboxDaily)[0] == 'l' && Tag(KinboxLead)[0] == 'l';
  }

  lemma PartsDecide(i: Input, p: IdentityPolicy, a: seq<string>, j: Input, q: IdentityPolicy, b: seq<string>)
    requires Parts(i, p, a) == Parts(j, q, b)
    ensures Text.Trim(i.connectorId) == Text.Trim(j.connectorId) && Text.Trim(i.provider) == Text.Trim(j.provider)
    ensures i.eventType == j.eventType && p == q && a == b
  {
    var x, y := Parts(i, p, a), Parts(j, q, b);
    assert x[1] == y[1] && x[2] == y[2] && x[3] == y[3] && x[4] == y[4];
    assert x[5..] == a && y[5..] == b;
    NamesDiffer(i.eventType, j.eventType, p, q);
  }

  predicate HasText(value: Option<string>) {
    value.Some? && Text.Trim(value.value) != ""
  }

  /**
   * An event has a key if and only if connector, provider and lead are named and it is known by something: by its
   * provider's event id, a purchase by its transaction, and a Kinbox purchase or qualified lead by its lead.
   */
  lemma KeyExistsExactly(i: Input)
    ensures DedupeKey(i).Ok? <==>
              && Text.Trim(i.connectorId) != "" && Text.Trim(i.provider) != "" && Text.Trim(i.leadIdentity) != ""
              && (|| HasText(i.externalEventId)
                  || (i.eventType.Purchase? && HasText(i.transactionId))
                  || (i.provider == "kinbox_mysql" && !i.eventType.ConversationStarted?))
    ensures DedupeKey(i) == Err(MissingField) <==>
              Text.Trim(i.connectorId) == "" || Text.Trim(i.provider) == "" || Text.Trim(i.leadIdentity) == ""
  {
  }

  lemma EqualKeysIdentify(i: Input, j: Input)
    requires DedupeKey(i).Ok? && DedupeKey(i) == DedupeKey(j)
    ensures Text.Trim(i.connectorId) == Text.Trim(j.connectorId) && Text.Trim(i.provider) == Text.Trim(j.provider)
    ensures i.eventType == j.eventType && IdentifyBy(i) == IdentifyBy(j)
  {
    var (p, a) := IdentifyBy(i).value;
    var (q, b) := IdentifyBy(j).value;
    EncodeAllHasNoColons(Parts(i, p, a));
    EncodeAllHasNoColons(Parts(j, q, b));
    JoinIsInjective(EncodeAll(Parts(i, p, a)), EncodeAll(Parts(j, q, b)));
    EncodeAllIsInjective(Parts(i, p, a), Parts(j, q, b));
    PartsDecide(i, p, a, j, q, b);
  }

  /**
   * The event ids are the same if either event has one, else the transactions if either of two purchases has one, else
   * the leads, and for purchases also the local dates; all of them but for surrounding blanks.
   */
  predicate KnownAlike(i: Input, j: Input) {
    if HasText(i.externalEventId) || HasText(j.externalEventId) then
      && HasText(i.externalEventId) && HasText(j.externalEventId)
      && Text.Trim(i.externalEventId.value) == Text.Trim(j.externalEventId.value)
    else if i.eventType.Purchase? && (HasText(i.transactionId) || HasText(j.transactionId)) then
      && HasText(i.transactionId) && HasText(j.transactionId)
      && Text.Trim(i.transactionId.value) == Text.Trim(j.transactionId.value)
    else
      && Text.Trim(i.leadIdentity) == Text.Trim(j.leadIdentity)
      && (i.eventType.Purchase? ==> i.localDate == j.localDate)
  }

  lemma ListsAgree(a: seq<string>, b: seq<string>)
    requires 1 <= |a| <= 2 && |a| == |b|
    ensures a == b <==> a[0] == b[0] && (|a| == 2 ==> a[1] == b[1])
  {
  }

  /** Events of one type are known by the same policy and identifiers exactly when the fields say so. */
  lemma KnownByExactly(i: Input, j: Input)
    requires IdentifyBy(i).Ok? && IdentifyBy(j).Ok? && i.eventType == j.eventType
    ensures IdentifyBy(i) == IdentifyBy(j) <==> KnownAlike(i, j)
  {
    var (p, a) := IdentifyBy(i).value;
    var (q, b) := IdentifyBy(j).value;
    assert 1 <= |a| <= 2 && (p == q ==> |a| == |b|);
    if p == q {
      ListsAgree(a, b);
    }
  }

  /** Two keys are equal if and only if connector, provider and type are the same and the events are known alike. */
  lemma DedupeKeyIsInjective(i: Input, j: Input)
    requires DedupeKey(i).Ok? && DedupeKey(j).Ok?
    ensures DedupeKey(i) == DedupeKey(j) <==>
              && Text.Trim(i.connectorId) == Text.Trim(j.connectorId)
              && Text.Trim(i.provider) == Text.Trim(j.provider)
              && i.eventType == j.eventType
              && KnownAlike(i, j)
  {
    if DedupeKey(i) == DedupeKey(j) {
      EqualKeysIdentify(i, j);
      KnownByExactly(i, j);
    } else if i.eventType == j.eventType && Text.Trim(i.connectorId) == Text.Trim(j.connectorId)
              && Text.Trim(i.provider) == Text.Trim(j.provider) {
      KnownByExactly(i, j);
    }
  }
}
