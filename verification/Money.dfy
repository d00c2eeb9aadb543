/** Reading amounts of money from message text, in Brazilian and US notation. */
module Money {
  import opened Wrappers
  import Text

  const MAX_SAFE_INTEGER: nat := 0x1F_FFFF_FFFF_FFFF

  /**
   * The rounding of double-precision arithmetic on non-negative integers: any monotone function that leaves
   * the exactly representable integers up to 2^53 alone.
   */
  type Rounding = nat -> nat

  ghost predicate IsRounding(round: Rounding) {
    && (forall n: nat :: n <= MAX_SAFE_INTEGER + 1 ==> round(n) == n)
    && (forall m: nat, n: nat :: m <= n ==> round(m) <= round(n))
  }

  // ----- parsing one token -----

  predicate IsLetterS(c: char) {
    c == 's' || c == 'S' || c == '\U{17f}'
  }

  /** Removes `R$`, `US$` and `$`, in either case. */
  function StripSigns(s: string): string {
    if s == "" then ""
    else if |s| >= 2 && (s[0] == 'R' || s[0] == 'r') && s[1] == '$' then StripSigns(s[2..])
    else if |s| >= 3 && (s[0] == 'U' || s[0] == 'u') && IsLetterS(s[1]) && s[2] == '$' then StripSigns(s[3..])
    else if s[0] == '$' then StripSigns(s[1..])
    else [s[0]] + StripSigns(s[1..])
  }

  function StripSpaces(s: string): string {
    if s == "" then ""
    else if Text.IsSpace(s[0]) then StripSpaces(s[1..])
    else [s[0]] + StripSpaces(s[1..])
  }

  /** Removes `.` and `,`. */
  function StripSeparators(s: string): string {
    if s == "" then ""
    else if s[0] == '.' || s[0] == ',' then StripSeparators(s[1..])
    else [s[0]] + StripSeparators(s[1..])
  }

  /** `String.prototype.lastIndexOf` for one character. */
  function LastIndexOf(s: string, c: char): (i: int)
    ensures -1 <= i < |s|
    ensures i >= 0 ==> s[i] == c
    ensures forall j :: i < j < |s| ==> s[j] != c
  {
    if s == "" then -1 else if s[|s| - 1] == c then |s| - 1 else LastIndexOf(s[..|s| - 1], c)
  }

  /** The number written by a string of digits. */
  function DigitsValue(s: string): nat
    requires Text.AllDigits(s)
  {
    if s == "" then 0 else DigitsValue(s[..|s| - 1]) * 10 + (s[|s| - 1] as int - '0' as int)
  }

  function Whole(s: string, separator: char): string {
    var i := Text.IndexOf(s, separator);
    if i < 0 then s else s[..i]
  }

  function Decimals(s: string, separator: char): Option<string> {
    var i := Text.IndexOf(s, separator);
    if i < 0 then None else Some(Whole(s[i + 1..], separator))
  }

  /** `parseMoneyToken`. */
  function ParseToken(round: Rounding, token: string): Option<nat> {
    var normalized := StripSpaces(StripSigns(token));
    var separator := if LastIndexOf(normalized, ',') > LastIndexOf(normalized, '.') then ',' else '.';
    var whole := Whole(normalized, separator);
    var decimals := Decimals(normalized, separator);
    if whole == "" || decimals.None? || |decimals.value| != 2 || !Text.AllDigits(decimals.value) then None
    else
      var digits := StripSeparators(whole);
      if digits == "" || !Text.AllDigits(digits) then None
      else SafeCents(round, DigitsValue(digits), DigitsValue(decimals.value))
  }

  /** The amount in cents as computed in double precision, if it is positive and a safe integer. */
  function SafeCents(round: Rounding, whole: nat, decimals: nat): Option<nat> {
    var cents := round(round(round(whole) * 100) + decimals);
    if 0 < cents <= MAX_SAFE_INTEGER then Some(cents) else None
  }

  // ----- the token grammar -----

  predicate AllSpaces(s: string) {
    forall i :: 0 <= i < |s| ==> Text.IsSpace(s[i])
  }

  datatype Notation = Brazilian | American

  function DecimalMark(n: Notation): char {
    if n.Brazilian? then ',' else '.'
  }

  function GroupMark(n: Notation): char {
    if n.Brazilian? then '.' else ','
  }

  /** `R$` for the Brazilian notation, `US$` or `$` for the American one, or no sign; blanks may follow a sign. */
  predicate IsSign(n: Notation, sign: string) {
    || sign == ""
    || (n.Brazilian? && |sign| >= 2 && (sign[0] == 'R' || sign[0] == 'r') && sign[1] == '$' && AllSpaces(sign[2..]))
    || (n.American? && |sign| >= 3 && (sign[0] == 'U' || sign[0] == 'u') && IsLetterS(sign[1]) && sign[2] == '$'
        && AllSpaces(sign[3..]))
    || (n.American? && sign[0] == '$' && AllSpaces(sign[1..]))
  }

  /** Groups of three digits, each preceded by the group mark. */
  predicate IsGroups(s: string, mark: char)
    decreases |s|
  {
    s == "" || (|s| >= 4 && s[0] == mark && Text.AllDigits(s[1..4]) && IsGroups(s[4..], mark))
  }

  /** One or more digits, or one to three digits and then at least one group. */
  predicate IsWhole(n: Notation, s: string) {
    || (s != "" && Text.AllDigits(s))
    || exists k :: 1 <= k <= 3 && k < |s| && Text.AllDigits(s[..k]) && IsGroups(s[k..], GroupMark(n))
  }

  predicate IsToken(n: Notation, sign: string, whole: string, decimals: string) {
    IsSign(n, sign) && IsWhole(n, whole) && |decimals| == 2 && Text.AllDigits(decimals)
  }

  function Token(n: Notation, sign: string, whole: string, decimals: string): string {
    sign + (whole + ([DecimalMark(n)] + decimals))
  }

  // ----- what a token parses to -----

  predicate IsAmountText(s: string) {
    forall i :: 0 <= i < |s| ==> Text.IsDigit(s[i]) || s[i] == '.' || s[i] == ','
  }

  lemma {:induction false} AmountTextIsKept(s: string)
    requires IsAmountText(s)
    ensures StripSigns(s) == s && StripSpaces(s) == s
  {
    if s != "" {
      assert s == [s[0]] + s[1..];
      AmountTextIsKept(s[1..]);
    }
  }

  lemma {:induction false} SpacesAreStripped(blanks: string, s: string)
    requires AllSpaces(blanks) && IsAmountText(s)
    ensures StripSpaces(StripSigns(blanks + s)) == s
  {
    if blanks == "" {
      assert blanks + s == s;
      AmountTextIsKept(s);
    } else {
      assert (blanks + s)[1..] == blanks[1..] + s;
      SpacesAreStripped(blanks[1..], s);
      assert StripSigns(blanks + s) == [blanks[0]] + StripSigns(blanks[1..] + s);
    }
  }

  /** Cleaning a token removes exactly its sign. */
  lemma SignIsStripped(n: Notation, sign: string, s: string)
    requires IsSign(n, sign) && IsAmountText(s)
    ensures StripSpaces(StripSigns(sign + s)) == s
  {
    if sign == "" {
      assert sign + s == s;
      AmountTextIsKept(s);
    } else if n.Brazilian? {
      RealIsStripped(sign, s);
    } else {
      DollarIsStripped(sign, s);
    }
  }

  lemma RealIsStripped(sign: string, s: string)
    requires |sign| >= 2 && (sign[0] == 'R' || sign[0] == 'r') && sign[1] == '$' && AllSpaces(sign[2..])
    requires IsAmountText(s)
    ensures StripSpaces(StripSigns(sign + s)) == s
  {
    assert (sign + s)[2..] == sign[2..] + s;
    SpacesAreStripped(sign[2..], s);
  }

  lemma DollarIsStripped(sign: string, s: string)
    requires sign != "" && IsSign(American, sign) && IsAmountText(s)
    ensures StripSpaces(StripSigns(sign + s)) == s
  {
    if sign[0] == '$' {
      assert (sign + s)[1..] == sign[1..] + s;
      SpacesAreStripped(sign[1..], s);
    } else {
      assert (sign + s)[3..] == sign[3..] + s;
      SpacesAreStripped(sign[3..], s);
    }
  }

  /** Digits and group marks only, at least one digit. */
  predicate IsWholeText(s: string, mark: char) {
    && s != "" && (forall i :: 0 <= i < |s| ==> Text.IsDigit(s[i]) || s[i] == mark)
  }

  lemma StripSeparatorsAppends(a: string, b: string)
    ensures StripSeparators(a + b) == StripSeparators(a) + StripSeparators(b)
  {
    if a == "" {
      assert a + b == b;
    } else {
      assert (a + b)[1..] == a[1..] + b;
      StripSeparatorsAppends(a[1..], b);
    }
  }

  lemma {:induction false} DigitsHaveNoSeparators(s: string)
    requires Text.AllDigits(s)
    ensures StripSeparators(s) == s
  {
    if s != "" {
      assert s == [s[0]] + s[1..];
      DigitsHaveNoSeparators(s[1..]);
    }
  }

  lemma {:induction false} GroupsAreWholeText(s: string, mark: char)
    requires IsGroups(s, mark) && (mark == '.' || mark == ',')
    ensures forall i :: 0 <= i < |s| ==> Text.IsDigit(s[i]) || s[i] == mark
    ensures Text.AllDigits(StripSeparators(s))
    decreases |s|
  {
    if s != "" {
      GroupsAreWholeText(s[4..], mark);
      assert s == s[..4] + s[4..] && s[..4] == [mark] + s[1..4];
      StripSeparatorsAppends(s[..4], s[4..]);
      StripSeparatorsAppends([mark], s[1..4]);
      DigitsHaveNoSeparators(s[1..4]);
    }
  }

  lemma WholeIsWholeText(n: Notation, s: string)
    requires IsWhole(n, s)
    ensures IsWholeText(s, GroupMark(n))
    ensures Text.AllDigits(StripSeparators(s)) && StripSeparators(s) != ""
  {
    if Text.AllDigits(s) {
      DigitsHaveNoSeparators(s);
    } else {
      var k :| 1 <= k <= 3 && k < |s| && Text.AllDigits(s[..k]) && IsGroups(s[k..], GroupMark(n));
      GroupsAreWholeText(s[k..], GroupMark(n));
      DigitsHaveNoSeparators(s[..k]);
      assert s == s[..k] + s[k..];
      StripSeparatorsAppends(s[..k], s[k..]);
    }
  }

  /** The decimal mark is found after the whole part, whatever group marks that holds. */
  lemma AmountSplits(n: Notation, whole: string, decimals: string)
    requires IsWholeText(whole, GroupMark(n)) && |decimals| == 2 && Text.AllDigits(decimals)
    ensures var s := whole + ([DecimalMark(n)] + decimals);
            && IsAmountText(s)
            && (LastIndexOf(s, ',') > LastIndexOf(s, '.') <==> n.Brazilian?)
            && Whole(s, DecimalMark(n)) == whole && Decimals(s, DecimalMark(n)) == Some(decimals)
  {
    var s := whole + ([DecimalMark(n)] + decimals);
    assert s[|whole|] == DecimalMark(n);
    assert s == whole + [DecimalMark(n)] + decimals;
    Text.IndexOfPrefix(whole, DecimalMark(n), decimals);
    assert s[|whole| + 1..] == decimals && s[..|whole|] == whole;
    assert DecimalMark(n) !in decimals;
    assert LastIndexOf(s, DecimalMark(n)) == |whole|;
    assert LastIndexOf(s, GroupMark(n)) < |whole|;
  }

  lemma RoundingKeepsBound(round: Rounding, whole: nat, decimals: nat)
    requires IsRounding(round) && decimals < 100
    ensures var exact := whole * 100 + decimals;
            var computed := round(round(round(whole) * 100) + decimals);
            if exact <= MAX_SAFE_INTEGER then computed == exact else computed > MAX_SAFE_INTEGER
  {
    var bound := MAX_SAFE_INTEGER + 1;
    var limit := bound / 100;
    if whole <= limit {
      assert round(whole) == whole;
      if whole * 100 + decimals > MAX_SAFE_INTEGER {
        assert round(whole * 100) == whole * 100;
        assert round(bound) <= round(whole * 100 + decimals);
      }
    } else {
      assert round(limit + 1) <= round(whole);
      assert limit + 1 <= round(whole);
      assert round(bound) <= round(round(whole) * 100);
      assert round(bound) <= round(round(round(whole) * 100) + decimals);
    }
  }

  lemma TwoDigitsBelowHundred(s: string)
    requires |s| == 2 && Text.AllDigits(s)
    ensures DigitsValue(s) < 100
  {
    assert s[..1][..0] == "";
    assert DigitsValue(s[..1]) == s[0] as int - '0' as int;
  }

  /** A token of the grammar parses to its amount, or to nothing exactly when that is zero or above 2^53 - 1. */
  lemma TokenParses(round: Rounding, n: Notation, sign: string, whole: string, decimals: string)
    requires IsRounding(round) && IsToken(n, sign, whole, decimals)
    ensures Text.AllDigits(StripSeparators(whole))
    ensures var amount := DigitsValue(StripSeparators(whole)) * 100 + DigitsValue(decimals);
            ParseToken(round, Token(n, sign, whole, decimals))
            == if 0 < amount <= MAX_SAFE_INTEGER then Some(amount) else None
  {
    WholeIsWholeText(n, whole);
    AmountSplits(n, whole, decimals);
    SignIsStripped(n, sign, whole + ([DecimalMark(n)] + decimals));
    TwoDigitsBelowHundred(decimals);
    ParsedParts(round, Token(n, sign, whole, decimals), DecimalMark(n), whole, decimals);
    SafeCentsAreExact(round, DigitsValue(StripSeparators(whole)), DigitsValue(decimals));
  }

  lemma ParsedParts(round: Rounding, token: string, mark: char, whole: string, decimals: string)
    requires whole != "" && StripSeparators(whole) != "" && Text.AllDigits(StripSeparators(whole))
    requires |decimals| == 2 && Text.AllDigits(decimals)
    requires var s := StripSpaces(StripSigns(token));
             && mark == (if LastIndexOf(s, ',') > LastIndexOf(s, '.') then ',' else '.')
             && Whole(s, mark) == whole && Decimals(s, mark) == Some(decimals)
    ensures ParseToken(round, token) == SafeCents(round, DigitsValue(StripSeparators(whole)), DigitsValue(decimals))
  {
  }

  lemma SafeCentsAreExact(round: Rounding, whole: nat, decimals: nat)
    requires IsRounding(round) && decimals < 100
    ensures var amount := whole * 100 + decimals;
            SafeCents(round, whole, decimals) == if 0 < amount <= MAX_SAFE_INTEGER then Some(amount) else None
  {
    RoundingKeepsBound(round, whole, decimals);
  }

  // ----- rendering an amount -----

  /** Groups of three digits from the right. */
  function Grouped(digits: string, mark: char): string
    decreases |digits|
  {
    if |digits| <= 3 then digits
    else Grouped(digits[..|digits| - 3], mark) + ([mark] + digits[|digits| - 3..])
  }

  function TwoDigits(n: nat): string
    requires n < 100
  {
    [Text.DigitChar(n / 10), Text.DigitChar(n % 10)]
  }

  function RenderedWhole(n: Notation, grouped: bool, amount: nat): string {
    if grouped then Grouped(Text.Digits(amount), GroupMark(n)) else Text.Digits(amount)
  }

  /** An amount of cents as a person writes it. */
  function Render(n: Notation, sign: string, grouped: bool, cents: nat): string {
    Token(n, sign, RenderedWhole(n, grouped, cents / 100), TwoDigits(cents % 100))
  }

  lemma {:induction false} DigitsValueOfDigits(n: nat)
    ensures Text.AllDigits(Text.Digits(n)) && DigitsValue(Text.Digits(n)) == n
  {
    Text.DigitsAreDigits(n);
    if n >= 10 {
      DigitsValueOfDigits(n / 10);
      var s := Text.Digits(n);
      assert s[..|s| - 1] == Text.Digits(n / 10);
    } else {
      assert Text.Digits(n)[..0] == "";
    }
  }

  lemma TwoDigitsValue(n: nat)
    requires n < 100
    ensures Text.AllDigits(TwoDigits(n)) && DigitsValue(TwoDigits(n)) == n
  {
    var s := TwoDigits(n);
    assert s[..1][..0] == "" && s[..1][0] == s[0];
    assert DigitsValue(s[..1]) == n / 10;
  }

  lemma {:induction false} GroupsAppend(s: string, mark: char, t: string)
    requires IsGroups(s, mark) && |t| == 3 && Text.AllDigits(t)
    ensures IsGroups(s + ([mark] + t), mark)
    decreases |s|
  {
    var whole := s + ([mark] + t);
    if s == "" {
      assert whole == [mark] + t;
      assert whole[1..4] == t && whole[4..] == "";
    } else {
      assert whole[1..4] == s[1..4];
      assert whole[4..] == s[4..] + ([mark] + t);
      GroupsAppend(s[4..], mark, t);
    }
  }

  ghost predicate IsGroupedWhole(s: string, mark: char) {
    exists k :: 1 <= k <= 3 && k <= |s| && Text.AllDigits(s[..k]) && IsGroups(s[k..], mark)
  }

  lemma StripsGroup(g: string, front: string, mark: char, back: string)
    requires StripSeparators(g) == front && Text.AllDigits(back) && (mark == '.' || mark == ',')
    ensures StripSeparators(g + ([mark] + back)) == front + back
  {
    StripSeparatorsAppends(g, [mark] + back);
    StripSeparatorsAppends([mark], back);
    DigitsHaveNoSeparators(back);
    assert StripSeparators([mark]) == "";
  }

  lemma {:induction false} GroupedStrips(digits: string, mark: char)
    requires Text.AllDigits(digits) && (mark == '.' || mark == ',')
    ensures StripSeparators(Grouped(digits, mark)) == digits
    decreases |digits|
  {
    if |digits| <= 3 {
      DigitsHaveNoSeparators(digits);
    } else {
      var front, back := digits[..|digits| - 3], digits[|digits| - 3..];
      GroupedStrips(front, mark);
      StripsGroup(Grouped(front, mark), front, mark, back);
      assert digits == front + back;
    }
  }

  lemma GroupedWholeGrows(g: string, mark: char, back: string)
    requires IsGroupedWhole(g, mark) && |back| == 3 && Text.AllDigits(back)
    ensures IsGroupedWhole(g + ([mark] + back), mark)
  {
    var k :| 1 <= k <= 3 && k <= |g| && Text.AllDigits(g[..k]) && IsGroups(g[k..], mark);
    var s := g + ([mark] + back);
    GroupsAppend(g[k..], mark, back);
    assert s[..k] == g[..k] && s[k..] == g[k..] + ([mark] + back);
  }

  lemma {:induction false} GroupedIsGrouped(digits: string, mark: char)
    requires digits != "" && Text.AllDigits(digits)
    ensures IsGroupedWhole(Grouped(digits, mark), mark)
    decreases |digits|
  {
    if |digits| <= 3 {
      assert digits[..|digits|] == digits && digits[|digits|..] == "";
    } else {
      GroupedIsGrouped(digits[..|digits| - 3], mark);
      GroupedWholeGrows(Grouped(digits[..|digits| - 3], mark), mark, digits[|digits| - 3..]);
    }
  }

  lemma GroupedWholeIsWhole(n: Notation, s: string)
    requires IsGroupedWhole(s, GroupMark(n))
    ensures IsWhole(n, s)
  {
    var k :| 1 <= k <= 3 && k <= |s| && Text.AllDigits(s[..k]) && IsGroups(s[k..], GroupMark(n));
    if k == |s| {
      assert s[..k] == s;
    }
  }

  lemma RenderedWholeValue(n: Notation, grouped: bool, amount: nat)
    ensures var whole := RenderedWhole(n, grouped, amount);
            IsWhole(n, whole) && StripSeparators(whole) == Text.Digits(amount)
  {
    var digits := Text.Digits(amount);
    Text.DigitsAreDigits(amount);
    if grouped {
      GroupedIsGrouped(digits, GroupMark(n));
      GroupedWholeIsWhole(n, Grouped(digits, GroupMark(n)));
      GroupedStrips(digits, GroupMark(n));
    } else {
      DigitsHaveNoSeparators(digits);
    }
  }

  /** Every rendering of an amount between 1 cent and 2^53 - 1 cents parses back to it. */
  lemma RenderParses(round: Rounding, n: Notation, sign: string, grouped: bool, cents: nat)
    requires IsRounding(round) && IsSign(n, sign) && 0 < cents <= MAX_SAFE_INTEGER
    ensures ParseToken(round, Render(n, sign, grouped, cents)) == Some(cents)
  {
    var whole, decimals := RenderedWhole(n, grouped, cents / 100), TwoDigits(cents % 100);
    RenderedWholeValue(n, grouped, cents / 100);
    DigitsValueOfDigits(cents / 100);
    TwoDigitsValue(cents % 100);
    TokenAmount(round, n, sign, whole, decimals, cents);
  }

  lemma TokenAmount(round: Rounding, n: Notation, sign: string, whole: string, decimals: string, cents: nat)
    requires IsRounding(round) && IsToken(n, sign, whole, decimals) && Text.AllDigits(StripSeparators(whole))
    requires DigitsValue(StripSeparators(whole)) * 100 + DigitsValue(decimals) == cents && 0 < cents <= MAX_SAFE_INTEGER
    ensures ParseToken(round, Token(n, sign, whole, decimals)) == Some(cents)
  {
    TokenParses(round, n, sign, whole, decimals);
  }

  // ----- the single amount of a message -----

  type Tokenizer = string -> seq<string>

  /** The amounts of one line, in order. */
  function LineAmounts(round: Rounding, found: seq<string>): seq<nat> {
    if found == [] then []
    else
      var v := ParseToken(round, found[0]);
      (if v.Some? then [v.value] else []) + LineAmounts(round, found[1..])
  }

  /** The amounts of the lines from `start` on that are not excluded, in order. */
  function Amounts(round: Rounding, tokens: Tokenizer, lines: seq<string>, excluded: set<nat>, start: nat): seq<nat>
    requires start <= |lines|
    decreases |lines| - start
  {
    if start == |lines| then []
    else (if start in excluded then [] else LineAmounts(round, tokens(lines[start])))
         + Amounts(round, tokens, lines, excluded, start + 1)
  }

  /** The one value a sequence repeats. */
  function OnlyValue(values: seq<nat>): Option<nat> {
    if values != [] && forall i :: 0 <= i < |values| ==> values[i] == values[0] then Some(values[0]) else None
  }

  function ObservedPayment(round: Rounding, tokens: Tokenizer, lines: seq<string>, excluded: set<nat>): Option<nat> {
    OnlyValue(Amounts(round, tokens, lines, excluded, 0))
  }

  /** Some line that is not excluded carries a token worth `v`. */
  ghost predicate Carries(round: Rounding, found: seq<string>, v: nat) {
    exists j :: 0 <= j < |found| && ParseToken(round, found[j]) == Some(v)
  }

  ghost predicate IsObserved(round: Rounding, tokens: Tokenizer, lines: seq<string>, excluded: set<nat>, start: nat,
                             v: nat)
  {
    exists i :: start <= i < |lines| && i !in excluded && Carries(round, tokens(lines[i]), v)
  }

  lemma {:induction false} LineAmountsAreCarried(round: Rounding, found: seq<string>, v: nat)
    ensures v in LineAmounts(round, found) <==> Carries(round, found, v)
  {
    if found != [] {
      LineAmountsAreCarried(round, found[1..], v);
      if Carries(round, found[1..], v) {
        var j :| 0 <= j < |found[1..]| && ParseToken(round, found[1..][j]) == Some(v);
        assert ParseToken(round, found[j + 1]) == Some(v);
      }
      if Carries(round, found, v) {
        var j :| 0 <= j < |found| && ParseToken(round, found[j]) == Some(v);
        assert j > 0 ==> found[1..][j - 1] == found[j];
      }
    }
  }

  lemma {:induction false} AmountsAreObserved(
    round: Rounding, tokens: Tokenizer, lines: seq<string>, excluded: set<nat>, start: nat, v: nat)
    requires start <= |lines|
    ensures v in Amounts(round, tokens, lines, excluded, start)
            <==> IsObserved(round, tokens, lines, excluded, start, v)
    decreases |lines| - start
  {
    if start < |lines| {
      LineAmountsAreCarried(round, tokens(lines[start]), v);
      AmountsAreObserved(round, tokens, lines, excluded, start + 1, v);
      if IsObserved(round, tokens, lines, excluded, start, v) {
        var i :| start <= i < |lines| && i !in excluded && Carries(round, tokens(lines[i]), v);
        assert i == start || IsObserved(round, tokens, lines, excluded, start + 1, v);
      }
      if IsObserved(round, tokens, lines, excluded, start + 1, v) {
        var i :| start + 1 <= i < |lines| && i !in excluded && Carries(round, tokens(lines[i]), v);
      }
    }
  }

  /** A payment value is observed exactly when the lines outside the items carry one distinct amount. */
  lemma ObservedExactly(round: Rounding, tokens: Tokenizer, lines: seq<string>, excluded: set<nat>, v: nat)
    ensures ObservedPayment(round, tokens, lines, excluded) == Some(v) <==>
            && IsObserved(round, tokens, lines, excluded, 0, v)
            && forall u :: IsObserved(round, tokens, lines, excluded, 0, u) ==> u == v
  {
    var values := Amounts(round, tokens, lines, excluded, 0);
    forall u ensures u in values <==> IsObserved(round, tokens, lines, excluded, 0, u) {
      AmountsAreObserved(round, tokens, lines, excluded, 0, u);
    }
    OnlyValueExactly(values, v);
  }

  lemma OnlyValueExactly(values: seq<nat>, v: nat)
    ensures OnlyValue(values) == Some(v) <==> v in values && forall u :: u in values ==> u == v
  {
    assert forall i :: 0 <= i < |values| ==> values[i] in values;
  }

  lemma OnlyValueIsSingleton(values: set<nat>, seen: seq<nat>)
    requires forall v :: v in values <==> v in seen
    ensures OnlyValue(seen).Some? <==> |values| == 1
    ensures OnlyValue(seen).Some? ==> values == {OnlyValue(seen).value}
  {
    if OnlyValue(seen).Some? {
      assert values == {seen[0]};
    }
    if |values| == 1 {
      var v :| v in values;
      assert |values - {v}| == 0;
      assert values == {v};
      assert forall i :: 0 <= i < |seen| ==> seen[i] in values;
    }
  }

  /** Adds the amounts of one line to the distinct values seen so far. */
  method AddAmounts(round: Rounding, found: seq<string>, values: set<nat>) returns (more: set<nat>)
    ensures forall v :: v in more <==> v in values || v in LineAmounts(round, found)
  {
    more := values;
    var j := 0;
    while j < |found|
      invariant j <= |found|
      invariant forall v ::
                  v in more || v in LineAmounts(round, found[j..]) <==> v in values || v in LineAmounts(round, found)
    {
      assert found[j..][0] == found[j] && found[j..][1..] == found[j + 1..];
      var v := ParseToken(round, found[j]);
      if v.Some? {
        more := more + {v.value};
      }
      j := j + 1;
    }
  }

  /** The values seen so far and those still to come are all there are. */
  ghost predicate Accounted(values: set<nat>, rest: seq<nat>, whole: seq<nat>) {
    forall v :: v in values || v in rest <==> v in whole
  }

  lemma AccountedStep(values: set<nat>, more: set<nat>, line: seq<nat>, rest: seq<nat>, whole: seq<nat>)
    requires Accounted(values, line + rest, whole) && forall v :: v in more <==> v in values || v in line
    ensures Accounted(more, rest, whole)
  {
    forall v ensures v in more || v in rest <==> v in whole {
      assert v in line + rest <==> v in line || v in rest;
    }
  }

  /** The first i lines are scanned: their amounts are the values seen. */
  ghost predicate Scanned(round: Rounding, tokens: Tokenizer, lines: seq<string>, excluded: set<nat>, i: nat,
                          values: set<nat>)
  {
    && i <= |lines|
    && Accounted(values, Amounts(round, tokens, lines, excluded, i), Amounts(round, tokens, lines, excluded, 0))
  }

  lemma ScannedAll(round: Rounding, tokens: Tokenizer, lines: seq<string>, excluded: set<nat>, values: set<nat>)
    requires Scanned(round, tokens, lines, excluded, |lines|, values)
    ensures forall v :: v in values <==> v in Amounts(round, tokens, lines, excluded, 0)
  {
  }

  lemma AccountedLine(
    round: Rounding, tokens: Tokenizer, lines: seq<string>, excluded: set<nat>, i: nat, values: set<nat>,
    more: set<nat>)
    requires i < |lines| && Scanned(round, tokens, lines, excluded, i, values)
    requires if i in excluded then more == values
             else forall v :: v in more <==> v in values || v in LineAmounts(round, tokens(lines[i]))
    ensures Scanned(round, tokens, lines, excluded, i + 1, more)
  {
    AccountedStep(values, more, if i in excluded then [] else LineAmounts(round, tokens(lines[i])),
                  Amounts(round, tokens, lines, excluded, i + 1), Amounts(round, tokens, lines, excluded, 0));
  }

  /** `observedPaymentValue`: one pass over the lines, collecting the distinct amounts. */
  method ObservedPaymentValue(round: Rounding, tokens: Tokenizer, lines: seq<string>, excluded: set<nat>)
    returns (observed: Option<nat>)
    ensures observed == ObservedPayment(round, tokens, lines, excluded)
  {
    var values: set<nat> := {};
    var i := 0;
    while i < |lines|
      invariant Scanned(round, tokens, lines, excluded, i, values)
    {
      var more := values;
      if i !in excluded {
        more := AddAmounts(round, tokens(lines[i]), values);
      }
      AccountedLine(round, tokens, lines, excluded, i, values, more);
      values := more;
      i := i + 1;
    }
    ScannedAll(round, tokens, lines, excluded, values);
    observed := Only(values, Amounts(round, tokens, lines, excluded, 0));
  }

  /** The element of a one-element set. */
  method Only(values: set<nat>, ghost seen: seq<nat>) returns (only: Option<nat>)
    requires forall v :: v in values <==> v in seen
    ensures only == OnlyValue(seen)
  {
    OnlyValueIsSingleton(values, seen);
    if |values| == 1 {
      var v :| v in values;
      return Some(v);
    }
    only := None;
  }
}
