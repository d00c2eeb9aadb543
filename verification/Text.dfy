/** The string operations the conversion code relies on, over sequences of Unicode scalar values. */
module Text {

  /** The characters removed by `String.prototype.trim`, which are also those of `\s`. */
  predicate IsSpace(c: char) {
    || '\t' <= c <= '\r'
    || c == ' ' || c == '\U{a0}' || c == '\U{1680}'
    || '\U{2000}' <= c <= '\U{200a}'
    || c == '\U{2028}' || c == '\U{2029}' || c == '\U{202f}' || c == '\U{205f}'
    || c == '\U{3000}' || c == '\U{feff}'
  }

  predicate IsDigit(c: char) {
    '0' <= c <= '9'
  }

  predicate AllDigits(s: string) {
    forall i :: 0 <= i < |s| ==> IsDigit(s[i])
  }

  function TrimLeft(s: string): string {
    if s != "" && IsSpace(s[0]) then TrimLeft(s[1..]) else s
  }

  function TrimRight(s: string): string {
    if s != "" && IsSpace(s[|s| - 1]) then TrimRight(s[..|s| - 1]) else s
  }

  function Trim(s: string): string {
    TrimRight(TrimLeft(s))
  }

  /** A string with no blank at either end. */
  predicate Trimmed(s: string) {
    s != "" ==> !IsSpace(s[0]) && !IsSpace(s[|s| - 1])
  }

  lemma TrimLeftStart(s: string)
    ensures var t := TrimLeft(s); t != "" ==> !IsSpace(t[0])
  {
  }

  lemma TrimRightEnd(s: string)
    ensures var t := TrimRight(s); t <= s && (t != "" ==> !IsSpace(t[|t| - 1]))
  {
  }

  lemma TrimIsTrimmed(s: string)
    ensures Trimmed(Trim(s))
  {
    TrimLeftStart(s);
    TrimRightEnd(TrimLeft(s));
  }

  lemma TrimOfPadded(pad: string, s: string)
    requires forall i :: 0 <= i < |pad| ==> IsSpace(pad[i])
    requires Trimmed(s)
    ensures Trim(pad + s) == s
  {
    if pad == "" {
      assert pad + s == s;
    } else {
      assert (pad + s)[1..] == pad[1..] + s;
      TrimOfPadded(pad[1..], s);
    }
  }

  /** `String.prototype.indexOf` for one character; None stands for -1. */
  function IndexOf(s: string, c: char): (i: int)
    ensures -1 <= i < |s|
    ensures i == -1 <==> c !in s
    ensures i >= 0 ==> s[i] == c && c !in s[..i]
  {
    if s == "" then -1
    else if s[0] == c then 0
    else
      var rest := IndexOf(s[1..], c);
      if rest < 0 then -1 else assert s[..rest + 1] == [s[0]] + s[1..][..rest]; rest + 1
  }

  lemma IndexOfPrefix(a: string, c: char, b: string)
    requires c !in a
    ensures IndexOf(a + [c] + b, c) == |a|
  {
    var s := a + [c] + b;
    assert s[|a|] == c;
    assert forall j :: 0 <= j < |a| ==> s[j] == a[j];
  }

  /** A separator splits a string at its first occurrence in only one way. */
  lemma SplitUnique(a: string, x: string, b: string, y: string, c: char)
    requires c !in a && c !in b
    requires a + [c] + x == b + [c] + y
    ensures a == b && x == y
  {
    IndexOfPrefix(a, c, x);
    IndexOfPrefix(b, c, y);
    var s := a + [c] + x;
    assert a == s[..|a|] && b == s[..|b|];
    assert x == s[|a| + 1..] && y == s[|b| + 1..];
  }

  function Join(parts: seq<string>, separator: string): string {
    if parts == [] then ""
    else if |parts| == 1 then parts[0]
    else parts[0] + separator + Join(parts[1..], separator)
  }

  /** `s.slice(0, n)`. */
  function Truncate(s: string, n: nat): string {
    if |s| <= n then s else s[..n]
  }

  /** `haystack.includes(needle)`. */
  predicate Includes(haystack: string, needle: string) {
    exists i :: 0 <= i <= |haystack| - |needle| && haystack[i..][..|needle|] == needle
  }

  function DigitChar(n: nat): (c: char)
    requires n < 10
    ensures IsDigit(c) && c as int - '0' as int == n
  {
    ('0' as int + n) as char
  }

  /** The decimal digits of a number. */
  function Digits(n: nat): string {
    if n < 10 then [DigitChar(n)] else Digits(n / 10) + [DigitChar(n % 10)]
  }

  lemma {:induction false} DigitsAreDigits(n: nat)
    ensures Digits(n) != "" && AllDigits(Digits(n)) && IsDigit(Digits(n)[|Digits(n)| - 1])
  {
    if n >= 10 {
      DigitsAreDigits(n / 10);
    }
  }

  lemma {:induction false} DigitsInjective(m: nat, n: nat)
    requires Digits(m) == Digits(n)
    ensures m == n
  {
    DigitsAreDigits(m / 10);
    DigitsAreDigits(n / 10);
    var last := |Digits(m)| - 1;
    assert Digits(m)[last] == DigitChar(m % 10);
    assert Digits(n)[last] == DigitChar(n % 10);
    if m >= 10 && n >= 10 {
      assert Digits(m / 10) == Digits(m)[..last];
      assert Digits(n / 10) == Digits(n)[..last];
      DigitsInjective(m / 10, n / 10);
    }
  }

  lemma Overlap(p: string, x: string, q: string, y: string)
    requires p + x == q + y && |q| < |p| && AllDigits(p)
    ensures y != "" && IsDigit(y[0])
  {
    assert y == (p + x)[|q|..];
    assert y[0] == p[|q|];
  }

  /** Digits followed by something else can be read back in only one way. */
  lemma DigitsUnique(m: nat, x: string, n: nat, y: string)
    requires Digits(m) + x == Digits(n) + y
    requires x != "" ==> !IsDigit(x[0])
    requires y != "" ==> !IsDigit(y[0])
    ensures m == n && x == y
  {
    DigitsAreDigits(m);
    DigitsAreDigits(n);
    var s := Digits(m) + x;
    assert s[..|Digits(m)|] == Digits(m) && s[..|Digits(n)|] == Digits(n);
    if |Digits(m)| < |Digits(n)| {
      Overlap(Digits(n), y, Digits(m), x);
    } else if |Digits(n)| < |Digits(m)| {
      Overlap(Digits(m), x, Digits(n), y);
    }
    DigitsInjective(m, n);
    assert x == s[|Digits(m)|..] && y == s[|Digits(n)|..];
  }
}
