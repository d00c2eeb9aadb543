/** The canonical JSON text that decision fingerprints and engine comparisons are computed from. */
module StableJson {
  import Text

  datatype Field = Field(key: string, value: Json)

  /** A JavaScript value as the fingerprint sees it; numbers are integers. */
  datatype Json =
    | Undefined | Null | Bool(b: bool) | Number(n: int) | Str(s: string)
    | List(items: seq<Json>) | Record(fields: seq<Field>)

  /** Objects have one value per key, at every depth. */
  predicate WellFormed(v: Json) {
    match v
    case List(items) => forall i :: 0 <= i < |items| ==> WellFormed(items[i])
    case Record(fields) =>
      && (forall i :: 0 <= i < |fields| ==> WellFormed(fields[i].value))
      && (forall i, j :: 0 <= i < j < |fields| ==> fields[i].key != fields[j].key)
    case _ => true
  }

  /** Equal up to the order of object keys, undefined counting as null. */
  ghost predicate Same(v: Json, w: Json)
    decreases v
  {
    match v
    case Undefined | Null => w.Undefined? || w.Null?
    case List(items) =>
      w.List? && |w.items| == |items| && forall i :: 0 <= i < |items| ==> Same(items[i], w.items[i])
    case Record(fields) =>
      w.Record? && EachMatched(fields, w.fields) && EachMatches(fields, w.fields)
    case _ => v == w
  }

  ghost predicate SameField(f: Field, g: Field)
    decreases f
  {
    f.key == g.key && Same(f.value, g.value)
  }

  ghost predicate EachMatched(f: seq<Field>, g: seq<Field>)
    decreases f
  {
    forall i :: 0 <= i < |f| ==> exists j :: 0 <= j < |g| && SameField(f[i], g[j])
  }

  ghost predicate EachMatches(f: seq<Field>, g: seq<Field>)
    decreases f
  {
    forall j :: 0 <= j < |g| ==> exists i :: 0 <= i < |f| && SameField(f[i], g[j])
  }

  // ----- printing -----

  function HexDigit(n: nat): char
    requires n < 16
  {
    "0123456789abcdef"[n]
  }

  /** One character inside a JSON string. */
  function Escaped(c: char): string {
    if c == '"' then "\\\""
    else if c == '\\' then "\\\\"
    else if c == '\U{8}' then "\\b"
    else if c == '\U{c}' then "\\f"
    else if c == '\n' then "\\n"
    else if c == '\r' then "\\r"
    else if c == '\t' then "\\t"
    else if c < ' ' then "\\u00" + [HexDigit(c as int / 16), HexDigit(c as int % 16)]
    else [c]
  }

  function EscapedAll(s: string): string {
    if s == "" then "" else Escaped(s[0]) + EscapedAll(s[1..])
  }

  function Quoted(s: string): string {
    "\"" + (EscapedAll(s) + "\"")
  }

  function Signed(n: int): string {
    if n < 0 then "-" + Text.Digits(-n) else Text.Digits(n)
  }

  /** An entry of an object: its key and its printed value. */
  datatype Entry = Entry(key: string, text: string)

  type Order = (string, string) -> bool

  ghost predicate IsTotalOrder(before: Order) {
    && (forall a, b :: before(a, b) ==> !before(b, a))
    && (forall a, b :: before(a, b) || before(b, a) || a == b)
    && (forall a, b, c :: before(a, b) && before(b, c) ==> before(a, c))
  }

  function Insert(before: Order, e: Entry, entries: seq<Entry>): seq<Entry> {
    if entries == [] || before(e.key, entries[0].key) then [e] + entries
    else [entries[0]] + Insert(before, e, entries[1..])
  }

  function Sort(before: Order, entries: seq<Entry>): seq<Entry> {
    if entries == [] then [] else Insert(before, entries[0], Sort(before, entries[1..]))
  }

  /** `stableJson`; the keys are compared by `before`. Sorting entries by key commutes with printing their values. */
  function Print(before: Order, v: Json): string
    decreases v
  {
    match v
    case Undefined => "null"
    case Null => "null"
    case Bool(b) => if b then "true" else "false"
    case Number(n) => Signed(n)
    case Str(s) => Quoted(s)
    case List(items) => "[" + (PrintItems(before, items) + "]")
    case Record(fields) => "{" + (PrintEntries(Sort(before, Entries(before, fields))) + "}")
  }

  function PrintItems(before: Order, items: seq<Json>): string
    decreases items
  {
    if items == [] then ""
    else if |items| == 1 then Print(before, items[0])
    else Print(before, items[0]) + ("," + PrintItems(before, items[1..]))
  }

  function Entries(before: Order, fields: seq<Field>): (entries: seq<Entry>)
    ensures |entries| == |fields|
    decreases fields
  {
    if fields == [] then []
    else [Entry(fields[0].key, Print(before, fields[0].value))] + Entries(before, fields[1..])
  }

  function PrintEntry(e: Entry): string {
    Quoted(e.key) + (":" + e.text)
  }

  function PrintEntries(entries: seq<Entry>): string {
    if entries == [] then ""
    else if |entries| == 1 then PrintEntry(entries[0])
    else PrintEntry(entries[0]) + ("," + PrintEntries(entries[1..]))
  }

  // ----- strings are read back uniquely -----

  function HexValue(c: char): nat {
    if '0' <= c <= '9' then c as int - '0' as int else if 'a' <= c <= 'f' then c as int - 'a' as int + 10 else 0
  }

  lemma HexRoundTrip(n: nat)
    requires n < 16
    ensures HexValue(HexDigit(n)) == n
  {
  }

  /** The character code a JSON string starts with, and the length of its escape. */
  function Unescaped(s: string): (int, nat) {
    if s == "" then (0, 0)
    else if s[0] != '\\' || |s| == 1 then (s[0] as int, 1)
    else if s[1] == 'b' then (8, 2)
    else if s[1] == 'f' then (12, 2)
    else if s[1] == 'n' then (10, 2)
    else if s[1] == 'r' then (13, 2)
    else if s[1] == 't' then (9, 2)
    else if s[1] == 'u' && |s| >= 6 then (HexValue(s[4]) * 16 + HexValue(s[5]), 6)
    else (s[1] as int, 2)
  }

  lemma UnescapedInverts(c: char, x: string)
    ensures Unescaped(Escaped(c) + x) == (c as int, |Escaped(c)|)
    ensures Escaped(c) != "" && Escaped(c)[0] != '"'
  {
    var s := Escaped(c) + x;
    if c < ' ' {
      HexRoundTrip(c as int / 16);
      HexRoundTrip(c as int % 16);
    }
    assert s[0] == Escaped(c)[0];
    if |Escaped(c)| > 1 {
      assert s[1] == Escaped(c)[1];
    }
    if |Escaped(c)| == 6 {
      assert s[4] == Escaped(c)[4] && s[5] == Escaped(c)[5];
    }
  }

  /** The text of a JSON string after its opening quote. */
  function Body(s: string, x: string): string {
    EscapedAll(s) + ("\"" + x)
  }

  lemma BodyHead(s: string, x: string)
    requires s != ""
    ensures Body(s, x) != "" && Body(s, x)[0] != '"'
    ensures var (c, n) := Unescaped(Body(s, x));
            c == s[0] as int && n <= |Body(s, x)| && Body(s, x)[n..] == Body(s[1..], x)
  {
    var e := Escaped(s[0]);
    UnescapedInverts(s[0], Body(s[1..], x));
    assert Body(s, x) == e + Body(s[1..], x);
  }

  lemma {:induction false} BodyUnique(s: string, x: string, t: string, y: string)
    requires Body(s, x) == Body(t, y)
    ensures s == t && x == y
  {
    if s != "" {
      BodyHead(s, x);
    }
    if t != "" {
      BodyHead(t, y);
    }
    if s != "" && t != "" {
      BodyUnique(s[1..], x, t[1..], y);
      assert s == [s[0]] + s[1..] && t == [t[0]] + t[1..];
    } else {
      assert s == "" ==> Body(s, x)[1..] == x && Body(s, x)[0] == '"';
      assert t == "" ==> Body(t, y)[1..] == y && Body(t, y)[0] == '"';
    }
  }

  lemma QuotedUnique(s: string, x: string, t: string, y: string)
    requires Quoted(s) + x == Quoted(t) + y
    ensures s == t && x == y
  {
    assert Quoted(s) + x == "\"" + Body(s, x);
    assert Quoted(t) + y == "\"" + Body(t, y);
    assert (Quoted(s) + x)[1..] == Body(s, x) && (Quoted(t) + y)[1..] == Body(t, y);
    BodyUnique(s, x, t, y);
  }

  // ----- no printed value is the beginning of another -----

  predicate StartsAs(v: Json, c: char) {
    match v
    case Undefined => c == 'n'
    case Null => c == 'n'
    case Bool(b) => c == if b then 't' else 'f'
    case Number(n) => if n < 0 then c == '-' else Text.IsDigit(c)
    case Str(_) => c == '"'
    case List(_) => c == '['
    case Record(_) => c == '{'
  }

  lemma PrintStarts(before: Order, v: Json)
    ensures Print(before, v) != "" && StartsAs(v, Print(before, v)[0])
  {
    if v.Number? {
      Text.DigitsAreDigits(if v.n < 0 then -v.n else v.n);
    }
  }

  predicate Delimited(x: string) {
    x == "" || x[0] == ',' || x[0] == ']' || x[0] == '}'
  }

  lemma SignedUnique(m: int, x: string, n: int, y: string)
    requires Signed(m) + x == Signed(n) + y && Delimited(x) && Delimited(y)
    requires m < 0 <==> n < 0
    ensures m == n && x == y
  {
    if m < 0 {
      DropSign(Text.Digits(-m), x, Text.Digits(-n), y);
      Text.DigitsUnique(-m, x, -n, y);
    } else {
      Text.DigitsUnique(m, x, n, y);
    }
  }

  lemma DropSign(a: string, x: string, b: string, y: string)
    requires "-" + a + x == "-" + b + y
    ensures a + x == b + y
  {
    assert ("-" + a + x)[1..] == a + x && ("-" + b + y)[1..] == b + y;
  }

  lemma SortKeepsEntries(before: Order, entries: seq<Entry>)
    ensures |Sort(before, entries)| == |entries|
    ensures forall e :: e in Sort(before, entries) <==> e in entries
  {
    if entries != [] {
      SortKeepsEntries(before, entries[1..]);
      InsertKeepsEntries(before, entries[0], Sort(before, entries[1..]));
    }
  }

  lemma InsertKeepsEntries(before: Order, e: Entry, entries: seq<Entry>)
    ensures |Insert(before, e, entries)| == |entries| + 1
    ensures forall x :: x in Insert(before, e, entries) <==> x == e || x in entries
  {
  }

  /** The entry is a field of `fields`, printed. */
  ghost predicate PrintedFrom(before: Order, fields: seq<Field>, e: Entry) {
    exists i :: 0 <= i < |fields| && e == Entry(fields[i].key, Print(before, fields[i].value))
  }

  lemma EntriesAt(before: Order, fields: seq<Field>, i: nat)
    requires i < |fields|
    ensures Entries(before, fields)[i] == Entry(fields[i].key, Print(before, fields[i].value))
  {
    if i > 0 {
      EntriesAt(before, fields[1..], i - 1);
    }
  }

  lemma SortedEntriesArePrinted(before: Order, fields: seq<Field>)
    ensures forall e :: e in Sort(before, Entries(before, fields)) ==> PrintedFrom(before, fields, e)
  {
    var entries := Entries(before, fields);
    SortKeepsEntries(before, entries);
    forall e | e in Sort(before, entries) ensures PrintedFrom(before, fields, e) {
      var i :| 0 <= i < |entries| && entries[i] == e;
      EntriesAt(before, fields, i);
    }
  }

  lemma {:induction false} ItemsPrefixFree(before: Order, a: seq<Json>, x: string, b: seq<Json>, y: string)
    requires PrintItems(before, a) + ("]" + x) == PrintItems(before, b) + ("]" + y)
    ensures |a| == |b| && x == y
    ensures forall i :: 0 <= i < |a| ==> Print(before, a[i]) == Print(before, b[i])
    decreases a
  {
    var whole := PrintItems(before, a) + ("]" + x);
    if a == [] || b == [] {
      ItemsStart(before, a, x);
      ItemsStart(before, b, y);
      assert a == [] ==> whole[1..] == x;
      assert b == [] ==> whole[1..] == y;
    } else {
      var restA, restB := ItemsRest(before, a, x), ItemsRest(before, b, y);
      assert whole == Print(before, a[0]) + restA == Print(before, b[0]) + restB;
      PrefixFree(before, a[0], restA, b[0], restB);
      if |a| > 1 && |b| > 1 {
        assert restA[1..] == PrintItems(before, a[1..]) + ("]" + x);
        assert restB[1..] == PrintItems(before, b[1..]) + ("]" + y);
        ItemsPrefixFree(before, a[1..], x, b[1..], y);
        assert a == [a[0]] + a[1..] && b == [b[0]] + b[1..];
      } else {
        assert restA[0] == restB[0];
        assert restA[1..] == restB[1..];
        assert |a| == 1 ==> restA[1..] == x;
        assert |b| == 1 ==> restB[1..] == y;
      }
    }
  }

  /** What follows the first item of a list. */
  function ItemsRest(before: Order, items: seq<Json>, x: string): string
    requires items != []
  {
    if |items| == 1 then "]" + x else "," + (PrintItems(before, items[1..]) + ("]" + x))
  }

  lemma ItemsStart(before: Order, items: seq<Json>, x: string)
    ensures (PrintItems(before, items) + ("]" + x))[0] == ']' <==> items == []
  {
    if items != [] {
      PrintStarts(before, items[0]);
      assert (PrintItems(before, items) + ("]" + x))[0] == Print(before, items[0])[0];
    }
  }

  /** What follows the first entry of an object. */
  function EntriesRest(entries: seq<Entry>, x: string): string
    requires entries != []
  {
    if |entries| == 1 then "}" + x else "," + (PrintEntries(entries[1..]) + ("}" + x))
  }

  lemma RegroupOne(quoted: string, text: string, end: string)
    ensures (quoted + (":" + text)) + end == quoted + (":" + (text + end))
  {
  }

  lemma RegroupMany(quoted: string, text: string, rest: string, end: string)
    ensures ((quoted + (":" + text)) + ("," + rest)) + end == quoted + (":" + (text + ("," + (rest + end))))
  {
    RegroupOne(quoted, text, "," + rest);
    RegroupOne(quoted, text + ("," + rest), end);
    assert (text + ("," + rest)) + end == text + ("," + (rest + end));
  }

  lemma EntriesStart(entries: seq<Entry>, x: string)
    ensures var whole := PrintEntries(entries) + ("}" + x);
            if entries == [] then whole[0] == '}' && whole[1..] == x
            else && whole == Quoted(entries[0].key) + (":" + (entries[0].text + EntriesRest(entries, x)))
                 && whole[0] == '"'
  {
    if |entries| == 1 {
      RegroupOne(Quoted(entries[0].key), entries[0].text, "}" + x);
    } else if |entries| > 1 {
      RegroupMany(Quoted(entries[0].key), entries[0].text, PrintEntries(entries[1..]), "}" + x);
    }
  }

  lemma {:induction false} EntriesPrefixFree(
    before: Order, f: seq<Field>, ps: seq<Entry>, x: string, g: seq<Field>, qs: seq<Entry>, y: string)
    requires PrintEntries(ps) + ("}" + x) == PrintEntries(qs) + ("}" + y)
    requires forall e :: e in ps ==> PrintedFrom(before, f, e)
    requires forall e :: e in qs ==> PrintedFrom(before, g, e)
    ensures ps == qs && x == y
    decreases f, 1, |ps|, 1
  {
    EntriesStart(ps, x);
    EntriesStart(qs, y);
    if ps != [] && qs != [] {
      var restP, restQ := EntriesRest(ps, x), EntriesRest(qs, y);
      QuotedUnique(ps[0].key, ":" + (ps[0].text + restP), qs[0].key, ":" + (qs[0].text + restQ));
      assert (":" + (ps[0].text + restP))[1..] == ps[0].text + restP;
      assert (":" + (qs[0].text + restQ))[1..] == qs[0].text + restQ;
      assert PrintedFrom(before, f, ps[0]) && PrintedFrom(before, g, qs[0]);
      var i :| 0 <= i < |f| && ps[0] == Entry(f[i].key, Print(before, f[i].value));
      var j :| 0 <= j < |g| && qs[0] == Entry(g[j].key, Print(before, g[j].value));
      PrefixFree(before, f[i].value, restP, g[j].value, restQ);
      EntriesTailsPrefixFree(before, f, ps, x, g, qs, y);
    }
  }

  lemma {:induction false} EntriesTailsPrefixFree(
    before: Order, f: seq<Field>, ps: seq<Entry>, x: string, g: seq<Field>, qs: seq<Entry>, y: string)
    requires ps != [] && qs != [] && ps[0] == qs[0] && EntriesRest(ps, x) == EntriesRest(qs, y)
    requires forall e :: e in ps ==> PrintedFrom(before, f, e)
    requires forall e :: e in qs ==> PrintedFrom(before, g, e)
    ensures ps == qs && x == y
    decreases f, 1, |ps|, 0
  {
    var restP, restQ := EntriesRest(ps, x), EntriesRest(qs, y);
    assert restP[0] == (if |ps| == 1 then '}' else ',') && restQ[0] == if |qs| == 1 then '}' else ',';
    if |ps| == 1 {
      assert restP[1..] == x && restQ[1..] == y;
      assert ps == [ps[0]] && qs == [qs[0]];
    } else {
      assert restP[1..] == PrintEntries(ps[1..]) + ("}" + x);
      assert restQ[1..] == PrintEntries(qs[1..]) + ("}" + y);
      EntriesPrefixFree(before, f, ps[1..], x, g, qs[1..], y);
      assert ps == [ps[0]] + ps[1..] && qs == [qs[0]] + qs[1..];
    }
  }

  lemma Unwrap(open: string, a: string, close: string, x: string, b: string, y: string)
    requires |open| == 1 && (open + (a + close)) + x == (open + (b + close)) + y
    ensures a + (close + x) == b + (close + y)
  {
    assert ((open + (a + close)) + x)[1..] == a + (close + x);
    assert ((open + (b + close)) + y)[1..] == b + (close + y);
  }

  lemma {:induction false} RecordPrefixFree(before: Order, f: seq<Field>, x: string, g: seq<Field>, y: string)
    requires Print(before, Record(f)) + x == Print(before, Record(g)) + y
    ensures Sort(before, Entries(before, f)) == Sort(before, Entries(before, g)) && x == y
    decreases f, 2
  {
    var ps, qs := Sort(before, Entries(before, f)), Sort(before, Entries(before, g));
    Unwrap("{", PrintEntries(ps), "}", x, PrintEntries(qs), y);
    SortedEntriesArePrinted(before, f);
    SortedEntriesArePrinted(before, g);
    EntriesPrefixFree(before, f, ps, x, g, qs, y);
  }

  lemma PrefixFree(before: Order, v: Json, x: string, w: Json, y: string)
    requires Print(before, v) + x == Print(before, w) + y && Delimited(x) && Delimited(y)
    ensures Print(before, v) == Print(before, w) && x == y
    decreases v
  {
    var whole := Print(before, v) + x;
    TailsEqual(before, v, x, w, y);
    assert Print(before, v) == whole[..|whole| - |x|] == Print(before, w);
  }

  lemma {:induction false} TailsEqual(before: Order, v: Json, x: string, w: Json, y: string)
    requires Print(before, v) + x == Print(before, w) + y && Delimited(x) && Delimited(y)
    ensures x == y
    decreases v, 0
  {
    PrintStarts(before, v);
    PrintStarts(before, w);
    assert (Print(before, v) + x)[0] == Print(before, v)[0] && (Print(before, w) + y)[0] == Print(before, w)[0];
    match v
    case Number(m) => SignedUnique(m, x, w.n, y);
    case Str(s) => QuotedUnique(s, x, w.s, y);
    case List(items) =>
      Unwrap("[", PrintItems(before, items), "]", x, PrintItems(before, w.items), y);
      ItemsPrefixFree(before, items, x, w.items, y);
    case Record(fields) => RecordPrefixFree(before, fields, x, w.fields, y);
    case _ => SameTail(Print(before, v), x, y);
  }

  lemma SameTail(p: string, x: string, y: string)
    requires p + x == p + y
    ensures x == y
  {
    assert x == (p + x)[|p|..] && y == (p + y)[|p|..];
  }

  // ----- the text determines the value -----

  lemma {:induction false} PrintDetermines(before: Order, v: Json, w: Json)
    requires Print(before, v) == Print(before, w)
    ensures Same(v, w)
    decreases v
  {
    PrintStarts(before, v);
    PrintStarts(before, w);
    match v
    case Number(m) => SignedUnique(m, "", w.n, "");
    case Str(s) => QuotedUnique(s, "", w.s, "");
    case List(items) =>
      Unwrap("[", PrintItems(before, items), "]", "", PrintItems(before, w.items), "");
      ItemsPrefixFree(before, items, "", w.items, "");
      forall i | 0 <= i < |items| ensures Same(items[i], w.items[i]) {
        PrintDetermines(before, items[i], w.items[i]);
      }
    case Record(fields) =>
      SortedAlike(before, fields, w.fields);
      EachIsMatched(before, fields, w.fields);
      EachIsMatching(before, fields, w.fields);
    case _ =>
  }

  lemma SortedEntryIn(before: Order, f: seq<Field>, g: seq<Field>, i: nat) returns (j: nat)
    requires Sort(before, Entries(before, f)) == Sort(before, Entries(before, g)) && i < |f|
    ensures j < |g| && f[i].key == g[j].key && Print(before, f[i].value) == Print(before, g[j].value)
  {
    var e := Entries(before, f)[i];
    EntriesAt(before, f, i);
    SortKeepsEntries(before, Entries(before, f));
    SortKeepsEntries(before, Entries(before, g));
    assert e in Sort(before, Entries(before, g));
    j :| 0 <= j < |g| && Entries(before, g)[j] == e;
    EntriesAt(before, g, j);
  }

  lemma {:induction false} EachIsMatched(before: Order, f: seq<Field>, g: seq<Field>)
    requires Sort(before, Entries(before, f)) == Sort(before, Entries(before, g))
    ensures EachMatched(f, g)
    decreases f
  {
    forall i | 0 <= i < |f| ensures exists j :: 0 <= j < |g| && SameField(f[i], g[j]) {
      var j := SortedEntryIn(before, f, g, i);
      PrintDetermines(before, f[i].value, g[j].value);
      assert SameField(f[i], g[j]);
    }
  }

  lemma {:induction false} EachIsMatching(before: Order, f: seq<Field>, g: seq<Field>)
    requires Sort(before, Entries(before, f)) == Sort(before, Entries(before, g))
    ensures EachMatches(f, g)
    decreases f
  {
    forall j | 0 <= j < |g| ensures exists i :: 0 <= i < |f| && SameField(f[i], g[j]) {
      var i := SortedEntryIn(before, g, f, j);
      PrintDetermines(before, f[i].value, g[j].value);
      assert SameField(f[i], g[j]);
    }
  }

  lemma SortedAlike(before: Order, f: seq<Field>, g: seq<Field>)
    requires Print(before, Record(f)) == Print(before, Record(g))
    ensures Sort(before, Entries(before, f)) == Sort(before, Entries(before, g))
  {
    RecordPrefixFree(before, f, "", g, "");
  }

  // ----- the value determines the text -----

  ghost predicate Sorted(before: Order, entries: seq<Entry>) {
    forall i, j :: 0 <= i < j < |entries| ==> before(entries[i].key, entries[j].key)
  }

  ghost predicate DistinctKeys(entries: seq<Entry>) {
    forall i, j :: 0 <= i < j < |entries| ==> entries[i].key != entries[j].key
  }

  lemma {:induction false} InsertSorts(before: Order, e: Entry, entries: seq<Entry>)
    requires IsTotalOrder(before) && Sorted(before, entries)
    requires forall x :: x in entries ==> x.key != e.key
    ensures Sorted(before, Insert(before, e, entries))
  {
    if entries != [] {
      if before(e.key, entries[0].key) {
        assert forall i :: 0 < i < |entries| ==> before(entries[0].key, entries[i].key);
      } else {
        InsertSorts(before, e, entries[1..]);
        InsertKeepsEntries(before, e, entries[1..]);
        var rest := Insert(before, e, entries[1..]);
        forall j | 0 <= j < |rest| ensures before(entries[0].key, rest[j].key) {
          assert rest[j] == e || rest[j] in entries[1..];
        }
      }
    }
  }

  lemma {:induction false} SortSorts(before: Order, entries: seq<Entry>)
    requires IsTotalOrder(before) && DistinctKeys(entries)
    ensures Sorted(before, Sort(before, entries))
  {
    if entries != [] {
      SortSorts(before, entries[1..]);
      SortKeepsEntries(before, entries[1..]);
      forall x | x in Sort(before, entries[1..]) ensures x.key != entries[0].key {
        var i :| 0 <= i < |entries[1..]| && entries[1..][i] == x;
      }
      InsertSorts(before, entries[0], Sort(before, entries[1..]));
    }
  }

  lemma NonEmptyHasMember(b: seq<Entry>)
    requires b != []
    ensures exists e :: e in b
  {
    assert b[0] in b;
  }

  /** A set of entries can be listed in order in only one way. */
  lemma {:induction false} SortedIsUnique(before: Order, a: seq<Entry>, b: seq<Entry>)
    requires IsTotalOrder(before) && Sorted(before, a) && Sorted(before, b)
    requires forall e :: e in a <==> e in b
    ensures a == b
  {
    if a == [] {
      if b != [] {
        NonEmptyHasMember(b);
      }
    } else {
      assert a[0] in b && (b != [] ==> b[0] in a);
      assert a[0] == b[0];
      forall e ensures e in a[1..] <==> e in b[1..] {
        assert e in a[1..] <==> e in a && e != a[0];
        assert e in b[1..] <==> e in b && e != b[0];
      }
      SortedIsUnique(before, a[1..], b[1..]);
    }
  }

  lemma {:induction false} SameItemsPrintAlike(before: Order, a: seq<Json>, b: seq<Json>)
    requires |a| == |b| && forall i :: 0 <= i < |a| ==> Print(before, a[i]) == Print(before, b[i])
    ensures PrintItems(before, a) == PrintItems(before, b)
  {
    if |a| > 1 {
      SameItemsPrintAlike(before, a[1..], b[1..]);
    }
  }

  lemma EntriesAreDistinct(before: Order, f: seq<Field>)
    requires WellFormed(Record(f))
    ensures DistinctKeys(Entries(before, f))
  {
    forall i, j | 0 <= i < j < |f| ensures Entries(before, f)[i].key != Entries(before, f)[j].key {
      EntriesAt(before, f, i);
      EntriesAt(before, f, j);
    }
  }

  ghost predicate AllIn(a: seq<Entry>, b: seq<Entry>) {
    forall i :: 0 <= i < |a| ==> a[i] in b
  }

  lemma {:induction false} EntryShared(before: Order, f: seq<Field>, g: seq<Field>, i: nat, j: nat)
    requires IsTotalOrder(before) && WellFormed(Record(f)) && WellFormed(Record(g))
    requires i < |f| && j < |g| && SameField(f[i], g[j])
    ensures Entries(before, f)[i] == Entries(before, g)[j]
    decreases f, 0
  {
    SamePrintsAlike(before, f[i].value, g[j].value);
    EntriesAt(before, f, i);
    EntriesAt(before, g, j);
  }

  lemma {:induction false} MatchedEntries(before: Order, f: seq<Field>, g: seq<Field>)
    requires IsTotalOrder(before) && WellFormed(Record(f)) && WellFormed(Record(g)) && EachMatched(f, g)
    ensures AllIn(Entries(before, f), Entries(before, g))
    decreases f, 1
  {
    forall i | 0 <= i < |f| ensures Entries(before, f)[i] in Entries(before, g) {
      var j :| 0 <= j < |g| && SameField(f[i], g[j]);
      EntryShared(before, f, g, i, j);
    }
  }

  lemma {:induction false} MatchingEntries(before: Order, f: seq<Field>, g: seq<Field>)
    requires IsTotalOrder(before) && WellFormed(Record(f)) && WellFormed(Record(g)) && EachMatches(f, g)
    ensures AllIn(Entries(before, g), Entries(before, f))
    decreases f, 1
  {
    forall j | 0 <= j < |g| ensures Entries(before, g)[j] in Entries(before, f) {
      var i :| 0 <= i < |f| && SameField(f[i], g[j]);
      EntryShared(before, f, g, i, j);
    }
  }

  lemma SameEntriesSortAlike(before: Order, a: seq<Entry>, b: seq<Entry>)
    requires IsTotalOrder(before) && DistinctKeys(a) && DistinctKeys(b)
    requires AllIn(a, b) && AllIn(b, a)
    ensures Sort(before, a) == Sort(before, b)
  {
    SortSorts(before, a);
    SortSorts(before, b);
    SortKeepsEntries(before, a);
    SortKeepsEntries(before, b);
    SortedIsUnique(before, Sort(before, a), Sort(before, b));
  }

  lemma {:induction false} MatchingFieldsSortAlike(before: Order, f: seq<Field>, g: seq<Field>)
    requires IsTotalOrder(before) && WellFormed(Record(f)) && WellFormed(Record(g))
    requires EachMatched(f, g) && EachMatches(f, g)
    ensures Sort(before, Entries(before, f)) == Sort(before, Entries(before, g))
    decreases f, 2
  {
    MatchedEntries(before, f, g);
    MatchingEntries(before, f, g);
    EntriesAreDistinct(before, f);
    EntriesAreDistinct(before, g);
    SameEntriesSortAlike(before, Entries(before, f), Entries(before, g));
  }

  lemma {:induction false} SamePrintsAlike(before: Order, v: Json, w: Json)
    requires IsTotalOrder(before) && WellFormed(v) && WellFormed(w) && Same(v, w)
    ensures Print(before, v) == Print(before, w)
    decreases v
  {
    match v
    case List(items) =>
      forall i | 0 <= i < |items| ensures Print(before, items[i]) == Print(before, w.items[i]) {
        SamePrintsAlike(before, items[i], w.items[i]);
      }
      SameItemsPrintAlike(before, items, w.items);
    case Record(fields) => MatchingFieldsSortAlike(before, fields, w.fields);
    case _ =>
  }

  /** `stableJson` is a canonical form: two values print alike exactly when they are equal up to key order. */
  lemma StableJsonIsCanonical(before: Order, v: Json, w: Json)
    requires IsTotalOrder(before) && WellFormed(v) && WellFormed(w)
    ensures Print(before, v) == Print(before, w) <==> Same(v, w)
  {
    if Print(before, v) == Print(before, w) {
      PrintDetermines(before, v, w);
    } else if Same(v, w) {
      SamePrintsAlike(before, v, w);
    }
  }

  /** With an injective digest, equal fingerprints mean equal values. */
  lemma FingerprintsDecideEquality(before: Order, digest: string -> string, v: Json, w: Json)
    requires IsTotalOrder(before) && WellFormed(v) && WellFormed(w)
    requires forall x, y :: digest(x) == digest(y) ==> x == y
    ensures digest(Print(before, v)) == digest(Print(before, w)) <==> Same(v, w)
  {
    StableJsonIsCanonical(before, v, w);
  }
}
