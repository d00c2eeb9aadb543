/** JSON objects written with their keys in one order, and how they tell apart the values they are written from. */
module JsonObjects {
  import opened Wrappers
  import opened StableJson

  /** Keys are written by length and first letter, which tells the keys of one object apart. */
  predicate Before(a: string, b: string) {
    |a| < |b| || (|a| == |b| > 0 && a[0] < b[0])
  }

  ghost predicate Climbs(fields: seq<Field>) {
    forall i :: 0 < i < |fields| ==> Before(fields[i - 1].key, fields[i].key)
  }

  /** At every depth the keys are in order, and nothing is undefined. */
  ghost predicate Arranged(v: Json) {
    match v
    case Undefined => false
    case List(items) => forall i :: 0 <= i < |items| ==> Arranged(items[i])
    case Record(fields) => Climbs(fields) && forall i :: 0 <= i < |fields| ==> Arranged(fields[i].value)
    case _ => true
  }

  lemma {:induction false} LaterKeysDiffer(fields: seq<Field>, i: nat, j: nat)
    requires Climbs(fields) && i < j < |fields|
    ensures Before(fields[i].key, fields[j].key)
    decreases j
  {
    if i < j - 1 {
      LaterKeysDiffer(fields, i, j - 1);
    }
    assert Before(fields[j - 1].key, fields[j].key);
  }

  lemma {:induction false} ArrangedIsWellFormed(v: Json)
    requires Arranged(v)
    ensures WellFormed(v)
  {
    match v
    case List(items) =>
      forall i | 0 <= i < |items| ensures WellFormed(items[i]) {
        ArrangedIsWellFormed(items[i]);
      }
    case Record(fields) =>
      forall i | 0 <= i < |fields| ensures WellFormed(fields[i].value) {
        ArrangedIsWellFormed(fields[i].value);
      }
      forall i, j | 0 <= i < j < |fields| ensures fields[i].key != fields[j].key {
        LaterKeysDiffer(fields, i, j);
      }
    case _ =>
  }

  ghost predicate KeysAgree(f: seq<Field>, g: seq<Field>, n: nat) {
    n <= |f| && n <= |g| && forall i :: 0 <= i < n ==> f[i].key == g[i].key
  }

  lemma MatchIsLater(f: seq<Field>, g: seq<Field>, n: nat, j: nat)
    requires Climbs(f) && Climbs(g) && KeysAgree(f, g, n) && n < |f| && j < |g| && f[n].key == g[j].key
    ensures n <= j && (n < j ==> Before(g[n].key, f[n].key))
  {
    if j < n {
      LaterKeysDiffer(f, j, n);
    } else if n < j {
      LaterKeysDiffer(g, n, j);
    }
  }

  ghost predicate HasKey(g: seq<Field>, key: string) {
    exists j :: 0 <= j < |g| && g[j].key == key
  }

  ghost predicate KeyIn(f: seq<Field>, g: seq<Field>, i: nat) {
    i < |f| ==> HasKey(g, f[i].key)
  }

  ghost predicate KeysIn(f: seq<Field>, g: seq<Field>) {
    forall i: nat :: KeyIn(f, g, i)
  }

  lemma KeysAreShared(f: seq<Field>, g: seq<Field>)
    requires EachMatched(f, g)
    ensures KeysIn(f, g)
  {
    forall i: nat ensures KeyIn(f, g, i) {
      if i < |f| {
        var field := f[i];
        var j :| 0 <= j < |g| && SameField(field, g[j]);
      }
    }
  }

  lemma KeysAreSharedBack(f: seq<Field>, g: seq<Field>)
    requires EachMatches(f, g)
    ensures KeysIn(g, f)
  {
    forall j: nat ensures KeyIn(g, f, j) {
      if j < |g| {
        var field := g[j];
        var i :| 0 <= i < |f| && SameField(f[i], field);
      }
    }
  }

  /** The next keys are the same too: neither can come before the other. */
  lemma NextKeysAgree(f: seq<Field>, g: seq<Field>, n: nat, i: nat, j: nat)
    requires Climbs(f) && Climbs(g) && KeysAgree(f, g, n) && (n < |f| || n < |g|)
    requires n < |f| ==> j < |g| && f[n].key == g[j].key
    requires n < |g| ==> i < |f| && g[n].key == f[i].key
    ensures KeysAgree(f, g, n + 1)
  {
    if n < |f| {
      MatchIsLater(f, g, n, j);
    }
    if n < |g| {
      MatchIsLater(g, f, n, i);
    }
  }

  lemma {:induction false} AllKeysAgree(f: seq<Field>, g: seq<Field>, n: nat)
    requires Climbs(f) && Climbs(g) && KeysIn(f, g) && KeysIn(g, f) && KeysAgree(f, g, n)
    ensures |f| == |g| && KeysAgree(f, g, |f|)
    decreases |f| - n
  {
    if n < |f| || n < |g| {
      var i: nat, j: nat := 0, 0;
      if n < |f| {
        assert KeyIn(f, g, n);
        j :| 0 <= j < |g| && g[j].key == f[n].key;
      }
      if n < |g| {
        assert KeyIn(g, f, n);
        i :| 0 <= i < |f| && f[i].key == g[n].key;
      }
      NextKeysAgree(f, g, n, i, j);
      AllKeysAgree(f, g, n + 1);
    }
  }

  lemma MatchOf(f: seq<Field>, g: seq<Field>, i: nat) returns (j: nat)
    requires EachMatched(f, g) && i < |f|
    ensures j < |g| && f[i].key == g[j].key && Same(f[i].value, g[j].value)
  {
    var field := f[i];
    j :| j < |g| && SameField(field, g[j]);
  }

  lemma MatchIsAtSamePlace(f: seq<Field>, g: seq<Field>, i: nat, j: nat)
    requires Climbs(f) && |f| == |g| && KeysAgree(f, g, |f|) && i < |f| && j < |g| && f[i].key == g[j].key
    ensures i == j
  {
    if i < j {
      LaterKeysDiffer(f, i, j);
    } else if j < i {
      LaterKeysDiffer(f, j, i);
    }
  }

  /** The fields at one place have the same value. */
  lemma SameAtSamePlace(f: seq<Field>, g: seq<Field>, i: nat)
    requires Climbs(f) && EachMatched(f, g) && |f| == |g| && KeysAgree(f, g, |f|) && i < |f|
    ensures Same(f[i].value, g[i].value)
  {
    var j := MatchOf(f, g, i);
    MatchIsAtSamePlace(f, g, i, j);
  }

  /** Values written with their keys in order are the same up to that order only if they are equal. */
  lemma {:induction false} SameIsEqual(v: Json, w: Json)
    requires Arranged(v) && Arranged(w) && Same(v, w)
    ensures v == w
    decreases v
  {
    match v
    case List(items) =>
      forall i | 0 <= i < |items| ensures items[i] == w.items[i] {
        SameIsEqual(items[i], w.items[i]);
      }
    case Record(fields) =>
      KeysAreShared(fields, w.fields);
      KeysAreSharedBack(fields, w.fields);
      AllKeysAgree(fields, w.fields, 0);
      forall i | 0 <= i < |fields| ensures fields[i] == w.fields[i] {
        SameAtSamePlace(fields, w.fields, i);
        SameIsEqual(fields[i].value, w.fields[i].value);
      }
    case _ =>
  }

  // ----- writing values -----

  ghost predicate FaithfulAt<T>(f: T -> Json, x: T, y: T) {
    Arranged(f(x)) && !f(x).Null? && (f(x) == f(y) ==> x == y)
  }

  /** `f` writes arranged values, never null, and different ones for different arguments. */
  ghost predicate Faithful<T(!new)>(f: T -> Json) {
    forall x, y :: FaithfulAt(f, x, y)
  }

  function ListJson<T>(f: T -> Json, xs: seq<T>): Json {
    List(seq(|xs|, i requires 0 <= i < |xs| => f(xs[i])))
  }

  function OptionJson<T>(f: T -> Json, o: Option<T>): Json {
    match o
    case None => Null
    case Some(x) => f(x)
  }

  lemma ListsDiffer<T(!new)>(f: T -> Json, xs: seq<T>, ys: seq<T>)
    requires Faithful(f)
    ensures Arranged(ListJson(f, xs)) && (ListJson(f, xs) == ListJson(f, ys) ==> xs == ys)
  {
    forall i | 0 <= i < |xs| ensures Arranged(f(xs[i])) {
      assert FaithfulAt(f, xs[i], xs[i]);
    }
    if ListJson(f, xs) == ListJson(f, ys) {
      forall i | 0 <= i < |xs| ensures xs[i] == ys[i] {
        assert FaithfulAt(f, xs[i], ys[i]) && ListJson(f, xs).items[i] == ListJson(f, ys).items[i];
      }
    }
  }

  lemma OptionsDiffer<T(!new)>(f: T -> Json, o: Option<T>, p: Option<T>)
    requires Faithful(f)
    ensures Arranged(OptionJson(f, o)) && (OptionJson(f, o) == OptionJson(f, p) ==> o == p)
  {
    if o.Some? {
      assert FaithfulAt(f, o.value, if p.Some? then p.value else o.value);
    } else if p.Some? {
      assert FaithfulAt(f, p.value, p.value);
    }
  }

  /** The canonical texts of two values are equal exactly when the values are. */
  lemma TextsDiffer<T(!new)>(before: Order, f: T -> Json, x: T, y: T)
    requires IsTotalOrder(before) && Faithful(f)
    ensures Print(before, f(x)) == Print(before, f(y)) <==> x == y
  {
    assert FaithfulAt(f, x, y) && FaithfulAt(f, y, x);
    ArrangedIsWellFormed(f(x));
    ArrangedIsWellFormed(f(y));
    StableJsonIsCanonical(before, f(x), f(y));
    if Same(f(x), f(y)) {
      SameIsEqual(f(x), f(y));
    }
  }

  // ----- objects in parts -----

  /** Fit to be fields of an arranged object. */
  ghost predicate Fields(f: seq<Field>) {
    Climbs(f) && forall i :: 0 <= i < |f| ==> Arranged(f[i].value)
  }

  lemma FieldsJoin(f: seq<Field>, g: seq<Field>)
    requires Fields(f) && Fields(g)
    requires f != [] && g != [] ==> Before(f[|f| - 1].key, g[0].key)
    ensures Fields(f + g) && Arranged(Record(f + g))
  {
    var h := f + g;
    forall i | 0 < i < |h| ensures Before(h[i - 1].key, h[i].key) {
      if i > |f| {
        assert h[i - 1] == g[i - 1 - |f|] && h[i] == g[i - |f|];
      }
    }
  }

  lemma PartsAreEqual(f: seq<Field>, g: seq<Field>, x: seq<Field>, y: seq<Field>)
    requires |f| == |g| && f + x == g + y
    ensures f == g && x == y
  {
    assert f == (f + x)[..|f|] && g == (g + y)[..|g|];
    assert x == (f + x)[|f|..] && y == (g + y)[|g|..];
  }
}
