/** Keyset pagination over an external view: what a page is, where the cursor goes, and when the loop ends. */
module ExternalPaging {
  import opened Wrappers
  import Counting

  const MAX_PAGE: int := 1000
  const DEFAULT_BATCH: int := 200

  /** A row of the external view; times are microseconds, and `excluded` is the conversation filter. */
  datatype Row = Row(id: string, time: nat, excluded: bool, duplicateCount: nat)

  /** What a cursor can hold: JavaScript dates carry milliseconds. */
  datatype Cursor = Cursor(time: nat, id: string)

  // ----- paging -----

  type IdOrder = (string, string) -> bool

  ghost predicate IsStrictOrder(before: IdOrder) {
    && (forall a, b :: before(a, b) ==> !before(b, a))
    && (forall a, b, c :: before(a, b) && before(b, c) ==> before(a, c))
  }

  /** The WHERE clause of the page query. */
  predicate IsAfter(before: IdOrder, c: Cursor, r: Row) {
    r.time > c.time || (r.time == c.time && before(c.id, r.id))
  }

  /** The ORDER BY clause; ids are unique in the view. */
  ghost predicate Ordered(before: IdOrder, view: seq<Row>) {
    forall i, j :: 0 <= i < j < |view| ==> IsAfter(before, Cursor(view[i].time, view[i].id), view[j])
  }

  function Selected(before: IdOrder, view: seq<Row>, c: Cursor): seq<Row> {
    if view == [] then []
    else (if IsAfter(before, c, view[0]) then [view[0]] else []) + Selected(before, view[1..], c)
  }

  function ReadPage(before: IdOrder, view: seq<Row>, c: Cursor, limit: nat): seq<Row> {
    var rows := Selected(before, view, c);
    if |rows| <= limit then rows else rows[..limit]
  }

  /** Milliseconds are kept, microseconds are dropped. */
  function Truncated(time: nat): nat {
    time - time % 1000
  }

  function CursorFromRow(r: Row): Cursor {
    Cursor(Truncated(r.time), r.id)
  }

  predicate Representable(r: Row) {
    r.time % 1000 == 0
  }

  /** Number of leading rows the cursor has passed. */
  function Passed(before: IdOrder, view: seq<Row>, c: Cursor): (p: nat)
    ensures p <= |view|
  {
    if view == [] || IsAfter(before, c, view[0]) then 0 else 1 + Passed(before, view[1..], c)
  }

  lemma {:induction false} PassedSplits(before: IdOrder, view: seq<Row>, c: Cursor)
    requires IsStrictOrder(before) && Ordered(before, view)
    ensures var p := Passed(before, view, c);
            && (forall i :: 0 <= i < p ==> !IsAfter(before, c, view[i]))
            && (forall i :: p <= i < |view| ==> IsAfter(before, c, view[i]))
    ensures Selected(before, view, c) == view[Passed(before, view, c)..]
  {
    if view != [] {
      var rest := view[1..];
      PassedSplits(before, rest, c);
      if IsAfter(before, c, view[0]) {
        forall i | 0 < i < |view| ensures IsAfter(before, c, view[i]) {
          assert IsAfter(before, Cursor(view[0].time, view[0].id), view[i]);
        }
        assert Passed(before, rest, c) == 0 by {
          if rest != [] {
            assert rest[0] == view[1];
          }
        }
        assert view == [view[0]] + rest[0..];
      } else {
        var p := Passed(before, view, c);
        forall i | 0 <= i < p ensures !IsAfter(before, c, view[i]) {
          if i > 0 {
            assert view[i] == rest[i - 1];
          }
        }
        forall i | p <= i < |view| ensures IsAfter(before, c, view[i]) {
          assert view[i] == rest[i - 1];
        }
        assert view[p..] == rest[p - 1..];
      }
    }
  }

  /** The page is the run of rows right behind the cursor, cut at the limit. */
  lemma PageIsNext(before: IdOrder, view: seq<Row>, c: Cursor, limit: nat)
    requires IsStrictOrder(before) && Ordered(before, view)
    ensures var p, page := Passed(before, view, c), ReadPage(before, view, c, limit);
            && p + |page| <= |view| && page == view[p..p + |page|]
            && |page| <= limit && (|page| < limit ==> p + |page| == |view|)
  {
    PassedSplits(before, view, c);
  }

  /** A row is read again after the cursor moved to it exactly when its timestamp has more than milliseconds. */
  lemma ReadAgainExactly(before: IdOrder, r: Row)
    requires IsStrictOrder(before)
    ensures IsAfter(before, CursorFromRow(r), r) <==> !Representable(r)
  {
  }

  /** Moving the cursor to a representable row passes that row and all before it, and nothing else. */
  lemma {:induction false} CursorPasses(before: IdOrder, view: seq<Row>, i: nat)
    requires IsStrictOrder(before) && Ordered(before, view) && i < |view| && Representable(view[i])
    ensures Passed(before, view, CursorFromRow(view[i])) == i + 1
  {
    var c := CursorFromRow(view[i]);
    assert c == Cursor(view[i].time, view[i].id);
    forall j | 0 <= j <= i ensures !IsAfter(before, c, view[j]) {
      assert j < i ==> IsAfter(before, Cursor(view[j].time, view[j].id), view[i]);
    }
    PassedIs(before, view, c, i + 1);
  }

  lemma {:induction false} PassedIs(before: IdOrder, view: seq<Row>, c: Cursor, p: nat)
    requires p <= |view| && (forall i :: 0 <= i < p ==> !IsAfter(before, c, view[i]))
    requires p < |view| ==> IsAfter(before, c, view[p])
    ensures Passed(before, view, c) == p
  {
    if p > 0 {
      assert !IsAfter(before, c, view[0]);
      forall i | 0 <= i < p - 1 ensures !IsAfter(before, c, view[1..][i]) {
        assert view[1..][i] == view[i + 1];
      }
      PassedIs(before, view[1..], c, p - 1);
    }
  }

  /**
   * Moving the cursor to row `q` never passes more than the rows up to it, and passes row `p` if and only if it is
   * not after it.
   */
  lemma CursorPassesExactly(before: IdOrder, view: seq<Row>, p: nat, q: nat)
    requires IsStrictOrder(before) && Ordered(before, view) && p <= q < |view|
    ensures Passed(before, view, CursorFromRow(view[q])) <= q + 1
    ensures p < Passed(before, view, CursorFromRow(view[q])) <==> !IsAfter(before, CursorFromRow(view[q]), view[p])
  {
    var c := CursorFromRow(view[q]);
    PassedSplits(before, view, c);
    if q + 1 < |view| {
      assert IsAfter(before, Cursor(view[q].time, view[q].id), view[q + 1]);
      assert IsAfter(before, c, view[q + 1]);
    }
  }

  /** The position of the cursor after the page at `p`; a page that is not full is the last. */
  function NextPosition(before: IdOrder, view: seq<Row>, limit: nat, p: nat): (next: nat)
    requires limit > 0 && p <= |view|
    ensures next <= |view|
  {
    if IsLast(view, limit, p) then p else Passed(before, view, CursorFromRow(view[p + limit - 1]))
  }

  predicate IsLast(view: seq<Row>, limit: nat, p: nat) {
    p + limit > |view|
  }

  /** The position after `n` pages, from the one at `p` on. */
  function Orbit(before: IdOrder, view: seq<Row>, limit: nat, p: nat, n: nat): (q: nat)
    requires limit > 0 && p <= |view|
    ensures q <= |view|
    decreases n
  {
    if n == 0 then p else Orbit(before, view, limit, NextPosition(before, view, limit, p), n - 1)
  }

  /** Within `n` pages the last one is reached. */
  predicate EndsWithin(before: IdOrder, view: seq<Row>, limit: nat, p: nat, n: nat)
    requires limit > 0 && p <= |view|
  {
    IsLast(view, limit, Orbit(before, view, limit, p, n))
  }

  /** Within as many pages as the view has rows the last one is reached. */
  predicate Ends(before: IdOrder, view: seq<Row>, limit: nat, p: nat)
    requires limit > 0 && p <= |view|
  {
    EndsWithin(before, view, limit, p, |view|)
  }

  lemma {:induction false} OrbitAdds(before: IdOrder, view: seq<Row>, limit: nat, p: nat, m: nat, n: nat)
    requires limit > 0 && p <= |view|
    ensures Orbit(before, view, limit, p, m + n) == Orbit(before, view, limit, Orbit(before, view, limit, p, m), n)
    decreases m
  {
    if m > 0 {
      OrbitAdds(before, view, limit, NextPosition(before, view, limit, p), m - 1, n);
    }
  }

  lemma {:induction false} LastStays(before: IdOrder, view: seq<Row>, limit: nat, p: nat, n: nat)
    requires limit > 0 && p <= |view| && IsLast(view, limit, p)
    ensures Orbit(before, view, limit, p, n) == p
    decreases n
  {
    if n > 0 {
      LastStays(before, view, limit, p, n - 1);
    }
  }

  lemma LastStaysLast(before: IdOrder, view: seq<Row>, limit: nat, p: nat, m: nat, n: nat)
    requires limit > 0 && p <= |view| && m <= n && IsLast(view, limit, Orbit(before, view, limit, p, m))
    ensures Orbit(before, view, limit, p, n) == Orbit(before, view, limit, p, m)
  {
    OrbitAdds(before, view, limit, p, m, n - m);
    LastStays(before, view, limit, Orbit(before, view, limit, p, m), n - m);
  }

  /** A position that comes back before the last page comes back for ever. */
  lemma {:induction false} CycleNeverEnds(before: IdOrder, view: seq<Row>, limit: nat, p: nat, i: nat, j: nat, n: nat)
    requires limit > 0 && p <= |view| && i < j
    requires Orbit(before, view, limit, p, i) == Orbit(before, view, limit, p, j)
    requires forall m: nat :: m < j ==> !IsLast(view, limit, Orbit(before, view, limit, p, m))
    ensures !IsLast(view, limit, Orbit(before, view, limit, p, n))
    decreases n
  {
    if n >= j {
      OrbitAdds(before, view, limit, p, j, n - j);
      OrbitAdds(before, view, limit, p, i, n - j);
      CycleNeverEnds(before, view, limit, p, i, j, i + (n - j));
    }
  }

  function Positions(before: IdOrder, view: seq<Row>, limit: nat, p: nat): (ps: seq<nat>)
    requires limit > 0 && p <= |view|
    ensures |ps| == |view| + 1
  {
    seq(|view| + 1, n requires n >= 0 => Orbit(before, view, limit, p, n))
  }

  /** A loop that has not reached the last page after as many pages as the view has rows never does. */
  lemma NeverEnds(before: IdOrder, view: seq<Row>, limit: nat, p: nat, n: nat)
    requires limit > 0 && p <= |view| && !Ends(before, view, limit, p)
    ensures !IsLast(view, limit, Orbit(before, view, limit, p, n))
  {
    var ps := Positions(before, view, limit, p);
    forall m: nat | m <= |view| ensures !IsLast(view, limit, Orbit(before, view, limit, p, m)) {
      if IsLast(view, limit, Orbit(before, view, limit, p, m)) {
        LastStaysLast(before, view, limit, p, m, |view|);
      }
    }
    var i, j := Counting.Repeated(ps, |view|);
    CycleNeverEnds(before, view, limit, p, i, j, n);
  }

  /** The page loop that starts at `p` ends, after any number of pages, if and only if `Ends` says so. */
  lemma EndsExactly(before: IdOrder, view: seq<Row>, limit: nat, p: nat)
    requires limit > 0 && p <= |view|
    ensures Ends(before, view, limit, p) <==> exists n: nat :: EndsWithin(before, view, limit, p, n)
  {
    if !Ends(before, view, limit, p) {
      forall n: nat ensures !EndsWithin(before, view, limit, p, n) {
        NeverEnds(before, view, limit, p, n);
      }
    }
  }

  function Least(m: nat, n: nat): nat {
    if m < n then m else n
  }

  /** The lowest position within `n` pages; a cursor that holds milliseconds only can move back. */
  function LowestWithin(before: IdOrder, view: seq<Row>, limit: nat, p: nat, n: nat): (low: nat)
    requires limit > 0 && p <= |view|
    ensures low <= p
    decreases n
  {
    if n == 0 then p
    else Least(p, LowestWithin(before, view, limit, NextPosition(before, view, limit, p), n - 1))
  }

  /** The first row that the loop reads. */
  function Lowest(before: IdOrder, view: seq<Row>, limit: nat, p: nat): (low: nat)
    requires limit > 0 && p <= |view|
    ensures low <= p
  {
    LowestWithin(before, view, limit, p, |view|)
  }

  lemma {:induction false} LowestStays(before: IdOrder, view: seq<Row>, limit: nat, p: nat, n: nat)
    requires limit > 0 && p <= |view| && IsLast(view, limit, Orbit(before, view, limit, p, n))
    ensures LowestWithin(before, view, limit, p, n + 1) == LowestWithin(before, view, limit, p, n)
    decreases n
  {
    if n > 0 {
      LowestStays(before, view, limit, NextPosition(before, view, limit, p), n - 1);
    }
  }

  /** One page further the loop still ends, and the rows it reads are the rest of them. */
  lemma EndsOnwards(before: IdOrder, view: seq<Row>, limit: nat, p: nat)
    requires limit > 0 && p <= |view| && Ends(before, view, limit, p)
    ensures var next := NextPosition(before, view, limit, p);
            && Ends(before, view, limit, next)
            && Lowest(before, view, limit, p) == Least(p, Lowest(before, view, limit, next))
  {
    LastStaysLast(before, view, limit, p, |view|, |view| + 1);
    LowestStays(before, view, limit, p, |view|);
  }

  lemma LastIsLowest(before: IdOrder, view: seq<Row>, limit: nat, p: nat)
    requires limit > 0 && p <= |view| && IsLast(view, limit, p)
    ensures Lowest(before, view, limit, p) == p
  {
    LastIsLowestWithin(before, view, limit, p, |view|);
  }

  lemma {:induction false} LastIsLowestWithin(before: IdOrder, view: seq<Row>, limit: nat, p: nat, n: nat)
    requires limit > 0 && p <= |view| && IsLast(view, limit, p)
    ensures LowestWithin(before, view, limit, p, n) == p
    decreases n
  {
    if n > 0 {
      LastIsLowestWithin(before, view, limit, p, n - 1);
    }
  }

  /**
   * From the position `p` the loop that began at `start` still ends, and of the rows it reads `first` is the lowest so
   * far, if it was `low` at the start.
   */
  ghost predicate StillEnds(before: IdOrder, view: seq<Row>, limit: nat, start: nat, low: nat, p: nat, first: nat) {
    && limit > 0 && start <= |view| && p <= |view| && Ends(before, view, limit, p)
    && Least(first, Lowest(before, view, limit, p)) == Least(low, Lowest(before, view, limit, start))
  }

  /** So it does one page further. */
  lemma StillEndsOnwards(
    before: IdOrder, view: seq<Row>, limit: nat, start: nat, low: nat, p: nat, first: nat)
    requires StillEnds(before, view, limit, start, low, p, first) && first <= p
    ensures !IsLast(view, limit, p) ==>
              var next := NextPosition(before, view, limit, p);
              StillEnds(before, view, limit, start, low, next, Least(first, next))
    ensures IsLast(view, limit, p) ==> first == Least(low, Lowest(before, view, limit, start))
  {
    if IsLast(view, limit, p) {
      LastIsLowest(before, view, limit, p);
    } else {
      EndsOnwards(before, view, limit, p);
    }
  }

  /** The rows that the loop reads from the page at `p` on, page after page, `n` pages after that one at most. */
  function RowsRead(before: IdOrder, view: seq<Row>, limit: nat, p: nat, n: nat): seq<Row>
    requires limit > 0 && p <= |view|
    decreases n
  {
    if IsLast(view, limit, p) then view[p..]
    else view[p..p + limit]
         + if n == 0 then [] else RowsRead(before, view, limit, NextPosition(before, view, limit, p), n - 1)
  }

  /** The loop ends within `n` pages after the one at `p`, and reads what of `rows` follows on `seen`. */
  ghost predicate StillReads(
    before: IdOrder, view: seq<Row>, limit: nat, p: nat, n: nat, seen: seq<Row>, rows: seq<Row>)
  {
    && limit > 0 && p <= |view| && EndsWithin(before, view, limit, p, n)
    && seen + RowsRead(before, view, limit, p, n) == rows
  }

  /** So it does one page further. */
  lemma StillReadsOnwards(
    before: IdOrder, view: seq<Row>, limit: nat, p: nat, n: nat, seen: seq<Row>, rows: seq<Row>)
    requires StillReads(before, view, limit, p, n, seen, rows)
    ensures IsLast(view, limit, p) ==> seen + view[p..] == rows
    ensures !IsLast(view, limit, p) ==>
              n > 0 && StillReads(before, view, limit, NextPosition(before, view, limit, p), n - 1,
                                  seen + view[p..p + limit], rows)
  {
    if !IsLast(view, limit, p) {
      var page := view[p..p + limit];
      var rest := RowsRead(before, view, limit, NextPosition(before, view, limit, p), n - 1);
      assert seen + (page + rest) == (seen + page) + rest;
    }
  }

  /** How many of the rows are filtered. */
  function Filtered(rows: seq<Row>): (n: nat)
    ensures n <= |rows|
  {
    if rows == [] then 0
    else Filtered(rows[..|rows| - 1]) + if rows[|rows| - 1].excluded then 1 else 0
  }

  /** Every full page that is read, from the page at `p` on, moves the cursor past the first row of the page. */
  ghost predicate Advances(before: IdOrder, view: seq<Row>, limit: nat, p: nat)
    requires limit > 0 && p <= |view|
    decreases |view| - p
  {
    !IsLast(view, limit, p) ==>
      var next := NextPosition(before, view, limit, p);
      p < next && Advances(before, view, limit, next)
  }

  lemma {:induction false} AdvancesReaches(before: IdOrder, view: seq<Row>, limit: nat, p: nat, n: nat)
    requires limit > 0 && p <= |view| && Advances(before, view, limit, p)
    ensures |view| - p <= n ==> IsLast(view, limit, Orbit(before, view, limit, p, n))
    ensures LowestWithin(before, view, limit, p, n) == p
    decreases n
  {
    if IsLast(view, limit, p) {
      LastStays(before, view, limit, p, n);
      LastIsLowestWithin(before, view, limit, p, n);
    } else if n > 0 {
      AdvancesReaches(before, view, limit, NextPosition(before, view, limit, p), n - 1);
    }
  }

  /** A loop that never moves back ends, and reads no row before its start. */
  lemma AdvancesEnds(before: IdOrder, view: seq<Row>, limit: nat, p: nat)
    requires limit > 0 && p <= |view| && Advances(before, view, limit, p)
    ensures Ends(before, view, limit, p) && Lowest(before, view, limit, p) == p
  {
    AdvancesReaches(before, view, limit, p, |view|);
  }

  /** The full page at `p` reaches into a later millisecond, or ends on a row that a cursor can hold. */
  predicate EndsLater(view: seq<Row>, p: nat, limit: nat)
    requires limit > 0 && p + limit <= |view|
  {
    Truncated(view[p + limit - 1].time) > view[p].time || Representable(view[p + limit - 1])
  }

  lemma {:induction false} LaterPagesAdvance(before: IdOrder, view: seq<Row>, limit: nat, p: nat)
    requires IsStrictOrder(before) && Ordered(before, view) && limit > 0 && p <= |view|
    requires forall i: nat :: p <= i && i + limit <= |view| ==> EndsLater(view, i, limit)
    ensures Advances(before, view, limit, p)
    decreases |view| - p
  {
    if !IsLast(view, limit, p) {
      var q := p + limit - 1;
      assert EndsLater(view, p, limit);
      if Representable(view[q]) {
        CursorPasses(before, view, q);
      } else {
        CursorPassesExactly(before, view, p, q);
      }
      LaterPagesAdvance(before, view, limit, NextPosition(before, view, limit, p));
    }
  }

  lemma OtherPage(before: IdOrder, view: seq<Row>, p: nat, n: nat, limit: nat)
    requires IsStrictOrder(before) && Ordered(before, view) && limit > 0 && p + limit <= |view| && n + limit <= |view|
    requires p != n
    ensures view[p..p + limit] != view[n..n + limit]
  {
    assert view[p..p + limit][0] == view[p] && view[n..n + limit][0] == view[n];
    if n < p {
      assert IsAfter(before, Cursor(view[n].time, view[n].id), view[p]);
    } else {
      assert IsAfter(before, Cursor(view[p].time, view[p].id), view[n]);
    }
  }

  /** The cursor stands right before row `p`. */
  lemma StandsExactly(before: IdOrder, view: seq<Row>, c: Cursor, p: nat)
    requires IsStrictOrder(before) && Ordered(before, view) && p < |view|
    ensures Passed(before, view, c) == p
            <==> IsAfter(before, c, view[p]) && (p > 0 ==> !IsAfter(before, c, view[p - 1]))
  {
    PassedSplits(before, view, c);
  }

  lemma PagesDiffer(before: IdOrder, view: seq<Row>, c: Cursor, d: Cursor, limit: nat)
    requires IsStrictOrder(before) && Ordered(before, view) && limit > 0 && Passed(before, view, c) + limit <= |view|
    ensures ReadPage(before, view, c, limit) == ReadPage(before, view, d, limit) <==>
            Passed(before, view, c) == Passed(before, view, d)
  {
    var p, n := Passed(before, view, c), Passed(before, view, d);
    PassedSplits(before, view, c);
    PassedSplits(before, view, d);
    if p != n && n + limit <= |view| {
      OtherPage(before, view, p, n, limit);
      assert view[p..][..limit] == view[p..p + limit] && view[n..][..limit] == view[n..n + limit];
    }
  }

  /**
   * The period-one case of a loop that does not end: a full page at `p` is read again at once, and so for ever, if and
   * only if the cursor it leaves is before its first row but not before the row in front of that.
   */
  lemma StuckExactly(before: IdOrder, view: seq<Row>, c: Cursor, limit: nat)
    requires IsStrictOrder(before) && Ordered(before, view) && limit > 0 && Passed(before, view, c) + limit <= |view|
    ensures var p := Passed(before, view, c);
            var next := CursorFromRow(view[p + limit - 1]);
            ReadPage(before, view, next, limit) == ReadPage(before, view, c, limit) <==>
              IsAfter(before, next, view[p]) && (p > 0 ==> !IsAfter(before, next, view[p - 1]))
  {
    var p := Passed(before, view, c);
    var next := CursorFromRow(view[p + limit - 1]);
    PagesDiffer(before, view, c, next, limit);
    StandsExactly(before, view, next, p);
  }

  /** A cursor can stand behind the last row. */
  predicate CanBePassed(view: seq<Row>) {
    view != [] ==> Representable(view[|view| - 1])
  }

  /** Two pages that are read in turn for ever, although neither is read twice in a row. */
  lemma PagesAlternate(before: IdOrder) returns (view: seq<Row>)
    requires IsStrictOrder(before)
    requires before("a", "b") && before("b", "c") && before("c", "d") && before("d", "e")
    ensures |view| == 5 && Ordered(before, view) && !Ends(before, view, 3, 1)
    ensures NextPosition(before, view, 3, 1) == 2 && NextPosition(before, view, 3, 2) == 1
  {
    view := [Row("a", 1000, false, 0), Row("c", 1000, false, 0), Row("e", 1000, false, 0),
             Row("d", 1001, false, 0), Row("b", 1002, false, 0)];
    PassedIs(before, view, CursorFromRow(view[3]), 2);
    PassedIs(before, view, CursorFromRow(view[4]), 1);
    Alternates(before, view, 1, 5);
  }

  lemma {:induction false} Alternates(before: IdOrder, view: seq<Row>, p: nat, n: nat)
    requires |view| == 5 && 1 <= p <= 2
    requires NextPosition(before, view, 3, 1) == 2 && NextPosition(before, view, 3, 2) == 1
    ensures 1 <= Orbit(before, view, 3, p, n) <= 2
    decreases n
  {
    if n > 0 {
      Alternates(before, view, NextPosition(before, view, 3, p), n - 1);
    }
  }

  /** Where the cursor stands after a page that is not empty. */
  lemma PageMoves(before: IdOrder, view: seq<Row>, limit: nat, p: nat, page: seq<Row>)
    requires IsStrictOrder(before) && Ordered(before, view) && 0 < |page| <= limit && p + |page| <= |view|
    requires page == view[p..p + |page|] && (|page| < limit ==> p + |page| == |view|)
    ensures var next := Passed(before, view, CursorFromRow(page[|page| - 1]));
            && next <= p + |page|
            && (|page| == limit ==> next == NextPosition(before, view, limit, p))
            && (p + |page| == |view| && CanBePassed(view) ==> next == |view|)
  {
    var q := p + |page| - 1;
    assert page[|page| - 1] == view[q];
    CursorPassesExactly(before, view, p, q);
    if Representable(view[q]) {
      CursorPasses(before, view, q);
    }
  }

  // ----- page limits -----

  /** `rowBatchSize`; None stands for a value that is not a number. */
  function RowBatchSize(parsed: Option<int>): int {
    if parsed.Some? && parsed.value > 0 then (if parsed.value < MAX_PAGE then parsed.value else MAX_PAGE)
    else DEFAULT_BATCH
  }

  /** `safeLimit` of the adapter. */
  function SafeLimit(limit: int): int {
    if limit < 1 then 1 else if limit < MAX_PAGE then limit else MAX_PAGE
  }

  /** The loop's short-page test and the query's LIMIT use the same number: what is asked for, up to 1000, or 200. */
  lemma LimitsAgree(parsed: Option<int>)
    ensures SafeLimit(RowBatchSize(parsed)) == RowBatchSize(parsed) && RowBatchSize(parsed) > 0
    ensures parsed.Some? && 1 <= parsed.value <= 1000 ==> RowBatchSize(parsed) == parsed.value
    ensures parsed.Some? && parsed.value > 1000 ==> RowBatchSize(parsed) == 1000
    ensures parsed.None? || parsed.value < 1 ==> RowBatchSize(parsed) == 200
  {
  }

  /** The page query of the adapter: the rows right behind the cursor, cut at the limit. */
  method FetchPage(before: IdOrder, view: seq<Row>, c: Cursor, limit: nat) returns (page: seq<Row>)
    requires IsStrictOrder(before) && Ordered(before, view)
    ensures var p := Passed(before, view, c);
            && p + |page| <= |view| && page == view[p..p + |page|]
            && |page| <= limit && (|page| < limit ==> p + |page| == |view|)
  {
    page := ReadPage(before, view, c, limit);
    PageIsNext(before, view, c, limit);
  }
}
