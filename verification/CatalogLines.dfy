/** Grouping the attribute lines of a message into items. */
module CatalogLines {
  import opened Wrappers
  import opened Decisions
  import Text

  /** Stands for the Unicode normalization of labels and values. */
  type Normalizer = string -> string

  /** A line that names a catalog attribute. */
  datatype AttributeLine = AttributeLine(line: nat, position: nat, key: string, value: string)

  /** One item under construction; its present keys are the keys of `values`. */
  datatype RawItem = RawItem(values: map<string, string>, lines: seq<nat>)

  const EMPTY_ITEM := RawItem(map[], [])

  // ----- recognizing attribute lines -----

  /** The map built by `attributeLookup`: of two attributes with one normalized name the later one wins. */
  function Lookup(normalize: Normalizer, attributes: seq<Attribute>): map<string, string> {
    if attributes == [] then map[]
    else
      var last := attributes[|attributes| - 1];
      var before := Lookup(normalize, attributes[..|attributes| - 1]);
      before[normalize(last.labelText) := last.key][normalize(last.key) := last.key]
  }

  method AttributeLookup(normalize: Normalizer, attributes: seq<Attribute>) returns (lookup: map<string, string>)
    ensures lookup == Lookup(normalize, attributes)
  {
    lookup := map[];
    var i := 0;
    while i < |attributes|
      invariant i <= |attributes|
      invariant lookup == Lookup(normalize, attributes[..i])
    {
      lookup := lookup[normalize(attributes[i].labelText) := attributes[i].key];
      lookup := lookup[normalize(attributes[i].key) := attributes[i].key];
      assert attributes[..i + 1][..i] == attributes[..i];
      i := i + 1;
    }
    assert attributes[..|attributes|] == attributes;
  }

  /** Index of the first attribute with this key; |attributes| when there is none. */
  function PositionOf(attributes: seq<Attribute>, key: string): (p: nat)
    ensures p <= |attributes|
    ensures p < |attributes| ==> attributes[p].key == key
    ensures forall i :: 0 <= i < p ==> attributes[i].key != key
  {
    if attributes == [] then 0
    else if attributes[0].key == key then 0
    else 1 + PositionOf(attributes[1..], key)
  }

  /** The attribute a line carries: the text before its first colon must name one. */
  function Recognize(normalize: Normalizer, lookup: map<string, string>, attributes: seq<Attribute>, line: string,
                     index: nat): (found: Option<AttributeLine>)
    ensures found.Some? ==> found.value.line == index
  {
    var separator := Text.IndexOf(line, ':');
    if separator < 1 then None
    else
      var name := normalize(line[..separator]);
      if name !in lookup then None
      else Some(AttributeLine(index, PositionOf(attributes, lookup[name]), lookup[name],
                              Text.Trim(line[separator + 1..])))
  }

  /** The attribute lines among the lines from `start` on, in order. */
  function AttributeLines(normalize: Normalizer, lookup: map<string, string>, attributes: seq<Attribute>,
                          lines: seq<string>, start: nat): seq<AttributeLine>
    requires start <= |lines|
    decreases |lines| - start
  {
    if start == |lines| then []
    else
      var found := Recognize(normalize, lookup, attributes, lines[start], start);
      (if found.Some? then [found.value] else []) + AttributeLines(normalize, lookup, attributes, lines, start + 1)
  }

  // ----- grouping them -----

  /** Whether an attribute line opens a new item: it is the first attribute, or repeats one of the open item. */
  predicate Opens(open: Option<RawItem>, a: AttributeLine) {
    a.position == 0 || (open.Some? && a.key in open.value.values)
  }

  function Extend(open: Option<RawItem>, a: AttributeLine): RawItem {
    var item := if open.Some? then open.value else EMPTY_ITEM;
    RawItem(item.values[a.key := a.value], item.lines + [a.line])
  }

  function Closed(open: Option<RawItem>): seq<RawItem> {
    if open.Some? && open.value.values != map[] then [open.value] else []
  }

  /**
   * The items of a list of attribute lines, given the item that is open; `single` when the catalog has one attribute.
   */
  function Group(single: bool, open: Option<RawItem>, found: seq<AttributeLine>): seq<RawItem>
    decreases |found|
  {
    if found == [] then Closed(open)
    else
      var before := if Opens(open, found[0]) then Closed(open) else [];
      var item := Extend(if Opens(open, found[0]) then None else open, found[0]);
      if single then before + Closed(Some(item)) + Group(single, None, found[1..])
      else before + Group(single, Some(item), found[1..])
  }

  function Found(normalize: Normalizer, attributes: seq<Attribute>, lines: seq<string>): seq<AttributeLine> {
    AttributeLines(normalize, Lookup(normalize, attributes), attributes, lines, 0)
  }

  function RawItems(normalize: Normalizer, attributes: seq<Attribute>, lines: seq<string>): seq<RawItem> {
    Group(|attributes| == 1, None, Found(normalize, attributes, lines))
  }

  function LineIndexes(found: seq<AttributeLine>): set<nat> {
    set a | a in found :: a.line
  }

  /** The finished items and the item left open by one attribute line. */
  function Take(single: bool, open: Option<RawItem>, a: AttributeLine): (seq<RawItem>, Option<RawItem>) {
    var finished := if Opens(open, a) then Closed(open) else [];
    var item := Extend(if Opens(open, a) then None else open, a);
    if single then (finished + Closed(Some(item)), None) else (finished, Some(item))
  }

  /** The items so far and those of the remaining lines are all there are. */
  ghost predicate Progress(single: bool, items: seq<RawItem>, open: Option<RawItem>, rest: seq<AttributeLine>,
                           whole: seq<AttributeLine>)
  {
    items + Group(single, open, rest) == Group(single, None, whole)
  }

  lemma ProgressStep(
    single: bool, items: seq<RawItem>, open: Option<RawItem>, a: AttributeLine, rest: seq<AttributeLine>,
    whole: seq<AttributeLine>)
    requires Progress(single, items, open, [a] + rest, whole)
    ensures Progress(single, items + Take(single, open, a).0, Take(single, open, a).1, rest, whole)
  {
    assert ([a] + rest)[1..] == rest;
  }

  /** What `parseRawItems` does with one attribute line. */
  method TakeLine(single: bool, items: seq<RawItem>, open: Option<RawItem>, a: AttributeLine)
    returns (done: seq<RawItem>, current: Option<RawItem>)
    ensures done == items + Take(single, open, a).0 && current == Take(single, open, a).1
  {
    done, current := items, open;
    var repeatsCurrent := current.Some? && a.key in current.value.values;
    if a.position == 0 || repeatsCurrent {
      done := done + Closed(current);
      current := None;
    }
    if current.None? {
      current := Some(EMPTY_ITEM);
    }
    current := Some(RawItem(current.value.values[a.key := a.value], current.value.lines + [a.line]));
    if single {
      done := done + Closed(current);
      current := None;
    }
  }

  lemma NextLine(normalize: Normalizer, lookup: map<string, string>, attributes: seq<Attribute>, lines: seq<string>,
                 i: nat)
    requires i < |lines|
    ensures var found := Recognize(normalize, lookup, attributes, lines[i], i);
            AttributeLines(normalize, lookup, attributes, lines, i)
            == (if found.Some? then [found.value] else []) + AttributeLines(normalize, lookup, attributes, lines, i + 1)
  {
  }

  /** `parseRawItems`: one pass over the lines, with one item open at a time. */
  method ParseRawItems(normalize: Normalizer, attributes: seq<Attribute>, lines: seq<string>)
    returns (items: seq<RawItem>, attributeLines: set<nat>)
    ensures items == RawItems(normalize, attributes, lines)
    ensures attributeLines == LineIndexes(Found(normalize, attributes, lines))
  {
    var lookup := AttributeLookup(normalize, attributes);
    var single := |attributes| == 1;
    var current: Option<RawItem> := None;
    ghost var whole := AttributeLines(normalize, lookup, attributes, lines, 0);
    items, attributeLines := [], {};
    var i := 0;
    while i < |lines|
      invariant i <= |lines|
      invariant Progress(single, items, current, AttributeLines(normalize, lookup, attributes, lines, i), whole)
      invariant attributeLines + LineIndexes(AttributeLines(normalize, lookup, attributes, lines, i))
                == LineIndexes(whole)
    {
      var found := Recognize(normalize, lookup, attributes, lines[i], i);
      ghost var rest := AttributeLines(normalize, lookup, attributes, lines, i + 1);
      NextLine(normalize, lookup, attributes, lines, i);
      if found.Some? {
        ProgressStep(single, items, current, found.value, rest, whole);
        LineIndexesStep(found.value, rest);
        attributeLines := attributeLines + {i};
        items, current := TakeLine(single, items, current, found.value);
      } else {
        assert [] + rest == rest;
      }
      i := i + 1;
    }
    items := items + Closed(current);
  }

  lemma LineIndexesStep(a: AttributeLine, rest: seq<AttributeLine>)
    ensures LineIndexes([a] + rest) == {a.line} + LineIndexes(rest)
  {
    forall n ensures n in LineIndexes([a] + rest) <==> n == a.line || n in LineIndexes(rest) {
      if n == a.line {
        assert a in [a] + rest;
      }
      if n in LineIndexes(rest) {
        var b :| b in rest && b.line == n;
        assert b in [a] + rest;
      }
    }
  }

  // ----- what the grouping is -----

  predicate HasKey(block: seq<AttributeLine>, key: string) {
    exists i :: 0 <= i < |block| && block[i].key == key
  }

  function ItemOf(block: seq<AttributeLine>): RawItem {
    if block == [] then EMPTY_ITEM
    else
      var item := ItemOf(block[..|block| - 1]);
      var last := block[|block| - 1];
      RawItem(item.values[last.key := last.value], item.lines + [last.line])
  }

  function ItemsOf(blocks: seq<seq<AttributeLine>>): seq<RawItem> {
    if blocks == [] then [] else [ItemOf(blocks[0])] + ItemsOf(blocks[1..])
  }

  function Flatten<T>(blocks: seq<seq<T>>): seq<T> {
    if blocks == [] then [] else blocks[0] + Flatten(blocks[1..])
  }

  predicate OpensBlock(open: seq<AttributeLine>, a: AttributeLine) {
    a.position == 0 || HasKey(open, a.key)
  }

  function Finished(open: seq<AttributeLine>): seq<seq<AttributeLine>> {
    if open == [] then [] else [open]
  }

  /** The runs of attribute lines that make up the items. */
  function Blocks(single: bool, open: seq<AttributeLine>, found: seq<AttributeLine>): seq<seq<AttributeLine>>
    decreases |found|
  {
    if found == [] then Finished(open)
    else
      var a := found[0];
      var finished := if OpensBlock(open, a) then Finished(open) else [];
      var block := (if OpensBlock(open, a) then [] else open) + [a];
      if single then finished + [block] + Blocks(single, [], found[1..])
      else finished + Blocks(single, block, found[1..])
  }

  function OpenItem(open: seq<AttributeLine>): Option<RawItem> {
    if open == [] then None else Some(ItemOf(open))
  }

  lemma {:induction false} KeysOfItem(block: seq<AttributeLine>, key: string)
    ensures key in ItemOf(block).values <==> HasKey(block, key)
  {
    if block != [] {
      var front := block[..|block| - 1];
      KeysOfItem(front, key);
      if HasKey(front, key) {
        var i :| 0 <= i < |front| && front[i].key == key;
        assert block[i].key == key;
      }
      if HasKey(block, key) {
        var i :| 0 <= i < |block| && block[i].key == key;
        assert i < |front| ==> front[i].key == key;
      }
    }
  }

  lemma ClosedBlockIsClosedItem(open: seq<AttributeLine>)
    ensures Closed(OpenItem(open)) == ItemsOf(Finished(open))
  {
    if open != [] {
      KeysOfItem(open, open[0].key);
    }
  }

  lemma OpenBlockIsOpenItem(open: seq<AttributeLine>, a: AttributeLine)
    ensures Opens(OpenItem(open), a) <==> OpensBlock(open, a)
    ensures Extend(OpenItem(open), a) == ItemOf(open + [a])
    ensures Extend(None, a) == ItemOf([a])
    ensures Closed(OpenItem(open)) == ItemsOf(Finished(open))
  {
    ClosedBlockIsClosedItem(open);
    KeysOfItem(open, a.key);
    assert (open + [a])[..|open|] == open;
    assert [a][..0] == [];
  }

  lemma {:induction false} ItemsOfConcat(a: seq<seq<AttributeLine>>, b: seq<seq<AttributeLine>>)
    ensures ItemsOf(a + b) == ItemsOf(a) + ItemsOf(b)
  {
    if a == [] {
      assert a + b == b;
    } else {
      assert (a + b)[1..] == a[1..] + b;
      ItemsOfConcat(a[1..], b);
    }
  }

  lemma {:induction false} GroupIsBlocks(single: bool, open: seq<AttributeLine>, found: seq<AttributeLine>)
    ensures Group(single, OpenItem(open), found) == ItemsOf(Blocks(single, open, found))
    decreases |found|
  {
    if found == [] {
      OpenBlockIsOpenItem(open, AttributeLine(0, 0, "", ""));
    } else {
      var a := found[0];
      OpenBlockIsOpenItem(open, a);
      var finished := if OpensBlock(open, a) then Finished(open) else [];
      var block := (if OpensBlock(open, a) then [] else open) + [a];
      assert [] + [a] == [a];
      if single {
        OpenBlockIsOpenItem(block, a);
        GroupIsBlocks(single, [], found[1..]);
        ItemsOfConcat(finished + [block], Blocks(single, [], found[1..]));
        ItemsOfConcat(finished, [block]);
      } else {
        GroupIsBlocks(single, block, found[1..]);
        ItemsOfConcat(finished, Blocks(single, block, found[1..]));
      }
    }
  }

  /** The lines of one item: distinct attributes, the first attribute of the catalog only in the lead. */
  predicate GoodBlock(single: bool, block: seq<AttributeLine>) {
    && block != []
    && (forall i, j :: 0 <= i < j < |block| ==> block[i].key != block[j].key)
    && (forall i :: 0 < i < |block| ==> block[i].position != 0)
    && (single ==> |block| == 1)
  }

  /** A new item starts only where the old one could not go on. */
  predicate Breaks(single: bool, before: seq<AttributeLine>, a: AttributeLine) {
    single || OpensBlock(before, a)
  }

  predicate WellCut(single: bool, blocks: seq<seq<AttributeLine>>) {
    blocks != [] ==>
      && GoodBlock(single, blocks[0])
      && (|blocks| > 1 ==> blocks[1] != [] && Breaks(single, blocks[0], blocks[1][0]))
      && WellCut(single, blocks[1..])
  }

  lemma {:induction false} BlocksStart(single: bool, open: seq<AttributeLine>, found: seq<AttributeLine>)
    requires open != [] || found != []
    requires single ==> open == []
    ensures var blocks := Blocks(single, open, found);
            blocks != [] && blocks[0] != [] && blocks[0][0] == (open + found)[0]
    decreases |found|
  {
    if found != [] && !single && !OpensBlock(open, found[0]) {
      BlocksStart(single, open + [found[0]], found[1..]);
    } else if found != [] && !single && open == [] {
      BlocksStart(single, [] + [found[0]], found[1..]);
    }
  }

  lemma FlattenOne(block: seq<AttributeLine>, rest: seq<seq<AttributeLine>>)
    ensures Flatten([block] + rest) == block + Flatten(rest)
    ensures Flatten(Finished(block) + rest) == block + Flatten(rest)
  {
    assert ([block] + rest)[1..] == rest;
    assert [] + rest == rest;
    assert [] + Flatten(rest) == Flatten(rest);
  }

  lemma {:induction false} SingleBlocksFlatten(found: seq<AttributeLine>)
    ensures Flatten(Blocks(true, [], found)) == found
    decreases |found|
  {
    if found != [] {
      var rest := Blocks(true, [], found[1..]);
      SingleBlocksFlatten(found[1..]);
      assert Blocks(true, [], found) == [[found[0]]] + rest by {
        assert [] + [found[0]] == [found[0]];
        assert [] + [[found[0]]] + rest == [[found[0]]] + rest;
      }
      FlattenOne([found[0]], rest);
    }
  }

  lemma BlocksUnfold(open: seq<AttributeLine>, a: AttributeLine, rest: seq<AttributeLine>)
    ensures Blocks(false, open, [a] + rest)
            == if OpensBlock(open, a) then Finished(open) + Blocks(false, [a], rest)
            else Blocks(false, open + [a], rest)
  {
    var found := [a] + rest;
    assert found[0] == a && found[1..] == rest;
    assert [] + [a] == [a];
    assert [] + Blocks(false, open + [a], rest) == Blocks(false, open + [a], rest);
  }

  lemma {:induction false} ManyBlocksFlatten(open: seq<AttributeLine>, found: seq<AttributeLine>)
    ensures Flatten(Blocks(false, open, found)) == open + found
    decreases |found|
  {
    if found == [] {
      FlattenOne(open, []);
      assert Finished(open) + [] == Finished(open);
    } else {
      var a, rest := found[0], found[1..];
      assert found == [a] + rest;
      BlocksUnfold(open, a, rest);
      if OpensBlock(open, a) {
        ManyBlocksFlatten([a], rest);
        FlattenOne(open, Blocks(false, [a], rest));
      } else {
        ManyBlocksFlatten(open + [a], rest);
        assert (open + [a]) + rest == open + ([a] + rest);
      }
    }
  }

  lemma {:induction false} BlocksAreWellCut(single: bool, open: seq<AttributeLine>, found: seq<AttributeLine>)
    requires open == [] || (!single && GoodBlock(single, open))
    ensures WellCut(single, Blocks(single, open, found))
    decreases |found|
  {
    if found == [] {
      assert open == [] || [open][1..] == [];
    } else {
      var a, tail := found[0], found[1..];
      if single {
        var rest := Blocks(single, [], tail);
        BlocksAreWellCut(single, [], tail);
        if tail != [] {
          BlocksStart(single, [], tail);
        }
        assert Blocks(single, open, found) == [[a]] + rest by {
          assert [] + [a] == [a];
          assert [] + [[a]] + rest == [[a]] + rest;
        }
        assert ([[a]] + rest)[1..] == rest;
      } else if OpensBlock(open, a) {
        var rest := Blocks(single, [a], tail);
        assert [] + [a] == [a];
        BlocksAreWellCut(single, [a], tail);
        BlocksStart(single, [a], tail);
        if open != [] {
          assert ([open] + rest)[1..] == rest;
        } else {
          assert [] + rest == rest;
        }
      } else {
        ExtendGoodBlock(open, a);
        BlocksAreWellCut(single, open + [a], tail);
        assert [] + Blocks(single, open + [a], tail) == Blocks(single, open + [a], tail);
      }
    }
  }

  lemma ExtendGoodBlock(open: seq<AttributeLine>, a: AttributeLine)
    requires (open == [] || GoodBlock(false, open)) && !OpensBlock(open, a)
    ensures GoodBlock(false, open + [a])
  {
  }

  /** A good continuation of the open block stays in it. */
  lemma {:induction false} BlocksContinue(open: seq<AttributeLine>, more: seq<AttributeLine>, rest: seq<AttributeLine>)
    requires open != [] && GoodBlock(false, open + more)
    ensures Blocks(false, open, more + rest) == Blocks(false, open + more, rest)
    decreases |more|
  {
    if more == [] {
      assert more + rest == rest && open + more == open;
    } else {
      var block := open + more;
      assert block[|open|] == more[0];
      assert !OpensBlock(open, more[0]) by {
        assert forall i :: 0 <= i < |open| ==> block[i] == open[i];
      }
      assert (more + rest)[1..] == more[1..] + rest;
      assert (open + [more[0]]) + more[1..] == block;
      BlocksContinue(open + [more[0]], more[1..], rest);
    }
  }

  /** The cut is unique: any well-cut list of blocks is found again from its lines. */
  lemma {:induction false} CutIsUnique(single: bool, blocks: seq<seq<AttributeLine>>)
    requires WellCut(single, blocks)
    ensures Blocks(single, [], Flatten(blocks)) == blocks
  {
    if blocks != [] {
      CutIsUnique(single, blocks[1..]);
      var first, rest := blocks[0], Flatten(blocks[1..]);
      assert first == [first[0]] + first[1..];
      assert Flatten(blocks) == [first[0]] + (first[1..] + rest);
      assert Flatten(blocks)[1..] == first[1..] + rest;
      if single {
        assert first[1..] + rest == rest;
        assert [] + [first[0]] == first;
        assert [] + [first] + blocks[1..] == blocks;
      } else {
        assert [] + [first[0]] == [first[0]];
        BlocksContinue([first[0]], first[1..], rest);
        NextBlock(first, blocks[1..]);
      }
    }
  }

  lemma NextBlock(first: seq<AttributeLine>, blocks: seq<seq<AttributeLine>>)
    requires first != [] && Blocks(false, [], Flatten(blocks)) == blocks
    requires blocks != [] ==> blocks[0] != [] && Breaks(false, first, blocks[0][0])
    ensures Blocks(false, first, Flatten(blocks)) == [first] + blocks
  {
    if blocks != [] {
      var rest := Flatten(blocks);
      assert rest[0] == blocks[0][0];
      assert Blocks(false, [], rest) == Blocks(false, [rest[0]], rest[1..]) by {
        assert [] + [rest[0]] == [rest[0]];
        assert [] + Blocks(false, [rest[0]], rest[1..]) == Blocks(false, [rest[0]], rest[1..]);
      }
    }
  }

  /**
   * The items of any message: consecutive, non-empty runs of its attribute lines, all of them and in order, no
   * attribute twice in one item, each new item opened by the first attribute or a repetition. No other list of
   * runs has these properties.
   */
  lemma ItemsPartitionTheLines(normalize: Normalizer, attributes: seq<Attribute>, lines: seq<string>,
                               blocks: seq<seq<AttributeLine>>)
    ensures var single := |attributes| == 1;
            var found := Found(normalize, attributes, lines);
            WellCut(single, blocks) && Flatten(blocks) == found <==> blocks == Blocks(single, [], found)
    ensures RawItems(normalize, attributes, lines)
            == ItemsOf(Blocks(|attributes| == 1, [], Found(normalize, attributes, lines)))
  {
    var single := |attributes| == 1;
    var found := Found(normalize, attributes, lines);
    GroupIsBlocks(single, [], found);
    BlocksAreWellCut(single, [], found);
    if single {
      SingleBlocksFlatten(found);
    } else {
      ManyBlocksFlatten([], found);
      assert [] + found == found;
    }
    if WellCut(single, blocks) && Flatten(blocks) == found {
      CutIsUnique(single, blocks);
    }
  }
}
