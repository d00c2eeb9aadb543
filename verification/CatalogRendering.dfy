/** Writing items as attribute lines, and reading them back whatever other lines stand in between. */
module CatalogRendering {
  import opened Wrappers
  import opened Decisions
  import opened CatalogLines
  import Text

  /** One line of a written item: which attribute, the blanks after the colon, and the value. */
  datatype Entry = Entry(position: nat, pad: string, value: string)

  /** Labels are non-empty and free of colons, and no two attributes share a key or a normalized name. */
  ghost predicate Legible(normalize: Normalizer, attributes: seq<Attribute>) {
    && (forall p :: 0 <= p < |attributes| ==> attributes[p].labelText != "" && ':' !in attributes[p].labelText)
    && (forall p, q :: 0 <= p < |attributes| && 0 <= q < |attributes| && p != q ==>
          Apart(normalize, attributes[p], attributes[q]))
  }

  predicate Apart(normalize: Normalizer, a: Attribute, b: Attribute) {
    && a.key != b.key
    && normalize(a.labelText) != normalize(b.labelText) && normalize(a.labelText) != normalize(b.key)
  }

  lemma {:induction false} LookupFindsLabel(normalize: Normalizer, attributes: seq<Attribute>, p: nat)
    requires p < |attributes|
    requires forall q :: p < q < |attributes| ==> Apart(normalize, attributes[p], attributes[q])
    ensures var name := normalize(attributes[p].labelText);
            name in Lookup(normalize, attributes) && Lookup(normalize, attributes)[name] == attributes[p].key
  {
    var last := |attributes| - 1;
    if p < last {
      LookupFindsLabel(normalize, attributes[..last], p);
      assert Apart(normalize, attributes[p], attributes[last]);
    }
  }

  lemma {:induction false} PositionOfDistinct(attributes: seq<Attribute>, p: nat)
    requires p < |attributes| && forall q :: 0 <= q < p ==> attributes[q].key != attributes[p].key
    ensures PositionOf(attributes, attributes[p].key) == p
  {
  }

  predicate Writable(attributes: seq<Attribute>, e: Entry) {
    e.position < |attributes| && (forall i :: 0 <= i < |e.pad| ==> Text.IsSpace(e.pad[i])) && Text.Trimmed(e.value)
  }

  function WrittenLine(attributes: seq<Attribute>, e: Entry): string
    requires e.position < |attributes|
  {
    attributes[e.position].labelText + [':'] + (e.pad + e.value)
  }

  lemma RecognizeWritten(normalize: Normalizer, attributes: seq<Attribute>, e: Entry, index: nat)
    requires Legible(normalize, attributes) && Writable(attributes, e)
    ensures Recognize(normalize, Lookup(normalize, attributes), attributes, WrittenLine(attributes, e), index)
            == Some(AttributeLine(index, e.position, attributes[e.position].key, e.value))
  {
    var line := WrittenLine(attributes, e);
    var name := attributes[e.position].labelText;
    Text.IndexOfPrefix(name, ':', e.pad + e.value);
    assert line[..|name|] == name && line[|name| + 1..] == e.pad + e.value;
    Text.TrimOfPadded(e.pad, e.value);
    LookupFindsLabel(normalize, attributes, e.position);
    assert forall q :: 0 <= q < e.position ==> Apart(normalize, attributes[q], attributes[e.position]);
    PositionOfDistinct(attributes, e.position);
  }

  /**
   * From `start` on, the lines that name an attribute are exactly `entries` as written, in order; others are
   * arbitrary.
   */
  ghost predicate Carry(normalize: Normalizer, attributes: seq<Attribute>, lines: seq<string>, start: nat,
                        entries: seq<Entry>)
    requires start <= |lines|
    decreases |lines| - start
  {
    if start == |lines| then entries == []
    else if Recognize(normalize, Lookup(normalize, attributes), attributes, lines[start], start).Some? then
      && entries != [] && Writable(attributes, entries[0]) && lines[start] == WrittenLine(attributes, entries[0])
      && Carry(normalize, attributes, lines, start + 1, entries[1..])
    else Carry(normalize, attributes, lines, start + 1, entries)
  }

  /** The recognized lines say what the entries say. */
  ghost predicate Alike(attributes: seq<Attribute>, found: seq<AttributeLine>, entries: seq<Entry>) {
    && |found| == |entries|
    && forall i :: 0 <= i < |found| ==> AlikeLine(attributes, found[i], entries[i])
  }

  predicate AlikeLine(attributes: seq<Attribute>, a: AttributeLine, e: Entry) {
    e.position < |attributes| && a.position == e.position && a.key == attributes[e.position].key && a.value == e.value
  }

  lemma AlikeCons(attributes: seq<Attribute>, a: AttributeLine, rest: seq<AttributeLine>, entries: seq<Entry>)
    requires entries != [] && AlikeLine(attributes, a, entries[0]) && Alike(attributes, rest, entries[1..])
    ensures Alike(attributes, [a] + rest, entries)
  {
    forall i | 0 <= i < |entries| ensures AlikeLine(attributes, ([a] + rest)[i], entries[i]) {
      if i > 0 {
        assert entries[i] == entries[1..][i - 1];
        assert AlikeLine(attributes, rest[i - 1], entries[1..][i - 1]);
      }
    }
  }

  lemma {:induction false} CarriedLinesAreAlike(
    normalize: Normalizer, attributes: seq<Attribute>, lines: seq<string>, start: nat, entries: seq<Entry>)
    requires Legible(normalize, attributes) && start <= |lines| && Carry(normalize, attributes, lines, start, entries)
    ensures Alike(attributes, AttributeLines(normalize, Lookup(normalize, attributes), attributes, lines, start),
                  entries)
    decreases |lines| - start
  {
    if start < |lines| {
      var lookup := Lookup(normalize, attributes);
      var rest := AttributeLines(normalize, lookup, attributes, lines, start + 1);
      NextLine(normalize, lookup, attributes, lines, start);
      if Recognize(normalize, lookup, attributes, lines[start], start).Some? {
        CarriedLinesAreAlike(normalize, attributes, lines, start + 1, entries[1..]);
        RecognizeWritten(normalize, attributes, entries[0], start);
        AlikeCons(attributes,
                  AttributeLine(start, entries[0].position, attributes[entries[0].position].key, entries[0].value),
                  rest, entries);
      } else {
        CarriedLinesAreAlike(normalize, attributes, lines, start + 1, entries);
        assert [] + rest == rest;
      }
    }
  }

  /** An item that leads with the first attribute and has no attribute twice. */
  predicate LedByFirst(attributes: seq<Attribute>, item: seq<Entry>) {
    && item != [] && item[0].position == 0
    && (forall i :: 0 <= i < |item| ==> item[i].position < |attributes|)
    && (forall i, j :: 0 <= i < j < |item| ==> item[i].position != item[j].position)
  }

  /** The keys and values of an item. */
  function ValuesOf(attributes: seq<Attribute>, item: seq<Entry>): map<string, string>
    requires forall i :: 0 <= i < |item| ==> item[i].position < |attributes|
  {
    if item == [] then map[]
    else
      var last := item[|item| - 1];
      ValuesOf(attributes, item[..|item| - 1])[attributes[last.position].key := last.value]
  }

  lemma {:induction false} AlikeBlockHasValues(attributes: seq<Attribute>, block: seq<AttributeLine>, item: seq<Entry>)
    requires Alike(attributes, block, item) && forall i :: 0 <= i < |item| ==> item[i].position < |attributes|
    ensures ItemOf(block).values == ValuesOf(attributes, item)
  {
    if block != [] {
      var last := |block| - 1;
      assert AlikeLine(attributes, block[last], item[last]);
      AlikeBlockHasValues(attributes, block[..last], item[..last]);
    }
  }

  lemma AlikeBlockIsGood(normalize: Normalizer, attributes: seq<Attribute>, block: seq<AttributeLine>, item: seq<Entry>)
    requires Legible(normalize, attributes) && LedByFirst(attributes, item) && Alike(attributes, block, item)
    ensures GoodBlock(|attributes| == 1, block) && block[0].position == 0
  {
    forall i, j | 0 <= i < j < |block| ensures block[i].key != block[j].key {
      assert AlikeLine(attributes, block[i], item[i]) && AlikeLine(attributes, block[j], item[j]);
      assert Apart(normalize, attributes[item[i].position], attributes[item[j].position]);
    }
    forall i | 0 <= i < |block| ensures block[i].position == item[i].position {
      assert AlikeLine(attributes, block[i], item[i]);
    }
    if |block| > 1 {
      assert item[0].position != item[1].position;
    }
  }

  function Cut(found: seq<AttributeLine>, items: seq<seq<Entry>>): seq<seq<AttributeLine>>
    requires |found| == |Flatten(items)|
  {
    if items == [] then []
    else
      assert |Flatten(items)| == |items[0]| + |Flatten(items[1..])|;
      [found[..|items[0]|]] + Cut(found[|items[0]|..], items[1..])
  }

  lemma CutHead(attributes: seq<Attribute>, found: seq<AttributeLine>, items: seq<seq<Entry>>)
    requires items != [] && Alike(attributes, found, Flatten(items))
    ensures |items[0]| <= |found|
    ensures Alike(attributes, found[..|items[0]|], items[0])
    ensures Alike(attributes, found[|items[0]|..], Flatten(items[1..]))
  {
    var n := |items[0]|;
    var whole := Flatten(items);
    forall i | 0 <= i < n ensures AlikeLine(attributes, found[..n][i], items[0][i]) {
      assert whole[i] == items[0][i];
      assert AlikeLine(attributes, found[i], whole[i]);
    }
    forall i | 0 <= i < |found| - n ensures AlikeLine(attributes, found[n..][i], Flatten(items[1..])[i]) {
      assert whole[n + i] == Flatten(items[1..])[i];
      assert AlikeLine(attributes, found[n + i], whole[n + i]);
    }
  }

  /** The parsed items have the keys and values of the written ones. */
  ghost predicate ReadBack(attributes: seq<Attribute>, raw: seq<RawItem>, items: seq<seq<Entry>>) {
    && |raw| == |items|
    && forall i :: 0 <= i < |items| ==>
         LedByFirst(attributes, items[i]) && raw[i].values == ValuesOf(attributes, items[i])
  }

  lemma BlockJoins(single: bool, first: seq<AttributeLine>, blocks: seq<seq<AttributeLine>>)
    requires GoodBlock(single, first) && WellCut(single, blocks)
    requires blocks != [] ==> blocks[0] != [] && blocks[0][0].position == 0
    ensures WellCut(single, [first] + blocks) && Flatten([first] + blocks) == first + Flatten(blocks)
    ensures ItemsOf([first] + blocks) == [ItemOf(first)] + ItemsOf(blocks)
  {
    assert ([first] + blocks)[1..] == blocks;
  }

  lemma {:induction false} CutIsWellCut(normalize: Normalizer, attributes: seq<Attribute>, found: seq<AttributeLine>,
                                        items: seq<seq<Entry>>)
    requires Legible(normalize, attributes) && Alike(attributes, found, Flatten(items))
    requires forall i :: 0 <= i < |items| ==> LedByFirst(attributes, items[i])
    ensures WellCut(|attributes| == 1, Cut(found, items)) && Flatten(Cut(found, items)) == found
    ensures ReadBack(attributes, ItemsOf(Cut(found, items)), items)
    decreases |items|
  {
    if items != [] {
      var n := |items[0]|;
      CutHead(attributes, found, items);
      var first, blocks := found[..n], Cut(found[n..], items[1..]);
      CutIsWellCut(normalize, attributes, found[n..], items[1..]);
      AlikeBlockIsGood(normalize, attributes, first, items[0]);
      AlikeBlockHasValues(attributes, first, items[0]);
      if |items| > 1 {
        CutHead(attributes, found[n..], items[1..]);
        AlikeBlockIsGood(normalize, attributes, blocks[0], items[1]);
      }
      assert Cut(found, items) == [first] + blocks;
      BlockJoins(|attributes| == 1, first, blocks);
      assert found == first + found[n..];
      CutReadsBack(attributes, first, ItemsOf(blocks), items);
    }
  }

  lemma CutReadsBack(attributes: seq<Attribute>, first: seq<AttributeLine>, rest: seq<RawItem>, items: seq<seq<Entry>>)
    requires items != [] && LedByFirst(attributes, items[0]) && ItemOf(first).values == ValuesOf(attributes, items[0])
    requires ReadBack(attributes, rest, items[1..])
    ensures ReadBack(attributes, [ItemOf(first)] + rest, items)
  {
    forall i | 0 <= i < |items|
      ensures LedByFirst(attributes, items[i]) && ([ItemOf(first)] + rest)[i].values == ValuesOf(attributes, items[i])
    {
      if i > 0 {
        assert items[i] == items[1..][i - 1];
      }
    }
  }

  /**
   * Items written one attribute per line, the first attribute leading, parse back to exactly those items,
   * whatever lines that name no attribute stand in between.
   */
  lemma GroupingRoundTrip(normalize: Normalizer, attributes: seq<Attribute>, lines: seq<string>, items: seq<seq<Entry>>)
    requires Legible(normalize, attributes)
    requires forall i :: 0 <= i < |items| ==> LedByFirst(attributes, items[i])
    requires Carry(normalize, attributes, lines, 0, Flatten(items))
    ensures ReadBack(attributes, RawItems(normalize, attributes, lines), items)
  {
    var found := Found(normalize, attributes, lines);
    CarriedLinesAreAlike(normalize, attributes, lines, 0, Flatten(items));
    CutIsWellCut(normalize, attributes, found, items);
    ItemsPartitionTheLines(normalize, attributes, lines, Cut(found, items));
  }
}
