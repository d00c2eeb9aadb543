/**
 * Editing the catalog of a rule: alias-only updates keep the stored variants, anything else needs a rule without
 * history.
 */
module CatalogAliases {
  import opened Wrappers
  import opened Counting

  datatype Attribute = Attribute(key: string, labelText: string)

  datatype StoredVariant = StoredVariant(
    id: string, normalizedKey: string, attributeValues: seq<string>, aliases: seq<seq<string>>,
    valueCents: nat, contentName: Option<string>)

  datatype RequestedVariant = RequestedVariant(
    attributeValues: seq<string>, aliases: seq<seq<string>>, valueCents: nat, contentName: Option<string>)

  datatype StoredCatalog = StoredCatalog(
    name: string, productName: string, currency: string, attributes: seq<Attribute>, variants: seq<StoredVariant>)

  datatype RequestedCatalog = RequestedCatalog(
    name: string, productName: string, currency: string, attributes: seq<Attribute>, variants: seq<RequestedVariant>)

  /** `catalogVariantKey`: the normalized attribute values, joined. */
  type KeyOf = seq<string> -> string

  datatype Update = Update(id: string, aliases: seq<seq<string>>)

  // ----- what storage and input validation keep -----

  /** Stored variants have their own ids and their own keys, computed from their values. */
  ghost predicate WellStored(key: KeyOf, variants: seq<StoredVariant>) {
    && (forall i :: 0 <= i < |variants| ==> variants[i].normalizedKey == key(variants[i].attributeValues))
    && (forall i, j :: 0 <= i < j < |variants| ==>
          variants[i].id != variants[j].id && variants[i].normalizedKey != variants[j].normalizedKey)
  }

  /** `assertUniqueCatalogVariants`. */
  ghost predicate UniqueVariants(key: KeyOf, variants: seq<RequestedVariant>) {
    forall i, j :: 0 <= i < j < |variants| ==> key(variants[i].attributeValues) != key(variants[j].attributeValues)
  }

  // ----- computing the updates -----

  /** `currentByKey.get`. */
  function FindByKey(variants: seq<StoredVariant>, normalizedKey: string): (found: Option<StoredVariant>)
    ensures found.Some? ==> found.value in variants && found.value.normalizedKey == normalizedKey
  {
    if variants == [] then None
    else
      var later := FindByKey(variants[1..], normalizedKey);
      if later.Some? then later
      else if variants[0].normalizedKey == normalizedKey then Some(variants[0]) else None
  }

  /** A requested variant differs from the stored one in nothing but its aliases. */
  predicate OnlyAliasesDiffer(v: StoredVariant, r: RequestedVariant) {
    v.valueCents == r.valueCents && v.contentName == r.contentName && v.attributeValues == r.attributeValues
  }

  predicate SameFrame(c: StoredCatalog, r: RequestedCatalog) {
    && c.name == r.name && c.productName == r.productName && c.currency == r.currency
    && c.attributes == r.attributes && |c.variants| == |r.variants|
  }

  /** The updates for a list of requested variants; None when one of them changes more than aliases. */
  function VariantUpdates(key: KeyOf, stored: seq<StoredVariant>,
                          requested: seq<RequestedVariant>): Option<seq<Update>>
  {
    if requested == [] then Some([])
    else
      var last := requested[|requested| - 1];
      var before := VariantUpdates(key, stored, requested[..|requested| - 1]);
      var v := FindByKey(stored, key(last.attributeValues));
      if before.None? || v.None? || !OnlyAliasesDiffer(v.value, last) then None
      else if v.value.aliases == last.aliases then before
      else Some(before.value + [Update(v.value.id, last.aliases)])
  }

  function AliasUpdates(key: KeyOf, c: StoredCatalog, r: RequestedCatalog): Option<seq<Update>> {
    if !SameFrame(c, r) then None else VariantUpdates(key, c.variants, r.variants)
  }

  lemma {:induction false} RefusedPrefixRefusesAll(key: KeyOf, stored: seq<StoredVariant>,
                                                   requested: seq<RequestedVariant>, n: nat)
    requires n <= |requested| && VariantUpdates(key, stored, requested[..n]).None?
    ensures VariantUpdates(key, stored, requested).None?
  {
    if n < |requested| {
      assert requested[..|requested| - 1][..n] == requested[..n];
      RefusedPrefixRefusesAll(key, stored, requested[..|requested| - 1], n);
    } else {
      assert requested[..n] == requested;
    }
  }

  /** `catalogAliasUpdates`: one pass over the requested variants. */
  method CatalogAliasUpdates(key: KeyOf, c: StoredCatalog, r: RequestedCatalog) returns (updates: Option<seq<Update>>)
    ensures updates == AliasUpdates(key, c, r)
  {
    if !SameFrame(c, r) {
      return None;
    }
    var found: seq<Update> := [];
    var i := 0;
    while i < |r.variants|
      invariant i <= |r.variants| && VariantUpdates(key, c.variants, r.variants[..i]) == Some(found)
    {
      var variant := r.variants[i];
      var current := FindByKey(c.variants, key(variant.attributeValues));
      assert r.variants[..i + 1][..i] == r.variants[..i];
      if current.None? || !OnlyAliasesDiffer(current.value, variant) {
        RefusedPrefixRefusesAll(key, c.variants, r.variants, i + 1);
        return None;
      }
      if current.value.aliases != variant.aliases {
        found := found + [Update(current.value.id, variant.aliases)];
      }
      i := i + 1;
    }
    assert r.variants[..|r.variants|] == r.variants;
    updates := Some(found);
  }

  // ----- applying them -----

  function WithAliases(v: StoredVariant, u: Update): StoredVariant {
    if v.id == u.id then v.(aliases := u.aliases) else v
  }

  function ApplyOne(variants: seq<StoredVariant>, u: Update): seq<StoredVariant> {
    seq(|variants|, i requires 0 <= i < |variants| => WithAliases(variants[i], u))
  }

  function ApplyAll(variants: seq<StoredVariant>, updates: seq<Update>): (after: seq<StoredVariant>)
    ensures |after| == |variants|
    decreases |updates|
  {
    if updates == [] then variants
    else ApplyOne(ApplyAll(variants, updates[..|updates| - 1]), updates[|updates| - 1])
  }

  /** The variant is stored as requested. */
  predicate StoredAs(v: StoredVariant, r: RequestedVariant) {
    OnlyAliasesDiffer(v, r) && v.aliases == r.aliases
  }

  /** Nothing but the aliases of a variant changed. */
  predicate Kept(before: StoredVariant, after: StoredVariant) {
    after == before.(aliases := after.aliases)
  }

  lemma {:induction false} ApplyKeeps(variants: seq<StoredVariant>, updates: seq<Update>, i: nat)
    requires i < |variants|
    ensures Kept(variants[i], ApplyAll(variants, updates)[i])
    decreases |updates|
  {
    if updates != [] {
      ApplyKeeps(variants, updates[..|updates| - 1], i);
    }
  }

  /** A variant no update names keeps its aliases. */
  lemma {:induction false} ApplySkips(variants: seq<StoredVariant>, updates: seq<Update>, i: nat)
    requires i < |variants| && forall k :: 0 <= k < |updates| ==> updates[k].id != variants[i].id
    ensures ApplyAll(variants, updates)[i] == variants[i]
    decreases |updates|
  {
    if updates != [] {
      ApplySkips(variants, updates[..|updates| - 1], i);
    }
  }

  /** The stored variant a requested one stands for. */
  predicate StandsFor(key: KeyOf, v: StoredVariant, r: RequestedVariant) {
    v.normalizedKey == key(r.attributeValues)
  }

  lemma {:induction false} FindByKeyFinds(key: KeyOf, variants: seq<StoredVariant>, i: nat)
    requires WellStored(key, variants) && i < |variants|
    ensures FindByKey(variants, variants[i].normalizedKey) == Some(variants[i])
  {
    if i > 0 {
      assert WellStored(key, variants[1..]);
      FindByKeyFinds(key, variants[1..], i - 1);
    }
  }

  /** Every update belongs to one of the requested variants. */
  lemma {:induction false} UpdatesComeFromRequests(key: KeyOf, stored: seq<StoredVariant>,
                                                   requested: seq<RequestedVariant>, k: nat)
    requires VariantUpdates(key, stored, requested).Some? && k < |VariantUpdates(key, stored, requested).value|
    ensures exists i, v :: 0 <= i < |requested| && v in stored && StandsFor(key, v, requested[i])
              && VariantUpdates(key, stored, requested).value[k].id == v.id
  {
    var last := |requested| - 1;
    var before := VariantUpdates(key, stored, requested[..last]).value;
    if k < |before| {
      UpdatesComeFromRequests(key, stored, requested[..last], k);
      var i, v :| 0 <= i < last && v in stored && StandsFor(key, v, requested[..last][i]) && before[k].id == v.id;
      assert requested[..last][i] == requested[i];
    } else {
      var v := FindByKey(stored, key(requested[last].attributeValues)).value;
      assert v in stored && StandsFor(key, v, requested[last]);
    }
  }

  /** The stored variant of a requested one that no update so far names. */
  lemma StoredLater(key: KeyOf, stored: seq<StoredVariant>, requested: seq<RequestedVariant>, q: nat)
    requires WellStored(key, stored) && UniqueVariants(key, requested) && requested != [] && q < |stored|
    requires StandsFor(key, stored[q], requested[|requested| - 1])
    requires VariantUpdates(key, stored, requested[..|requested| - 1]).Some?
    ensures ApplyAll(stored, VariantUpdates(key, stored, requested[..|requested| - 1]).value)[q] == stored[q]
  {
    var last := |requested| - 1;
    var before := VariantUpdates(key, stored, requested[..last]).value;
    forall k | 0 <= k < |before| ensures before[k].id != stored[q].id {
      UpdatesComeFromRequests(key, stored, requested[..last], k);
      var i, v :| 0 <= i < last && v in stored && StandsFor(key, v, requested[..last][i]) && before[k].id == v.id;
      assert key(requested[i].attributeValues) != key(requested[last].attributeValues);
      var p :| 0 <= p < |stored| && stored[p] == v;
      assert p != q;
    }
    ApplySkips(stored, before, q);
  }

  /** Request `i` is stored at position `p` once the updates are applied. */
  ghost predicate StoredAt(key: KeyOf, stored: seq<StoredVariant>, updates: seq<Update>, r: RequestedVariant, p: nat) {
    p < |stored| && StandsFor(key, stored[p], r) && StoredAs(ApplyAll(stored, updates)[p], r)
  }

  lemma LastIsStored(key: KeyOf, stored: seq<StoredVariant>, requested: seq<RequestedVariant>) returns (q: nat)
    requires WellStored(key, stored) && UniqueVariants(key, requested) && requested != []
    requires VariantUpdates(key, stored, requested).Some?
    ensures StoredAt(key, stored, VariantUpdates(key, stored, requested).value, requested[|requested| - 1], q)
  {
    var last := |requested| - 1;
    var v := FindByKey(stored, key(requested[last].attributeValues)).value;
    q :| 0 <= q < |stored| && stored[q] == v;
    StoredLater(key, stored, requested, q);
    var before := VariantUpdates(key, stored, requested[..last]).value;
    LastUpdateReaches(stored, before, v, requested[last], q);
  }

  /** With its last update, if it needs one, a variant is stored as requested. */
  lemma LastUpdateReaches(stored: seq<StoredVariant>, before: seq<Update>, v: StoredVariant, r: RequestedVariant,
                          q: nat)
    requires q < |stored| && stored[q] == v && ApplyAll(stored, before)[q] == v && OnlyAliasesDiffer(v, r)
    ensures var updates := if v.aliases == r.aliases then before else before + [Update(v.id, r.aliases)];
            StoredAs(ApplyAll(stored, updates)[q], r)
  {
    if v.aliases != r.aliases {
      assert (before + [Update(v.id, r.aliases)])[..|before|] == before;
    }
  }

  /** An update for another variant does not disturb a stored one. */
  lemma OtherUpdateKeepsStored(stored: seq<StoredVariant>, before: seq<Update>, u: Update, p: nat)
    requires p < |stored| && stored[p].id != u.id
    ensures ApplyAll(stored, before + [u])[p] == ApplyAll(stored, before)[p]
  {
    assert (before + [u])[..|before|] == before;
    ApplyKeeps(stored, before, p);
  }

  lemma DifferentIds(key: KeyOf, stored: seq<StoredVariant>, p: nat, q: nat)
    requires WellStored(key, stored) && p < |stored| && q < |stored| && p != q
    ensures stored[p].id != stored[q].id
  {
  }

  lemma EarlierStaysStored(key: KeyOf, stored: seq<StoredVariant>, requested: seq<RequestedVariant>, i: nat, p: nat)
    requires WellStored(key, stored) && UniqueVariants(key, requested) && i < |requested| - 1
    requires VariantUpdates(key, stored, requested).Some?
    requires StoredAt(key, stored, VariantUpdates(key, stored, requested[..|requested| - 1]).value, requested[i], p)
    ensures StoredAt(key, stored, VariantUpdates(key, stored, requested).value, requested[i], p)
  {
    var last := |requested| - 1;
    var before := VariantUpdates(key, stored, requested[..last]).value;
    var v := FindByKey(stored, key(requested[last].attributeValues)).value;
    var q :| 0 <= q < |stored| && stored[q] == v;
    assert q != p by {
      assert key(requested[i].attributeValues) != key(requested[last].attributeValues);
    }
    DifferentIds(key, stored, p, q);
    OtherUpdateKeepsStored(stored, before, Update(v.id, requested[last].aliases), p);
  }

  lemma {:induction false} RequestIsStored(key: KeyOf, stored: seq<StoredVariant>, requested: seq<RequestedVariant>,
                                           i: nat)
    returns (p: nat)
    requires WellStored(key, stored) && UniqueVariants(key, requested) && i < |requested|
    requires VariantUpdates(key, stored, requested).Some?
    ensures StoredAt(key, stored, VariantUpdates(key, stored, requested).value, requested[i], p)
    decreases |requested|
  {
    var last := |requested| - 1;
    if i == last {
      p := LastIsStored(key, stored, requested);
    } else {
      var front := requested[..last];
      p := RequestIsStored(key, stored, front, i);
      assert front[i] == requested[i];
      EarlierStaysStored(key, stored, requested, i, p);
    }
  }

  function StoredKeys(stored: seq<StoredVariant>): seq<string> {
    seq(|stored|, i requires 0 <= i < |stored| => stored[i].normalizedKey)
  }

  function RequestedKeys(key: KeyOf, requested: seq<RequestedVariant>): seq<string> {
    seq(|requested|, i requires 0 <= i < |requested| => key(requested[i].attributeValues))
  }

  /** As many requests as stored variants, all with different keys: every stored variant is requested. */
  lemma EveryVariantIsRequested(key: KeyOf, stored: seq<StoredVariant>, requested: seq<RequestedVariant>, p: nat)
    returns (i: nat)
    requires WellStored(key, stored) && UniqueVariants(key, requested) && |stored| == |requested| && p < |stored|
    requires VariantUpdates(key, stored, requested).Some?
    ensures i < |requested| && StandsFor(key, stored[p], requested[i])
  {
    var a, b := RequestedKeys(key, requested), StoredKeys(stored);
    forall x | x in a ensures x in b {
      var k :| 0 <= k < |a| && a[k] == x;
      var q := RequestIsStored(key, stored, requested, k);
      assert b[q] == x;
    }
    DrawnFromAll(a, b);
    assert b[p] in a;
    i :| 0 <= i < |a| && a[i] == b[p];
  }

  ghost predicate IsStoredIn(variants: seq<StoredVariant>, r: RequestedVariant) {
    exists p :: 0 <= p < |variants| && StoredAs(variants[p], r)
  }

  ghost predicate IsRequestedIn(requested: seq<RequestedVariant>, v: StoredVariant) {
    exists i :: 0 <= i < |requested| && StoredAs(v, requested[i])
  }

  /** Stored and requested variants are the same, up to their order and the ids. */
  ghost predicate SameVariants(variants: seq<StoredVariant>, requested: seq<RequestedVariant>) {
    && |variants| == |requested|
    && (forall i :: 0 <= i < |requested| ==> IsStoredIn(variants, requested[i]))
    && (forall p :: 0 <= p < |variants| ==> IsRequestedIn(requested, variants[p]))
  }

  ghost predicate AllKept(before: seq<StoredVariant>, after: seq<StoredVariant>) {
    |before| == |after| && forall p :: 0 <= p < |before| ==> Kept(before[p], after[p])
  }

  /**
   * When alias updates exist, applying them makes the stored catalog equal the requested one up to order, and
   * keeps every id, key, price, name and attribute value.
   */
  lemma AliasUpdatesReachTheRequest(key: KeyOf, c: StoredCatalog, r: RequestedCatalog)
    requires WellStored(key, c.variants) && UniqueVariants(key, r.variants) && AliasUpdates(key, c, r).Some?
    ensures var after := ApplyAll(c.variants, AliasUpdates(key, c, r).value);
            SameVariants(after, r.variants) && AllKept(c.variants, after)
  {
    var after := ApplyAll(c.variants, AliasUpdates(key, c, r).value);
    forall i | 0 <= i < |r.variants| ensures IsStoredIn(after, r.variants[i]) {
      var p := RequestIsStored(key, c.variants, r.variants, i);
    }
    forall p | 0 <= p < |after| ensures IsRequestedIn(r.variants, after[p]) {
      var i := EveryVariantIsRequested(key, c.variants, r.variants, p);
      var q := RequestIsStored(key, c.variants, r.variants, i);
      assert q == p;
    }
    forall p | 0 <= p < |after| ensures Kept(c.variants[p], after[p]) {
      ApplyKeeps(c.variants, AliasUpdates(key, c, r).value, p);
    }
  }

  /** The request can be met by editing nothing but aliases. */
  ghost predicate IsAliasEdit(c: StoredCatalog, r: RequestedCatalog) {
    SameFrame(c, r) && exists after :: AllKept(c.variants, after) && SameVariants(after, r.variants)
  }

  ghost predicate HasMatch(key: KeyOf, stored: seq<StoredVariant>, r: RequestedVariant) {
    var v := FindByKey(stored, key(r.attributeValues));
    v.Some? && OnlyAliasesDiffer(v.value, r)
  }

  lemma {:induction false} MatchesAreUpdated(key: KeyOf, stored: seq<StoredVariant>, requested: seq<RequestedVariant>)
    requires forall i :: 0 <= i < |requested| ==> HasMatch(key, stored, requested[i])
    ensures VariantUpdates(key, stored, requested).Some?
    decreases |requested|
  {
    if requested != [] {
      var front := requested[..|requested| - 1];
      forall i | 0 <= i < |front| ensures HasMatch(key, stored, front[i]) {
        assert front[i] == requested[i];
      }
      MatchesAreUpdated(key, stored, front);
      assert HasMatch(key, stored, requested[|requested| - 1]);
    }
  }

  /** Alias updates exist if and only if the request can be met by editing nothing but aliases. */
  lemma AliasUpdatesExactly(key: KeyOf, c: StoredCatalog, r: RequestedCatalog)
    requires WellStored(key, c.variants) && UniqueVariants(key, r.variants)
    ensures AliasUpdates(key, c, r).Some? <==> IsAliasEdit(c, r)
  {
    if AliasUpdates(key, c, r).Some? {
      AliasUpdatesReachTheRequest(key, c, r);
    } else if IsAliasEdit(c, r) {
      var after :| AllKept(c.variants, after) && SameVariants(after, r.variants);
      forall i | 0 <= i < |r.variants| ensures HasMatch(key, c.variants, r.variants[i]) {
        assert IsStoredIn(after, r.variants[i]);
        var p :| 0 <= p < |after| && StoredAs(after[p], r.variants[i]);
        assert Kept(c.variants[p], after[p]);
        FindByKeyFinds(key, c.variants, p);
      }
      MatchesAreUpdated(key, c.variants, r.variants);
    }
  }

  // ----- the rule's catalog -----

  function StoreVariant(key: KeyOf, r: RequestedVariant, id: string): StoredVariant {
    StoredVariant(id, key(r.attributeValues), r.attributeValues, r.aliases, r.valueCents, r.contentName)
  }

  /** `createCatalog` and `replaceCatalog`: all variants are written anew, under new ids. */
  function Replaced(key: KeyOf, r: RequestedCatalog, newId: nat -> string): StoredCatalog {
    StoredCatalog(r.name, r.productName, r.currency, r.attributes,
                  seq(|r.variants|, i requires 0 <= i < |r.variants| => StoreVariant(key, r.variants[i], newId(i))))
  }

  lemma ReplacedIsRequested(key: KeyOf, r: RequestedCatalog, newId: nat -> string)
    requires UniqueVariants(key, r.variants) && forall i: nat, j: nat :: newId(i) == newId(j) ==> i == j
    ensures WellStored(key, Replaced(key, r, newId).variants)
            && SameVariants(Replaced(key, r, newId).variants, r.variants)
  {
    var variants := Replaced(key, r, newId).variants;
    forall i | 0 <= i < |variants| ensures StoredAs(variants[i], r.variants[i]) {
    }
  }

  lemma KeptStaysWellStored(key: KeyOf, before: seq<StoredVariant>, after: seq<StoredVariant>)
    requires WellStored(key, before) && AllKept(before, after)
    ensures WellStored(key, after)
  {
    assert forall i :: 0 <= i < |before| ==> Kept(before[i], after[i]);
  }

  class RuleCatalog {
    const key: KeyOf
    var catalog: Option<StoredCatalog>
    var executions: nat

    ghost predicate Valid()
      reads this
    {
      catalog.Some? ==> WellStored(key, catalog.value.variants)
    }

    constructor (key: KeyOf)
      ensures Valid() && this.key == key && catalog == None && executions == 0
    {
      this.key, catalog, executions := key, None, 0;
    }

    /**
     * The catalog branch of `updateRule`; false is the refusal for a rule with history. A rule that has
     * executions never sees a price change.
     */
    method UpdateCatalog(r: RequestedCatalog, newId: nat -> string) returns (ok: bool)
      requires Valid() && UniqueVariants(key, r.variants)
      requires forall i: nat, j: nat :: newId(i) == newId(j) ==> i == j
      modifies this`catalog
      ensures Valid()
      ensures ok <==> executions == 0 || (old(catalog).Some? && IsAliasEdit(old(catalog).value, r))
      ensures !ok ==> catalog == old(catalog)
      ensures ok ==> catalog.Some? && SameVariants(catalog.value.variants, r.variants)
      ensures ok && executions > 0 ==>
                old(catalog).Some? && AllKept(old(catalog).value.variants, catalog.value.variants)
                && catalog.value == old(catalog).value.(variants := catalog.value.variants)
    {
      var updates: Option<seq<Update>> := None;
      if catalog.Some? {
        updates := CatalogAliasUpdates(key, catalog.value, r);
        AliasUpdatesExactly(key, catalog.value, r);
      }
      if updates.Some? {
        AliasUpdatesReachTheRequest(key, catalog.value, r);
        var variants := ApplyUpdates(catalog.value.variants, updates.value);
        KeptStaysWellStored(key, catalog.value.variants, variants);
        catalog := Some(catalog.value.(variants := variants));
        return true;
      }
      if executions > 0 {
        return false;
      }
      ReplacedIsRequested(key, r, newId);
      catalog := Some(Replaced(key, r, newId));
      ok := true;
    }

    /** The `updateMany` per update. */
    method ApplyUpdates(variants: seq<StoredVariant>, updates: seq<Update>) returns (after: seq<StoredVariant>)
      ensures after == ApplyAll(variants, updates)
    {
      after := variants;
      var i := 0;
      while i < |updates|
        invariant i <= |updates| && after == ApplyAll(variants, updates[..i])
      {
        after := ApplyOne(after, updates[i]);
        assert updates[..i + 1][..i] == updates[..i];
        i := i + 1;
      }
      assert updates[..|updates|] == updates;
    }

    /** An execution of the rule: from now on the catalog has history. */
    method RecordExecution()
      modifies this`executions
      ensures executions == old(executions) + 1
    {
      executions := executions + 1;
    }
  }
}
