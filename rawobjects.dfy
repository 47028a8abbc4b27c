/** Object inventory and top-level object diff: each key of an old and a new
    raw object is deleted, added, type-changed, modified or unchanged. Member
    values are compared byte for byte, never parsed further. */
module RawObjects {
  import opened Json
  import opened Tally
  import opened Enumerations

  /** `inv` maps exactly the object's keys, each to the kind of its value. */
  predicate IsInventory(lib: Decoder, obj: RawObject, inv: map<string, string>) {
    && inv.Keys == obj.Keys
    && forall k :: k in obj ==> inv[k] == KindOf(lib, obj[k])
  }

  /** RawObject.Inventory: classifies each member, key by key. */
  method Inventory(lib: Decoder, obj: RawObject) returns (inv: map<string, string>)
    ensures IsInventory(lib, obj, inv)
  {
    inv := map[];
    var todo := obj.Keys;
    while todo != {}
      invariant todo <= obj.Keys
      invariant inv.Keys == obj.Keys - todo
      invariant forall k :: k in inv ==> inv[k] == KindOf(lib, obj[k])
      decreases |todo|
    {
      var k :| k in todo;
      inv := inv[k := KindOf(lib, obj[k])];
      todo := todo - {k};
    }
  }

  /** An inventory holds a proper kind for every key exactly when every
      member is valid JSON; otherwise the failed members show Go's zero
      string. */
  lemma InventoryComplete(lib: Decoder, obj: RawObject, inv: map<string, string>)
    requires IsInventory(lib, obj, inv)
    ensures (forall k :: k in obj ==> lib.valid(obj[k])) <==> (forall k :: k in inv ==> inv[k] in Kinds)
    ensures forall k :: k in inv ==> inv[k] in Kinds || inv[k] == ""
  {
    assert "" !in Kinds;
  }

  /** Keys of the old object missing from the new one. */
  function Deleted(o: RawObject, n: RawObject): (ks: set<string>) {
    set k | k in o && k !in n
  }

  /** Keys of the new object missing from the old one. */
  function Added(o: RawObject, n: RawObject): (ks: set<string>) {
    set k | k in n && k !in o
  }

  /** Shared keys whose values have different kinds. */
  function TypeChanged(lib: Decoder, o: RawObject, n: RawObject): (ks: set<string>) {
    set k | k in o && k in n && KindOf(lib, o[k]) != KindOf(lib, n[k])
  }

  /** Shared keys whose values have the same kind but different bytes. */
  function Modified(lib: Decoder, o: RawObject, n: RawObject): (ks: set<string>) {
    set k | k in o && k in n && KindOf(lib, o[k]) == KindOf(lib, n[k]) && o[k] != n[k]
  }

  /** The four key lists of RawObject.Diff (Go returns them in a map under
      "added", "deleted", "modified" and "typechanged"). */
  datatype DiffResult = DiffResult(
    added: seq<string>,
    deleted: seq<string>,
    modified: seq<string>,
    typechanged: seq<string>)

  /** Each list names its category's keys once each, in some order. */
  predicate IsDiff(lib: Decoder, o: RawObject, n: RawObject, d: DiffResult) {
    && Enumerates(d.added, Added(o, n))
    && Enumerates(d.deleted, Deleted(o, n))
    && Enumerates(d.modified, Modified(lib, o, n))
    && Enumerates(d.typechanged, TypeChanged(lib, o, n))
  }

  const Categories: set<string> := {"added", "deleted", "modified", "typechanged"}

  /** A counter map keyed by category names only, each present only once it
      has been counted. */
  predicate IsCounterMap(c: map<string, nat>) {
    && c.Keys <= Categories
    && forall cat :: cat in c ==> c[cat] > 0
  }

  /** Go's `diff[cat] += 1` keeps a counter map a counter map. */
  lemma CounterBump(c: map<string, nat>, cat: string)
    requires IsCounterMap(c) && cat in Categories
    ensures IsCounterMap(Bump(c, cat))
  {
  }

  /** The counter map of RawObject.DiffCount: each counter equals the size of
      its category. */
  predicate IsDiffCount(lib: Decoder, o: RawObject, n: RawObject, c: map<string, nat>) {
    && IsCounterMap(c)
    && Count(c, "added") == |Added(o, n)|
    && Count(c, "deleted") == |Deleted(o, n)|
    && Count(c, "modified") == |Modified(lib, o, n)|
    && Count(c, "typechanged") == |TypeChanged(lib, o, n)|
  }

  /** Taking key `k` off the to-do list moves it, if it belongs to category
      `cat`, into the part of `cat` already visited. */
  lemma Visit(cat: set<string>, todo: set<string>, k: string)
    requires k in todo
    ensures |cat - (todo - {k})| == |cat - todo| + (if k in cat then 1 else 0)
  {
    if k in cat {
      assert cat - (todo - {k}) == (cat - todo) + {k};
    } else {
      assert cat - (todo - {k}) == cat - todo;
    }
  }

  /** The same step for a listing of the visited part of `cat`: a key of
      `cat` is appended, any other key leaves the listing as it is. */
  lemma VisitListing(s: seq<string>, cat: set<string>, todo: set<string>, k: string)
    requires k in todo && Enumerates(s, cat - todo)
    ensures k in cat ==> Enumerates(s + [k], cat - (todo - {k}))
    ensures k !in cat ==> Enumerates(s, cat - (todo - {k}))
  {
    if k in cat {
      EnumeratesAppend(s, cat - todo, k);
      assert cat - (todo - {k}) == (cat - todo) + {k};
    } else {
      assert cat - (todo - {k}) == cat - todo;
    }
  }

  /** What Diff's pass over the old keys keeps: each list names the keys of
      its category already visited, those still in `todo` aside. */
  predicate ListingOldKeys(lib: Decoder, o: RawObject, n: RawObject, todo: set<string>,
                           del: seq<string>, typ: seq<string>, mod: seq<string>) {
    && todo <= o.Keys
    && Enumerates(del, Deleted(o, n) - todo)
    && Enumerates(typ, TypeChanged(lib, o, n) - todo)
    && Enumerates(mod, Modified(lib, o, n) - todo)
  }

  /** Appending `k` to the list of its category, if any, keeps the pass's
      invariant. */
  lemma ListOldKeysStep(lib: Decoder, o: RawObject, n: RawObject, todo: set<string>, k: string,
                        del: seq<string>, typ: seq<string>, mod: seq<string>,
                        del': seq<string>, typ': seq<string>, mod': seq<string>)
    requires ListingOldKeys(lib, o, n, todo, del, typ, mod) && k in todo
    requires del' == if k in Deleted(o, n) then del + [k] else del
    requires typ' == if k in TypeChanged(lib, o, n) then typ + [k] else typ
    requires mod' == if k in Modified(lib, o, n) then mod + [k] else mod
    ensures ListingOldKeys(lib, o, n, todo - {k}, del', typ', mod')
  {
    VisitListing(del, Deleted(o, n), todo, k);
    VisitListing(typ, TypeChanged(lib, o, n), todo, k);
    VisitListing(mod, Modified(lib, o, n), todo, k);
  }

  /** One round of Diff's pass over the old keys: `k` is appended to the list
      of the category it falls into, the other lists stay. */
  method ListOldKey(lib: Decoder, o: RawObject, n: RawObject, k: string,
                    del: seq<string>, typ: seq<string>, mod: seq<string>)
    returns (del': seq<string>, typ': seq<string>, mod': seq<string>)
    requires k in o
    ensures del' == if k in Deleted(o, n) then del + [k] else del
    ensures typ' == if k in TypeChanged(lib, o, n) then typ + [k] else typ
    ensures mod' == if k in Modified(lib, o, n) then mod + [k] else mod
  {
    del', typ', mod' := del, typ, mod;
    if k !in n {
      del' := del + [k];
    } else {
      var ot, nt := KindOf(lib, o[k]), KindOf(lib, n[k]);
      if ot != nt {
        typ' := typ + [k];
      } else if o[k] != n[k] {
        mod' := mod + [k];
      }
    }
  }

  /** RawObject.Diff: one pass over the old keys sorts them into deleted,
      type-changed, modified or unchanged; one pass over the new keys collects
      the added ones. */
  method Diff(lib: Decoder, o: RawObject, n: RawObject) returns (d: DiffResult)
    ensures IsDiff(lib, o, n, d)
  {
    var add, del, mod, typ := [], [], [], [];
    DiffBounds(lib, o, n, add, del, mod, typ);

    var todo := o.Keys;
    while todo != {}
      invariant ListingOldKeys(lib, o, n, todo, del, typ, mod)
      decreases |todo|
    {
      var k :| k in todo;
      ghost var del0, typ0, mod0 := del, typ, mod;
      del, typ, mod := ListOldKey(lib, o, n, k, del, typ, mod);
      ListOldKeysStep(lib, o, n, todo, k, del0, typ0, mod0, del, typ, mod);
      todo := todo - {k};
    }

    todo := n.Keys;
    while todo != {}
      invariant todo <= n.Keys
      invariant Enumerates(add, Added(o, n) - todo)
      decreases |todo|
    {
      var k :| k in todo;
      VisitListing(add, Added(o, n), todo, k);
      if k !in o {
        add := add + [k];
      }
      todo := todo - {k};
    }

    DiffBounds(lib, o, n, add, del, mod, typ);
    d := DiffResult(add, del, mod, typ);
  }

  /** Before the passes all four lists are empty and list nothing; after
      them each lists its whole category. */
  lemma DiffBounds(lib: Decoder, o: RawObject, n: RawObject,
                   add: seq<string>, del: seq<string>, mod: seq<string>, typ: seq<string>)
    ensures ListingOldKeys(lib, o, n, o.Keys, [], [], []) && Enumerates([], Added(o, n) - n.Keys)
    ensures ListingOldKeys(lib, o, n, {}, del, typ, mod) && Enumerates(add, Added(o, n) - {})
        ==> IsDiff(lib, o, n, DiffResult(add, del, mod, typ))
  {
    assert Deleted(o, n) - o.Keys == {};
    assert TypeChanged(lib, o, n) - o.Keys == {};
    assert Modified(lib, o, n) - o.Keys == {};
    assert Added(o, n) - n.Keys == {};
  }

  /** RawObject.DiffCount: the same two passes, incrementing a counter per
      category instead of listing keys. */
  method DiffCount(lib: Decoder, o: RawObject, n: RawObject) returns (diff: map<string, nat>)
    ensures IsDiffCount(lib, o, n, diff)
  {
    diff := CountOldKeys(lib, o, n);
    diff := CountNewKeys(o, n, diff);
  }

  /** DiffCount's pass over the old keys: counts the deleted, type-changed
      and modified ones. */
  method CountOldKeys(lib: Decoder, o: RawObject, n: RawObject) returns (diff: map<string, nat>)
    ensures IsCounterMap(diff) && "added" !in diff
    ensures Count(diff, "deleted") == |Deleted(o, n)|
    ensures Count(diff, "typechanged") == |TypeChanged(lib, o, n)|
    ensures Count(diff, "modified") == |Modified(lib, o, n)|
  {
    diff := map[];
    var todo := o.Keys;
    while todo != {}
      invariant CountingOldKeys(lib, o, n, todo, diff)
      decreases |todo|
    {
      var k :| k in todo;
      ghost var before := diff;
      diff := CountOldKey(lib, o, n, k, diff);
      CountOldKeysStep(lib, o, n, todo, k, before, diff);
      todo := todo - {k};
    }
  }

  /** What the pass over the old keys keeps: each counter counts the keys of
      its category already visited, those still in `todo` aside. */
  predicate CountingOldKeys(lib: Decoder, o: RawObject, n: RawObject, todo: set<string>,
                            diff: map<string, nat>) {
    && todo <= o.Keys
    && IsCounterMap(diff) && "added" !in diff
    && Count(diff, "deleted") == |Deleted(o, n) - todo|
    && Count(diff, "typechanged") == |TypeChanged(lib, o, n) - todo|
    && Count(diff, "modified") == |Modified(lib, o, n) - todo|
  }

  /** A round of CountOldKey keeps the pass's invariant. */
  lemma CountOldKeysStep(lib: Decoder, o: RawObject, n: RawObject, todo: set<string>, k: string,
                         diff: map<string, nat>, diff': map<string, nat>)
    requires CountingOldKeys(lib, o, n, todo, diff) && k in todo
    requires IsCounterMap(diff') && "added" !in diff'
    requires Count(diff', "deleted") == Count(diff, "deleted") + (if k in Deleted(o, n) then 1 else 0)
    requires Count(diff', "typechanged")
          == Count(diff, "typechanged") + (if k in TypeChanged(lib, o, n) then 1 else 0)
    requires Count(diff', "modified") == Count(diff, "modified") + (if k in Modified(lib, o, n) then 1 else 0)
    ensures CountingOldKeys(lib, o, n, todo - {k}, diff')
  {
    Visit(Deleted(o, n), todo, k);
    Visit(TypeChanged(lib, o, n), todo, k);
    Visit(Modified(lib, o, n), todo, k);
  }

  /** DiffCount's pass over the new keys: counts the added ones on top of
      the counters of the first pass. */
  method CountNewKeys(o: RawObject, n: RawObject, diff0: map<string, nat>) returns (diff: map<string, nat>)
    requires IsCounterMap(diff0) && "added" !in diff0
    ensures IsCounterMap(diff)
    ensures Count(diff, "added") == |Added(o, n)|
    ensures Count(diff, "deleted") == Count(diff0, "deleted")
    ensures Count(diff, "typechanged") == Count(diff0, "typechanged")
    ensures Count(diff, "modified") == Count(diff0, "modified")
  {
    diff := diff0;
    var todo := n.Keys;
    while todo != {}
      invariant todo <= n.Keys
      invariant IsCounterMap(diff)
      invariant Count(diff, "added") == |Added(o, n) - todo|
      invariant Count(diff, "deleted") == Count(diff0, "deleted")
      invariant Count(diff, "typechanged") == Count(diff0, "typechanged")
      invariant Count(diff, "modified") == Count(diff0, "modified")
      decreases |todo|
    {
      var k :| k in todo;
      Visit(Added(o, n), todo, k);
      diff := CountNewKey(o, n, k, diff);
      todo := todo - {k};
    }
  }

  /** One round of DiffCount's pass over the old keys: the counter of the
      category `k` falls into goes up by one, the others stay. */
  method CountOldKey(lib: Decoder, o: RawObject, n: RawObject, k: string, diff: map<string, nat>)
    returns (diff': map<string, nat>)
    requires k in o && IsCounterMap(diff) && "added" !in diff
    ensures IsCounterMap(diff') && "added" !in diff'
    ensures Count(diff', "deleted") == Count(diff, "deleted") + (if k in Deleted(o, n) then 1 else 0)
    ensures Count(diff', "typechanged")
         == Count(diff, "typechanged") + (if k in TypeChanged(lib, o, n) then 1 else 0)
    ensures Count(diff', "modified") == Count(diff, "modified") + (if k in Modified(lib, o, n) then 1 else 0)
  {
    diff' := diff;
    if k !in n {
      CounterBump(diff, "deleted");
      diff' := Bump(diff, "deleted");
    } else {
      var ot, nt := KindOf(lib, o[k]), KindOf(lib, n[k]);
      if ot != nt {
        CounterBump(diff, "typechanged");
        diff' := Bump(diff, "typechanged");
      } else if o[k] != n[k] {
        CounterBump(diff, "modified");
        diff' := Bump(diff, "modified");
      }
    }
  }

  /** One round of DiffCount's pass over the new keys: the added counter goes
      up by one exactly when `k` is added, the others stay. */
  method CountNewKey(o: RawObject, n: RawObject, k: string, diff: map<string, nat>)
    returns (diff': map<string, nat>)
    requires k in n && IsCounterMap(diff)
    ensures IsCounterMap(diff')
    ensures Count(diff', "added") == Count(diff, "added") + (if k in Added(o, n) then 1 else 0)
    ensures Count(diff', "deleted") == Count(diff, "deleted")
    ensures Count(diff', "typechanged") == Count(diff, "typechanged")
    ensures Count(diff', "modified") == Count(diff, "modified")
  {
    diff' := diff;
    if k !in o {
      CounterBump(diff, "added");
      diff' := Bump(diff, "added");
    }
  }

  /** Every key of either object lands in exactly one category, or in none
      exactly when both objects hold the same bytes under it. */
  lemma DiffPartitionsKeys(lib: Decoder, o: RawObject, n: RawObject, k: string)
    requires k in o || k in n
    ensures k in Deleted(o, n) ==> k !in Added(o, n) && k !in TypeChanged(lib, o, n) && k !in Modified(lib, o, n)
    ensures k in Added(o, n) ==> k !in TypeChanged(lib, o, n) && k !in Modified(lib, o, n)
    ensures k in TypeChanged(lib, o, n) ==> k !in Modified(lib, o, n)
    ensures (k !in Deleted(o, n) + Added(o, n) + TypeChanged(lib, o, n) + Modified(lib, o, n))
        <==> (k in o && k in n && o[k] == n[k])
  {
  }

  /** The lists Diff returns are pairwise disjoint. */
  lemma DiffListsDisjoint(lib: Decoder, o: RawObject, n: RawObject, d: DiffResult)
    requires IsDiff(lib, o, n, d)
    ensures Elems(d.added) !! Elems(d.deleted) && Elems(d.added) !! Elems(d.modified)
    ensures Elems(d.added) !! Elems(d.typechanged) && Elems(d.deleted) !! Elems(d.modified)
    ensures Elems(d.deleted) !! Elems(d.typechanged) && Elems(d.modified) !! Elems(d.typechanged)
  {
  }

  /** Diffing an object against itself reports nothing. */
  lemma DiffOfSelfIsEmpty(lib: Decoder, o: RawObject, d: DiffResult)
    requires IsDiff(lib, o, o, d)
    ensures d == DiffResult([], [], [], [])
  {
    assert Added(o, o) == {} && Deleted(o, o) == {};
    assert Modified(lib, o, o) == {} && TypeChanged(lib, o, o) == {};
    EnumeratesEmpty(d.added);
    EnumeratesEmpty(d.deleted);
    EnumeratesEmpty(d.modified);
    EnumeratesEmpty(d.typechanged);
  }

  /** Diffing in the other direction swaps added and deleted and keeps the
      other two categories. */
  lemma DiffReversed(lib: Decoder, o: RawObject, n: RawObject, d: DiffResult, r: DiffResult)
    requires IsDiff(lib, o, n, d) && IsDiff(lib, n, o, r)
    ensures Elems(r.added) == Elems(d.deleted) && Elems(r.deleted) == Elems(d.added)
    ensures Elems(r.modified) == Elems(d.modified) && Elems(r.typechanged) == Elems(d.typechanged)
  {
  }

  /** DiffCount and Diff agree: each counter is the length of the matching
      list, an absent counter standing for zero. */
  lemma DiffCountMatchesDiff(lib: Decoder, o: RawObject, n: RawObject, d: DiffResult, c: map<string, nat>)
    requires IsDiff(lib, o, n, d) && IsDiffCount(lib, o, n, c)
    ensures Count(c, "added") == |d.added|
    ensures Count(c, "deleted") == |d.deleted|
    ensures Count(c, "modified") == |d.modified|
    ensures Count(c, "typechanged") == |d.typechanged|
  {
    EnumeratesLength(d.added, Added(o, n));
    EnumeratesLength(d.deleted, Deleted(o, n));
    EnumeratesLength(d.modified, Modified(lib, o, n));
    EnumeratesLength(d.typechanged, TypeChanged(lib, o, n));
  }

  /** Both objects share the same keys, so what is deleted from the old one
      and added to the new one accounts for the difference in their sizes. */
  lemma DiffCountBalance(lib: Decoder, o: RawObject, n: RawObject, c: map<string, nat>)
    requires IsDiffCount(lib, o, n, c)
    ensures |o| + Count(c, "added") == |n| + Count(c, "deleted")
  {
    KeysBalance(o, n);
  }

  /** The keys of each object are its own keys plus the shared ones. */
  lemma KeysBalance(o: RawObject, n: RawObject)
    ensures |o| + |Added(o, n)| == |n| + |Deleted(o, n)|
  {
    SplitSize(o.Keys, n.Keys);
    SplitSize(n.Keys, o.Keys);
    assert Deleted(o, n) == o.Keys - n.Keys;
    assert Added(o, n) == n.Keys - o.Keys;
    assert o.Keys * n.Keys == n.Keys * o.Keys;
  }

  /** A set splits into the part outside another set and the part inside. */
  lemma SplitSize(all: set<string>, other: set<string>)
    ensures |all| == |all - other| + |all * other|
  {
    assert all == (all - other) + (all * other);
  }

  /** The type changes are exactly the shared keys on which the two
      inventories disagree. */
  lemma TypeChangedFromInventories(lib: Decoder, o: RawObject, n: RawObject,
                                   oldInv: map<string, string>, newInv: map<string, string>)
    requires IsInventory(lib, o, oldInv) && IsInventory(lib, n, newInv)
    ensures TypeChanged(lib, o, n) == set k | k in oldInv && k in newInv && oldInv[k] != newInv[k]
  {
  }
}
