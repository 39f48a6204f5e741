/** The in-memory item repository of the first version of the service: a
    hash map from id to item and a counter that hands out ids. */
module InMemoryItems {
  import opened Common
  import opened Domain

  /** `isItemSearched`: the item is available and the lower-cased text occurs
      in its lower-cased name or description. */
  predicate IsItemSearched(item: Item, text: string)
  {
    item.available && (Contains(Lower(item.name), Lower(text)) || Contains(Lower(item.description), Lower(text)))
  }

  /** Lower-casing twice is lower-casing once. */
  lemma LowerIdempotent(s: string)
    ensures Lower(Lower(s)) == Lower(s)
  {
    assert forall i :: 0 <= i < |s| ==> Lower(Lower(s))[i] == Lower(s)[i];
  }

  /** The search ignores case: searching for the lower-cased text finds the
      same items as searching for the text. */
  lemma SearchIgnoresCase(item: Item, text: string)
    ensures IsItemSearched(item, Lower(text)) <==> IsItemSearched(item, text)
  {
    LowerIdempotent(text);
  }

  /** An unavailable item is never found, and an available one is found by its own name. */
  lemma SearchFindsAvailableByName(item: Item, text: string)
    ensures !item.available ==> !IsItemSearched(item, text)
    ensures item.available ==> IsItemSearched(item, item.name)
  {
    ContainsEmptyAndSelf(Lower(item.name));
  }

  /** What a walk over the entries of `m` that keeps those whose key is in
      `sel` has produced once the keys `seen` are done: each kept entry of a
      seen key, once, and nothing else. */
  ghost predicate Listed(m: map<int, Item>, sel: set<int>, r: seq<Item>, seen: set<int>)
  {
    && seen <= m.Keys
    && |r| <= |seen|
    && (forall i :: 0 <= i < |r| ==> r[i].id in seen && r[i].id in sel && m[r[i].id] == r[i])
    && (forall i, j :: 0 <= i < j < |r| ==> r[i].id != r[j].id)
    && (forall k :: k in seen && k in sel ==> m[k] in r)
  }

  /** One step of the walk: key `k`, not yet seen, is kept exactly when it is in `sel`. */
  lemma ListedStep(m: map<int, Item>, sel: set<int>, r: seq<Item>, seen: set<int>, k: int)
    requires forall j :: j in m ==> m[j].id == j
    requires Listed(m, sel, r, seen) && k in m && k !in seen
    ensures Listed(m, sel, if k in sel then r + [m[k]] else r, seen + {k})
  {
    var r' := if k in sel then r + [m[k]] else r;
    assert |seen + {k}| == |seen| + 1;
    forall j | j in seen + {k} && j in sel ensures m[j] in r' {
      if j != k {
        assert m[j] in r;
      }
    }
  }

  /** A finished walk lists every kept entry exactly once. */
  lemma ListedAll(m: map<int, Item>, sel: set<int>, r: seq<Item>)
    requires Listed(m, sel, r, m.Keys)
    ensures |r| <= |m|
    ensures forall x :: x in r <==> exists k :: k in m && k in sel && m[k] == x
  {
    assert |m.Keys| == |m|;
    forall x | x in r ensures exists k :: k in m && k in sel && m[k] == x {
      var i :| 0 <= i < |r| && r[i] == x;
      assert x.id in m && x.id in sel && m[x.id] == x;
    }
  }

  class InMemoryItemRepository {
    /** `items`: the stored items by id. */
    var items: map<int, Item>
    /** `id`: the last id handed out. */
    var id: int

    /** Every item is stored under its own id. */
    ghost predicate Valid()
      reads this
    {
      forall k :: k in items ==> items[k].id == k
    }

    constructor ()
      ensures Valid() && items == map[] && id == 0
    {
      items := map[];
      id := 0;
    }

    /** `create`: the counter is incremented first and its new value becomes
        the item's id, under which the item is stored. */
    method Create(item: Item) returns (r: Item)
      requires Valid()
      modifies this
      ensures Valid()
      ensures id == old(id) + 1
      ensures r == item.(id := id)
      ensures items == old(items)[id := r]
    {
      id := id + 1;
      r := item.(id := id);
      items := items[id := r];
    }

    /** `update`: stores the item under its own id, replacing what was there. */
    method Update(item: Item) returns (r: Item)
      requires Valid()
      modifies this
      ensures Valid()
      ensures r == item && items == old(items)[item.id := item] && id == old(id)
    {
      items := items[item.id := item];
      r := item;
    }

    /** `get(id)`. */
    function Get(key: int): (r: Option<Item>)
      reads this
      ensures r.Some? <==> key in items
      ensures r.Some? ==> r.value == items[key]
    {
      if key in items then Some(items[key]) else None
    }

    /** `getByUserId`: the stored items of the owner, each once, in the map's
        iteration order (which the model leaves open). */
    method GetByUserId(userId: int) returns (r: seq<Item>)
      requires Valid()
      ensures |r| <= |items|
      ensures forall i, j :: 0 <= i < j < |r| ==> r[i].id != r[j].id
      ensures forall x :: x in r <==> exists k :: k in items && items[k] == x && x.owner.id == userId
    {
      ghost var sel := set k | k in items && items[k].owner.id == userId;
      var keys := items.Keys;
      ghost var seen: set<int> := {};
      r := [];
      while keys != {}
        invariant keys !! seen && keys + seen == items.Keys
        invariant Listed(items, sel, r, seen)
        decreases |keys|
      {
        NonEmptyHasElement(keys);
        var k :| k in keys;
        ListedStep(items, sel, r, seen, k);
        MoveKey(keys, seen, items.Keys, k);
        if items[k].owner.id == userId {
          r := r + [items[k]];
        }
        keys := keys - {k};
        seen := seen + {k};
      }
      assert seen == items.Keys;
      ListedAll(items, sel, r);
    }

    /** `getBySearchText`: nothing for blank text; otherwise the stored items
        `isItemSearched` accepts, each once, in the map's iteration order. */
    method GetBySearchText(text: string) returns (r: seq<Item>)
      requires Valid()
      ensures IsBlank(text) ==> r == []
      ensures |r| <= |items|
      ensures forall i, j :: 0 <= i < j < |r| ==> r[i].id != r[j].id
      ensures forall x :: x in r <==> !IsBlank(text) && exists k :: k in items && items[k] == x && IsItemSearched(x, text)
    {
      if IsBlank(text) {
        return [];
      }
      ghost var sel := set k | k in items && IsItemSearched(items[k], text);
      var keys := items.Keys;
      ghost var seen: set<int> := {};
      r := [];
      while keys != {}
        invariant keys !! seen && keys + seen == items.Keys
        invariant Listed(items, sel, r, seen)
        decreases |keys|
      {
        NonEmptyHasElement(keys);
        var k :| k in keys;
        ListedStep(items, sel, r, seen, k);
        MoveKey(keys, seen, items.Keys, k);
        if IsItemSearched(items[k], text) {
          r := r + [items[k]];
        }
        keys := keys - {k};
        seen := seen + {k};
      }
      assert seen == items.Keys;
      ListedAll(items, sel, r);
    }

    /** `delete`: false and no change when the id is absent; otherwise the
        entry is removed and the answer is true. */
    method Delete(itemId: int) returns (r: bool)
      requires Valid()
      modifies this
      ensures Valid()
      ensures r <==> itemId in old(items)
      ensures items == old(items) - {itemId} && id == old(id)
      ensures !r ==> items == old(items)
    {
      if itemId !in items {
        return false;
      }
      items := items - {itemId};
      r := true;
    }

    /** `resetData`: the counter goes back to 1, so the next item gets id 2,
        and the map is emptied. */
    method ResetData()
      modifies this
      ensures Valid()
      ensures items == map[] && id == 1
    {
      id := 1;
      items := map[];
    }
  }
}
