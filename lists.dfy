/**
 * The list and item records of the notes app and the pure transforms that
 * firebase-service.js applies to a list's embedded `items` array before it
 * writes the whole array back (map, filter, find and spread expressions).
 */
module Lists {

  datatype Option<T> = None | Some(value: T)

  type ListId = string
  type ItemId = string

  /** An entry embedded in a list document. */
  datatype Item = Item(id: ItemId, text: string, completed: bool, order: int, createdAt: int)

  /** A list document under users/{uid}/lists/{id}. */
  datatype List = List(
    id: ListId,
    name: string,
    icon: string,
    items: seq<Item>,
    order: int,
    createdAt: int,
    updatedAt: int)

  /** The partial update object spread over an item by updateItem (the app sends `text` or `completed`). */
  datatype ItemPatch = ItemPatch(text: Option<string>, completed: Option<bool>)

  /** The pin emoji used when a list has no icon. */
  const DefaultIcon: string := "\U{1F4CC}"

  function Ids(items: seq<Item>): (r: seq<ItemId>)
    ensures |r| == |items|
    ensures forall i :: 0 <= i < |items| ==> r[i] == items[i].id
  {
    seq(|items|, i requires 0 <= i < |items| => items[i].id)
  }

  /** No two items of the array share an id (the source does not enforce this: ids come from the clock or an import). */
  predicate DistinctIds(items: seq<Item>) {
    forall i, j :: 0 <= i < j < |items| ==> items[i].id != items[j].id
  }

  /** `items.findIndex(i => i.id === id)`: the first position holding `id`, or -1. */
  function FindIndex(items: seq<Item>, id: ItemId): (k: int)
    ensures -1 <= k < |items|
    ensures k == -1 <==> id !in Ids(items)
    ensures k >= 0 ==> items[k].id == id && forall j :: 0 <= j < k ==> items[j].id != id
  {
    if items == [] then -1
    else if items[0].id == id then 0
    else
      var rest := items[1..];
      var k := FindIndex(rest, id);
      assert Ids(items) == [items[0].id] + Ids(rest);
      assert forall j :: 1 <= j < |items| ==> items[j] == rest[j - 1];
      if k == -1 then -1 else k + 1
  }

  /** `r` is `s` with some elements deleted, the others left in their relative order. */
  ghost predicate IsSubsequence(r: seq<Item>, s: seq<Item>)
    decreases |s|
  {
    r == [] || (s != [] && ((r[0] == s[0] && IsSubsequence(r[1..], s[1..])) || IsSubsequence(r, s[1..])))
  }

  /** `s.filter(keep)`. */
  function Filter(s: seq<Item>, keep: Item -> bool): seq<Item> {
    if s == [] then []
    else if keep(s[0]) then [s[0]] + Filter(s[1..], keep)
    else Filter(s[1..], keep)
  }

  /** What a filter promises: only kept elements remain, each with its multiplicity, in their original order. */
  lemma {:induction false} FilterSpec(s: seq<Item>, keep: Item -> bool)
    ensures var r := Filter(s, keep);
      && |r| <= |s|
      && (forall x :: x in r <==> x in s && keep(x))
      && (forall x :: multiset(r)[x] == if keep(x) then multiset(s)[x] else 0)
      && IsSubsequence(r, s)
  {
    if s != [] {
      FilterSpec(s[1..], keep);
      assert s == [s[0]] + s[1..];
    }
  }

  /** The filter predicate `item => item.id !== itemId`. */
  function OtherThan(itemId: ItemId): Item -> bool {
    (x: Item) => x.id != itemId
  }

  /** The filter predicate `item => !itemIds.includes(item.id)`. */
  function NotAmong(itemIds: seq<ItemId>): Item -> bool {
    (x: Item) => x.id !in itemIds
  }

  /** The filter predicate `item => !item.completed`. */
  function Uncompleted(): Item -> bool {
    (x: Item) => !x.completed
  }

  /** deleteItem's new array, also the source side of moveItem: every item with that id is gone, the rest keep their order. */
  function RemoveItem(items: seq<Item>, itemId: ItemId): (r: seq<Item>)
    ensures forall x :: x in r <==> x in items && x.id != itemId
    ensures forall x: Item :: x.id != itemId ==> multiset(r)[x] == multiset(items)[x]
    ensures itemId !in Ids(r)
    ensures IsSubsequence(r, items) && |r| <= |items|
  {
    FilterSpec(items, OtherThan(itemId));
    var r := Filter(items, OtherThan(itemId));
    assert forall i :: 0 <= i < |r| ==> r[i] in r;
    r
  }

  /** deleteItems' new array: no item whose id is in `itemIds` is left, the rest keep their order. */
  function RemoveItems(items: seq<Item>, itemIds: seq<ItemId>): (r: seq<Item>)
    ensures forall x :: x in r <==> x in items && x.id !in itemIds
    ensures forall x: Item :: x.id !in itemIds ==> multiset(r)[x] == multiset(items)[x]
    ensures forall i :: 0 <= i < |r| ==> r[i].id !in itemIds
    ensures IsSubsequence(r, items) && |r| <= |items|
  {
    FilterSpec(items, NotAmong(itemIds));
    var r := Filter(items, NotAmong(itemIds));
    assert forall i :: 0 <= i < |r| ==> r[i] in r;
    r
  }

  /** clearCompletedItems' new array: no completed item is left and every uncompleted one stays, in order. */
  function ClearCompleted(items: seq<Item>): (r: seq<Item>)
    ensures forall x :: x in r <==> x in items && !x.completed
    ensures forall x: Item :: !x.completed ==> multiset(r)[x] == multiset(items)[x]
    ensures forall i :: 0 <= i < |r| ==> !r[i].completed
    ensures IsSubsequence(r, items) && |r| <= |items|
  {
    FilterSpec(items, Uncompleted());
    var r := Filter(items, Uncompleted());
    assert forall i :: 0 <= i < |r| ==> r[i] in r;
    r
  }

  predicate HasCompleted(items: seq<Item>) {
    exists i :: 0 <= i < |items| && items[i].completed
  }

  /** `{ ...item, ...updates }`. */
  function Patch(item: Item, patch: ItemPatch): (r: Item)
    ensures r.id == item.id && r.order == item.order && r.createdAt == item.createdAt
    ensures r.text == (if patch.text.Some? then patch.text.value else item.text)
    ensures r.completed == (if patch.completed.Some? then patch.completed.value else item.completed)
    ensures patch == ItemPatch(None, None) ==> r == item
  {
    item.(text := if patch.text.Some? then patch.text.value else item.text,
          completed := if patch.completed.Some? then patch.completed.value else item.completed)
  }

  /** updateItem's new array: the matching items are patched in place, nothing moves, an unknown id changes nothing. */
  function UpdateItems(items: seq<Item>, itemId: ItemId, patch: ItemPatch): (r: seq<Item>)
    ensures |r| == |items|
    ensures forall i :: 0 <= i < |items| ==> r[i].id == items[i].id && r[i].order == items[i].order
    ensures forall i :: 0 <= i < |items| && items[i].id != itemId ==> r[i] == items[i]
    ensures forall i :: 0 <= i < |items| && items[i].id == itemId ==> r[i] == Patch(items[i], patch)
    ensures itemId !in Ids(items) ==> r == items
  {
    seq(|items|, i requires 0 <= i < |items| => if items[i].id == itemId then Patch(items[i], patch) else items[i])
  }

  /** toggleItemsCompletion's new array: `completed` is set on exactly the named items, nothing else changes. */
  function SetCompletion(items: seq<Item>, itemIds: seq<ItemId>, completed: bool): (r: seq<Item>)
    ensures |r| == |items|
    ensures forall i :: 0 <= i < |items| ==> r[i].(completed := items[i].completed) == items[i]
    ensures forall i :: 0 <= i < |items| ==> r[i].completed == if items[i].id in itemIds then completed else items[i].completed
  {
    seq(|items|, i requires 0 <= i < |items| => if items[i].id in itemIds then items[i].(completed := completed) else items[i])
  }

  /** The record `{ ...undefined, order: index }` that reorderItems writes for an id that names no item. */
  function Blank(order: int): Item {
    Item("", "", false, order, 0)
  }

  /** reorderItems' new array, driven by the supplied id sequence: entry `i` is the first item with id `itemsOrder[i]`, renumbered to `i`. */
  function ReorderItems(items: seq<Item>, itemsOrder: seq<ItemId>): (r: seq<Item>)
    ensures |r| == |itemsOrder|
    ensures forall i :: 0 <= i < |r| ==> r[i].order == i
    ensures forall i :: 0 <= i < |r| && itemsOrder[i] in Ids(items) ==>
      var k := FindIndex(items, itemsOrder[i]);
      && r[i].id == itemsOrder[i]
      && r[i] == items[k].(order := i)
      && forall j :: 0 <= j < k ==> items[j].id != itemsOrder[i]
    ensures forall i :: 0 <= i < |r| && itemsOrder[i] !in Ids(items) ==> r[i] == Blank(i)
  {
    seq(|itemsOrder|, i requires 0 <= i < |itemsOrder| =>
      var k := FindIndex(items, itemsOrder[i]);
      if k >= 0 then items[k].(order := i) else Blank(i))
  }

  /** The item addItem appends: not completed, numbered after the existing items. */
  function NewItem(id: ItemId, text: string, createdAt: int, items: seq<Item>): (r: Item)
    ensures r.id == id && r.text == text && r.createdAt == createdAt
    ensures !r.completed
    ensures r.order == |items|
  {
    Item(id, text, false, |items|, createdAt)
  }

  /** The two arrays moveItem writes back. */
  datatype Moved = Moved(from: seq<Item>, to: seq<Item>)

  /** moveItem's computation: the first item with `itemId` leaves the source and is appended to the destination, renumbered. */
  function MoveItems(fromItems: seq<Item>, toItems: seq<Item>, itemId: ItemId): (r: Option<Moved>)
    ensures r.None? <==> itemId !in Ids(fromItems)
    ensures r.Some? ==>
      && r.value.from == RemoveItem(fromItems, itemId)
      && |r.value.to| == |toItems| + 1
      && r.value.to[..|toItems|] == toItems
      && r.value.to[|toItems|] == fromItems[FindIndex(fromItems, itemId)].(order := |toItems|)
  {
    var k := FindIndex(fromItems, itemId);
    if k < 0 then None
    else Some(Moved(RemoveItem(fromItems, itemId), toItems + [fromItems[k].(order := |toItems|)]))
  }

  // ---------------------------------------------------------------- lemmas

  lemma {:induction false} FilterAppend(s: seq<Item>, t: seq<Item>, keep: Item -> bool)
    ensures Filter(s + t, keep) == Filter(s, keep) + Filter(t, keep)
  {
    if s == [] {
      assert s + t == t;
    } else {
      assert (s + t)[0] == s[0] && (s + t)[1..] == s[1..] + t;
      FilterAppend(s[1..], t, keep);
    }
  }

  lemma {:induction false} FilterKeepsAll(s: seq<Item>, keep: Item -> bool)
    requires forall i :: 0 <= i < |s| ==> keep(s[i])
    ensures Filter(s, keep) == s
  {
    if s != [] {
      FilterKeepsAll(s[1..], keep);
    }
  }

  /** Deleting the item just added gives back the array as it was before the add. */
  lemma DeleteUndoesAdd(items: seq<Item>, added: Item)
    requires added.id !in Ids(items)
    ensures RemoveItem(items + [added], added.id) == items
  {
    FilterAppend(items, [added], OtherThan(added.id));
    forall i | 0 <= i < |items| ensures OtherThan(added.id)(items[i]) {
      assert Ids(items)[i] == items[i].id;
    }
    FilterKeepsAll(items, OtherThan(added.id));
    assert Filter([added], OtherThan(added.id)) == [];
  }

  /** When ids are distinct, removing a present id shortens the array by exactly one. */
  lemma {:induction false} RemovePresentDropsOne(items: seq<Item>, itemId: ItemId)
    requires DistinctIds(items)
    requires itemId in Ids(items)
    ensures |RemoveItem(items, itemId)| == |items| - 1
  {
    var rest := items[1..];
    assert Ids(items) == [items[0].id] + Ids(rest);
    assert DistinctIds(rest) by {
      forall i, j | 0 <= i < j < |rest| ensures rest[i].id != rest[j].id {
        assert rest[i] == items[i + 1] && rest[j] == items[j + 1];
      }
    }
    if items[0].id == itemId {
      forall i | 0 <= i < |rest| ensures OtherThan(itemId)(rest[i]) {
        assert rest[i] == items[i + 1];
      }
      FilterKeepsAll(rest, OtherThan(itemId));
      assert RemoveItem(items, itemId) == Filter(rest, OtherThan(itemId));
    } else {
      RemovePresentDropsOne(rest, itemId);
      assert RemoveItem(items, itemId) == [items[0]] + RemoveItem(rest, itemId);
    }
  }

  /** moveItem neither creates nor loses items: the two lists together hold as many as before. */
  lemma MoveKeepsTotal(fromItems: seq<Item>, toItems: seq<Item>, itemId: ItemId)
    requires DistinctIds(fromItems)
    requires MoveItems(fromItems, toItems, itemId).Some?
    ensures var m := MoveItems(fromItems, toItems, itemId).value;
      |m.from| + |m.to| == |fromItems| + |toItems|
  {
    RemovePresentDropsOne(fromItems, itemId);
  }

  /** Moving an item from A to B and back again puts it back in A, at the end and numbered by its position. */
  lemma MoveThereAndBack(a: seq<Item>, b: seq<Item>, itemId: ItemId)
    requires itemId in Ids(a) && itemId !in Ids(b)
    ensures var there := MoveItems(a, b, itemId).value;
      var back := MoveItems(there.to, there.from, itemId);
      && back.Some?
      && back.value.from == b
      && back.value.to == RemoveItem(a, itemId) + [a[FindIndex(a, itemId)].(order := |RemoveItem(a, itemId)|)]
  {
    var there := MoveItems(a, b, itemId).value;
    var x := a[FindIndex(a, itemId)].(order := |b|);
    assert there.to == b + [x];
    assert Ids(there.to)[|b|] == itemId;
    assert FindIndex(there.to, itemId) == |b|;
    DeleteUndoesAdd(b, x);
  }

  /** When every supplied id names an item, entry `i` carries id `itemsOrder[i]` and order `i`; items not named are dropped. */
  lemma ReorderNamed(items: seq<Item>, itemsOrder: seq<ItemId>)
    requires forall i :: 0 <= i < |itemsOrder| ==> itemsOrder[i] in Ids(items)
    ensures var r := ReorderItems(items, itemsOrder);
      && Ids(r) == itemsOrder
      && (forall x :: x in items && x.id !in itemsOrder ==> x.id !in Ids(r))
  {
  }

  /** A reorder by a permutation of the ids of an array with distinct ids loses no item: each reappears, renumbered by its new position. */
  lemma ReorderPermutationKeepsItems(items: seq<Item>, itemsOrder: seq<ItemId>)
    requires DistinctIds(items)
    requires multiset(itemsOrder) == multiset(Ids(items))
    ensures var r := ReorderItems(items, itemsOrder);
      && |r| == |items|
      && forall j :: 0 <= j < |items| ==> exists i :: 0 <= i < |r| && r[i] == items[j].(order := i)
  {
    var r := ReorderItems(items, itemsOrder);
    assert |itemsOrder| == |Ids(items)| by {
      assert |multiset(itemsOrder)| == |multiset(Ids(items))|;
    }
    forall j | 0 <= j < |items|
      ensures exists i :: 0 <= i < |r| && r[i] == items[j].(order := i)
    {
      assert Ids(items)[j] == items[j].id;
      assert items[j].id in multiset(itemsOrder);
      var i :| 0 <= i < |itemsOrder| && itemsOrder[i] == items[j].id;
      assert FindIndex(items, items[j].id) == j;
      assert r[i] == items[j].(order := i);
    }
  }
}
