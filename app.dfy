/**
 * The client state of app.js: the bulk selection (a map from list id to the
 * set of selected item ids), the set of collapsed lists, the last snapshot
 * of the user's lists, the bulk-actions bar, and the handlers that guard
 * and issue store calls. The DOM is reduced to the values the handlers read
 * from it (input texts, the selected list, the dragged and target items).
 */
module App {
  import opened Lists
  import opened Strings
  import opened Service

  // ---------------------------------------------------------------- selection

  /** The items selected in `listId` (a list without an entry has none). */
  function SelectionOf(selected: map<ListId, set<ItemId>>, listId: ListId): set<ItemId> {
    if listId in selected then selected[listId] else {}
  }

  /** The selection map never keeps an entry for a list with nothing selected. */
  predicate NoEmptySelection(selected: map<ListId, set<ItemId>>) {
    forall l :: l in selected ==> selected[l] != {}
  }

  /** The selection after handleSelectItem: `itemId` flips in `listId`'s set, and an emptied set is dropped. */
  function ToggleSelection(selected: map<ListId, set<ItemId>>, listId: ListId, itemId: ItemId): (r: map<ListId, set<ItemId>>)
    ensures itemId in SelectionOf(r, listId) <==> itemId !in SelectionOf(selected, listId)
    ensures SelectionOf(r, listId) - {itemId} == SelectionOf(selected, listId) - {itemId}
    ensures forall l :: l != listId ==> (l in r <==> l in selected) && (l in r ==> r[l] == selected[l])
    ensures NoEmptySelection(selected) ==> NoEmptySelection(r)
  {
    var items := SelectionOf(selected, listId);
    if itemId in items then
      if items - {itemId} == {} then selected - {listId} else selected[listId := items - {itemId}]
    else
      selected[listId := items + {itemId}]
  }

  /** Selecting the same item twice restores the selection. */
  lemma ToggleSelectionTwice(selected: map<ListId, set<ItemId>>, listId: ListId, itemId: ItemId)
    requires NoEmptySelection(selected)
    ensures ToggleSelection(ToggleSelection(selected, listId, itemId), listId, itemId) == selected
  {
    var once := ToggleSelection(selected, listId, itemId);
    var twice := ToggleSelection(once, listId, itemId);
    assert SelectionOf(twice, listId) == SelectionOf(selected, listId);
    assert listId in twice <==> listId in selected;
  }

  ghost function PickKey(keys: set<ListId>): ListId
    requires keys != {}
  {
    var k :| k in keys; k
  }

  /** The sum of the sizes of the selected sets of the lists in `keys`. */
  ghost function SumSizes(selected: map<ListId, set<ItemId>>, keys: set<ListId>): nat
    requires keys <= selected.Keys
    decreases keys
  {
    if keys == {} then 0
    else
      var k := PickKey(keys);
      |selected[k]| + SumSizes(selected, keys - {k})
  }

  /** The sum does not depend on the order in which the lists are added up. */
  lemma {:induction false} SumSizesRemove(selected: map<ListId, set<ItemId>>, keys: set<ListId>, k: ListId)
    requires keys <= selected.Keys && k in keys
    ensures SumSizes(selected, keys) == |selected[k]| + SumSizes(selected, keys - {k})
    decreases keys
  {
    var p := PickKey(keys);
    if p != k {
      SumSizesRemove(selected, keys - {p}, k);
      SumSizesRemove(selected, keys - {k}, p);
      assert keys - {p} - {k} == keys - {k} - {p};
    }
  }

  /** With no empty sets, something is selected exactly when the map has an entry. */
  lemma SelectedCountPositive(selected: map<ListId, set<ItemId>>)
    requires NoEmptySelection(selected)
    ensures SumSizes(selected, selected.Keys) > 0 <==> selected != map[]
  {
    if selected != map[] {
      var k :| k in selected;
      SumSizesRemove(selected, selected.Keys, k);
    } else {
      assert selected.Keys == {};
    }
  }

  /** The running total of updateBulkActionsBar (`Array.from(selectedItems.values()).reduce(...)`). */
  method CountSelected(selected: map<ListId, set<ItemId>>) returns (total: nat)
    ensures total == SumSizes(selected, selected.Keys)
  {
    total := 0;
    var rest := selected.Keys;
    while rest != {}
      invariant rest <= selected.Keys
      invariant total + SumSizes(selected, rest) == SumSizes(selected, selected.Keys)
      decreases rest
    {
      var k :| k in rest;
      SumSizesRemove(selected, rest, k);
      total := total + |selected[k]|;
      rest := rest - {k};
    }
  }

  // ---------------------------------------------------------------- collapse

  /** The set after toggleListCollapse: `x` flips, nothing else changes. */
  function ToggleMembership(s: set<ListId>, x: ListId): (r: set<ListId>)
    ensures x in r <==> x !in s
    ensures r - {x} == s - {x}
  {
    if x in s then s - {x} else s + {x}
  }

  lemma ToggleMembershipTwice(s: set<ListId>, x: ListId)
    ensures ToggleMembership(ToggleMembership(s, x), x) == s
  {
  }

  // ---------------------------------------------------------------- drag and drop

  /** `items.splice(from, 1)` followed by `items.splice(to, 0, removed)` on a copy. */
  function MoveTo<T>(s: seq<T>, from: nat, to: nat): (r: seq<T>)
    requires from < |s| && to < |s|
    ensures |r| == |s| && r[to] == s[from]
    ensures multiset(r) == multiset(s)
    ensures r[..to] + r[to + 1..] == s[..from] + s[from + 1..]
  {
    var rest := s[..from] + s[from + 1..];
    var r := rest[..to] + [s[from]] + rest[to..];
    assert s == s[..from] + [s[from]] + s[from + 1..];
    assert rest == rest[..to] + rest[to..];
    assert r[..to] == rest[..to] && r[to + 1..] == rest[to..];
    assert multiset(rest) == multiset(s[..from]) + multiset(s[from + 1..]);
    assert multiset(rest) == multiset(rest[..to]) + multiset(rest[to..]);
    assert multiset(r) == multiset(rest[..to]) + multiset{s[from]} + multiset(rest[to..]);
    assert multiset(s) == multiset(s[..from]) + multiset{s[from]} + multiset(s[from + 1..]);
    assert multiset(r) == multiset(rest) + multiset{s[from]} == multiset(s);
    r
  }

  lemma IdsMoveTo(items: seq<Item>, from: nat, to: nat)
    requires from < |items| && to < |items|
    ensures Ids(MoveTo(items, from, to)) == MoveTo(Ids(items), from, to)
  {
    var a := Ids(MoveTo(items, from, to));
    var b := MoveTo(Ids(items), from, to);
    var rest := items[..from] + items[from + 1..];
    assert Ids(rest) == Ids(items)[..from] + Ids(items)[from + 1..];
    assert MoveTo(items, from, to) == rest[..to] + [items[from]] + rest[to..];
    assert b == Ids(rest)[..to] + [items[from].id] + Ids(rest)[to..];
    forall i | 0 <= i < |a| ensures a[i] == b[i] {
      if i < to {
        assert a[i] == rest[i].id;
      } else if i > to {
        assert a[i] == rest[i - 1].id;
      }
    }
  }

  /**
   * The id sequence the same-list drop in handleItemDrop sends to
   * reorderItems, or None when the dragged or the target item is not in the
   * snapshot of the list.
   */
  function DropOrder(items: seq<Item>, draggedId: ItemId, targetId: ItemId): (r: Option<seq<ItemId>>)
    ensures r.None? <==> draggedId !in Ids(items) || targetId !in Ids(items)
    ensures r.Some? ==>
      var d, t := FindIndex(items, draggedId), FindIndex(items, targetId);
      && |r.value| == |items|
      && multiset(r.value) == multiset(Ids(items))
      && r.value[t] == draggedId
      && r.value[..t] + r.value[t + 1..] == Ids(items)[..d] + Ids(items)[d + 1..]
  {
    var d := FindIndex(items, draggedId);
    var t := FindIndex(items, targetId);
    if d == -1 || t == -1 then None
    else
      IdsMoveTo(items, d, t);
      Some(Ids(MoveTo(items, d, t)))
  }

  /** What a drop on another item issues. */
  datatype DropAction = NoAction | Reordered(itemsOrder: seq<ItemId>, outcome: Outcome) | MovedAcross(outcome: Outcome)

  /** `currentLists.find(l => l.id === listId)`: the first list with that id. */
  function FindList(lists: seq<List>, listId: ListId): (r: Option<List>)
    ensures r.None? <==> listId !in ListIds(lists)
    ensures r.Some? ==> r.value in lists && r.value.id == listId
    ensures r.Some? ==> exists k :: 0 <= k < |lists| && r.value == lists[k] && forall j :: 0 <= j < k ==> lists[j].id != listId
  {
    if lists == [] then None
    else if lists[0].id == listId then Some(lists[0])
    else
      assert ListIds(lists) == [lists[0].id] + ListIds(lists[1..]);
      FindList(lists[1..], listId)
  }

  // ---------------------------------------------------------------- rendering

  predicate SortedByOrder(s: seq<Item>) {
    forall i, j :: 0 <= i < j < |s| ==> s[i].order <= s[j].order
  }

  /** Inserts `x` before the first element of larger or equal order. */
  function InsertByOrder(x: Item, s: seq<Item>): (r: seq<Item>)
    ensures |r| == |s| + 1
    ensures multiset(r) == multiset(s) + multiset{x}
  {
    if s == [] || x.order <= s[0].order then [x] + s
    else
      assert s == [s[0]] + s[1..];
      [s[0]] + InsertByOrder(x, s[1..])
  }

  lemma {:induction false} InsertKeepsSorted(x: Item, s: seq<Item>)
    requires SortedByOrder(s)
    ensures var r := InsertByOrder(x, s);
      SortedByOrder(r) && (r[0] == x || (s != [] && r[0] == s[0]))
  {
    if s != [] && x.order > s[0].order {
      var tail := s[1..];
      var rest := InsertByOrder(x, tail);
      assert SortedByOrder(tail) by {
        forall i, j | 0 <= i < j < |tail| ensures tail[i].order <= tail[j].order {
          assert tail[i] == s[i + 1] && tail[j] == s[j + 1];
        }
      }
      InsertKeepsSorted(x, tail);
      assert s[0].order <= rest[0].order;
      var r := [s[0]] + rest;
      forall i, j | 0 <= i < j < |r| ensures r[i].order <= r[j].order {
        if i == 0 && j > 1 {
          assert rest[0].order <= rest[j - 1].order;
        }
      }
    }
  }

  /** The order renderItems shows: `[...items].sort((a, b) => a.order - b.order)`. */
  function SortByOrder(s: seq<Item>): (r: seq<Item>)
    ensures |r| == |s|
    ensures multiset(r) == multiset(s)
    ensures SortedByOrder(r)
  {
    if s == [] then []
    else
      assert s == [s[0]] + s[1..];
      InsertKeepsSorted(s[0], SortByOrder(s[1..]));
      InsertByOrder(s[0], SortByOrder(s[1..]))
  }

  /** The completed figure of a list card: how many items are checked off. */
  function CompletedCount(items: seq<Item>): (n: nat)
    ensures n <= |items|
    ensures n == 0 <==> !HasCompleted(items)
  {
    if items == [] then 0
    else
      assert HasCompleted(items) <==> items[0].completed || HasCompleted(items[1..]) by {
        if HasCompleted(items[1..]) {
          var i :| 0 <= i < |items[1..]| && items[1..][i].completed;
          assert items[i + 1].completed;
        }
        if HasCompleted(items) && !items[0].completed {
          var i :| 0 <= i < |items| && items[i].completed;
          assert items[1..][i - 1].completed;
        }
      }
      (if items[0].completed then 1 else 0) + CompletedCount(items[1..])
  }

  /** The card's completed figure is exactly what clearCompletedItems removes from the list. */
  lemma {:induction false} CompletedCountIsCleared(items: seq<Item>)
    ensures CompletedCount(items) + |ClearCompleted(items)| == |items|
  {
    if items != [] {
      CompletedCountIsCleared(items[1..]);
      assert ClearCompleted(items) == Filter(items, Uncompleted());
      assert ClearCompleted(items[1..]) == Filter(items[1..], Uncompleted());
    }
  }

  // ---------------------------------------------------------------- handlers

  datatype QuickAddOutcome = EmptyText | NoListSelected | Added(result: Result<Item>)

  datatype SaveListOutcome = EmptyName | Updated(outcome: Outcome) | Created(result: Result<List>)

  /** The icon handleSaveList sends: the trimmed input, or the pin when that is empty. */
  function IconFromInput(iconInput: string): (icon: string)
    ensures Trim(iconInput) != "" ==> icon == Trim(iconInput)
    ensures Trim(iconInput) == "" ==> icon == DefaultIcon
  {
    var t := Trim(iconInput);
    if t == "" then DefaultIcon else t
  }

  class Client {
    /** The lists of the last snapshot delivered by the store, in display order. */
    var currentLists: seq<List>
    var collapsedLists: set<ListId>
    var selectedItems: map<ListId, set<ItemId>>
    /** Whether the bulk-actions bar is displayed, and the count its label last showed. */
    var bulkBarShown: bool
    var shownCount: nat
    /** The store the handlers call. */
    const store: ListStore

    /** The selection never keeps an empty set (the store's own invariant is ListStore.Valid). */
    ghost predicate Valid()
      reads this
    {
      NoEmptySelection(selectedItems)
    }

    constructor (store: ListStore)
      ensures Valid() && this.store == store
      ensures currentLists == [] && collapsedLists == {} && selectedItems == map[] && !bulkBarShown
    {
      this.store := store;
      currentLists := [];
      collapsedLists := {};
      selectedItems := map[];
      bulkBarShown := false;
      shownCount := 0;
    }

    /** updateBulkActionsBar (app.js:521-531): the bar is shown iff something is selected; the label keeps its last count when hidden. */
    method UpdateBulkActionsBar()
      modifies this`bulkBarShown, this`shownCount
      ensures bulkBarShown == (SumSizes(selectedItems, selectedItems.Keys) > 0)
      ensures bulkBarShown ==> shownCount == SumSizes(selectedItems, selectedItems.Keys)
      ensures !bulkBarShown ==> shownCount == old(shownCount)
    {
      var total := CountSelected(selectedItems);
      if total > 0 {
        bulkBarShown := true;
        shownCount := total;
      } else {
        bulkBarShown := false;
      }
    }

    /** handleSelectItem (app.js:502-519). */
    method HandleSelectItem(listId: ListId, itemId: ItemId)
      requires Valid()
      modifies this`selectedItems, this`bulkBarShown, this`shownCount
      ensures Valid()
      ensures selectedItems == ToggleSelection(old(selectedItems), listId, itemId)
      ensures bulkBarShown <==> selectedItems != map[]
      ensures bulkBarShown ==> shownCount == SumSizes(selectedItems, selectedItems.Keys)
      ensures !bulkBarShown ==> shownCount == old(shownCount)
    {
      var selection := selectedItems;
      if listId !in selection {
        selection := selection[listId := {}];
      }
      var itemSet := selection[listId];
      assert itemSet == SelectionOf(selectedItems, listId);
      if itemId in itemSet {
        itemSet := itemSet - {itemId};
        selection := selection[listId := itemSet];
        if |itemSet| == 0 {
          selection := selection - {listId};
          assert selection == selectedItems - {listId};
        } else {
          assert selection == selectedItems[listId := itemSet];
        }
      } else {
        selection := selection[listId := itemSet + {itemId}];
        assert selection == selectedItems[listId := itemSet + {itemId}];
      }
      assert selection == ToggleSelection(selectedItems, listId, itemId);
      selectedItems := selection;
      UpdateBulkActionsBar();
      SelectedCountPositive(selectedItems);
    }

    /** The subscribeToLists callback (app.js:191-197): the snapshot replaces the client's lists; rendering is not modelled. */
    method OnListsSnapshot(lists: seq<List>)
      modifies this`currentLists
      ensures currentLists == lists
    {
      currentLists := lists;
    }

    /** clearSelection (app.js:533-537). */
    method ClearSelection()
      requires Valid()
      modifies this`selectedItems, this`bulkBarShown, this`shownCount
      ensures Valid()
      ensures selectedItems == map[] && !bulkBarShown
      ensures shownCount == old(shownCount)
    {
      selectedItems := map[];
      UpdateBulkActionsBar();
    }

    /** toggleListCollapse (app.js:611-616); persisting the set and the card's CSS class are not modelled. */
    method ToggleListCollapse(listId: ListId)
      modifies this`collapsedLists
      ensures collapsedLists == ToggleMembership(old(collapsedLists), listId)
    {
      if listId in collapsedLists {
        collapsedLists := collapsedLists - {listId};
      } else {
        collapsedLists := collapsedLists + {listId};
      }
    }

    /** handleQuickAdd (app.js:337-360): no store call for blank text or when no list is selected (an empty selector value). */
    method HandleQuickAdd(input: string, selectedListId: ListId, itemId: ItemId, createdAt: int, now: int) returns (o: QuickAddOutcome)
      requires store.Valid()
      modifies store`lists
      ensures store.Valid()
      ensures Trim(input) == "" ==> o == EmptyText && store.lists == old(store.lists)
      ensures Trim(input) != "" && selectedListId == "" ==> o == NoListSelected && store.lists == old(store.lists)
      ensures Trim(input) != "" && selectedListId != "" ==> o.Added?
      ensures o.Added? ==> (o.result.Success? <==> old(store.user).Some? && selectedListId in old(store.lists))
      ensures o.Added? && o.result.Failure? ==> store.lists == old(store.lists)
      ensures o.Added? && o.result.Success? ==>
        && selectedListId in old(store.lists)
        && o.result.value.text == Trim(input)
        && o.result.value == NewItem(itemId, Trim(input), createdAt, old(store.lists)[selectedListId].items)
        && store.lists == WriteItems(old(store.lists), selectedListId, old(store.lists)[selectedListId].items + [o.result.value], now)
    {
      var text := Trim(input);
      if text == "" {
        return EmptyText;
      }
      if selectedListId == "" {
        return NoListSelected;
      }
      var r := store.AddItem(selectedListId, text, itemId, createdAt, now);
      o := Added(r);
    }

    /**
     * handleSaveList (app.js:381-410): no store call for a blank name;
     * otherwise the list being edited is updated, or a new list is created
     * at the end of the current lists.
     */
    method HandleSaveList(nameInput: string, iconInput: string, editing: Option<ListId>, newListId: ListId, now: int)
      returns (o: SaveListOutcome)
      requires store.Valid()
      modifies store`lists
      ensures store.Valid()
      ensures Trim(nameInput) == "" ==> o == EmptyName && store.lists == old(store.lists)
      ensures Trim(nameInput) != "" && editing.Some? ==> o.Updated?
      ensures Trim(nameInput) != "" && editing.None? ==> o.Created?
      ensures o.Updated? ==> (o.outcome == Done <==> old(store.user).Some? && editing.value in old(store.lists))
      ensures o.Created? ==> (o.result.Success? <==> old(store.user).Some?)
      ensures o.Updated? && o.outcome == Done ==>
        && editing.value in old(store.lists)
        && store.lists == old(store.lists)[editing.value :=
             old(store.lists)[editing.value].(name := Trim(nameInput), icon := IconFromInput(iconInput), updatedAt := now)]
      ensures o.Created? && o.result.Success? ==>
        && o.result.value.name == Trim(nameInput)
        && o.result.value.icon == IconFromInput(iconInput)
        && o.result.value.order == |currentLists|
        && o.result.value.items == []
        && store.lists == old(store.lists)[newListId := o.result.value]
      ensures (o.Updated? && o.outcome.Failed?) || (o.Created? && o.result.Failure?) ==> store.lists == old(store.lists)
    {
      var name := Trim(nameInput);
      var icon := IconFromInput(iconInput);
      if name == "" {
        return EmptyName;
      }
      if editing.Some? {
        var r := store.UpdateList(editing.value, name, icon, now);
        o := Updated(r);
      } else {
        var r := store.CreateList(newListId, name, icon, Some(|currentLists|), now);
        o := Created(r);
      }
    }

    /**
     * handleItemDrop (app.js:669-712). A drop on the dragged item itself does
     * nothing. Within one list the new order is computed from the client's
     * snapshot and sent to reorderItems; across lists the item is moved.
     */
    method HandleItemDrop(draggedListId: ListId, draggedItemId: ItemId, targetListId: ListId, targetItemId: ItemId, now: int)
      returns (a: DropAction)
      requires store.Valid()
      modifies store`lists
      ensures store.Valid()
      ensures a.NoAction? ==> store.lists == old(store.lists)
      ensures draggedListId == targetListId && draggedItemId == targetItemId ==> a.NoAction?
      ensures draggedListId == targetListId && draggedItemId != targetItemId ==>
        var list := FindList(currentLists, draggedListId);
        && (list.None? ==> a.NoAction?)
        && (list.Some? ==>
              var order := DropOrder(list.value.items, draggedItemId, targetItemId);
              && (order.None? ==> a.NoAction?)
              && (order.Some? ==> a.Reordered? && a.itemsOrder == order.value))
      ensures a.Reordered? && a.outcome == Done ==>
        && draggedListId in old(store.lists)
        && store.lists == WriteItems(old(store.lists), draggedListId, Lists.ReorderItems(old(store.lists)[draggedListId].items, a.itemsOrder), now)
      ensures a.Reordered? ==> (a.outcome == Done <==> old(store.user).Some? && draggedListId in old(store.lists))
      ensures a.Reordered? && a.outcome.Failed? ==> store.lists == old(store.lists)
      ensures draggedListId != targetListId ==> a.MovedAcross?
      ensures a.MovedAcross? ==>
        (a.outcome == Done <==>
          && old(store.user).Some?
          && draggedListId in old(store.lists) && targetListId in old(store.lists)
          && draggedItemId in Ids(old(store.lists)[draggedListId].items))
      ensures a.MovedAcross? && a.outcome.Failed? ==> store.lists == old(store.lists)
      ensures a.MovedAcross? && a.outcome == Done ==>
        && draggedListId in old(store.lists) && targetListId in old(store.lists)
        && var m := MoveItems(old(store.lists)[draggedListId].items, old(store.lists)[targetListId].items, draggedItemId);
        && m.Some?
        && store.lists == WriteItems(WriteItems(old(store.lists), draggedListId, m.value.from, now), targetListId, m.value.to, now)
    {
      if draggedListId == targetListId && draggedItemId == targetItemId {
        return NoAction;
      }
      if draggedListId == targetListId {
        var list := FindList(currentLists, draggedListId);
        if list.None? {
          return NoAction;
        }
        var order := DropOrder(list.value.items, draggedItemId, targetItemId);
        if order.None? {
          return NoAction;
        }
        var r := store.ReorderItems(draggedListId, order.value, now);
        a := Reordered(order.value, r);
      } else {
        var r := store.MoveItem(draggedListId, targetListId, draggedItemId, now);
        a := MovedAcross(r);
      }
    }
  }
}
