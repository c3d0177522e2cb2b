/**
 * The list store of firebase-service.js: the current user's collection
 * users/{uid}/lists, held as a map from list id to list document, and the
 * signed-in user. Each item operation (addItem through clearCompletedItems)
 * checks the user, reads the list documents it needs, computes a new item
 * array with the transforms of module Lists and writes it back with a fresh
 * stamp. createList, updateList, reorderLists and importData check the user
 * and write documents without building an item array; clearAllCompletedItems
 * runs clearCompletedItems on every list holding a completed item;
 * searchAllLists checks no user and writes nothing. Server timestamps, clock
 * readings and generated ids are parameters.
 */
module Service {
  import opened Lists
  import opened Strings

  type UserId = string

  datatype Error = NotAuthenticated | ListNotFound | ItemNotFound | InvalidImportFormat

  datatype Result<T> = Success(value: T) | Failure(error: Error)

  datatype Outcome = Done | Failed(error: Error)

  /** The `lists` member of an import file after JSON parsing: missing, present but not an array, or an array. */
  datatype ListsField = Absent | NotAnArray | Array(lists: seq<List>)

  datatype ImportPayload = ImportPayload(lists: ListsField)

  /** Every document is stored under its own id. */
  predicate KeyedById(lists: map<ListId, List>) {
    forall k :: k in lists ==> lists[k].id == k
  }

  /** The document createList writes: no items, the pin icon when none is given, order 0 when none is given. */
  function NewList(id: ListId, name: string, icon: string, order: Option<int>, now: int): (l: List)
    ensures l.id == id && l.name == name && l.items == []
    ensures icon != "" ==> l.icon == icon
    ensures icon == "" ==> l.icon == DefaultIcon
    ensures order.None? ==> l.order == 0
    ensures order.Some? ==> l.order == order.value
  {
    List(id, name, if icon == "" then DefaultIcon else icon, [], if order.Some? then order.value else 0, now, now)
  }

  /** One read-modify-write of a list's items: that document gets the new array and the stamp, no other changes. */
  function WriteItems(lists: map<ListId, List>, listId: ListId, items: seq<Item>, now: int): map<ListId, List>
    requires listId in lists
  {
    lists[listId := lists[listId].(items := items, updatedAt := now)]
  }

  /** The last position of `x` in `s`, or -1. */
  function LastIndex(s: seq<string>, x: string): (k: int)
    ensures -1 <= k < |s|
    ensures k == -1 <==> x !in s
    ensures k >= 0 ==> s[k] == x && forall j :: k < j < |s| ==> s[j] != x
  {
    if s == [] then -1
    else if s[|s| - 1] == x then |s| - 1
    else
      assert s == s[..|s| - 1] + [s[|s| - 1]];
      LastIndex(s[..|s| - 1], x)
  }

  /** The documents after reorderLists: each named, existing list is numbered by its (last) position; nothing else changes. */
  function ReorderedLists(lists: map<ListId, List>, listsOrder: seq<ListId>, now: int): (r: map<ListId, List>)
    ensures r.Keys == lists.Keys
    ensures forall k :: k in lists && k !in listsOrder ==> r[k] == lists[k]
    ensures forall k :: k in lists ==> r[k].(order := lists[k].order, updatedAt := lists[k].updatedAt) == lists[k]
  {
    map k | k in lists :: if k in listsOrder then lists[k].(order := LastIndex(listsOrder, k), updatedAt := now) else lists[k]
  }

  /** clearAllCompletedItems' effect on one document: cleared and stamped if it holds a completed item, else not written. */
  function Cleared(list: List, now: int): List {
    if HasCompleted(list.items) then list.(items := ClearCompleted(list.items), updatedAt := now) else list
  }

  /** The documents after clearAllCompletedItems: no completed item anywhere; lists that had none are not written at all. */
  function ClearAll(lists: map<ListId, List>, now: int): (r: map<ListId, List>)
    ensures r.Keys == lists.Keys
    ensures forall k :: k in r ==> !HasCompleted(r[k].items)
    ensures forall k :: k in lists && !HasCompleted(lists[k].items) ==> r[k] == lists[k]
    ensures forall k :: k in lists && HasCompleted(lists[k].items) ==>
      && r[k].(items := lists[k].items, updatedAt := lists[k].updatedAt) == lists[k]
      && r[k].items == ClearCompleted(lists[k].items)
      && r[k].updatedAt == now
  {
    map k | k in lists :: Cleared(lists[k], now)
  }

  /** Helper: the ids of a sequence of list documents, as used by the import and lookup contracts. */
  function ListIds(ls: seq<List>): (r: seq<ListId>)
    ensures |r| == |ls|
    ensures forall i :: 0 <= i < |ls| ==> r[i] == ls[i].id
  {
    seq(|ls|, i requires 0 <= i < |ls| => ls[i].id)
  }

  /** The documents after importData wrote `incoming` one by one, each under its own id with a fresh stamp. */
  function Imported(lists: map<ListId, List>, incoming: seq<List>, now: int): map<ListId, List> {
    if incoming == [] then lists
    else
      var last := incoming[|incoming| - 1];
      Imported(lists, incoming[..|incoming| - 1], now)[last.id := last.(updatedAt := now)]
  }

  class ListStore {
    /** The signed-in user, or None before sign-in and after sign-out. */
    var user: Option<UserId>
    /** The user's list documents by id. */
    var lists: map<ListId, List>

    ghost predicate Valid()
      reads this
    {
      KeyedById(lists)
    }

    constructor (user: Option<UserId>)
      ensures Valid()
      ensures this.user == user && lists == map[]
    {
      this.user := user;
      lists := map[];
    }

    /** The auth-state callback of initAuth (firebase-service.js:29-39) when a user signs in. */
    method SignIn(uid: UserId)
      modifies this`user
      ensures user == Some(uid)
    {
      user := Some(uid);
    }

    /** The auth-state callback of initAuth when the user signs out, as logout (firebase-service.js:45-53) triggers it. */
    method SignOut()
      modifies this`user
      ensures user == None
    {
      user := None;
    }

    /** createList (firebase-service.js:57-75). */
    method CreateList(listId: ListId, name: string, icon: string, order: Option<int>, now: int) returns (r: Result<List>)
      requires Valid()
      modifies this`lists
      ensures Valid()
      ensures old(user).None? ==> r == Failure(NotAuthenticated) && lists == old(lists)
      ensures old(user).Some? ==>
        && r == Success(NewList(listId, name, icon, order, now))
        && lists == old(lists)[listId := r.value]
    {
      if user.None? {
        return Failure(NotAuthenticated);
      }
      var list := NewList(listId, name, icon, order, now);
      lists := lists[listId := list];
      r := Success(list);
    }

    /** updateList (firebase-service.js:77-86) with the fields the app sends; the store refuses to update a missing document. */
    method UpdateList(listId: ListId, name: string, icon: string, now: int) returns (r: Outcome)
      requires Valid()
      modifies this`lists
      ensures Valid()
      ensures old(user).None? ==> r == Failed(NotAuthenticated) && lists == old(lists)
      ensures old(user).Some? && listId !in old(lists) ==> r == Failed(ListNotFound) && lists == old(lists)
      ensures old(user).Some? && listId in old(lists) ==>
        r == Done && lists == old(lists)[listId := old(lists)[listId].(name := name, icon := icon, updatedAt := now)]
    {
      if user.None? {
        return Failed(NotAuthenticated);
      }
      if listId !in lists {
        return Failed(ListNotFound);
      }
      lists := lists[listId := lists[listId].(name := name, icon := icon, updatedAt := now)];
      r := Done;
    }

    /** addItem (firebase-service.js:149-176): appends one uncompleted item numbered after the others. */
    method AddItem(listId: ListId, text: string, itemId: ItemId, createdAt: int, now: int) returns (r: Result<Item>)
      requires Valid()
      modifies this`lists
      ensures Valid()
      ensures old(user).None? ==> r == Failure(NotAuthenticated) && lists == old(lists)
      ensures old(user).Some? && listId !in old(lists) ==> r == Failure(ListNotFound) && lists == old(lists)
      ensures old(user).Some? && listId in old(lists) ==>
        var before := old(lists)[listId].items;
        && r.Success?
        && r.value.id == itemId && r.value.text == text && r.value.createdAt == createdAt
        && !r.value.completed && r.value.order == |before|
        && lists == WriteItems(old(lists), listId, before + [r.value], now)
    {
      if user.None? {
        return Failure(NotAuthenticated);
      }
      if listId !in lists {
        return Failure(ListNotFound);
      }
      var list := lists[listId];
      var item := NewItem(itemId, text, createdAt, list.items);
      lists := WriteItems(lists, listId, list.items + [item], now);
      r := Success(item);
    }

    /** updateItem (firebase-service.js:178-200). */
    method UpdateItem(listId: ListId, itemId: ItemId, patch: ItemPatch, now: int) returns (r: Outcome)
      requires Valid()
      modifies this`lists
      ensures Valid()
      ensures old(user).None? ==> r == Failed(NotAuthenticated) && lists == old(lists)
      ensures old(user).Some? && listId !in old(lists) ==> r == Failed(ListNotFound) && lists == old(lists)
      ensures old(user).Some? && listId in old(lists) ==>
        r == Done && lists == WriteItems(old(lists), listId, UpdateItems(old(lists)[listId].items, itemId, patch), now)
    {
      if user.None? {
        return Failed(NotAuthenticated);
      }
      if listId !in lists {
        return Failed(ListNotFound);
      }
      lists := WriteItems(lists, listId, UpdateItems(lists[listId].items, itemId, patch), now);
      r := Done;
    }

    /** deleteItem (firebase-service.js:202-219). */
    method DeleteItem(listId: ListId, itemId: ItemId, now: int) returns (r: Outcome)
      requires Valid()
      modifies this`lists
      ensures Valid()
      ensures old(user).None? ==> r == Failed(NotAuthenticated) && lists == old(lists)
      ensures old(user).Some? && listId !in old(lists) ==> r == Failed(ListNotFound) && lists == old(lists)
      ensures old(user).Some? && listId in old(lists) ==>
        r == Done && lists == WriteItems(old(lists), listId, RemoveItem(old(lists)[listId].items, itemId), now)
    {
      if user.None? {
        return Failed(NotAuthenticated);
      }
      if listId !in lists {
        return Failed(ListNotFound);
      }
      lists := WriteItems(lists, listId, RemoveItem(lists[listId].items, itemId), now);
      r := Done;
    }

    /**
     * moveItem (firebase-service.js:221-263): both documents are read, then the
     * source is written and then the destination, each from the snapshot read.
     */
    method MoveItem(fromListId: ListId, toListId: ListId, itemId: ItemId, now: int) returns (r: Outcome)
      requires Valid()
      modifies this`lists
      ensures Valid()
      ensures old(user).None? ==> r == Failed(NotAuthenticated) && lists == old(lists)
      ensures old(user).Some? && (fromListId !in old(lists) || toListId !in old(lists)) ==>
        r == Failed(ListNotFound) && lists == old(lists)
      ensures old(user).Some? && fromListId in old(lists) && toListId in old(lists) ==>
        var m := MoveItems(old(lists)[fromListId].items, old(lists)[toListId].items, itemId);
        && (m.None? ==> r == Failed(ItemNotFound) && lists == old(lists))
        && (m.Some? ==> r == Done && lists == WriteItems(WriteItems(old(lists), fromListId, m.value.from, now), toListId, m.value.to, now))
    {
      if user.None? {
        return Failed(NotAuthenticated);
      }
      if fromListId !in lists || toListId !in lists {
        return Failed(ListNotFound);
      }
      var fromList, toList := lists[fromListId], lists[toListId];
      var k := FindIndex(fromList.items, itemId);
      if k < 0 {
        return Failed(ItemNotFound);
      }
      var fromItems := RemoveItem(fromList.items, itemId);
      var toItems := toList.items + [fromList.items[k].(order := |toList.items|)];
      lists := WriteItems(lists, fromListId, fromItems, now);
      lists := WriteItems(lists, toListId, toItems, now);
      r := Done;
    }

    /** reorderItems (firebase-service.js:265-287). */
    method ReorderItems(listId: ListId, itemsOrder: seq<ItemId>, now: int) returns (r: Outcome)
      requires Valid()
      modifies this`lists
      ensures Valid()
      ensures old(user).None? ==> r == Failed(NotAuthenticated) && lists == old(lists)
      ensures old(user).Some? && listId !in old(lists) ==> r == Failed(ListNotFound) && lists == old(lists)
      ensures old(user).Some? && listId in old(lists) ==>
        r == Done && lists == WriteItems(old(lists), listId, Lists.ReorderItems(old(lists)[listId].items, itemsOrder), now)
    {
      if user.None? {
        return Failed(NotAuthenticated);
      }
      if listId !in lists {
        return Failed(ListNotFound);
      }
      lists := WriteItems(lists, listId, Lists.ReorderItems(lists[listId].items, itemsOrder), now);
      r := Done;
    }

    /**
     * reorderLists (firebase-service.js:289-302): one order update per named
     * list, issued in sequence; an update of a missing list fails, the others
     * still take effect, and the operation then reports the failure.
     */
    method ReorderLists(listsOrder: seq<ListId>, now: int) returns (r: Outcome)
      requires Valid()
      modifies this`lists
      ensures Valid()
      ensures old(user).None? ==> r == Failed(NotAuthenticated) && lists == old(lists)
      ensures old(user).Some? ==>
        && lists == ReorderedLists(old(lists), listsOrder, now)
        && (r == Done <==> forall i :: 0 <= i < |listsOrder| ==> listsOrder[i] in old(lists))
        && (r.Failed? ==> r.error == ListNotFound)
    {
      if user.None? {
        return Failed(NotAuthenticated);
      }
      r := Done;
      for i := 0 to |listsOrder|
        invariant Valid()
        invariant lists == ReorderedLists(old(lists), listsOrder[..i], now)
        invariant r == Done <==> forall j :: 0 <= j < i ==> listsOrder[j] in old(lists)
        invariant r.Failed? ==> r.error == ListNotFound
      {
        var id := listsOrder[i];
        ReorderedListsStep(old(lists), listsOrder, i, now);
        if id in lists {
          lists := lists[id := lists[id].(order := i, updatedAt := now)];
        } else {
          r := Failed(ListNotFound);
        }
      }
      assert listsOrder[..|listsOrder|] == listsOrder;
    }

    /** toggleItemsCompletion (firebase-service.js:306-328). */
    method ToggleItemsCompletion(listId: ListId, itemIds: seq<ItemId>, completed: bool, now: int) returns (r: Outcome)
      requires Valid()
      modifies this`lists
      ensures Valid()
      ensures old(user).None? ==> r == Failed(NotAuthenticated) && lists == old(lists)
      ensures old(user).Some? && listId !in old(lists) ==> r == Failed(ListNotFound) && lists == old(lists)
      ensures old(user).Some? && listId in old(lists) ==>
        r == Done && lists == WriteItems(old(lists), listId, SetCompletion(old(lists)[listId].items, itemIds, completed), now)
    {
      if user.None? {
        return Failed(NotAuthenticated);
      }
      if listId !in lists {
        return Failed(ListNotFound);
      }
      lists := WriteItems(lists, listId, SetCompletion(lists[listId].items, itemIds, completed), now);
      r := Done;
    }

    /** deleteItems (firebase-service.js:330-347). */
    method DeleteItems(listId: ListId, itemIds: seq<ItemId>, now: int) returns (r: Outcome)
      requires Valid()
      modifies this`lists
      ensures Valid()
      ensures old(user).None? ==> r == Failed(NotAuthenticated) && lists == old(lists)
      ensures old(user).Some? && listId !in old(lists) ==> r == Failed(ListNotFound) && lists == old(lists)
      ensures old(user).Some? && listId in old(lists) ==>
        r == Done && lists == WriteItems(old(lists), listId, RemoveItems(old(lists)[listId].items, itemIds), now)
    {
      if user.None? {
        return Failed(NotAuthenticated);
      }
      if listId !in lists {
        return Failed(ListNotFound);
      }
      lists := WriteItems(lists, listId, RemoveItems(lists[listId].items, itemIds), now);
      r := Done;
    }

    /** clearCompletedItems (firebase-service.js:349-366). */
    method ClearCompletedItems(listId: ListId, now: int) returns (r: Outcome)
      requires Valid()
      modifies this`lists
      ensures Valid()
      ensures old(user).None? ==> r == Failed(NotAuthenticated) && lists == old(lists)
      ensures old(user).Some? && listId !in old(lists) ==> r == Failed(ListNotFound) && lists == old(lists)
      ensures old(user).Some? && listId in old(lists) ==>
        r == Done && lists == WriteItems(old(lists), listId, ClearCompleted(old(lists)[listId].items), now)
    {
      if user.None? {
        return Failed(NotAuthenticated);
      }
      if listId !in lists {
        return Failed(ListNotFound);
      }
      lists := WriteItems(lists, listId, ClearCompleted(lists[listId].items), now);
      r := Done;
    }

    /** clearAllCompletedItems (firebase-service.js:368-379): clears every list that holds a completed item, and only those. */
    method ClearAllCompletedItems(now: int) returns (r: Outcome)
      requires Valid()
      modifies this`lists
      ensures Valid()
      ensures old(user).None? ==> r == Failed(NotAuthenticated) && lists == old(lists)
      ensures old(user).Some? ==> r == Done && lists == ClearAll(old(lists), now)
    {
      if user.None? {
        return Failed(NotAuthenticated);
      }
      var pending := lists.Keys;
      while pending != {}
        invariant Valid()
        invariant pending <= old(lists).Keys && lists.Keys == old(lists).Keys
        invariant forall k :: k in lists ==> lists[k] == if k in pending then old(lists)[k] else Cleared(old(lists)[k], now)
        decreases pending
      {
        var id :| id in pending;
        var list := lists[id];
        if HasCompleted(list.items) {
          lists := WriteItems(lists, id, ClearCompleted(list.items), now);
        }
        pending := pending - {id};
      }
      assert lists == ClearAll(old(lists), now);
      r := Done;
    }

    /** importData (firebase-service.js:399-416): rejects a payload without a `lists` array, otherwise overwrites each list by id. */
    method ImportData(payload: ImportPayload, now: int) returns (r: Outcome)
      requires Valid()
      modifies this`lists
      ensures Valid()
      ensures old(user).None? ==> r == Failed(NotAuthenticated) && lists == old(lists)
      ensures old(user).Some? && !payload.lists.Array? ==> r == Failed(InvalidImportFormat) && lists == old(lists)
      ensures old(user).Some? && payload.lists.Array? ==> r == Done && lists == Imported(old(lists), payload.lists.lists, now)
    {
      if user.None? {
        return Failed(NotAuthenticated);
      }
      if !payload.lists.Array? {
        return Failed(InvalidImportFormat);
      }
      var incoming := payload.lists.lists;
      for i := 0 to |incoming|
        invariant Valid()
        invariant lists == Imported(old(lists), incoming[..i], now)
      {
        var list := incoming[i];
        assert incoming[..i + 1][..i] == incoming[..i];
        lists := lists[list.id := list.(updatedAt := now)];
      }
      assert incoming[..|incoming|] == incoming;
      r := Done;
    }
  }

  // ---------------------------------------------------------------- search

  /** One entry of searchAllLists' result. */
  datatype SearchResult = SearchResult(listId: ListId, listName: string, listIcon: string, item: Item)

  function Hit(list: List, item: Item): SearchResult {
    SearchResult(list.id, list.name, list.icon, item)
  }

  /** The term as searchAllLists compares it: lower-cased, then trimmed. */
  function NormalizeTerm(searchTerm: string): (term: string)
    ensures |term| <= |searchTerm|
    ensures forall i :: 0 <= i < |term| ==> !('A' <= term[i] <= 'Z')
    ensures term == [] <==> AllSpace(searchTerm)
    ensures term != [] ==> !IsSpace(term[0]) && !IsSpace(term[|term| - 1])
  {
    var lower := Lower(searchTerm);
    LowerKeepsSpaces(searchTerm);
    TrimAt(lower);
    Trim(lower)
  }

  /** The search term is the lower-cased input with its leading and trailing whitespace cut off. */
  lemma NormalizeTermIsTrimmedLower(searchTerm: string)
    ensures var lower, term := Lower(searchTerm), NormalizeTerm(searchTerm);
      var a := LeadingSpaces(lower);
      a + |term| <= |searchTerm| && term == lower[a..a + |term|] && AllSpace(lower[a + |term|..])
  {
  }

  predicate Matches(item: Item, term: string) {
    Contains(Lower(item.text), term)
  }

  /** The hits among `items` of `list`, in item order. */
  function ListHits(list: List, items: seq<Item>, term: string): seq<SearchResult> {
    if items == [] then []
    else (if Matches(items[0], term) then [Hit(list, items[0])] else []) + ListHits(list, items[1..], term)
  }

  /** The hits of all `lists`, list by list. */
  function Hits(lists: seq<List>, term: string): seq<SearchResult> {
    if lists == [] then []
    else ListHits(lists[0], lists[0].items, term) + Hits(lists[1..], term)
  }

  /** The inner `list.items.forEach` of searchAllLists: pushes a hit for every matching item of `list`, in item order. */
  method PushListHits(list: List, term: string, results: seq<SearchResult>) returns (out: seq<SearchResult>)
    ensures out == results + ListHits(list, list.items, term)
  {
    out := results;
    for j := 0 to |list.items|
      invariant out == results + ListHits(list, list.items[..j], term)
    {
      var item := list.items[j];
      ListHitsStep(list, list.items, j, term);
      if Contains(Lower(item.text), term) {
        out := out + [Hit(list, item)];
      }
    }
    assert list.items[..|list.items|] == list.items;
  }

  /** searchAllLists (firebase-service.js:420-438): the outer `lists.forEach`, list by list. */
  method SearchAllLists(lists: seq<List>, searchTerm: string) returns (results: seq<SearchResult>)
    ensures results == Hits(lists, NormalizeTerm(searchTerm))
  {
    var term := NormalizeTerm(searchTerm);
    results := [];
    for i := 0 to |lists|
      invariant results == Hits(lists[..i], term)
    {
      results := PushListHits(lists[i], term, results);
      HitsStep(lists, i, term);
    }
    assert lists[..|lists|] == lists;
  }

  // ---------------------------------------------------------------- lemmas

  lemma ListHitsStep(list: List, items: seq<Item>, j: nat, term: string)
    requires j < |items|
    ensures ListHits(list, items[..j + 1], term)
      == ListHits(list, items[..j], term) + (if Matches(items[j], term) then [Hit(list, items[j])] else [])
  {
    assert items[..j + 1] == items[..j] + [items[j]];
    ListHitsAppend(list, items[..j], [items[j]], term);
  }

  lemma HitsStep(lists: seq<List>, i: nat, term: string)
    requires i < |lists|
    ensures Hits(lists[..i + 1], term) == Hits(lists[..i], term) + ListHits(lists[i], lists[i].items, term)
  {
    assert lists[..i + 1] == lists[..i] + [lists[i]];
    HitsAppend(lists[..i], [lists[i]], term);
  }

  lemma ReorderedListsStep(lists: map<ListId, List>, listsOrder: seq<ListId>, i: nat, now: int)
    requires i < |listsOrder|
    ensures var id := listsOrder[i];
      var before := ReorderedLists(lists, listsOrder[..i], now);
      ReorderedLists(lists, listsOrder[..i + 1], now)
        == if id in lists then before[id := before[id].(order := i, updatedAt := now)] else before
  {
    var prefix := listsOrder[..i + 1];
    assert prefix[..i] == listsOrder[..i];
    assert forall k :: k in prefix <==> k in listsOrder[..i] || k == listsOrder[i];
  }

  /** Without repeated ids, every position of the id sequence is that id's last position. */
  lemma {:induction false} LastIndexOfDistinct(s: seq<string>, i: nat)
    requires forall a, b :: 0 <= a < b < |s| ==> s[a] != s[b]
    requires i < |s|
    ensures LastIndex(s, s[i]) == i
  {
    if i < |s| - 1 {
      assert s[..|s| - 1][i] == s[i];
      LastIndexOfDistinct(s[..|s| - 1], i);
    }
  }

  /** reorderLists with distinct ids numbers each named list by its index in the sequence and touches nothing else. */
  lemma ReorderListsByIndex(lists: map<ListId, List>, listsOrder: seq<ListId>, now: int)
    requires forall a, b :: 0 <= a < b < |listsOrder| ==> listsOrder[a] != listsOrder[b]
    ensures var r := ReorderedLists(lists, listsOrder, now);
      && r.Keys == lists.Keys
      && (forall i :: 0 <= i < |listsOrder| && listsOrder[i] in lists ==>
            r[listsOrder[i]] == lists[listsOrder[i]].(order := i, updatedAt := now))
      && (forall k :: k in lists && k !in listsOrder ==> r[k] == lists[k])
  {
    forall i | 0 <= i < |listsOrder| && listsOrder[i] in lists
      ensures LastIndex(listsOrder, listsOrder[i]) == i
    {
      LastIndexOfDistinct(listsOrder, i);
    }
  }

  /** importData writes under each imported id the last imported list with that id; every other document stays as it was. */
  lemma {:induction false} ImportOverwrites(lists: map<ListId, List>, incoming: seq<List>, now: int, k: ListId)
    ensures var r := Imported(lists, incoming, now);
      && (k in ListIds(incoming) ==> k in r && r[k] == incoming[LastIndex(ListIds(incoming), k)].(updatedAt := now))
      && (k !in ListIds(incoming) ==> (k in r <==> k in lists) && (k in lists ==> r[k] == lists[k]))
  {
    if incoming != [] {
      var n := |incoming| - 1;
      assert ListIds(incoming) == ListIds(incoming[..n]) + [incoming[n].id];
      ImportOverwrites(lists, incoming[..n], now, k);
    }
  }

  /** importData keeps documents keyed by their id. */
  lemma {:induction false} ImportKeepsKeying(lists: map<ListId, List>, incoming: seq<List>, now: int)
    requires KeyedById(lists)
    ensures KeyedById(Imported(lists, incoming, now))
  {
    if incoming != [] {
      ImportKeepsKeying(lists, incoming[..|incoming| - 1], now);
    }
  }

  /**
   * Export followed by import: importing an export of all the documents
   * (in any order) leaves every list's content as it was; only the
   * update stamps change.
   */
  lemma ImportOfExportKeepsContent(lists: map<ListId, List>, exported: seq<List>, now: int)
    requires KeyedById(lists)
    requires forall i :: 0 <= i < |exported| ==> exported[i].id in lists && lists[exported[i].id] == exported[i]
    requires forall k :: k in lists ==> k in ListIds(exported)
    ensures Imported(lists, exported, now) == map k | k in lists :: lists[k].(updatedAt := now)
  {
    var r := Imported(lists, exported, now);
    forall k ensures k in r <==> k in lists {
      ImportOverwrites(lists, exported, now, k);
    }
    forall k | k in lists ensures r[k] == lists[k].(updatedAt := now) {
      ImportOverwrites(lists, exported, now, k);
      var j := LastIndex(ListIds(exported), k);
      assert exported[j].id == k;
    }
  }

  /** A match within one list: the hits are exactly the matching items of the list. */
  lemma {:induction false} ListHitsMembership(list: List, items: seq<Item>, term: string, x: SearchResult)
    ensures x in ListHits(list, items, term) <==>
      exists j :: 0 <= j < |items| && Matches(items[j], term) && x == Hit(list, items[j])
  {
    if items != [] {
      var rest := items[1..];
      ListHitsMembership(list, rest, term, x);
      if exists j :: 0 <= j < |items| && Matches(items[j], term) && x == Hit(list, items[j]) {
        var j :| 0 <= j < |items| && Matches(items[j], term) && x == Hit(list, items[j]);
        if j > 0 {
          assert rest[j - 1] == items[j];
        }
      }
      if exists j :: 0 <= j < |rest| && Matches(rest[j], term) && x == Hit(list, rest[j]) {
        var j :| 0 <= j < |rest| && Matches(rest[j], term) && x == Hit(list, rest[j]);
        assert items[j + 1] == rest[j];
      }
    }
  }

  /** A hit of the whole search is a hit of one of the lists. */
  lemma {:induction false} HitsMembership(lists: seq<List>, term: string, x: SearchResult)
    ensures x in Hits(lists, term) <==> exists i :: 0 <= i < |lists| && x in ListHits(lists[i], lists[i].items, term)
  {
    if lists != [] {
      var rest := lists[1..];
      HitsMembership(rest, term, x);
      assert (exists i :: 0 <= i < |lists| && x in ListHits(lists[i], lists[i].items, term)) ==> x in Hits(lists, term) by {
        if exists i :: 0 <= i < |lists| && x in ListHits(lists[i], lists[i].items, term) {
          var i :| 0 <= i < |lists| && x in ListHits(lists[i], lists[i].items, term);
          if i > 0 {
            assert rest[i - 1] == lists[i];
          }
        }
      }
      assert x in Hits(lists, term) ==> exists i :: 0 <= i < |lists| && x in ListHits(lists[i], lists[i].items, term) by {
        if x in Hits(rest, term) {
          var i :| 0 <= i < |rest| && x in ListHits(rest[i], rest[i].items, term);
          assert lists[i + 1] == rest[i];
        }
      }
    }
  }

  /** searchAllLists returns exactly the items whose lower-cased text contains the term, each tagged with its list. */
  lemma SearchMembership(lists: seq<List>, term: string, x: SearchResult)
    ensures x in Hits(lists, term) <==>
      exists i, j :: 0 <= i < |lists| && 0 <= j < |lists[i].items| && Matches(lists[i].items[j], term) && x == Hit(lists[i], lists[i].items[j])
  {
    HitsMembership(lists, term, x);
    forall i | 0 <= i < |lists| {
      ListHitsMembership(lists[i], lists[i].items, term, x);
    }
  }

  /** Results come list by list: the hits of two runs of lists are the hits of the first followed by those of the second. */
  lemma {:induction false} HitsAppend(a: seq<List>, b: seq<List>, term: string)
    ensures Hits(a + b, term) == Hits(a, term) + Hits(b, term)
  {
    if a == [] {
      assert a + b == b;
    } else {
      assert (a + b)[0] == a[0] && (a + b)[1..] == a[1..] + b;
      HitsAppend(a[1..], b, term);
    }
  }

  /** Within a list, hits come in item order. */
  lemma {:induction false} ListHitsAppend(list: List, a: seq<Item>, b: seq<Item>, term: string)
    ensures ListHits(list, a + b, term) == ListHits(list, a, term) + ListHits(list, b, term)
  {
    if a == [] {
      assert a + b == b;
    } else {
      assert (a + b)[0] == a[0] && (a + b)[1..] == a[1..] + b;
      ListHitsAppend(list, a[1..], b, term);
    }
  }

  /** Moving an item within one list (equal ids) is not guarded: the second write, built from the unfiltered snapshot, keeps the item and appends a copy. */
  lemma MoveWithinOneListDuplicates(items: seq<Item>, itemId: ItemId)
    requires itemId in Ids(items)
    ensures var m := MoveItems(items, items, itemId).value;
      && m.to[..|items|] == items
      && multiset(Ids(m.to))[itemId] == multiset(Ids(items))[itemId] + 1
  {
    var m := MoveItems(items, items, itemId).value;
    assert m.to == items + [m.to[|items|]];
    assert Ids(m.to) == Ids(items) + [itemId];
  }
}
