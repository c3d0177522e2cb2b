# Notes lists: a Dafny model of the list store and the client state

The notes app keeps each signed-in user's lists as documents under
`users/{uid}/lists/{listId}`. Every list document holds its items as an
embedded array. `firebase-service.js` exports one operation per user action.
Each item operation (`addItem` through `clearCompletedItems`) checks that a
user is signed in, reads the list documents it needs (`moveItem` reads two),
builds a new `items` array with a `map`, `filter` or spread expression, and
writes the whole array back with a fresh `updatedAt`. `createList`,
`updateList`, `reorderLists` and `importData` also check the user, but write
list fields or whole documents without reading an item array.
`clearAllCompletedItems` reads every list and runs `clearCompletedItems` on
each one that holds a completed item. `searchAllLists` checks no user and
writes nothing: it filters the lists the client already holds. `app.js` holds
the client state:
- the last snapshot of the lists;
- the set of collapsed lists;
- the bulk selection, a `Map` from list id to a `Set` of item ids;
- the bulk-actions bar.

Its handlers guard the user's input before calling the store.

The model has four modules:

- `Strings` (`strings.dfy`) holds the three string operations the code relies
  on: `trim`, `toLowerCase` and `includes`.
- `Lists` (`lists.dfy`) holds:
  - the `Item` and `List` records;
  - the pure item-array transforms: find, filter, patch, completion, reorder and move;
  - the lemmas about them: delete undoes add, a move keeps the total, move there and back, a reorder by a permutation keeps every item.
- `Service` (`service.dfy`) holds:
  - class `ListStore`, with the signed-in user and a map from list id to document;
  - one method per modelled operation of the store (`searchAllLists` is a module-level method, since it reads no store state), each with its "Not authenticated", "List not found", "Item not found" and "Invalid import data format" outcomes;
  - the search, as a method with nested loops proved against a recursive definition;
  - the lemmas about reordering lists, importing and searching.
- `App` (`app.dfy`) holds:
  - class `Client`, with the module-level state of `app.js` and the handlers for selection, collapse, quick add, saving a list and dropping an item;
  - the pure functions these handlers use: the selection toggle, the splice of a same-list drop, and the sort by `order` used for rendering.

Server timestamps, `Date.now()` readings and generated ids are parameters
(`now`, `createdAt`, `listId`, `itemId`) of the methods that use them.

## Model

| member | source | states |
|---|---|---|
| Strings.Trim | app.js:338 | `trim()` returns the part of the input between its leading and its trailing whitespace: the result starts right after the leading whitespace, only whitespace follows it, it is empty exactly when the input is all whitespace, and otherwise it starts and ends with a non-space |
| Strings.Lower | firebase-service.js:421-426 | `toLowerCase()` (on the term and on each item text) keeps the length, maps each character by itself, and leaves no ASCII upper-case letter |
| Strings.LeadingSpaces | app.js:338 | the count of leading characters `trim()` drops: all of them are whitespace and the next one is not |
| Strings.TrailingSpaces | app.js:338 | the count of trailing characters `trim()` drops: all of them are whitespace and the one before them is not |
| Strings.Contains | firebase-service.js:426 | `includes` holds exactly when the needle occurs at some position of the text |
| Lists.FindIndex | app.js:686-687 | `findIndex` gives -1 exactly when no item has the id; otherwise the item there has the id and no earlier item does |
| Lists.FilterSpec | firebase-service.js:213 | a filter keeps exactly the elements the predicate accepts, each with its multiplicity, in their original relative order, and never grows the array |
| Lists.RemoveItem | firebase-service.js:213 | deleteItem's array: no item with the id remains, every other item is kept with its multiplicity, in order, and the length never grows |
| Lists.RemoveItems | firebase-service.js:341 | deleteItems' array: no item whose id is among the given ids remains, the others are kept in order, and the length never grows |
| Lists.ClearCompleted | firebase-service.js:360 | no completed item remains, and every uncompleted item is kept with its multiplicity, in its original order |
| Lists.Patch | firebase-service.js:191 | `{ ...item, ...updates }` keeps id, order and stamp, takes each field the update carries and keeps the others; an empty update leaves the item unchanged |
| Lists.NewItem | firebase-service.js:160-166 | addItem's new item has the given id, text and stamp, is not completed, and takes the order equal to the number of items already in the list |
| Lists.UpdateItems | firebase-service.js:189-194 | updateItem's array has the same length, keeps every id and order in place, patches exactly the items with the id, and is unchanged when no id matches |
| Lists.SetCompletion | firebase-service.js:317-322 | the length and every field other than `completed` are unchanged; `completed` is the given flag exactly for the items whose id is among the given ids |
| Lists.ReorderItems | firebase-service.js:278-281 | the result has one entry per supplied id, entry `i` has order `i`; a known id yields the first item with that id in the stored array (the item at `FindIndex`; no earlier item has the id), with only its order replaced, an unknown id yields an entry with only `order` set |
| Lists.ReorderNamed | firebase-service.js:278-281 | when every supplied id names an item, the result's ids are the supplied sequence and an item not named is dropped |
| Lists.ReorderPermutationKeepsItems | firebase-service.js:278-281 | a reorder by a permutation of the ids of an array with distinct ids keeps the length and loses no item: each reappears with order equal to its new position |
| Lists.MoveItems | firebase-service.js:241-262 | moveItem's computation fails exactly when the item is not in the source; otherwise the source loses the item and the destination gains it at its end with order equal to the destination's old length |
| Lists.FilterAppend | firebase-service.js:213 | filtering a concatenation filters each part |
| Lists.FilterKeepsAll | firebase-service.js:213 | a filter that accepts every element returns the array unchanged |
| Lists.DeleteUndoesAdd | firebase-service.js:160-166 | deleting the item just appended by addItem restores the previous array |
| Lists.RemovePresentDropsOne | firebase-service.js:213 | with distinct ids, deleting a present id shortens the array by exactly one |
| Lists.MoveKeepsTotal | firebase-service.js:247-250 | with distinct ids in the source, a move keeps the total number of items across the two lists |
| Lists.MoveThereAndBack | firebase-service.js:221-263 | moving an item to another list and back restores the other list and puts the item at the end of the source, renumbered |
| Service.NewList | firebase-service.js:63-71 | a created list has the given id and name, no items, the given icon when it is non-empty and the pin icon exactly when it is empty (`icon || '📌'`), and order 0 when none is given |
| Service.LastIndex | firebase-service.js:293-298 | the last position of an id in the sequence, or -1 exactly when the id is absent |
| Service.ReorderedLists | firebase-service.js:293-298 | reorderLists keeps the set of documents; unnamed lists are untouched and named lists change only in `order` and `updatedAt` |
| Service.ClearAll | firebase-service.js:372-376 | a list with a completed item gets exactly the items `clearCompletedItems` keeps (the uncompleted ones, in order) and a new stamp, and nothing else changes; lists without one are not written at all |
| Service.ListStore.constructor | firebase-service.js:25 | the store starts with the given user and no documents |
| Service.ListStore.SignIn | firebase-service.js:29-33 | the auth callback with a user makes that user the current user, and no document changes |
| Service.ListStore.SignOut | firebase-service.js:34-37 | the auth callback without a user (after `logout`) clears the current user, and no document changes |
| Service.ListStore.CreateList | firebase-service.js:57-75 | fails when no user is signed in; otherwise it writes the new list under its id and returns it |
| Service.ListStore.UpdateList | firebase-service.js:77-86 | fails without a user or for a missing document and then writes nothing; otherwise only name, icon and stamp of that list change |
| Service.ListStore.AddItem | firebase-service.js:149-176 | fails without a user or with "List not found" and then writes nothing; otherwise it appends one uncompleted item with order equal to the old length and leaves every prior item unchanged |
| Service.ListStore.UpdateItem | firebase-service.js:178-200 | the error cases write nothing; otherwise the list's items become the patched array and nothing else changes |
| Service.ListStore.DeleteItem | firebase-service.js:202-219 | the error cases write nothing; otherwise the list's items become the filtered array |
| Service.ListStore.MoveItem | firebase-service.js:221-263 | fails with "List not found" when either list is missing and with "Item not found" when the item is absent from the source, writing nothing in both cases; otherwise it writes the source and then the destination with the arrays of the move |
| Service.ListStore.ReorderItems | firebase-service.js:265-287 | the error cases write nothing; otherwise the list's items become the array rebuilt from the id sequence |
| Service.ListStore.ReorderLists | firebase-service.js:289-302 | every named existing list gets its position as order; the result is success exactly when every named list exists, and otherwise the not-found failure |
| Service.ListStore.ToggleItemsCompletion | firebase-service.js:306-328 | the error cases write nothing; otherwise exactly the named items take the given completion flag |
| Service.ListStore.DeleteItems | firebase-service.js:330-347 | the error cases write nothing; otherwise the named items are removed |
| Service.ListStore.ClearCompletedItems | firebase-service.js:349-366 | the error cases write nothing; otherwise the list's completed items are removed |
| Service.ListStore.ClearAllCompletedItems | firebase-service.js:368-379 | the loop over the documents clears exactly the lists holding a completed item and leaves the others unwritten |
| Service.ListStore.ImportData | firebase-service.js:399-416 | rejects a payload whose `lists` is missing or not an array and writes nothing; otherwise it writes every imported list under its own id |
| Service.NormalizeTerm | firebase-service.js:421 | the search term is lower-cased and trimmed: no longer than the input, no ASCII upper-case letter left, empty exactly when the input is all whitespace, and otherwise starting and ending with a non-space |
| Service.NormalizeTermIsTrimmedLower | firebase-service.js:421 | `searchTerm.toLowerCase().trim()`: the term is the lower-cased input from the end of its leading whitespace, followed in the input by nothing but whitespace, so together with NormalizeTerm's non-space ends it is exactly the trimmed lower-cased input |
| Service.PushListHits | firebase-service.js:425-434 | the inner loop over a list's items appends exactly that list's hits, in item order, to the results so far |
| Service.SearchAllLists | firebase-service.js:420-438 | the nested loops produce exactly the hits of the recursive search definition, for the lower-cased, trimmed term |
| Service.ReorderedListsStep | firebase-service.js:293-298 | one step of the reorderLists loop sets the order of the named list to its index, if that list exists |
| Service.LastIndexOfDistinct | firebase-service.js:293-298 | in a sequence without repeats, each position is its id's last position |
| Service.ReorderListsByIndex | firebase-service.js:293-298 | with distinct ids, each named existing list gets order equal to its index, and every other list is untouched |
| Service.ImportOverwrites | firebase-service.js:407-413 | after an import, each imported id holds the last imported list with that id (stamped), and every other document is as before |
| Service.ImportKeepsKeying | firebase-service.js:407-413 | an import keeps every document stored under its own id |
| Service.ImportOfExportKeepsContent | firebase-service.js:399-416 | importing an export of all documents leaves every list's content as it was, changing only the stamps |
| Service.ListHitsMembership | firebase-service.js:425-434 | the hits within one list are exactly its matching items |
| Service.HitsMembership | firebase-service.js:424-435 | a search hit is exactly a hit within one of the lists |
| Service.SearchMembership | firebase-service.js:420-438 | the search returns exactly the items whose lower-cased text contains the term, each tagged with its list's id, name and icon |
| Service.HitsAppend | firebase-service.js:424-435 | results come list by list, in list order |
| Service.ListHitsAppend | firebase-service.js:425-434 | within a list, results come in item order |
| Service.MoveWithinOneListDuplicates | firebase-service.js:247-262 | moving an item with equal source and destination ids keeps the item and appends a copy |
| App.ToggleSelection | app.js:502-515 | the item's membership in its list's selection flips, every other list's selection is unchanged, and no empty set is kept |
| App.ToggleSelectionTwice | app.js:502-515 | selecting the same item twice restores the selection |
| App.SumSizesRemove | app.js:522-523 | the sum of the selected-set sizes can be taken in any order of the lists |
| App.SelectedCountPositive | app.js:522-530 | with no empty sets, the selected count is positive exactly when some list has a selection |
| App.CountSelected | app.js:522-523 | the running total equals the sum of the sizes of the selected sets |
| App.ToggleMembership | app.js:611-616 | the id's membership in the collapsed set flips and nothing else changes |
| App.ToggleMembershipTwice | app.js:611-616 | collapsing twice restores the set |
| App.MoveTo | app.js:692-694 | the splice keeps the length and the elements, puts the dragged element at the target index, and keeps the others in their relative order |
| App.IdsMoveTo | app.js:692-697 | splicing the items and then taking their ids equals splicing the ids |
| App.DropOrder | app.js:686-697 | no order is produced exactly when the dragged or the target id is missing; otherwise the ids are a permutation with the dragged id at the target index and the others in their original relative order |
| App.FindList | app.js:683 | the list found has the id, and none is found exactly when no list has it |
| App.InsertByOrder | app.js:288 | an insertion adds exactly one element to the sequence |
| App.InsertKeepsSorted | app.js:288 | inserting into a sequence sorted by order keeps it sorted |
| App.SortByOrder | app.js:288 | the rendered items are a permutation of the list's items, sorted ascending by order |
| App.CompletedCount | app.js:230 | a list card's completed count is at most the number of items, and zero exactly when no item is completed |
| App.CompletedCountIsCleared | app.js:230-231 | the completed count plus the items left by clearCompletedItems is the number of items |
| App.IconFromInput | app.js:383 | the icon sent is the trimmed input when that is non-empty and the pin icon exactly when it is empty; never empty |
| App.Client.constructor | app.js:5-10 | the client starts with no lists, nothing collapsed, nothing selected and the bar hidden |
| App.Client.UpdateBulkActionsBar | app.js:521-531 | the bar is shown exactly when the total selected is positive; the label shows that total, and keeps its last text when hidden |
| App.Client.HandleSelectItem | app.js:502-519 | the selection becomes the toggled selection, never holds an empty set, the bar is shown exactly when something is selected, and then its label shows the total number of selected items; a hidden bar keeps its last label |
| App.Client.OnListsSnapshot | app.js:191-197 | each snapshot the store delivers becomes the client's list sequence |
| App.Client.ClearSelection | app.js:533-537 | the selection is empty and the bar hidden; the label keeps its last text |
| App.Client.ToggleListCollapse | app.js:611-616 | the collapsed set becomes the toggled set |
| App.Client.HandleQuickAdd | app.js:337-360 | blank text or no selected list makes no store call; otherwise addItem is called, and it succeeds exactly when a user is signed in and the selected list exists: addItem's new item (the given id and stamp, the trimmed text, not completed, order equal to the list's old length) is then appended to that list, and on an error nothing is written |
| App.Client.HandleSaveList | app.js:381-410 | a blank name makes no store call; when editing, updateList succeeds exactly when a user is signed in and the list exists, and the list then gets the trimmed name and the icon (default pin); otherwise createList succeeds exactly when a user is signed in, and the new list has order equal to the number of current lists; a failed call writes nothing |
| App.Client.HandleItemDrop | app.js:669-712 | a drop on the dragged item itself does nothing; a same-list drop issues no reorder when the list or either item is missing, and otherwise sends the splice's id order to reorderItems; the reorder succeeds exactly when a user is signed in and the list exists; a drop on another list always goes through moveItem, which succeeds exactly when a user is signed in, both lists exist and the source list holds the item; a failed reorder or move writes nothing; when the move succeeds the source list gets the items without the dragged one and the target list the items with it appended, both stamped |

## Left out

- Firebase itself is not modelled: the SDK calls, the security rules, `onSnapshot` subscriptions (`subscribeToLists`), `getList`, `getAllLists`, `deleteList`, `exportAllData` and `cleanup`. The store is an in-memory map plus an optional signed-in user, and the `initAuth` callback is modelled by `SignIn` and `SignOut`, which only set or clear that user; the Firebase sign-in flow and the redirect in `logout` are not modelled.
- Concurrency is not modelled. The `Promise.all` fan-outs of `reorderLists`, `clearAllCompletedItems` and `importData` are written as sequential loops. The lost updates possible between a read and its write-back are not represented.
- Service.ListStore.ReorderLists: in the source the updates run concurrently and the first failure rejects the call. The model applies the updates in order, keeps going past a missing list, and then reports the not-found failure.
- Service.ListStore.UpdateList and Service.ListStore.ReorderLists: for a missing document the source fails with Firestore's not-found rejection from `updateDoc` (firebase-service.js:82, 295), not with the `'List not found'` Error the item operations throw. The model reports both as `ListNotFound`, so it does not distinguish the two error messages.
- Clock readings and generated ids are parameters. The model does not claim that ids are unique.
- Strings.Trim and Strings.Lower model ASCII whitespace and ASCII case mapping only, not Unicode.
- The DOM is not modelled: rendering, modals, toasts, keyboard shortcuts, `escapeHtml`, `confirm`/`prompt`, file reading, JSON parsing, downloads, the drag-event wiring and the `localStorage` persistence of the collapsed set.
- `handleBulkMove` is not modelled, because it is a stub that only shows a message.
- The bulk actions `handleBulkComplete` and `handleBulkDelete` are not modelled as handlers. Their store calls are modelled (`ToggleItemsCompletion`, `DeleteItems`).
- `service-worker.js` is not modelled, because it is cache and network plumbing.
- Service.ListStore.UpdateList: only the fields the app sends (`name`, `icon`) are modelled, not an arbitrary update object.
- Lists.UpdateItems: only the fields the app sends (`text`, `completed`) are modelled, not an arbitrary update object.
- Lists.ReorderItems: an id with no matching item yields a record with empty id and text. In the source that record has no id and no text fields at all.
- Lists.ReorderItems: because such a record is given the id `""`, `FindIndex`, `RemoveItem`, `UpdateItems` and `MoveItems` match it when asked for the id `""`. In the source `undefined === ""` is false, so no operation finds it by id.
- Service.SearchAllLists: an entry without text makes `item.text.toLowerCase()` throw a TypeError in the source (firebase-service.js:426), so the whole search fails. The model reads the text as `""` and returns the entry as a hit exactly when the normalized term is empty.
- Service.ListStore.ImportData: imported lists are typed records. The source spreads arbitrary JSON objects and does not check their shape.
- App.Client.HandleItemDrop: the source compares DOM elements (`targetItem === draggedElement`). The model compares the pair of list id and item id. A drop outside any item is not modelled.
- App.Client.UpdateBulkActionsBar: the `Map` and `Set` insertion order is not modelled, because the count does not depend on it.
- App.SortByOrder: the stability of `Array.prototype.sort` is not stated, only that the result is sorted and is a permutation.
- Service.ListStore.MoveItem: moving within one list duplicates the item, because the source does not check that the two list ids differ. The model keeps this behaviour and states it in `Service.MoveWithinOneListDuplicates`. No caller in `app.js` passes equal ids.
- Service.ListStore.MoveItem: the source issues its two writes concurrently. The model writes the source list first and the destination second, so with equal ids the destination's write is the one that survives.
