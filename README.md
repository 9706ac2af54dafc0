# Task list with drag-to-reorder: a Dafny model

This project models the logic core of a small to-do application. It has three parts.

- **The task store** (stores/taskStore.tsx). The provider holds a list of `Task` records. `addTask`, `toggleTask`, `deleteTask` and `updateTask` each replace that list with a new one built from the old one.
- **The task list** (components/TaskList.tsx). It shows the tasks sorted by `order`. `handleMove(from, to)` works in three steps:
  - it removes the task at `from` and splices it back in at `to`;
  - it gives every task its index as its `order` and stamps it with a fresh `new Date()`;
  - it hands the whole list back to the store in one `reorderTasks` call.
- **The web drag-and-drop list** (components/dnd/PlatformSortable.web.tsx). It derives the ids of the rendered items and finds the item being dragged. `handleDragEnd` turns a drop into a `(from, to)` move, or into no move at all.

## Modules

- `Wrappers`: the `Option` datatype.
- `TaskModel`: the `Task` record as the program actually builds it, and `Partial<Task>` patches applied with object spread (`Merge`).
  - `order` is optional, because `addTask` never sets it.
  - `priority` and `updatedAt` are carried although `Task` does not declare them, because `addTask` and the reorder write them.
- `TaskStore`: the four transitions as functions over `seq<Task>`, and lemmas about them. The class `Store` holds `tasks` and applies each transition in one assignment. A ghost log `snapshots` records every list the store commits, so a contract can say how many replacements an action made.
- `ListMove`: `Array.prototype.splice`, and the two-splice move built from it. `SourceIndex` is an independent description of where each element of the moved list came from. The move is proved against it, and so are the shift facts, the permutation and the inverse move.
- `TaskList`:
  - the sort by `order`, with the comparator `a.order - b.order`. When an order is missing the difference is NaN, which the sort treats as "equal".
  - the renumbering, and the method `HandleMove`, which commits the result through one `Store.ReorderTasks` call.
  - the link from the drag layer's reported move to where the tasks land.
- `Sequences`: the `map` of a sequence, and the fact that mapping preserves permutations.
- `PlatformSortable`: the functions `Ids`, `IndexOf`, `FindActive` and `DropTarget`. The class `Sortable` holds `activeId`, which drag start, drag end and drag cancel overwrite.

Ids, creation times and reorder times are parameters; `Date.now()` and `new Date()` themselves are not modelled. The renumbering calls `new Date()` once per task, so it takes one clock reading per task (`nows[i]`), and the readings need not be equal. Nothing here claims that ids are unique, because the source does not ensure it. The transitions act on every task that carries the id.

Two points of the code shape the model:
- `addTask` sets neither `order` nor `timeSlot`, so a new task has no order until the next reorder.
- `reorderTasks` is called by the task list, but the provider's context value and interface (stores/taskStore.tsx:4-10, 62) do not define it. The model gives the store a `ReorderTasks` that replaces the whole list, which is the behaviour the task list relies on.

Because added tasks have no `order`, sortedness of `sortedTasks` is claimed only when every task carries an order. After one reorder that always holds (`ReorderedIsSorted`).

## Model

| member | source | states |
|---|---|---|
| TaskModel.Merge | stores/taskStore.tsx:56 | `{...task, ...updates}`: each field present in the patch takes the patch's value, every other field keeps the task's value, and `priority`/`updatedAt` are never touched |
| TaskModel.MergeNoChanges | stores/taskStore.tsx:56 | merging the empty patch gives the task back unchanged |
| TaskModel.MergeIdempotent | stores/taskStore.tsx:56 | merging the same patch twice is the same as merging it once |
| TaskModel.MergeCombine | stores/taskStore.tsx:56 | two merges in a row equal one merge of the combined patch, the later patch winning |
| TaskStore.Append | stores/taskStore.tsx:29-38 | addTask grows the list by exactly one and keeps every earlier task in place. The new last task has the given id, title, priority, dueDate and creation time, `completed = false`, and no order, time slot or updatedAt |
| TaskStore.Toggle | stores/taskStore.tsx:41-47 | toggleTask keeps length and positions. A task whose id matches has `completed` flipped and nothing else changed; every other task is unchanged |
| TaskStore.ToggleTwice | stores/taskStore.tsx:42-46 | toggling the same id twice restores the original list |
| TaskStore.ToggleAbsent | stores/taskStore.tsx:44 | toggling an id that no task carries leaves the list unchanged |
| TaskStore.ToggleKeepsOrders | stores/taskStore.tsx:44 | toggle changes no field other than `completed`, so ids and orders stay |
| TaskStore.Delete | stores/taskStore.tsx:49-51 | the filtered list is no longer than the original (its contents are stated by DeleteCounts and DeleteMembers) |
| TaskStore.DeleteCounts | stores/taskStore.tsx:50 | deleteTask removes every copy of each task carrying the id and keeps every other task with its multiplicity |
| TaskStore.DeleteMembers | stores/taskStore.tsx:50 | a task is in the result exactly when it was in the list and does not carry the id |
| TaskStore.DeleteConcat | stores/taskStore.tsx:50 | the filter distributes over concatenation, so the survivors keep their relative order |
| TaskStore.DeleteAbsent | stores/taskStore.tsx:50 | deleting an id that no task carries leaves the list unchanged |
| TaskStore.DeleteIdempotent | stores/taskStore.tsx:49-51 | deleting the same id twice is the same as deleting it once |
| TaskStore.DeleteUndoesAppend | stores/taskStore.tsx:29-51 | deleting the id of a task just added, when no earlier task had that id, restores the list from before the add |
| TaskStore.DeleteKeepsSorted | stores/taskStore.tsx:50 | deleting from a list sorted by order leaves it sorted, so a delete never disturbs the display order |
| TaskStore.Update | stores/taskStore.tsx:53-59 | updateTask keeps length and positions. A matching task becomes the patch merged into it; every other task is unchanged |
| TaskStore.UpdateAbsent | stores/taskStore.tsx:56 | updating an id that no task carries leaves the list unchanged |
| TaskStore.UpdateNoChanges | stores/taskStore.tsx:56 | updating with the empty patch leaves the list unchanged |
| TaskStore.UpdateIdempotent | stores/taskStore.tsx:53-59 | repeating an update changes nothing more, even when the patch rewrites the id |
| TaskStore.Store.constructor | stores/taskStore.tsx:27 | the store starts with no tasks and nothing committed |
| TaskStore.Store.AddTask | stores/taskStore.tsx:29-39 | the list becomes `Append` of the old list, committed in one replacement |
| TaskStore.Store.ToggleTask | stores/taskStore.tsx:41-47 | the list becomes `Toggle` of the old list, committed in one replacement |
| TaskStore.Store.DeleteTask | stores/taskStore.tsx:49-51 | the list becomes `Delete` of the old list, committed in one replacement |
| TaskStore.Store.UpdateTask | stores/taskStore.tsx:53-59 | the list becomes `Update` of the old list, committed in one replacement |
| TaskStore.Store.ReorderTasks | components/TaskList.tsx:22 | the list becomes exactly the list handed in, committed in one replacement |
| TaskList.OrderCompare | components/TaskList.tsx:14 | the comparator is negative exactly when the first order is smaller and positive exactly when it is larger; with an order missing (NaN in JavaScript) it reports "equal" |
| TaskList.InsertByOrder | components/TaskList.tsx:14 | one insertion step of the sort grows the list by one and adds exactly the inserted task |
| TaskList.InsertKeepsSorted | components/TaskList.tsx:14 | inserting an ordered task into a list sorted by order keeps it sorted |
| TaskList.SortByOrder | components/TaskList.tsx:14 | `sortedTasks` is a permutation of `tasks`, and it is non-decreasing in `order` whenever every task carries an order |
| TaskList.SortKeepsSorted | components/TaskList.tsx:14 | sorting a list already sorted by order returns it unchanged |
| TaskList.RenumberFrom | components/TaskList.tsx:21 | the renumbering gives the task at index i order `first + i` and its own clock reading `nows[i]` as `updatedAt`, and changes no other field |
| TaskList.RenumberIsContiguous | components/TaskList.tsx:21 | after renumbering, the orders are exactly 0..N-1, strictly increasing along the list |
| TaskList.RenumberKeepsUnpositioned | components/TaskList.tsx:21 | ignoring `order` and `updatedAt`, the renumbered list equals the list before renumbering |
| TaskList.Reordered | components/TaskList.tsx:18-21 | the committed list has the length of the displayed list (its contents are stated by ReorderedAt) |
| TaskList.ReorderedAt | components/TaskList.tsx:18-21 | index i of the committed list holds the displayed task at `SourceIndex(from, to, i)`, with order i and `updatedAt` the clock reading `nows[i]` |
| TaskList.ReorderedMovedTask | components/TaskList.tsx:19-21 | the moved task lands at `to`, with order `to` and the clock reading taken at index `to`, and is otherwise unchanged |
| TaskList.ReorderedDisplacedTask | components/TaskList.tsx:19-21 | the task that stood at `to` ends one place toward `from`, and is otherwise unchanged |
| TaskList.ReorderedIsPermutation | components/TaskList.tsx:18-21 | ignoring `order` and `updatedAt`, the committed list is a permutation of the displayed one |
| TaskList.ReorderedIsSorted | components/TaskList.tsx:14-22 | sorting the committed list again gives it back, so the next render shows exactly the committed order |
| TaskList.HandleMove | components/TaskList.tsx:16-23 | when `from == to`, neither the tasks nor the commit log change. Otherwise, given one clock reading per task, the store holds the moved and renumbered copy of the sorted list, committed in exactly one `reorderTasks` call |
| TaskList.MoveLandsOnTarget | components/TaskList.tsx:19-21 | after a real move, the task at `to` carries the moved task's id and order `to`, and the next index toward `from` carries the id of the task that stood at `to` |
| TaskList.DropLandsOnTarget | components/TaskList.tsx:37-40 | a move that the web list reports over the displayed tasks has both indices in range and distinct. After `handleMove`, the dragged task sits where the drop target was, and the target sits one place toward the dragged task's old index |
| ListMove.Splice | components/TaskList.tsx:19-20 | `splice` with the start clamped to the array removes at most `deleteCount` elements from the start, keeps the prefix, puts `items` in their place, and leaves the removed elements plus the rest reassembling the original |
| ListMove.Moved | components/TaskList.tsx:18-20 | the two splices keep the length (the contents are stated by MovedAt) |
| ListMove.SpliceOut | components/TaskList.tsx:19 | `splice(i, 1)` on an index in range returns exactly the element at `i` and leaves the rest in order |
| ListMove.SpliceIn | components/TaskList.tsx:20 | `splice(i, 0, x)` inserts `x` in front of index `i` |
| ListMove.DisplacedIndex | components/TaskList.tsx:19-20 | the index where the element that stood at `to` ends up takes its element from `to` |
| ListMove.MovedAt | components/TaskList.tsx:19-20 | the two splices place at every index i the element from `SourceIndex(from, to, i)` |
| ListMove.MoveShifts | components/TaskList.tsx:19-20 | the moved element lands at `to`. Elements strictly between the indices shift one place toward `from`; every other element keeps its index |
| ListMove.MovedIsPermutation | components/TaskList.tsx:18-20 | the move is a permutation of the list |
| ListMove.SourceIndexInverse | components/TaskList.tsx:19-20 | the index map of the reverse move undoes the index map of the move |
| ListMove.MoveInverse | components/TaskList.tsx:19-20 | moving from `from` to `to` and then back restores the original sequence (before renumbering) |
| PlatformSortable.Ids | components/dnd/PlatformSortable.web.tsx:23 | `ids` has the length of `items` and `ids[i]` is `items[i].id` |
| PlatformSortable.IndexOf | components/dnd/PlatformSortable.web.tsx:30-31 | `indexOf` is -1 exactly when the id does not occur; otherwise the index holds the id |
| PlatformSortable.IndexOfIsFirst | components/dnd/PlatformSortable.web.tsx:30-31 | no index before the one `indexOf` reports holds the id |
| PlatformSortable.FindActive | components/dnd/PlatformSortable.web.tsx:24 | `find` gives nothing exactly when no drag is active or no item carries the id; otherwise it gives the item at the first index carrying the id |
| PlatformSortable.DropTarget | components/dnd/PlatformSortable.web.tsx:29-32 | a move is reported exactly when `over` is present, differs from `active`, and both ids occur. Then `from` and `to` are their `indexOf` values, both in range and distinct |
| PlatformSortable.DropTargetFirstIndices | components/dnd/PlatformSortable.web.tsx:30-32 | a reported move names the first index of the dragged id and the first index of the drop target's id |
| PlatformSortable.DropTargetItems | components/dnd/PlatformSortable.web.tsx:30-32 | over the rendered items, a reported move has the dragged item at `from` and the drop target at `to` |
| PlatformSortable.Sortable.constructor | components/dnd/PlatformSortable.web.tsx:17 | a list starts with no active drag |
| PlatformSortable.Sortable.ActiveItem | components/dnd/PlatformSortable.web.tsx:24 | the overlay item is one of the items and carries the active id; with no such item, it is null |
| PlatformSortable.Sortable.OnDragStart | components/dnd/PlatformSortable.web.tsx:55 | after drag start, the active id is the dragged id |
| PlatformSortable.Sortable.HandleDragEnd | components/dnd/PlatformSortable.web.tsx:26-33 | after drag end there is no active id, and the move reported to `onMove` is `DropTarget` of the ids |
| PlatformSortable.Sortable.OnDragCancel | components/dnd/PlatformSortable.web.tsx:57 | after drag cancel there is no active id |

## Left out

- Id and clock generation (`Date.now()`, `new Date()` in addTask and in the reorder): ids and times are parameters. Id uniqueness is not claimed, because the code does not ensure it.
- React context plumbing is not modelled: the provider, `useTaskStore`'s throw outside a provider, rendering, and the `version` re-render effect in components/TaskList.tsx. They are framework behaviour, not list logic.
- TaskStore.Store.ReorderTasks: the provider at stores/taskStore.tsx does not define `reorderTasks`. The model supplies the whole-list replacement that components/TaskList.tsx relies on. The as-written call, to a missing member, is not modelled.
- TaskList.SortByOrder: non-decreasing order is proved only when every task carries an order. With an order missing, the comparator is inconsistent and the arrangement is the engine's choice; the model fixes one stable insertion order. Stability itself is not stated.
- TaskList.HandleMove: for `from != to` it requires both indices in range. JavaScript's behaviour for negative or out-of-range splice indices is not modelled. The web drag layer only ever reports in-range indices (`DropLandsOnTarget`). The native drag layer passes the library's indices through, and it is not modelled.
- ListMove.Splice: models only non-negative start and count arguments, clamped to the array. Negative arguments count from the end in JavaScript and are not modelled.
- PlatformSortable.Sortable.ActiveItem: states membership and the id match. That it is the first such item is stated by `FindActive`, which it returns.
- The patch type covers the fields `Task` declares. An explicit `undefined` is modelled for `dueDate` and `timeSlot`, and also for `order`: `Task` declares `order` as required, but the model treats it as optional because `addTask` leaves it unset. An explicit `undefined` for the other required fields is not modelled. A patch cannot carry `priority` or `updatedAt`, because `Partial<Task>` has no such keys.
- Orders and time slots are JavaScript numbers, but they are integers in the model. A non-integer or NaN value that a patch writes into `order` or `timeSlot` is not modelled. A NaN order would sort like a missing one.
- PlatformSortable is generic over items with an `id` in the source. The model specialises it to `Task`, the only item type the task list passes.
- components/dnd/PlatformSortable.native.tsx is not part of this model. Its move reporting depends on React state-update timing and on the drag library's callback order.
- UI components are not modelled: components/AddTask.tsx (including its trim guard on the title), components/TaskItem.tsx, components/BottomSheet.tsx, components/Header.tsx, constants/Colors.ts and hooks/useKeyboardBottomInset.ts. The trim guard lives in the form, not the store, so `Append` does not require it.
- Calendar-event derivation and its default time slot of 15 minutes are not modelled. The calendar screen (app/(tabs)/calendar.tsx) implements both, outside the modelled files.
- dnd-kit sensors, the drag overlay and portals are not modelled. They are foreign library calls.
