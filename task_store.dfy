/**
 * The task store (stores/taskStore.tsx): a list of tasks that every
 * operation replaces wholesale through `setTasks`. Each transition is a
 * pure function from the old list to the new one; `Store` holds the list
 * and applies them.
 */
module TaskStore {
  import opened Wrappers
  import opened TaskModel

  /** Some task in `s` carries `id`. */
  predicate HasId(s: seq<Task>, id: Id) {
    exists i :: 0 <= i < |s| && s[i].id == id
  }

  /** Every task in `s` carries an order. */
  predicate AllOrdered(s: seq<Task>) {
    forall i :: 0 <= i < |s| ==> s[i].order.Some?
  }

  /** Every task carries an order and the orders never decrease along `s`. */
  predicate SortedByOrder(s: seq<Task>) {
    AllOrdered(s) && forall i, j :: 0 <= i < j < |s| ==> s[i].order.value <= s[j].order.value
  }

  /**
   * The task `addTask` builds: `id` and `now` stand for `Date.now()` and
   * `new Date()`; `order` and `timeSlot` are never set.
   */
  function NewTask(title: string, priority: Option<Priority>, dueDate: Option<Time>, id: Id, now: Time): Task {
    Task(id, title, false, now, dueDate, None, None, priority, None)
  }

  /** `[...prev, newTask]`. */
  function Append(s: seq<Task>, title: string, priority: Option<Priority>, dueDate: Option<Time>, id: Id, now: Time): (r: seq<Task>)
    ensures |r| == |s| + 1 && r[..|s|] == s
    ensures r[|s|].id == id && r[|s|].title == title && r[|s|].dueDate == dueDate
    ensures !r[|s|].completed && r[|s|].createdAt == now && r[|s|].priority == priority
    ensures r[|s|].order.None? && r[|s|].timeSlot.None? && r[|s|].updatedAt.None?
  {
    s + [NewTask(title, priority, dueDate, id, now)]
  }

  /** `prev.map(task => task.id === id ? {...task, completed: !task.completed} : task)`. */
  function Toggle(s: seq<Task>, id: Id): (r: seq<Task>)
    ensures |r| == |s|
    ensures forall i :: 0 <= i < |s| ==>
      r[i] == if s[i].id == id then s[i].(completed := !s[i].completed) else s[i]
  {
    if s == [] then []
    else [if s[0].id == id then s[0].(completed := !s[0].completed) else s[0]] + Toggle(s[1..], id)
  }

  /** `prev.filter(task => task.id !== id)`. */
  function Delete(s: seq<Task>, id: Id): (r: seq<Task>)
    ensures |r| <= |s|
  {
    if s == [] then []
    else (if s[0].id == id then [] else [s[0]]) + Delete(s[1..], id)
  }

  /** Delete removes exactly the tasks carrying the id, every copy of them, and nothing else. */
  lemma {:induction false} DeleteCounts(s: seq<Task>, id: Id)
    ensures forall t :: multiset(Delete(s, id))[t] == if t.id == id then 0 else multiset(s)[t]
  {
    if s != [] {
      assert s == [s[0]] + s[1..];
      DeleteCounts(s[1..], id);
    }
  }

  /** A task survives a delete exactly when it was in the list and does not carry the id. */
  lemma DeleteMembers(s: seq<Task>, id: Id)
    ensures forall t :: t in Delete(s, id) <==> t in s && t.id != id
  {
    DeleteCounts(s, id);
  }

  /** `prev.map(task => task.id === id ? {...task, ...updates} : task)`. */
  function Update(s: seq<Task>, id: Id, updates: TaskPatch): (r: seq<Task>)
    ensures |r| == |s|
    ensures forall i :: 0 <= i < |s| ==>
      r[i] == if s[i].id == id then Merge(s[i], updates) else s[i]
  {
    if s == [] then []
    else [if s[0].id == id then Merge(s[0], updates) else s[0]] + Update(s[1..], id, updates)
  }

  /** Toggling the same id twice restores the list. */
  lemma ToggleTwice(s: seq<Task>, id: Id)
    ensures Toggle(Toggle(s, id), id) == s
  {
    var r := Toggle(Toggle(s, id), id);
    assert forall i :: 0 <= i < |s| ==> r[i] == s[i];
  }

  /** Toggle with an id no task carries leaves the list unchanged. */
  lemma ToggleAbsent(s: seq<Task>, id: Id)
    requires !HasId(s, id)
    ensures Toggle(s, id) == s
  {
    assert forall i :: 0 <= i < |s| ==> Toggle(s, id)[i] == s[i];
  }

  /** Toggle only ever flips `completed`: ids, orders and every other field stay. */
  lemma ToggleKeepsOrders(s: seq<Task>, id: Id)
    ensures forall i :: 0 <= i < |s| ==>
      Toggle(s, id)[i].(completed := s[i].completed) == s[i]
  {
  }

  /** Filtering distributes over concatenation, so survivors keep their relative order. */
  lemma {:induction false} DeleteConcat(a: seq<Task>, b: seq<Task>, id: Id)
    ensures Delete(a + b, id) == Delete(a, id) + Delete(b, id)
  {
    if a == [] {
      assert a + b == b;
    } else {
      assert (a + b)[1..] == a[1..] + b;
      DeleteConcat(a[1..], b, id);
    }
  }

  /** Delete with an id no task carries leaves the list unchanged. */
  lemma {:induction false} DeleteAbsent(s: seq<Task>, id: Id)
    requires !HasId(s, id)
    ensures Delete(s, id) == s
  {
    if s != [] {
      assert s[0].id != id;
      assert !HasId(s[1..], id) by {
        forall i | 0 <= i < |s[1..]| ensures s[1..][i].id != id {
          assert s[1..][i] == s[i + 1];
        }
      }
      DeleteAbsent(s[1..], id);
      assert s == [s[0]] + s[1..];
    }
  }

  /** After a delete no task carries the id, so deleting again changes nothing. */
  lemma DeleteIdempotent(s: seq<Task>, id: Id)
    ensures Delete(Delete(s, id), id) == Delete(s, id)
  {
    var r := Delete(s, id);
    DeleteMembers(s, id);
    assert !HasId(r, id) by {
      forall i | 0 <= i < |r| ensures r[i].id != id {
        assert r[i] in r;
      }
    }
    DeleteAbsent(r, id);
  }

  /** Deleting the id of a just-added task, when no earlier task had it, undoes the add. */
  lemma DeleteUndoesAppend(s: seq<Task>, title: string, priority: Option<Priority>, dueDate: Option<Time>, id: Id, now: Time)
    requires !HasId(s, id)
    ensures Delete(Append(s, title, priority, dueDate, id, now), id) == s
  {
    DeleteConcat(s, [NewTask(title, priority, dueDate, id, now)], id);
    DeleteAbsent(s, id);
  }

  /** Delete keeps the display order of the survivors: a list sorted by order stays sorted. */
  lemma {:induction false} DeleteKeepsSorted(s: seq<Task>, id: Id)
    requires SortedByOrder(s)
    ensures SortedByOrder(Delete(s, id))
  {
    if s != [] {
      assert s == [s[0]] + s[1..];
      SortedTail(s[0], s[1..]);
      DeleteKeepsSorted(s[1..], id);
      if s[0].id != id {
        DeleteKeepsBound(s[0], s[1..], id);
        SortedCons(s[0], Delete(s[1..], id));
      }
    }
  }

  /** The tail of a sorted list is sorted, and its orders are at least the head's. */
  lemma SortedTail(x: Task, t: seq<Task>)
    requires SortedByOrder([x] + t)
    ensures x.order.Some? && SortedByOrder(t)
    ensures forall k :: 0 <= k < |t| ==> x.order.value <= t[k].order.value
  {
    var r := [x] + t;
    assert r[0] == x;
    assert forall k :: 0 <= k < |t| ==> t[k] == r[k + 1];
  }

  /** Every task that survives a delete was in the list, so a lower bound on the orders survives too. */
  lemma DeleteKeepsBound(x: Task, s: seq<Task>, id: Id)
    requires AllOrdered(s) && x.order.Some?
    requires forall k :: 0 <= k < |s| ==> x.order.value <= s[k].order.value
    ensures AllOrdered(Delete(s, id))
    ensures forall k :: 0 <= k < |Delete(s, id)| ==> x.order.value <= Delete(s, id)[k].order.value
  {
    var r := Delete(s, id);
    DeleteMembers(s, id);
    forall k | 0 <= k < |r| ensures r[k].order.Some? && x.order.value <= r[k].order.value {
      assert r[k] in s;
    }
  }

  /** A list is sorted when its head is ordered, at most every later order, and its tail is sorted. */
  lemma SortedCons(x: Task, t: seq<Task>)
    requires x.order.Some? && SortedByOrder(t)
    requires forall k :: 0 <= k < |t| ==> x.order.value <= t[k].order.value
    ensures SortedByOrder([x] + t)
  {
    var r := [x] + t;
    forall i, j | 0 <= i < j < |r| ensures r[i].order.value <= r[j].order.value {
      assert r[j] == t[j - 1];
      if i > 0 { assert r[i] == t[i - 1]; }
    }
  }

  /** Update with an id no task carries leaves the list unchanged. */
  lemma UpdateAbsent(s: seq<Task>, id: Id, updates: TaskPatch)
    requires !HasId(s, id)
    ensures Update(s, id, updates) == s
  {
    assert forall i :: 0 <= i < |s| ==> Update(s, id, updates)[i] == s[i];
  }

  /** Updating with the empty patch leaves the list unchanged. */
  lemma UpdateNoChanges(s: seq<Task>, id: Id)
    ensures Update(s, id, NoChanges) == s
  {
    assert forall i :: 0 <= i < |s| ==> Update(s, id, NoChanges)[i] == s[i];
  }

  /**
   * Repeating an update changes nothing more, even when the patch rewrites
   * the id: then no task carries the old id any longer.
   */
  lemma UpdateIdempotent(s: seq<Task>, id: Id, updates: TaskPatch)
    ensures Update(Update(s, id, updates), id, updates) == Update(s, id, updates)
  {
    var r := Update(s, id, updates);
    forall i | 0 <= i < |s| ensures Update(r, id, updates)[i] == r[i] {
      if s[i].id == id {
        MergeIdempotent(s[i], updates);
      }
    }
  }

  /**
   * The task provider's state. Every operation replaces `tasks` in one step;
   * `snapshots` records each list committed, in order, so that a caller can
   * see how many replacements an action made.
   */
  class Store {
    var tasks: seq<Task>
    ghost var snapshots: seq<seq<Task>>

    /** `useState<Task[]>([])`. */
    constructor ()
      ensures tasks == [] && snapshots == []
    {
      tasks := [];
      snapshots := [];
    }

    method AddTask(title: string, priority: Option<Priority>, dueDate: Option<Time>, id: Id, now: Time)
      modifies this
      ensures tasks == Append(old(tasks), title, priority, dueDate, id, now)
      ensures snapshots == old(snapshots) + [tasks]
    {
      tasks := Append(tasks, title, priority, dueDate, id, now);
      snapshots := snapshots + [tasks];
    }

    method ToggleTask(id: Id)
      modifies this
      ensures tasks == Toggle(old(tasks), id)
      ensures snapshots == old(snapshots) + [tasks]
    {
      tasks := Toggle(tasks, id);
      snapshots := snapshots + [tasks];
    }

    method DeleteTask(id: Id)
      modifies this
      ensures tasks == Delete(old(tasks), id)
      ensures snapshots == old(snapshots) + [tasks]
    {
      tasks := Delete(tasks, id);
      snapshots := snapshots + [tasks];
    }

    method UpdateTask(id: Id, updates: TaskPatch)
      modifies this
      ensures tasks == Update(old(tasks), id, updates)
      ensures snapshots == old(snapshots) + [tasks]
    {
      tasks := Update(tasks, id, updates);
      snapshots := snapshots + [tasks];
    }

    /** Whole-list replacement, as the task list uses it. */
    method ReorderTasks(newTasks: seq<Task>)
      modifies this
      ensures tasks == newTasks
      ensures snapshots == old(snapshots) + [newTasks]
    {
      tasks := newTasks;
      snapshots := snapshots + [tasks];
    }
  }
}
