/**
 * The task list (components/TaskList.tsx): the store's tasks sorted by
 * `order` for display, and `handleMove`, which moves one task to a new
 * index, renumbers every task by its position and hands the whole list to
 * the store in one `reorderTasks` call.
 */
module TaskList {
  import opened Wrappers
  import opened TaskModel
  import opened TaskStore
  import opened PlatformSortable
  import opened Sequences
  import opened ListMove

  // ---------------------------------------------------------------------
  // sortedTasks: `[...tasks].sort((a, b) => a.order - b.order)`
  // ---------------------------------------------------------------------

  /**
   * The comparator `a.order - b.order`. When either order is absent the
   * difference is NaN, which the sort treats as 0 ("equal").
   */
  function OrderCompare(a: Task, b: Task): (c: int)
    ensures a.order.Some? && b.order.Some? ==>
      (c < 0 <==> a.order.value < b.order.value) && (c > 0 <==> a.order.value > b.order.value)
    ensures a.order.None? || b.order.None? ==> c == 0
  {
    if a.order.Some? && b.order.Some? then a.order.value - b.order.value else 0
  }

  /**
   * Places `x` in front of the first element it does not sort after, so
   * that `x`, which came earlier in the input than every element of `r`,
   * stays ahead of the elements that compare equal to it.
   */
  function InsertByOrder(x: Task, r: seq<Task>): (q: seq<Task>)
    ensures |q| == |r| + 1
    ensures multiset(q) == multiset(r) + multiset{x}
  {
    if r == [] || OrderCompare(x, r[0]) <= 0 then [x] + r
    else
      assert r == [r[0]] + r[1..];
      [r[0]] + InsertByOrder(x, r[1..])
  }

  /** Every task in `s` carries an order of at least `b`. */
  predicate AtLeast(b: int, s: seq<Task>) {
    forall t :: t in s ==> t.order.Some? && b <= t.order.value
  }

  /** Inserting an ordered task into a sorted list keeps it sorted. */
  lemma {:induction false} InsertKeepsSorted(x: Task, r: seq<Task>)
    requires x.order.Some? && SortedByOrder(r)
    ensures SortedByOrder(InsertByOrder(x, r))
  {
    if r == [] || OrderCompare(x, r[0]) <= 0 {
      forall k | 0 <= k < |r| ensures x.order.value <= r[k].order.value { }
      SortedCons(x, r);
    } else {
      var tail := InsertByOrder(x, r[1..]);
      assert SortedByOrder(r[1..]) by {
        forall i | 0 <= i < |r[1..]| ensures r[1..][i] == r[i + 1] { }
      }
      InsertKeepsSorted(x, r[1..]);
      assert AtLeast(r[0].order.value, r[1..]) by {
        forall t | t in r[1..] ensures t.order.Some? && r[0].order.value <= t.order.value {
          var j :| 0 <= j < |r[1..]| && r[1..][j] == t;
          assert r[j + 1] == t;
        }
      }
      assert AtLeast(r[0].order.value, tail) by {
        forall t | t in tail ensures t.order.Some? && r[0].order.value <= t.order.value {
          assert t in multiset(tail);
        }
      }
      forall k | 0 <= k < |tail| ensures r[0].order.value <= tail[k].order.value {
        assert tail[k] in tail;
      }
      SortedCons(r[0], tail);
    }
  }

  /**
   * A stable sort by `order`: a permutation of its input, non-decreasing in
   * `order` whenever every task carries one. (With an order missing the
   * comparator is not consistent and the arrangement is the engine's choice;
   * the model fixes one.)
   */
  function SortByOrder(s: seq<Task>): (r: seq<Task>)
    ensures |r| == |s|
    ensures multiset(r) == multiset(s)
    ensures AllOrdered(s) ==> SortedByOrder(r)
  {
    if s == [] then []
    else
      assert s == [s[0]] + s[1..];
      assert AllOrdered(s) ==> AllOrdered(s[1..]) by {
        forall i | 0 <= i < |s[1..]| ensures s[1..][i] == s[i + 1] { }
      }
      var tail := SortByOrder(s[1..]);
      assert AllOrdered(s) ==> SortedByOrder(InsertByOrder(s[0], tail)) by {
        if AllOrdered(s) { InsertKeepsSorted(s[0], tail); }
      }
      InsertByOrder(s[0], tail)
  }

  /** A list already sorted by order is left exactly as it is. */
  lemma {:induction false} SortKeepsSorted(s: seq<Task>)
    requires SortedByOrder(s)
    ensures SortByOrder(s) == s
  {
    if s != [] {
      assert SortedByOrder(s[1..]) by {
        forall i | 0 <= i < |s[1..]| ensures s[1..][i] == s[i + 1] { }
      }
      SortKeepsSorted(s[1..]);
      assert s == [s[0]] + s[1..];
    }
  }

  // ---------------------------------------------------------------------
  // handleMove: two splices (module ListMove), then a renumbering map
  // ---------------------------------------------------------------------

  /**
   * `list.map((t, i) => ({ ...t, order: first + i, updatedAt: new Date() }))`:
   * each task gets its position as its order and the clock reading taken for
   * it (`nows[i]`, one `new Date()` per task), and nothing else about it changes.
   */
  function RenumberFrom(s: seq<Task>, first: nat, nows: seq<Time>): (r: seq<Task>)
    requires |nows| == |s|
    ensures |r| == |s|
    ensures forall i :: 0 <= i < |s| ==>
      r[i].order == Some(first + i) && r[i].updatedAt == Some(nows[i]) && SameExceptPosition(r[i], s[i])
  {
    if s == [] then []
    else [s[0].(order := Some(first), updatedAt := Some(nows[0]))] + RenumberFrom(s[1..], first + 1, nows[1..])
  }

  /** The renumbering `handleMove` applies: orders count from 0. */
  function Renumber(s: seq<Task>, nows: seq<Time>): seq<Task>
    requires |nows| == |s|
  {
    RenumberFrom(s, 0, nows)
  }

  /** After renumbering, the orders are exactly 0..N-1, increasing along the list. */
  lemma RenumberIsContiguous(s: seq<Task>, nows: seq<Time>)
    requires |nows| == |s|
    ensures var r := Renumber(s, nows);
      && SortedByOrder(r)
      && (forall i, j :: 0 <= i < j < |r| ==> r[i].order.value < r[j].order.value)
      && (forall k :: 0 <= k < |r| ==> r[k].order == Some(k))
  {
  }

  /** The list `handleMove` hands to `reorderTasks` for a real move. */
  function Reordered(sortedTasks: seq<Task>, from: nat, to: nat, nows: seq<Time>): (r: seq<Task>)
    requires from < |sortedTasks| && to < |sortedTasks| && |nows| == |sortedTasks|
    ensures |r| == |sortedTasks|
  {
    Renumber(Moved(sortedTasks, from, to), nows)
  }

  /**
   * Position `i` of the committed list holds the task that the move put
   * there, with order `i`, stamped with the clock reading `nows[i]`, and
   * otherwise as it was displayed.
   */
  lemma ReorderedAt(sortedTasks: seq<Task>, from: nat, to: nat, nows: seq<Time>)
    requires from < |sortedTasks| && to < |sortedTasks| && |nows| == |sortedTasks|
    ensures var r := Reordered(sortedTasks, from, to, nows);
      forall i :: 0 <= i < |r| ==>
        && r[i].order == Some(i) && r[i].updatedAt == Some(nows[i])
        && SourceIndex(from, to, i) < |sortedTasks|
        && SameExceptPosition(r[i], sortedTasks[SourceIndex(from, to, i)])
  {
    MovedAt(sortedTasks, from, to);
  }

  /** The moved task is at `to`, with order `to`, and otherwise as it was at `from`. */
  lemma ReorderedMovedTask(sortedTasks: seq<Task>, from: nat, to: nat, nows: seq<Time>)
    requires from < |sortedTasks| && to < |sortedTasks| && |nows| == |sortedTasks|
    ensures var r := Reordered(sortedTasks, from, to, nows);
      r[to] == sortedTasks[from].(order := Some(to), updatedAt := Some(nows[to]))
  {
    ReorderedAt(sortedTasks, from, to, nows);
  }

  /**
   * Ignoring the two fields a reorder rewrites, the committed list is a
   * permutation of the displayed one.
   */
  lemma ReorderedIsPermutation(sortedTasks: seq<Task>, from: nat, to: nat, nows: seq<Time>)
    requires from < |sortedTasks| && to < |sortedTasks| && |nows| == |sortedTasks|
    ensures var r := Reordered(sortedTasks, from, to, nows);
      multiset(MapSeq(Unpositioned, r)) == multiset(MapSeq(Unpositioned, sortedTasks))
  {
    var m := Moved(sortedTasks, from, to);
    MovedIsPermutation(sortedTasks, from, to);
    MapSeqPermutation(Unpositioned, m, sortedTasks);
    RenumberKeepsUnpositioned(m, nows);
  }

  /** Renumbering touches nothing but the position fields. */
  lemma RenumberKeepsUnpositioned(s: seq<Task>, nows: seq<Time>)
    requires |nows| == |s|
    ensures MapSeq(Unpositioned, Renumber(s, nows)) == MapSeq(Unpositioned, s)
  {
    var l, r := MapSeq(Unpositioned, Renumber(s, nows)), MapSeq(Unpositioned, s);
    forall i | 0 <= i < |l| ensures l[i] == r[i] {
      assert SameExceptPosition(Renumber(s, nows)[i], s[i]);
    }
  }

  /**
   * Sorting the committed list again gives the committed list: the next
   * render shows exactly the order that was committed.
   */
  lemma ReorderedIsSorted(sortedTasks: seq<Task>, from: nat, to: nat, nows: seq<Time>)
    requires from < |sortedTasks| && to < |sortedTasks| && |nows| == |sortedTasks|
    ensures SortByOrder(Reordered(sortedTasks, from, to, nows)) == Reordered(sortedTasks, from, to, nows)
  {
    RenumberIsContiguous(Moved(sortedTasks, from, to), nows);
    SortKeepsSorted(Reordered(sortedTasks, from, to, nows));
  }

  /**
   * `handleMove(from, to)`: nothing when `from == to`; otherwise one
   * `reorderTasks` call with the moved and renumbered copy of the sorted list.
   */
  method HandleMove(store: Store, from: nat, to: nat, nows: seq<Time>)
    requires from == to || (from < |store.tasks| && to < |store.tasks| && |nows| == |store.tasks|)
    modifies store
    ensures from == to ==> store.tasks == old(store.tasks) && store.snapshots == old(store.snapshots)
    ensures from != to ==>
      && store.tasks == Reordered(SortByOrder(old(store.tasks)), from, to, nows)
      && store.snapshots == old(store.snapshots) + [store.tasks]
  {
    if from == to {
      return;
    }
    var sortedTasks := SortByOrder(store.tasks);
    var newTasks := sortedTasks;
    var spliced := Splice(newTasks, from, 1, []);
    var movedTask := spliced.0[0];
    newTasks := spliced.1;
    newTasks := Splice(newTasks, to, 0, [movedTask]).1;
    var reordered := Renumber(newTasks, nows);
    store.ReorderTasks(reordered);
  }

  /**
   * The task that stood at `to` ends one place further toward `from`, its
   * other fields as they were.
   */
  lemma ReorderedDisplacedTask(sortedTasks: seq<Task>, from: nat, to: nat, nows: seq<Time>)
    requires from < |sortedTasks| && to < |sortedTasks| && |nows| == |sortedTasks| && from != to
    ensures var r := Reordered(sortedTasks, from, to, nows);
      var j := DisplacedIndex(from, to);
      j < |r| && SameExceptPosition(r[j], sortedTasks[to]) && r[j].order == Some(j)
  {
    ReorderedAt(sortedTasks, from, to, nows);
  }

  /**
   * After a real move the moved task is at `to` and the task that stood at
   * `to` is one place further toward `from`.
   */
  lemma MoveLandsOnTarget(sortedTasks: seq<Task>, from: nat, to: nat, nows: seq<Time>)
    requires from < |sortedTasks| && to < |sortedTasks| && |nows| == |sortedTasks| && from != to
    ensures var r := Reordered(sortedTasks, from, to, nows);
      && r[to].id == sortedTasks[from].id && r[to].order == Some(to)
      && r[DisplacedIndex(from, to)].id == sortedTasks[to].id
  {
    ReorderedMovedTask(sortedTasks, from, to, nows);
    ReorderedDisplacedTask(sortedTasks, from, to, nows);
  }

  /**
   * A move the web list reports over the displayed tasks is a valid move for
   * `handleMove`, and after it the dragged task sits where the drop target
   * was, with the target one place further toward the dragged task's old index.
   */
  lemma DropLandsOnTarget(sortedTasks: seq<Task>, active: Id, over: Id, m: Move, nows: seq<Time>)
    requires DropTarget(Ids(sortedTasks), active, Some(over)) == Some(m) && |nows| == |sortedTasks|
    ensures m.from < |sortedTasks| && m.to < |sortedTasks| && m.from != m.to
    ensures var r := Reordered(sortedTasks, m.from, m.to, nows);
      && r[m.to].id == active && r[m.to].order == Some(m.to)
      && r[DisplacedIndex(m.from, m.to)].id == over
  {
    DropTargetItems(sortedTasks, active, over, m);
    MoveLandsOnTarget(sortedTasks, m.from, m.to, nows);
  }
}
