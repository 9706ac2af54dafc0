/**
 * The web drag-and-drop list (components/dnd/PlatformSortable.web.tsx):
 * the ids of the rendered items, the item being dragged, and the decision
 * in `handleDragEnd` that turns a drop into a `(from, to)` move.
 */
module PlatformSortable {
  import opened Wrappers
  import opened TaskModel

  /** A move reported to `onMove(from, to)`. */
  datatype Move = Move(from: nat, to: nat)

  /** `items.map(i => i.id)`. */
  function Ids(items: seq<Task>): (ids: seq<Id>)
    ensures |ids| == |items|
    ensures forall i :: 0 <= i < |items| ==> ids[i] == items[i].id
  {
    seq(|items|, i requires 0 <= i < |items| => items[i].id)
  }

  /** Some entry of `ids` is `x`. */
  predicate Occurs(ids: seq<Id>, x: Id) {
    exists i :: 0 <= i < |ids| && ids[i] == x
  }

  /** `ids.indexOf(x)`: the first index holding `x`, or -1 when there is none. */
  function IndexOf(ids: seq<Id>, x: Id): (r: int)
    ensures -1 <= r < |ids|
    ensures r == -1 <==> !Occurs(ids, x)
    ensures r >= 0 ==> ids[r] == x
  {
    if ids == [] then -1
    else if ids[0] == x then 0
    else
      var k := IndexOf(ids[1..], x);
      if k == -1 then -1 else k + 1
  }

  /** No entry before the index `IndexOf` reports holds `x`. */
  lemma {:induction false} IndexOfIsFirst(ids: seq<Id>, x: Id, j: nat)
    requires j < IndexOf(ids, x)
    ensures ids[j] != x
  {
    if j > 0 {
      IndexOfIsFirst(ids[1..], x, j - 1);
    }
  }

  /**
   * `items.find(i => i.id === activeId) || null`: the first item carrying the
   * active id, or nothing when no drag is active or no item carries it.
   */
  function FindActive(items: seq<Task>, activeId: Option<Id>): (r: Option<Task>)
    ensures r.None? <==> activeId.None? || !Occurs(Ids(items), activeId.value)
    ensures r.Some? ==> activeId.Some? && r.value == items[IndexOf(Ids(items), activeId.value)]
  {
    if items == [] || activeId.None? then None
    else if items[0].id == activeId.value then Some(items[0])
    else
      assert Ids(items)[1..] == Ids(items[1..]);
      FindActive(items[1..], activeId)
  }

  /**
   * The decision in `handleDragEnd`: no move without a drop target or when
   * an item is dropped on itself; otherwise the first indices of the two ids,
   * reported only when both are found and differ.
   */
  function DropTarget(ids: seq<Id>, active: Id, over: Option<Id>): (m: Option<Move>)
    ensures m.Some? <==> over.Some? && active != over.value && Occurs(ids, active) && Occurs(ids, over.value)
    ensures m.Some? ==>
      && m.value.from < |ids| && m.value.to < |ids| && m.value.from != m.value.to
      && m.value.from == IndexOf(ids, active) && m.value.to == IndexOf(ids, over.value)
  {
    if over.None? || active == over.value then None
    else
      var from := IndexOf(ids, active);
      var to := IndexOf(ids, over.value);
      if from != -1 && to != -1 && from != to then Some(Move(from, to)) else None
  }

  /**
   * A reported move names the dragged item at `from` and the drop target at
   * `to`, each at its first occurrence in `ids`.
   */
  lemma DropTargetFirstIndices(ids: seq<Id>, active: Id, over: Option<Id>)
    requires DropTarget(ids, active, over).Some?
    ensures var m := DropTarget(ids, active, over).value;
      && ids[m.from] == active && ids[m.to] == over.value
      && (forall j :: 0 <= j < m.from ==> ids[j] != active)
      && (forall j :: 0 <= j < m.to ==> ids[j] != over.value)
  {
    forall j | 0 <= j < IndexOf(ids, active) ensures ids[j] != active {
      IndexOfIsFirst(ids, active, j);
    }
    forall j | 0 <= j < IndexOf(ids, over.value) ensures ids[j] != over.value {
      IndexOfIsFirst(ids, over.value, j);
    }
  }

  /** A reported move over `items` names the dragged item at `from` and the drop target at `to`. */
  lemma DropTargetItems(items: seq<Task>, active: Id, over: Id, m: Move)
    requires DropTarget(Ids(items), active, Some(over)) == Some(m)
    ensures m.from < |items| && m.to < |items| && m.from != m.to
    ensures items[m.from].id == active && items[m.to].id == over
  {
    DropTargetFirstIndices(Ids(items), active, Some(over));
  }

  /**
   * The state of one sortable list: the items it renders and the id of the
   * item being dragged, if any.
   */
  class Sortable {
    const items: seq<Task>
    var activeId: Option<Id>

    /** `useState<string | null>(null)`. */
    constructor (items: seq<Task>)
      ensures this.items == items && activeId == None
    {
      this.items := items;
      activeId := None;
    }

    /** The item shown in the drag overlay. */
    function ActiveItem(): (r: Option<Task>)
      reads this
      ensures r.Some? ==> activeId.Some? && r.value in items && r.value.id == activeId.value
      ensures r.None? ==> forall i :: 0 <= i < |items| ==> Some(items[i].id) != activeId
    {
      FindActive(items, activeId)
    }

    /** `onDragStart`: remember the dragged id. */
    method OnDragStart(id: Id)
      modifies this
      ensures activeId == Some(id)
    {
      activeId := Some(id);
    }

    /**
     * `handleDragEnd`: clear the active id, then report the move (the call to
     * `onMove`) or nothing.
     */
    method HandleDragEnd(active: Id, over: Option<Id>) returns (move: Option<Move>)
      modifies this
      ensures activeId == None
      ensures move == DropTarget(Ids(items), active, over)
    {
      activeId := None;
      if over.None? || active == over.value {
        return None;
      }
      var ids := Ids(items);
      var from := IndexOf(ids, active);
      var to := IndexOf(ids, over.value);
      if from != -1 && to != -1 && from != to {
        move := Some(Move(from, to));
      } else {
        move := None;
      }
    }

    /** `onDragCancel`: clear the active id. */
    method OnDragCancel()
      modifies this
      ensures activeId == None
    {
      activeId := None;
    }
  }
}
