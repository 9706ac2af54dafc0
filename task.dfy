/**
 * The `Task` record (types/task.ts) as the running program builds it, and
 * `Partial<Task>` patches merged into it with object spread.
 */
module TaskModel {
  import opened Wrappers

  /** Task ids are strings; the model takes them from the caller. */
  type Id = string

  /** A `Date`, kept opaque: the model only stores and compares it. */
  type Time = int

  /** The priority tag that `addTask` stores although `Task` does not declare it. */
  datatype Priority = Low | Medium | High

  /**
   * A task object. `order`, `timeSlot` and `dueDate` may be absent at run
   * time; `priority` and `updatedAt` are not declared by `Task` but are
   * written by `addTask` and by the reorder in the task list.
   */
  datatype Task = Task(
    id: Id,
    title: string,
    completed: bool,
    createdAt: Time,
    dueDate: Option<Time>,
    order: Option<int>,
    timeSlot: Option<int>,
    priority: Option<Priority>,
    updatedAt: Option<Time>)

  /**
   * A `Partial<Task>`: `None` means the key is absent from the patch. For a
   * field a task may lack at run time (`dueDate`, `timeSlot`, and `order`,
   * which `addTask` leaves unset), `Some(None)` is a key present with the
   * value `undefined`, which the spread copies.
   */
  datatype TaskPatch = TaskPatch(
    id: Option<Id>,
    title: Option<string>,
    completed: Option<bool>,
    createdAt: Option<Time>,
    dueDate: Option<Option<Time>>,
    order: Option<Option<int>>,
    timeSlot: Option<Option<int>>)

  /** The empty patch `{}`. */
  const NoChanges: TaskPatch := TaskPatch(None, None, None, None, None, None, None)

  /** `{ ...t, ...p }`: every key present in `p` overrides the one in `t`. */
  function Merge(t: Task, p: TaskPatch): (r: Task)
    ensures r.id == p.id.GetOr(t.id) && r.title == p.title.GetOr(t.title)
    ensures r.completed == p.completed.GetOr(t.completed)
    ensures r.createdAt == p.createdAt.GetOr(t.createdAt)
    ensures r.dueDate == p.dueDate.GetOr(t.dueDate) && r.order == p.order.GetOr(t.order)
    ensures r.timeSlot == p.timeSlot.GetOr(t.timeSlot)
    ensures r.priority == t.priority && r.updatedAt == t.updatedAt
  {
    t.(id := p.id.GetOr(t.id), title := p.title.GetOr(t.title),
       completed := p.completed.GetOr(t.completed), createdAt := p.createdAt.GetOr(t.createdAt),
       dueDate := p.dueDate.GetOr(t.dueDate), order := p.order.GetOr(t.order),
       timeSlot := p.timeSlot.GetOr(t.timeSlot))
  }

  /** `{ ...p, ...q }`: the patch whose keys are those of both, `q` winning. */
  function Combine(p: TaskPatch, q: TaskPatch): TaskPatch {
    TaskPatch(
      if q.id.Some? then q.id else p.id,
      if q.title.Some? then q.title else p.title,
      if q.completed.Some? then q.completed else p.completed,
      if q.createdAt.Some? then q.createdAt else p.createdAt,
      if q.dueDate.Some? then q.dueDate else p.dueDate,
      if q.order.Some? then q.order else p.order,
      if q.timeSlot.Some? then q.timeSlot else p.timeSlot)
  }

  /** Merging the empty patch is the identity. */
  lemma MergeNoChanges(t: Task)
    ensures Merge(t, NoChanges) == t
  {
  }

  /** Merging the same patch twice is merging it once. */
  lemma MergeIdempotent(t: Task, p: TaskPatch)
    ensures Merge(Merge(t, p), p) == Merge(t, p)
  {
  }

  /** Two spreads in a row equal one spread of the combined patch. */
  lemma MergeCombine(t: Task, p: TaskPatch, q: TaskPatch)
    ensures Merge(Merge(t, p), q) == Merge(t, Combine(p, q))
  {
  }

  /** A task with the two fields a reorder rewrites, `order` and `updatedAt`, cleared. */
  function Unpositioned(t: Task): Task {
    t.(order := None, updatedAt := None)
  }

  /** `a` and `b` agree on every field except `order` and `updatedAt`. */
  predicate SameExceptPosition(a: Task, b: Task) {
    Unpositioned(a) == Unpositioned(b)
  }
}
