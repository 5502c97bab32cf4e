/** `TodoService` of services/todo_service.py: input validation and the task
    operations over a `TaskStorageAdapter`. The clock and the random id are
    parameters (`now`, `idSuffix`). The `try` blocks around repository calls guard
    calls that cannot raise in this model (serializing and storing never fail, and
    `get_all_tasks` catches its own deserialization failures); the `get_task` calls
    in `toggle_task` and `update_task_text` sit outside any `try`, so a stored value
    that fails to deserialize propagates as `Raised`. */
module Todo {
  import opened Wrappers
  import opened SortedEntries
  import opened Tasks
  import opened StorageAdapter
  import S = SbtSpec

  /** `[t for t in tasks if t.completed]`. */
  function CompletedOf(ts: seq<Task>): (r: seq<Task>)
    ensures forall t :: t in r ==> t.completed
  {
    if ts == [] then []
    else (if ts[0].completed then [ts[0]] else []) + CompletedOf(ts[1..])
  }

  /** `[t for t in tasks if not t.completed]`. */
  function PendingOf(ts: seq<Task>): (r: seq<Task>)
    ensures forall t :: t in r ==> !t.completed
  {
    if ts == [] then []
    else (if ts[0].completed then [] else [ts[0]]) + PendingOf(ts[1..])
  }

  /** The completed and the pending lists split the task list: together they hold
      every task exactly as often as it occurs, and their lengths add up. */
  lemma {:induction false} CompletedPendingPartition(ts: seq<Task>)
    ensures multiset(CompletedOf(ts)) + multiset(PendingOf(ts)) == multiset(ts)
    ensures |CompletedOf(ts)| + |PendingOf(ts)| == |ts|
  {
    if ts != [] {
      CompletedPendingPartition(ts[1..]);
      assert ts == [ts[0]] + ts[1..];
    }
  }

  class TodoService {
    const repository: TaskStorageAdapter

    ghost predicate Valid()
      reads this, repository, repository.storage
    {
      repository.Valid()
    }

    constructor (repository: TaskStorageAdapter)
      requires repository.Valid()
      ensures this.repository == repository && Valid()
    {
      this.repository := repository;
    }

    /** The list `get_all_tasks` returns in the current state. */
    ghost function AllTasks(): seq<Task>
      requires Valid()
      reads this, repository, repository.storage
    {
      SortByCreated(Collect(S.Inorder(repository.storage.root)))
    }

    /** `create_task`: blank text (empty or Python whitespace only) is refused and
        nothing is stored; otherwise a new open task with the stripped text is saved
        under the id `task-` + `idSuffix` and returned. */
    method CreateTask(text: string, idSuffix: string, now: nat) returns (r: Option<Task>)
      requires Valid()
      modifies repository.storage
      ensures Valid()
      ensures r.None? <==> Blank(text, IsPySpace)
      ensures r.None? ==> repository.storage.root == old(repository.storage.root)
      ensures r.Some? ==> r.value == Task("task-" + idSuffix, PyStrip(text), false, now, None)
      ensures r.Some? ==> repository.GetTask(r.value.id) == Returned(r)
      ensures r.Some? ==> forall k :: k != TaskKey("task-" + idSuffix) ==>
        repository.storage.Search(k) == old(repository.storage.Search(k))
    {
      TrimEmptyIffBlank(text, IsPySpace);
      if text == [] || PyStrip(text) == [] {
        return None;
      }
      var task := Task("task-" + idSuffix, PyStrip(text), false, now, None);
      repository.SaveTask(task);
      r := Some(task);
    }

    /** `toggle_task`: flip `completed`, stamp the update time and store the task
        again under the key of its own id; no other key changes. */
    method ToggleTask(id: string, now: nat) returns (r: Outcome<Option<Task>>)
      requires Valid()
      modifies repository.storage
      ensures Valid()
      ensures old(repository.GetTask(id)).Raised? ==> r.Raised?
      ensures old(repository.GetTask(id)) == Returned(None) ==> r == Returned(None)
      ensures !(old(repository.GetTask(id)).Returned? && old(repository.GetTask(id)).value.Some?) ==>
        repository.storage.root == old(repository.storage.root)
      ensures old(repository.GetTask(id)).Returned? && old(repository.GetTask(id)).value.Some? ==>
        var t := old(repository.GetTask(id)).value.value;
        var toggled := t.(completed := !t.completed, updatedAt := Some(now));
        r == Returned(if old(repository.storage.Found(TaskKey(t.id))) then Some(toggled) else None)
        && (r.value.Some? ==> repository.GetTask(t.id) == r)
        && (forall k :: k != TaskKey(t.id) ==> repository.storage.Search(k) == old(repository.storage.Search(k)))
      ensures (old(repository.GetTask(id)).Returned? && old(repository.GetTask(id)).value.Some?
        && old(repository.GetTask(id)).value.value.id == id) ==> r.Returned? && r.value.Some?
    {
      var fetched := repository.GetTask(id);
      if fetched.Raised? {
        return Raised;
      }
      if fetched.value.None? {
        return Returned(None);
      }
      var task := fetched.value.value;
      task := task.(completed := !task.completed, updatedAt := Some(now));
      var success, stamped := repository.UpdateTask(task, now);
      r := Returned(if success then Some(stamped) else None);
    }

    /** `delete_task`: the adapter's result, which is the engine's `delete` result as
        written. */
    method DeleteTask(id: string) returns (deleted: bool)
      requires Valid()
      modifies repository.storage
      ensures Valid()
      ensures deleted == S.DeleteResult(old(repository.storage.root), TaskKey(id))
      ensures repository.GetTask(id) == Returned(None)
      ensures forall k :: k != TaskKey(id) ==> repository.storage.Search(k) == old(repository.storage.Search(k))
    {
      deleted := repository.DeleteTask(id);
    }

    /** `get_all_tasks`. */
    method GetAllTasks() returns (tasks: seq<Task>)
      requires Valid()
      ensures tasks == AllTasks()
      ensures SortedByCreated(tasks)
    {
      tasks := repository.GetAllTasks();
    }

    /** `update_task_text`: blank text is refused; otherwise the stripped text and
        the update time are stored under the key of the task's own id. */
    method UpdateTaskText(id: string, text: string, now: nat) returns (r: Outcome<Option<Task>>)
      requires Valid()
      modifies repository.storage
      ensures Valid()
      ensures Blank(text, IsPySpace) ==> r == Returned(None)
      ensures !Blank(text, IsPySpace) && old(repository.GetTask(id)).Raised? ==> r.Raised?
      ensures old(repository.GetTask(id)) == Returned(None) ==> r == Returned(None)
      ensures (Blank(text, IsPySpace) || !(old(repository.GetTask(id)).Returned? && old(repository.GetTask(id)).value.Some?)) ==>
        repository.storage.root == old(repository.storage.root)
      ensures !Blank(text, IsPySpace) && old(repository.GetTask(id)).Returned? && old(repository.GetTask(id)).value.Some? ==>
        var t := old(repository.GetTask(id)).value.value;
        var edited := t.(text := PyStrip(text), updatedAt := Some(now));
        r == Returned(if old(repository.storage.Found(TaskKey(t.id))) then Some(edited) else None)
        && (r.value.Some? ==> repository.GetTask(t.id) == r && r.value.value.completed == t.completed)
        && (forall k :: k != TaskKey(t.id) ==> repository.storage.Search(k) == old(repository.storage.Search(k)))
    {
      TrimEmptyIffBlank(text, IsPySpace);
      if text == [] || PyStrip(text) == [] {
        return Returned(None);
      }
      var fetched := repository.GetTask(id);
      if fetched.Raised? {
        return Raised;
      }
      if fetched.value.None? {
        return Returned(None);
      }
      var task := fetched.value.value;
      task := task.(text := PyStrip(text), updatedAt := Some(now));
      var success, stamped := repository.UpdateTask(task, now);
      r := Returned(if success then Some(stamped) else None);
    }

    /** `get_completed_tasks`: the completed tasks of `get_all_tasks`, in its order. */
    method GetCompletedTasks() returns (tasks: seq<Task>)
      requires Valid()
      ensures tasks == CompletedOf(AllTasks())
    {
      var all := GetAllTasks();
      tasks := CompletedOf(all);
    }

    /** `get_pending_tasks`: the open tasks of `get_all_tasks`, in its order. */
    method GetPendingTasks() returns (tasks: seq<Task>)
      requires Valid()
      ensures tasks == PendingOf(AllTasks())
    {
      var all := GetAllTasks();
      tasks := PendingOf(all);
    }

    /** `get_task_stats` without the completion rate: the total splits into completed
        and pending counts. */
    method GetTaskStats() returns (total: nat, completed: nat, pending: nat)
      requires Valid()
      ensures total == |AllTasks()| && completed == |CompletedOf(AllTasks())|
      ensures pending == |PendingOf(AllTasks())| && total == completed + pending
    {
      var all := GetAllTasks();
      CompletedPendingPartition(all);
      total := |all|;
      completed := |CompletedOf(all)|;
      pending := total - completed;
    }
  }
}
