/** `LocalTaskService` of frontend/src/services/taskService.ts: the browser's task
    list, a `Map` from id to task kept in insertion order. The map is the field
    `tasks`, a sequence of tasks in the map's iteration order whose ids are
    distinct (each entry is stored under its own task's id). The clock (`now`) and
    the generated id are parameters; `localStorage` persistence is not part of this
    model. */
module LocalTasks {
  import opened Wrappers
  import opened Tasks

  /** Position of the entry with the given id. */
  function IndexOf(s: seq<Task>, id: string): (r: Option<nat>)
    ensures r.Some? ==> r.value < |s| && s[r.value].id == id
    ensures r.Some? ==> forall i :: 0 <= i < r.value ==> s[i].id != id
    ensures r.None? ==> forall i :: 0 <= i < |s| ==> s[i].id != id
  {
    if s == [] then None
    else if s[0].id == id then Some(0)
    else match IndexOf(s[1..], id)
      case None => None
      case Some(i) => Some(i + 1)
  }

  /** `Map.get`. */
  function Get(s: seq<Task>, id: string): (r: Option<Task>)
    ensures r.Some? <==> exists i :: 0 <= i < |s| && s[i].id == id
    ensures r.Some? ==> r.value in s && r.value.id == id
  {
    match IndexOf(s, id)
    case None => None
    case Some(i) => Some(s[i])
  }

  /** `Map.set(t.id, t)`: an existing id keeps its position, a new id goes last. */
  function SetTask(s: seq<Task>, t: Task): seq<Task> {
    match IndexOf(s, t.id)
    case Some(i) => s[i := t]
    case None => s + [t]
  }

  /** `Map.delete(id)`. */
  function RemoveId(s: seq<Task>, id: string): seq<Task> {
    match IndexOf(s, id)
    case Some(i) => s[..i] + s[i + 1..]
    case None => s
  }

  /** No two entries share an id. */
  predicate DistinctIds(s: seq<Task>) {
    forall i, j :: 0 <= i < j < |s| ==> s[i].id != s[j].id
  }

  /** After `set`, the id maps to the new task, every other id keeps its task, ids
      stay distinct, and the size grows by one exactly for a new id. */
  lemma SetTaskCorrect(s: seq<Task>, t: Task)
    requires DistinctIds(s)
    ensures DistinctIds(SetTask(s, t))
    ensures Get(SetTask(s, t), t.id) == Some(t)
    ensures forall id :: id != t.id ==> Get(SetTask(s, t), id) == Get(s, id)
    ensures |SetTask(s, t)| == if Get(s, t.id).Some? then |s| else |s| + 1
  {
    var r := SetTask(s, t);
    match IndexOf(s, t.id) {
    case Some(k) =>
      assert r[k] == t;
      assert DistinctIds(r) by {
        forall i, j | 0 <= i < j < |r| ensures r[i].id != r[j].id {
          if i != k && j != k {
            assert r[i] == s[i] && r[j] == s[j];
          } else if i == k {
            assert r[j] == s[j];
          } else {
            assert r[i] == s[i];
          }
        }
      }
      GetUnique(r, t.id);
    case None =>
      assert r[|s|] == t;
      GetUnique(r, t.id);
    }
    forall id | id != t.id ensures Get(r, id) == Get(s, id) {
      GetUnique(s, id);
      GetUnique(r, id);
      if Get(s, id).Some? {
        var i :| 0 <= i < |s| && s[i].id == id;
        assert r[i] == s[i];
      }
    }
  }

  /** With distinct ids, `Get` returns the one entry carrying the id. */
  lemma GetUnique(s: seq<Task>, id: string)
    requires DistinctIds(s)
    ensures forall i :: 0 <= i < |s| && s[i].id == id ==> Get(s, id) == Some(s[i])
  {
  }

  /** After `delete`, the id is gone, every other id keeps its task, ids stay
      distinct, and the size drops by one exactly when the id was present. */
  lemma RemoveIdCorrect(s: seq<Task>, id: string)
    requires DistinctIds(s)
    ensures DistinctIds(RemoveId(s, id))
    ensures Get(RemoveId(s, id), id) == None
    ensures forall other :: other != id ==> Get(RemoveId(s, id), other) == Get(s, other)
    ensures |RemoveId(s, id)| == if Get(s, id).Some? then |s| - 1 else |s|
  {
    var r := RemoveId(s, id);
    if IndexOf(s, id).Some? {
      var k := IndexOf(s, id).value;
      RemoveAtShifts(s, k);
      assert DistinctIds(r) by {
        forall i, j | 0 <= i < j < |r| ensures r[i].id != r[j].id {
          assert r[i] == s[if i < k then i else i + 1];
          assert r[j] == s[if j < k then j else j + 1];
        }
      }
      forall other | other != id ensures Get(r, other) == Get(s, other) {
        GetUnique(s, other);
        GetUnique(r, other);
        if Get(s, other).Some? {
          var i :| 0 <= i < |s| && s[i].id == other;
          assert r[if i < k then i else i - 1] == s[i];
        }
      }
    }
  }

  /** Removing position `k` shifts the later entries down by one. */
  lemma RemoveAtShifts(s: seq<Task>, k: nat)
    requires k < |s|
    ensures forall i :: 0 <= i < |s| - 1 ==> (s[..k] + s[k + 1..])[i] == if i < k then s[i] else s[i + 1]
  {
  }

  class LocalTaskService {
    var tasks: seq<Task>

    ghost predicate Valid()
      reads this
    {
      DistinctIds(tasks)
    }

    /** A service with no stored tasks. */
    constructor ()
      ensures Valid() && tasks == []
    {
      tasks := [];
    }

    /** `createTask`: blank text (empty or JavaScript whitespace only) gives `null`
        and changes nothing; otherwise an open task with the trimmed text is set
        under its id. */
    method CreateTask(text: string, id: string, now: nat) returns (r: Option<Task>)
      requires Valid()
      modifies this
      ensures Valid()
      ensures r.None? <==> Blank(text, IsJsSpace)
      ensures r.None? ==> tasks == old(tasks)
      ensures r.Some? ==> r.value == Task(id, JsTrim(text), false, now, None)
      ensures r.Some? ==> tasks == SetTask(old(tasks), r.value) && Get(tasks, id) == r
    {
      TrimEmptyIffBlank(text, IsJsSpace);
      if text == [] || JsTrim(text) == [] {
        return None;
      }
      var task := Task(id, JsTrim(text), false, now, None);
      SetTaskCorrect(tasks, task);
      tasks := SetTask(tasks, task);
      r := Some(task);
    }

    /** `toggleTask`: flip `completed` and stamp the update time of the stored task,
        in place. */
    method ToggleTask(id: string, now: nat) returns (r: Option<Task>)
      requires Valid()
      modifies this
      ensures Valid()
      ensures r.None? <==> old(Get(tasks, id)).None?
      ensures r.None? ==> tasks == old(tasks)
      ensures r.Some? ==> var t := old(Get(tasks, id)).value;
        r.value == t.(completed := !t.completed, updatedAt := Some(now))
        && tasks == SetTask(old(tasks), r.value) && Get(tasks, id) == r
    {
      var found := Get(tasks, id);
      if found.None? {
        return None;
      }
      var task := found.value;
      task := task.(completed := !task.completed, updatedAt := Some(now));
      SetTaskCorrect(tasks, task);
      tasks := SetTask(tasks, task);
      r := Some(task);
    }

    /** `deleteTask`: true exactly when the id was present; it is gone afterwards. */
    method DeleteTask(id: string) returns (deleted: bool)
      requires Valid()
      modifies this
      ensures Valid()
      ensures deleted == old(Get(tasks, id)).Some?
      ensures tasks == RemoveId(old(tasks), id) && Get(tasks, id) == None
    {
      deleted := Get(tasks, id).Some?;
      RemoveIdCorrect(tasks, id);
      tasks := RemoveId(tasks, id);
    }

    /** `getAllTasks`: the map's values in insertion order, stably sorted by
        creation time. */
    method GetAllTasks() returns (all: seq<Task>)
      requires Valid()
      ensures all == SortByCreated(tasks)
      ensures SortedByCreated(all) && multiset(all) == multiset(tasks)
    {
      all := SortByCreated(tasks);
      SortByCreatedCorrect(tasks);
    }

    /** `updateTaskText`: blank text gives `null`; otherwise the stored task gets the
        trimmed text and the update time, in place. */
    method UpdateTaskText(id: string, text: string, now: nat) returns (r: Option<Task>)
      requires Valid()
      modifies this
      ensures Valid()
      ensures r.None? <==> Blank(text, IsJsSpace) || old(Get(tasks, id)).None?
      ensures r.None? ==> tasks == old(tasks)
      ensures r.Some? ==> var t := old(Get(tasks, id)).value;
        r.value == t.(text := JsTrim(text), updatedAt := Some(now))
        && tasks == SetTask(old(tasks), r.value) && Get(tasks, id) == r
    {
      TrimEmptyIffBlank(text, IsJsSpace);
      if text == [] || JsTrim(text) == [] {
        return None;
      }
      var found := Get(tasks, id);
      if found.None? {
        return None;
      }
      var task := found.value;
      task := task.(text := JsTrim(text), updatedAt := Some(now));
      SetTaskCorrect(tasks, task);
      tasks := SetTask(tasks, task);
      r := Some(task);
    }
  }
}
