/** `TaskStorageAdapter` and `ConfigStorageAdapter` of core/storage_adapter.py: the
    task repository and the configuration store, both kept in an SBT under string
    keys. The storage engine's own disk persistence is not part of this model, so
    each adapter holds the `SbtTree` that the engine wraps. A Python exception is the
    `Raised` outcome. */
module StorageAdapter {
  import opened Wrappers
  import opened SortedEntries
  import opened PyValues
  import opened Tasks
  import S = SbtSpec
  import opened Sbt

  /** A Python call either returns a value or raises. */
  datatype Outcome<T> = Returned(value: T) | Raised

  const TaskPrefix: string := "task:"
  const ConfigKey: string := "app:config"

  /** `str.startswith`. */
  predicate StartsWith(s: string, prefix: string) {
    |prefix| <= |s| && s[..|prefix|] == prefix
  }

  /** `_task_key`: the `task:` prefix followed by the id. */
  function TaskKey(id: string): (key: string)
    ensures StartsWith(key, TaskPrefix) && key[|TaskPrefix|..] == id
  {
    TaskPrefix + id
  }

  /** Different ids never share a storage key, and no task key is the configuration
      key. */
  lemma TaskKeyInjective(a: string, b: string)
    ensures TaskKey(a) == TaskKey(b) ==> a == b
    ensures TaskKey(a) != ConfigKey
  {
    assert TaskKey(a)[|TaskPrefix|..] == a;
    assert TaskKey(b)[|TaskPrefix|..] == b;
    assert ConfigKey[4] != TaskKey(a)[4];
  }

  /** `_serialize_task`: a dictionary with the five fields, instants in text form and
      a missing `updated_at` as `None`. */
  function Serialize(t: Task): (d: Value)
    ensures d.PyDict? && Truthy(d)
    ensures d.fields.Keys == {"id", "text", "completed", "created_at", "updated_at"}
  {
    PyDict(map[
      "id" := PyStr(t.id),
      "text" := PyStr(t.text),
      "completed" := PyBool(t.completed),
      "created_at" := PyStr(Iso(t.createdAt)),
      "updated_at" := if t.updatedAt.Some? then PyStr(Iso(t.updatedAt.value)) else PyNone])
  }

  /** The `updated_at` field as `_deserialize_task` reads it: any false value means
      no update time, any true value must be an instant in text form. */
  function UpdatedAtField(v: Value): Option<Option<nat>> {
    if !Truthy(v) then Some(None)
    else if v.PyStr? && ParseIso(v.s).Some? then Some(Some(ParseIso(v.s).value))
    else None
  }

  /** `_deserialize_task`; `None` stands for the exception it raises on a value that
      is not a dictionary, a missing field, or text that is not an instant. */
  function Deserialize(d: Value): (r: Option<Task>)
    ensures r.Some? ==> d.PyDict? && d.fields.Keys >= {"id", "text", "completed", "created_at", "updated_at"}
    ensures r.Some? ==> d.fields["id"] == PyStr(r.value.id) && d.fields["text"] == PyStr(r.value.text)
                        && d.fields["completed"] == PyBool(r.value.completed)
  {
    if !d.PyDict? then None
    else
      var m := d.fields;
      if !("id" in m && "text" in m && "completed" in m && "created_at" in m && "updated_at" in m) then None
      else if !(m["id"].PyStr? && m["text"].PyStr? && m["completed"].PyBool? && m["created_at"].PyStr?) then None
      else
        var created := ParseIso(m["created_at"].s);
        var updated := UpdatedAtField(m["updated_at"]);
        if created.None? || updated.None? then None
        else Some(Task(m["id"].s, m["text"].s, m["completed"].b, created.value, updated.value))
  }

  /** `_deserialize_task(_serialize_task(t)) == t`, with `updated_at` `None` kept. */
  lemma DeserializeSerialize(t: Task)
    ensures Deserialize(Serialize(t)) == Some(t)
  {
    IsoRoundTrip(t.createdAt);
    if t.updatedAt.Some? {
      IsoRoundTrip(t.updatedAt.value);
    }
  }

  /** What `get_task` makes of the value found under a task key: nothing stored, or
      a false value, is no task; a true value is deserialized, which may raise. */
  function FetchTask(stored: Option<Value>): Outcome<Option<Task>> {
    if stored.None? || !Truthy(stored.value) then Returned(None)
    else match Deserialize(stored.value)
      case None => Raised
      case Some(t) => Returned(Some(t))
  }

  /** A saved task reads back unchanged. */
  lemma FetchSerialized(t: Task)
    ensures FetchTask(Some(Serialize(t))) == Returned(Some(t))
  {
    DeserializeSerialize(t);
  }

  /** The tasks the loop of `get_all_tasks` collects from the entries, in order:
      entries under the `task:` prefix whose value deserializes; the others are
      skipped. */
  function Collect(entries: seq<Entry<Value>>): seq<Task> {
    if entries == [] then []
    else
      var last := entries[|entries| - 1];
      Collect(entries[..|entries| - 1]) +
        (if StartsWith(last.0, TaskPrefix) && Deserialize(last.1).Some? then [Deserialize(last.1).value] else [])
  }

  /** Every collected task comes from an entry under the `task:` prefix. */
  lemma {:induction false} CollectSound(entries: seq<Entry<Value>>, t: Task)
    requires t in Collect(entries)
    ensures exists i :: 0 <= i < |entries| && StartsWith(entries[i].0, TaskPrefix) && Deserialize(entries[i].1) == Some(t)
    decreases |entries|
  {
    var init := entries[..|entries| - 1];
    var last := entries[|entries| - 1];
    if t in Collect(init) {
      CollectSound(init, t);
      var i :| 0 <= i < |init| && StartsWith(init[i].0, TaskPrefix) && Deserialize(init[i].1) == Some(t);
      assert entries[i] == init[i];
    } else {
      assert StartsWith(last.0, TaskPrefix) && Deserialize(last.1) == Some(t);
    }
  }

  /** Every entry under the `task:` prefix that deserializes is collected. */
  lemma {:induction false} CollectComplete(entries: seq<Entry<Value>>, i: nat)
    requires i < |entries| && StartsWith(entries[i].0, TaskPrefix) && Deserialize(entries[i].1).Some?
    ensures Deserialize(entries[i].1).value in Collect(entries)
    decreases |entries|
  {
    if i < |entries| - 1 {
      var init := entries[..|entries| - 1];
      assert init[i] == entries[i];
      CollectComplete(init, i);
    }
  }

  class TaskStorageAdapter {
    const storage: SbtTree

    ghost predicate Valid()
      reads this, storage
    {
      storage.Valid()
    }

    constructor (storage: SbtTree)
      requires storage.Valid()
      ensures this.storage == storage && Valid()
    {
      this.storage := storage;
    }

    /** `get_task`. */
    function GetTask(id: string): (r: Outcome<Option<Task>>)
      requires Valid()
      reads this, storage
      ensures r == FetchTask(Find(S.Inorder(storage.root), TaskKey(id)))
    {
      FetchTask(storage.Search(TaskKey(id)))
    }

    /** `save_task`: store the serialized task under its key; afterwards `get_task`
        returns it, and every other key keeps its value. */
    method SaveTask(task: Task)
      requires Valid()
      modifies storage
      ensures Valid()
      ensures storage.root == S.Insert(old(storage.root), TaskKey(task.id), Serialize(task))
      ensures GetTask(task.id) == Returned(Some(task))
      ensures forall k :: k != TaskKey(task.id) ==> storage.Search(k) == old(storage.Search(k))
    {
      storage.Insert(TaskKey(task.id), Serialize(task));
      FetchSerialized(task);
    }

    /** `delete_task`: delete exactly its key; the result is the engine's
        `delete` result as written. */
    method DeleteTask(id: string) returns (deleted: bool)
      requires Valid()
      modifies storage
      ensures Valid()
      ensures storage.root == S.Delete(old(storage.root), TaskKey(id))
      ensures deleted == S.DeleteResult(old(storage.root), TaskKey(id))
      ensures GetTask(id) == Returned(None)
      ensures forall k :: k != TaskKey(id) ==> storage.Search(k) == old(storage.Search(k))
    {
      deleted := storage.Delete(TaskKey(id));
    }

    /** `get_all_tasks`: the tasks under the `task:` prefix that deserialize, sorted by
        creation time (stably, so ties keep key order). */
    method GetAllTasks() returns (tasks: seq<Task>)
      requires Valid()
      ensures tasks == SortByCreated(Collect(S.Inorder(storage.root)))
      ensures SortedByCreated(tasks)
      ensures multiset(tasks) == multiset(Collect(S.Inorder(storage.root)))
    {
      var all := storage.GetAll();
      var collected: seq<Task> := [];
      var i := 0;
      while i < |all|
        invariant 0 <= i <= |all|
        invariant collected == Collect(all[..i])
      {
        var key := all[i].0;
        var data := all[i].1;
        if StartsWith(key, TaskPrefix) {
          var task := Deserialize(data);
          if task.Some? {
            collected := collected + [task.value];
          }
        }
        assert all[..i + 1][..i] == all[..i];
        i := i + 1;
      }
      assert all[..i] == all;
      tasks := SortByCreated(collected);
      SortByCreatedCorrect(collected);
    }

    /** `update_task`: stamp the task with the update time and overwrite its entry,
        only when the engine's `update` finds a value other than `None` under its
        key. */
    method UpdateTask(task: Task, now: nat) returns (updated: bool, stamped: Task)
      requires Valid()
      modifies storage
      ensures Valid()
      ensures stamped == task.(updatedAt := Some(now))
      ensures updated == old(storage.Found(TaskKey(task.id)))
      ensures updated ==> GetTask(task.id) == Returned(Some(stamped))
      ensures !updated ==> storage.root == old(storage.root)
      ensures forall k :: k != TaskKey(task.id) ==> storage.Search(k) == old(storage.Search(k))
    {
      stamped := task.(updatedAt := Some(now));
      updated := storage.Update(TaskKey(task.id), Serialize(stamped));
      FetchSerialized(stamped);
    }
  }

  class ConfigStorageAdapter {
    const storage: SbtTree

    ghost predicate Valid()
      reads this, storage
    {
      storage.Valid()
    }

    constructor (storage: SbtTree)
      requires storage.Valid()
      ensures this.storage == storage && Valid()
    {
      this.storage := storage;
    }

    /** `save_config`. */
    method SaveConfig(config: map<string, Value>)
      requires Valid()
      modifies storage
      ensures Valid()
      ensures storage.Search(ConfigKey) == Some(PyDict(config))
      ensures forall k :: k != ConfigKey ==> storage.Search(k) == old(storage.Search(k))
    {
      storage.Insert(ConfigKey, PyDict(config));
    }

    /** `load_config`: the stored configuration when it is a true value, otherwise an
        empty dictionary. */
    function LoadConfig(): (config: Value)
      requires Valid()
      reads this, storage
      ensures var stored := Find(S.Inorder(storage.root), ConfigKey);
        stored.Some? && Truthy(stored.value) ==> config == stored.value
      ensures var stored := Find(S.Inorder(storage.root), ConfigKey);
        !(stored.Some? && Truthy(stored.value)) ==> config == PyDict(map[])
    {
      var stored := storage.Search(ConfigKey);
      if stored.Some? && Truthy(stored.value) then stored.value else PyDict(map[])
    }

    /** `update_config`: set one key and keep all others. Item assignment on a stored
        configuration that is not a dictionary raises, and nothing is stored. */
    method UpdateConfig(key: string, value: Value) returns (raised: bool)
      requires Valid()
      modifies storage
      ensures Valid()
      ensures raised <==> !old(LoadConfig()).PyDict?
      ensures !raised ==> LoadConfig() == PyDict(old(LoadConfig()).fields[key := value])
      ensures raised ==> storage.root == old(storage.root)
      ensures forall k :: k != ConfigKey ==> storage.Search(k) == old(storage.Search(k))
    {
      var config := LoadConfig();
      if !config.PyDict? {
        return true;
      }
      SaveConfig(config.fields[key := value]);
      raised := false;
    }
  }
}
